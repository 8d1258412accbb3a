/**
  The App component's state and its handlers. The four hooks (`loading`,
  `notes`, `dialogOpen`, `dialogNote`) are the fields of a class; each
  handler is a method that overwrites them in program order. A handler that
  talks to the backend returns the request it issues and is given the
  outcome of that request as an argument.
 */
module App {
  import opened Remote
  import opened NoteList

  /** The guard at the top of deleteNote: an entry is given and its title
      and content are both non-empty (truthy). */
  predicate Deletable(entry: Option<Note>) {
    entry.Some? && entry.value.title != "" && entry.value.content != ""
  }

  class App {
    /** True until the initial load has finished, whatever its outcome. */
    var loading: bool
    /** The notes; None is `undefined` (not loaded, or the load failed). */
    var notes: Option<seq<Note>>
    var dialogOpen: bool
    /** The note being edited; None is `null` (creating a new note). */
    var dialogNote: Option<Note>

    /** The initial values of the four `useState` hooks. */
    constructor ()
      ensures loading && notes == None
      ensures !dialogOpen && dialogNote == None
    {
      loading := true;
      notes := None;
      dialogOpen := false;
      dialogNote := None;
    }

    // -- State modification functions --

    /** getNoteState: the notes become exactly what the server sent. */
    method GetNoteState(data: Option<seq<Note>>)
      modifies this
      ensures notes == data
      ensures loading == old(loading)
      ensures dialogOpen == old(dialogOpen) && dialogNote == old(dialogNote)
    {
      notes := data;
    }

    /** postNoteState: append the confirmed note. The spread runs in the
        updater handed to `setNotes`, so on `undefined` notes the TypeError
        comes up when React applies the update, not inside this call; the
        model reports it as `ok` false and leaves the notes unchanged. */
    method PostNoteState(id: string, title: string, content: string) returns (ok: bool)
      modifies this
      ensures ok <==> old(notes).Some?
      ensures notes == if ok then Some(Append(old(notes).value, id, title, content)) else old(notes)
      ensures loading == old(loading)
      ensures dialogOpen == old(dialogOpen) && dialogNote == old(dialogNote)
    {
      match notes
      case None =>
        ok := false;
      case Some(prevNotes) =>
        notes := Some(Append(prevNotes, id, title, content));
        ok := true;
    }

    /** deleteNoteState: drop every note with this id. Filtering
        `undefined` throws a TypeError; then `ok` is false and nothing
        changes. */
    method DeleteNoteState(id: string, title: string, content: string) returns (ok: bool)
      modifies this
      ensures ok <==> old(notes).Some?
      ensures notes == if ok then Some(RemoveById(old(notes).value, id, title, content)) else old(notes)
      ensures loading == old(loading)
      ensures dialogOpen == old(dialogOpen) && dialogNote == old(dialogNote)
    {
      match notes
      case None =>
        ok := false;
      case Some(current) =>
        notes := Some(RemoveById(current, id, title, content));
        ok := true;
    }

    /** deleteAllNotesState: the notes become the empty list. Filtering
        `undefined` throws a TypeError; then `ok` is false and nothing
        changes. */
    method DeleteAllNotesState() returns (ok: bool)
      modifies this
      ensures ok <==> old(notes).Some?
      ensures ok ==> notes == Some([])
      ensures !ok ==> notes == old(notes)
      ensures loading == old(loading)
      ensures dialogOpen == old(dialogOpen) && dialogNote == old(dialogNote)
    {
      match notes
      case None =>
        ok := false;
      case Some(current) =>
        notes := Some(Clear(current));
        ok := true;
    }

    /** patchNoteState: deleteNoteState, then postNoteState. When the first
        throws the second never runs. */
    method PatchNoteState(id: string, title: string, content: string) returns (ok: bool)
      modifies this
      ensures ok <==> old(notes).Some?
      ensures notes == if ok then Some(Patch(old(notes).value, id, title, content)) else old(notes)
      ensures loading == old(loading)
      ensures dialogOpen == old(dialogOpen) && dialogNote == old(dialogNote)
    {
      ok := DeleteNoteState(id, title, content);
      if ok {
        ok := PostNoteState(id, title, content);
      }
    }

    // -- Database interaction functions --

    /** The getNotes effect: GET /getAllNotes. Only an ok response whose
        body decodes sets the notes, to the body's `response` field; a
        failed status, an undecodable body or a thrown fetch leaves them
        as they were. In every case loading ends false (the `finally`). */
    method GetNotes(outcome: Outcome<Option<seq<Note>>>) returns (request: Request)
      modifies this
      ensures request == GetAllNotes && Method(request) == Get
      ensures !loading
      ensures notes == if Delivered(outcome) then outcome.body.value else old(notes)
      ensures dialogOpen == old(dialogOpen) && dialogNote == old(dialogNote)
    {
      request := GetAllNotes;
      match outcome {
        case Thrown =>
          // catch: logged
        case Responded(status, body) =>
          if !IsOk(status) {
            // logged
          } else {
            match body
            case None =>
              // response.json() rejects: caught and logged
            case Some(data) =>
              GetNoteState(data);
          }
      }
      // finally
      loading := false;
    }

    /** deleteNote: an entry that is missing or lacks a title or content
        is ignored, with no request issued. Otherwise DELETE
        /deleteNote/{id}; the note is removed locally only when the
        response is ok and its body decodes. */
    method DeleteNote(entry: Option<Note>, outcome: Outcome<()>) returns (request: Option<Request>)
      modifies this
      ensures request == if Deletable(entry) then Some(Request.DeleteNote(entry.value.id)) else None
      ensures request.Some? ==> Method(request.value) == Delete
      ensures notes == if Deletable(entry) && Delivered(outcome) && old(notes).Some?
                       then Some(RemoveById(old(notes).value, entry.value.id, entry.value.title, entry.value.content))
                       else old(notes)
      ensures loading == old(loading)
      ensures dialogOpen == old(dialogOpen) && dialogNote == old(dialogNote)
    {
      if entry.None? || entry.value.title == "" || entry.value.content == "" {
        return None;
      }
      var e := entry.value;
      request := Some(Request.DeleteNote(e.id));
      match outcome
      case Thrown =>
        // catch: alert and log
      case Responded(status, body) =>
        if !IsOk(status) {
          // alert and log
        } else if body.Some? {
          var ok := DeleteNoteState(e.id, e.title, e.content);
          // a TypeError from the state update (ok false) is caught: alert and log
        }
        // an undecodable body is caught: alert and log
    }

    /** deleteAllNotes: DELETE /deleteAllNotes/; the notes are cleared only
        when the response is ok and its body decodes. */
    method DeleteAllNotes(outcome: Outcome<()>) returns (request: Request)
      modifies this
      ensures request == Request.DeleteAllNotes && Method(request) == Delete
      ensures notes == if Delivered(outcome) && old(notes).Some? then Some([]) else old(notes)
      ensures loading == old(loading)
      ensures dialogOpen == old(dialogOpen) && dialogNote == old(dialogNote)
    {
      request := Request.DeleteAllNotes;
      match outcome
      case Thrown =>
        // catch: alert and log
      case Responded(status, body) =>
        if !IsOk(status) {
          // alert and log
        } else if body.Some? {
          var ok := DeleteAllNotesState();
          // a TypeError from the state update (ok false) is caught: alert and log
        }
        // an undecodable body is caught: alert and log
    }

    // -- Dialog functions --

    /** editNote: open the dialog on an existing note. */
    method EditNote(entry: Note)
      modifies this
      ensures dialogOpen && dialogNote == Some(entry)
      ensures notes == old(notes) && loading == old(loading)
    {
      dialogNote := Some(entry);
      dialogOpen := true;
    }

    /** postNote: open the dialog on a new note. */
    method PostNote()
      modifies this
      ensures dialogOpen && dialogNote == None
      ensures notes == old(notes) && loading == old(loading)
    {
      dialogNote := None;
      dialogOpen := true;
    }

    /** closeDialog: close the dialog and forget its note. */
    method CloseDialog()
      modifies this
      ensures !dialogOpen && dialogNote == None
      ensures notes == old(notes) && loading == old(loading)
    {
      dialogNote := None;
      dialogOpen := false;
    }
  }

  /** Mounting the component: the initial state, then the load effect,
      which runs once. After a failed load the notes stay `undefined`. */
  method Mount(outcome: Outcome<Option<seq<Note>>>) returns (app: App, request: Request)
    ensures fresh(app)
    ensures request == GetAllNotes
    ensures !app.loading
    ensures app.notes == if Delivered(outcome) then outcome.body.value else None
    ensures !app.dialogOpen && app.dialogNote == None
  {
    app := new App();
    request := app.GetNotes(outcome);
  }
}

# QuirkNotes client state, in Dafny

A model of the note-collection state machine inside the `App` component of
the QuirkNotes frontend. The model has three parts:

- `Remote.dfy` (module `Remote`) covers the backend as the client sees it. It holds the three requests
  the component issues (GET `/getAllNotes`, DELETE `/deleteNote/{id}`,
  DELETE `/deleteAllNotes/`) and the URL strings handed to `fetch`, under
  the hard-coded `http://localhost:4000`. It also holds the outcome of a `fetch` call: either a
  response with a status and a body that may or may not decode as JSON, or an
  exception thrown by `fetch`. `response.ok` is a status from 200 to 299.
- `NoteList.dfy` (module `NoteList`) holds the pure list transitions the component computes:
  `Append` (postNoteState), `RemoveById` (deleteNoteState), `Clear`
  (deleteAllNotesState) and `Patch` (patchNoteState, remove then append).
  Removal and clearing are built on `Filter`, a model of `Array.prototype.filter`,
  as the source builds them. Lemmas state what each transition promises:
  ordering, keying on the id alone, idempotence, the move-to-end effect of a
  patch, and preservation of unique ids.
- `App.dfy` (module `App`) models the component itself. Class `App` has the four hook
  fields `loading`, `notes` (`None` is `undefined`), `dialogOpen` and
  `dialogNote` (`None` is `null`). Each handler is a method that updates them
  in program order. A handler that calls the backend returns the request it
  issues, and it receives the call's outcome as an argument. `Mount` is the
  initial state followed by the one-time load effect.

Error paths follow the code:

- A failed status, a body that does not decode, or a thrown `fetch` all
  leave `notes` as it was. `loading` still ends `false` after the load.
- `deleteNote` ignores a missing entry, and also an entry whose title or
  content is empty. It then issues no request and changes nothing.
- The state setters filter or spread `notes`. When `notes` is `undefined`
  this raises a TypeError. The model returns `ok == false` in that case and
  changes nothing. Inside `deleteNote` and `deleteAllNotes` that error lands
  in their `catch`. For `postNoteState` the spread runs in the updater given
  to `setNotes`, so the error comes up when React applies the update.

## Model

| member | source | states |
|---|---|---|
| `Remote.Url` | quirknotes/frontend/src/App.js:19-70 | the URL string handed to `fetch` for each request (lines 19, 46, 70) starts with the hard-coded backend base `http://localhost:4000` |
| `Remote.Method` | quirknotes/frontend/src/App.js:19-71 | the load uses `fetch`'s default GET, and both deletes pass `method: "DELETE"` (lines 47, 71); no contract of its own, it appears in the ensures of `App.App.GetNotes`, `App.App.DeleteNote` and `App.App.DeleteAllNotes` |
| `Remote.UrlInjective` | quirknotes/frontend/src/App.js:19-70 | the URL strings for load, single delete and delete all (lines 19, 46, 70) are pairwise distinct, and the id interpolated into a single delete's string can be read back from it |
| `Remote.IsOk` | quirknotes/frontend/src/App.js:21 | `response.ok` (lines 21, 53, 76): a status from 200 to 299; no contract of its own, it decides the branches of `App.App.GetNotes`, `App.App.DeleteNote` and `App.App.DeleteAllNotes` |
| `Remote.Delivered` | quirknotes/frontend/src/App.js:52-61 | a handler reaches its success branch only on an ok response whose `response.json()` resolves (lines 24, 57, 80); a failed status, a rejected `json()` or a thrown `fetch` does not; no contract of its own, it is the condition in the handlers' ensures |
| `NoteList.Filter` | quirknotes/frontend/src/App.js:118 | `filter` keeps exactly the elements its predicate accepts and never grows the list |
| `NoteList.FilterConcat` | quirknotes/frontend/src/App.js:118 | `filter` distributes over concatenation, so it keeps the relative order of what it keeps |
| `NoteList.FilterKeepsAll` | quirknotes/frontend/src/App.js:118 | a `filter` whose predicate accepts every element returns the list unchanged |
| `NoteList.FilterKeepsNone` | quirknotes/frontend/src/App.js:123 | a `filter` whose predicate rejects every element returns the empty list |
| `NoteList.Append` | quirknotes/frontend/src/App.js:112-114 | posting grows the list by one: all earlier notes stay in place and in order, and the new `{_id, title, content}` is last |
| `NoteList.AppendThenRemove` | quirknotes/frontend/src/App.js:112-119 | posting a note with a new id and then deleting that id restores the list exactly |
| `NoteList.AppendKeepsUniqueIds` | quirknotes/frontend/src/App.js:112-114 | in a list with unique ids, posting keeps them unique if and only if the new id is not already present |
| `NoteList.RemoveById` | quirknotes/frontend/src/App.js:116-119 | a note survives deletion if and only if it was present and its id differs from the given id; the list never grows |
| `NoteList.RemoveIgnoresTitleAndContent` | quirknotes/frontend/src/App.js:116-119 | deletion matches on id only: the title and content passed to it do not change the result |
| `NoteList.RemoveKeepsOrder` | quirknotes/frontend/src/App.js:118 | deleting from `a + b` equals deleting from `a` followed by deleting from `b`, so the other notes keep their relative order |
| `NoteList.RemoveAbsentId` | quirknotes/frontend/src/App.js:118 | deleting an id that no note carries leaves the list unchanged |
| `NoteList.RemoveIdempotent` | quirknotes/frontend/src/App.js:118 | deleting the same id twice gives the same result as deleting it once |
| `NoteList.UniqueIdsAround` | quirknotes/frontend/src/App.js:118 | when ids are unique, no note before or after a given note carries its id |
| `NoteList.RemoveExactlyOne` | quirknotes/frontend/src/App.js:116-119 | when ids are unique, deleting the id of `n` in `before + [n] + after` gives exactly `before + after` |
| `NoteList.RemoveKeepsUniqueIds` | quirknotes/frontend/src/App.js:118 | deletion keeps ids unique |
| `NoteList.Clear` | quirknotes/frontend/src/App.js:121-124 | delete-all yields the empty list, whatever the prior contents |
| `NoteList.ClearIdempotent` | quirknotes/frontend/src/App.js:121-124 | clearing twice is the same as clearing once |
| `NoteList.Patch` | quirknotes/frontend/src/App.js:126-131 | after a patch the patched note is last, no other note carries its id, and the notes before it are exactly the old notes with other ids |
| `NoteList.PatchMovesToEnd` | quirknotes/frontend/src/App.js:126-131 | when ids are unique, patching the `n` in `before + [n] + after` gives `before + after + [new note]`, so a note that was not last moves to the end |
| `NoteList.PatchKeepsUniqueIds` | quirknotes/frontend/src/App.js:126-131 | patching keeps ids unique, whether or not the id was present |
| `NoteList.PatchIdempotent` | quirknotes/frontend/src/App.js:126-131 | patching twice with the same values is the same as patching once |
| `App.App.constructor` | quirknotes/frontend/src/App.js:8-13 | the initial state: loading, notes undefined, dialog closed with no note |
| `App.Deletable` | quirknotes/frontend/src/App.js:40-43 | the guard of `deleteNote`: an entry is given and its title and content are non-empty; no contract of its own, `App.App.DeleteNote`'s ensures state that no request is issued and nothing changes when it fails |
| `App.App.GetNoteState` | quirknotes/frontend/src/App.js:108-110 | the notes become exactly the data given; nothing else changes |
| `App.App.PostNoteState` | quirknotes/frontend/src/App.js:112-114 | defined notes get the new note appended; undefined notes raise an error (`ok` false) and stay undefined |
| `App.App.DeleteNoteState` | quirknotes/frontend/src/App.js:116-119 | defined notes lose every note with the id; undefined notes raise an error and stay undefined |
| `App.App.DeleteAllNotesState` | quirknotes/frontend/src/App.js:121-124 | defined notes become the empty list; undefined notes raise an error and stay undefined |
| `App.App.PatchNoteState` | quirknotes/frontend/src/App.js:126-131 | the delete step followed by the post step, so the notes become `Patch` of the old notes; undefined notes raise an error and nothing changes |
| `App.App.GetNotes` | quirknotes/frontend/src/App.js:16-38 | issues GET `/getAllNotes`; an ok response with a decodable body sets the notes to its `response` field, and any other outcome leaves them as they were; `loading` is false afterwards in every case; the dialog is untouched |
| `App.App.DeleteNote` | quirknotes/frontend/src/App.js:40-66 | a missing entry, or one with an empty title or content, issues no request and changes nothing; otherwise issues DELETE `/deleteNote/{id}` and removes that id locally only on an ok, decodable response; a failed status or a thrown fetch leaves the notes exactly as before |
| `App.App.DeleteAllNotes` | quirknotes/frontend/src/App.js:68-89 | issues DELETE `/deleteAllNotes/`; the notes become empty only on an ok, decodable response; a failed status or a thrown fetch leaves them exactly as before |
| `App.App.EditNote` | quirknotes/frontend/src/App.js:92-95 | the dialog opens on the given note; the notes and loading are untouched |
| `App.App.PostNote` | quirknotes/frontend/src/App.js:97-100 | the dialog opens with no note; the notes and loading are untouched |
| `App.App.CloseDialog` | quirknotes/frontend/src/App.js:102-105 | the dialog closes and forgets its note; the notes and loading are untouched |
| `App.Mount` | quirknotes/frontend/src/App.js:16-38 | after mounting and the one-time load, loading is false; the notes are the server's list on success and stay undefined otherwise; the dialog is closed |

## Left out

- HTTP itself is not modelled: sending requests, headers, JSON parsing, and the server's behaviour. A handler receives the outcome of its call as an argument. The decoded body of the load is given as its `response` field: a list of notes, or absent.
- A decoded load body whose `response` field is present but is not a list of notes is not modelled. The same goes for a note whose fields are not strings. A falsy title or content is modelled as the empty string, and a null or undefined entry as `None`.
- `alert` and `console.log` are user and diagnostic output that do not affect state. The error branches keep them only as comments.
- `fetch`'s parsing of its URL string is not modelled (removal of `.` and `..` segments, `#` fragments, `?` queries, percent-encoding). `Remote.UrlInjective` is about the strings the component builds. Two ids can still reach the same server path, for example `a#1` and `a#2`, or an id such as `../deleteAllNotes/`.
- JSX rendering, `AppStyle`, and the condition that shows the "Delete All Notes" button (lines 133-199) are UI.
- React's hook scheduling is not modelled. That includes update batching, the asynchronous interleaving of handlers, and the stale `notes` closure in `deleteNoteState` beside the functional updater in `postNoteState`. Every update is applied in program order.
- A TypeError that escapes a state setter has further effects that are not modelled. These are the setters the dialog calls on undefined notes: `postNoteState` and `patchNoteState`. The model reports the error with `ok == false` and leaves the state unchanged.
- `Dialog.js` and `Note.js` are not part of this model. That includes the remote create and update calls the dialog makes before it calls `postNoteState` or `patchNoteState`. Their arguments are taken as already confirmed by the server.

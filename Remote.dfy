/**
  The remote note store as the client sees it: the requests the client
  issues, the addresses they go to, and what a `fetch` call can come back
  with. No request is actually sent; a handler is given the outcome of its
  call as an argument.
 */
module Remote {

  datatype Option<+T> = None | Some(value: T)

  /** The three calls the client makes itself (creation and update are
      made by the dialog collaborator and are not modelled here). */
  datatype Request =
    | GetAllNotes
    | DeleteNote(id: string)
    | DeleteAllNotes

  datatype Verb = Get | Delete

  /** The hard-coded backend address. */
  const BaseUrl: string := "http://localhost:4000"

  function Method(r: Request): Verb {
    if r.GetAllNotes? then Get else Delete
  }

  /** The URL string handed to `fetch`; the note id is interpolated into
      it for a single delete. How `fetch` then parses the string (dot
      segments, `#` fragments, `?` queries) is not modelled. */
  function Url(r: Request): (u: string)
    ensures |BaseUrl| < |u| && u[..|BaseUrl|] == BaseUrl
  {
    match r
    case GetAllNotes => BaseUrl + "/getAllNotes"
    case DeleteNote(id) => BaseUrl + "/deleteNote/" + id
    case DeleteAllNotes => BaseUrl + "/deleteAllNotes/"
  }

  /** Different requests never produce the same URL string: in particular
      the id of a single delete can be read back from the string. */
  lemma UrlInjective(r1: Request, r2: Request)
    requires Url(r1) == Url(r2)
    ensures r1 == r2
  {
    var u := Url(r1);
    // The first letter after "http://localhost:4000/" tells a load from a delete.
    assert Url(GetAllNotes)[22] == 'g';
    assert Url(DeleteAllNotes)[22] == 'd';
    forall id: string ensures Url(DeleteNote(id))[22] == 'd' && Url(DeleteNote(id))[28] == 'N' {
      assert Url(DeleteNote(id)) == BaseUrl + "/deleteNote/" + id;
    }
    // "/deleteA..." against "/deleteN...".
    assert Url(DeleteAllNotes)[28] == 'A';
    if r1.DeleteNote? && r2.DeleteNote? {
      assert Url(r1)[33..] == r1.id;
      assert Url(r2)[33..] == r2.id;
    }
  }

  /** What a `fetch` call yields: either a response with its status and its
      body as decoded by `response.json()` (None when the body does not
      decode, which makes that promise reject), or an exception thrown by
      `fetch` itself. */
  datatype Outcome<P> =
    | Responded(status: int, body: Option<P>)
    | Thrown

  /** `response.ok`: a status in the 2xx range. */
  predicate IsOk(status: int) {
    200 <= status <= 299
  }

  /** The outcome reaches the success branch of a handler: the response is
      ok and its body decodes. Every other outcome ends in a log line (and,
      for the deletes, an alert) in the handler's error path. */
  predicate Delivered<P>(o: Outcome<P>) {
    o.Responded? && IsOk(o.status) && o.body.Some?
  }
}

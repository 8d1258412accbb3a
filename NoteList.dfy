/**
  The note list and the pure transitions the App component computes on it:
  append (postNoteState), remove by id (deleteNoteState), clear
  (deleteAllNotesState) and patch (patchNoteState), the last being a remove
  followed by an append.
 */
module NoteList {

  /** A note as the server stores it: `{_id, title, content}`. */
  datatype Note = Note(id: string, title: string, content: string)

  /** `Array.prototype.filter`: the elements `keep` accepts, in their order. */
  function Filter<T(!new)>(s: seq<T>, keep: T -> bool): (r: seq<T>)
    ensures |r| <= |s|
    ensures forall x :: x in r <==> x in s && keep(x)
  {
    if s == [] then []
    else if keep(s[0]) then [s[0]] + Filter(s[1..], keep)
    else Filter(s[1..], keep)
  }

  /** Filtering a concatenation filters each part and keeps the parts in
      order: filter never reorders what it keeps. */
  lemma {:induction false} FilterConcat<T(!new)>(a: seq<T>, b: seq<T>, keep: T -> bool)
    ensures Filter(a + b, keep) == Filter(a, keep) + Filter(b, keep)
  {
    if a == [] {
      assert a + b == b;
    } else {
      assert (a + b)[1..] == a[1..] + b;
      FilterConcat(a[1..], b, keep);
    }
  }

  /** A filter that accepts every element returns its input unchanged. */
  lemma {:induction false} FilterKeepsAll<T(!new)>(s: seq<T>, keep: T -> bool)
    requires forall x :: x in s ==> keep(x)
    ensures Filter(s, keep) == s
  {
    if s != [] {
      FilterKeepsAll(s[1..], keep);
    }
  }

  /** A filter that rejects every element returns the empty sequence. */
  lemma {:induction false} FilterKeepsNone<T(!new)>(s: seq<T>, keep: T -> bool)
    requires forall x :: x in s ==> !keep(x)
    ensures Filter(s, keep) == []
  {
    if s != [] {
      FilterKeepsNone(s[1..], keep);
    }
  }

  /** No two notes share an id (the server assigns unique ids). */
  predicate UniqueIds(notes: seq<Note>) {
    forall i, j :: 0 <= i < j < |notes| ==> notes[i].id != notes[j].id
  }

  predicate HasId(notes: seq<Note>, id: string) {
    exists n :: n in notes && n.id == id
  }

  /** postNoteState: `[...prevNotes, { _id, title, content }]`. */
  function Append(notes: seq<Note>, id: string, title: string, content: string): (r: seq<Note>)
    ensures |r| == |notes| + 1
    ensures r[..|notes|] == notes
    ensures r[|notes|] == Note(id, title, content)
  {
    notes + [Note(id, title, content)]
  }

  /** deleteNoteState: `notes.filter((note) => !(note._id === _id))`. The
      title and content are passed but play no part. */
  function RemoveById(notes: seq<Note>, id: string, title: string, content: string): (r: seq<Note>)
    ensures forall n :: n in r <==> n in notes && n.id != id
    ensures |r| <= |notes|
  {
    Filter(notes, (n: Note) => n.id != id)
  }

  /** deleteAllNotesState: `notes.filter((note) => false)`. */
  function Clear(notes: seq<Note>): (r: seq<Note>)
    ensures r == []
  {
    var keep := (n: Note) => false;
    FilterKeepsNone(notes, keep);
    Filter(notes, keep)
  }

  /** patchNoteState: delete the note, then create it anew. The patched
      note comes last, no other note carries its id, and the notes before
      it are exactly the old notes with other ids. */
  function Patch(notes: seq<Note>, id: string, title: string, content: string): (r: seq<Note>)
    ensures |r| > 0 && r[|r| - 1] == Note(id, title, content)
    ensures forall k :: 0 <= k < |r| - 1 ==> r[k].id != id
    ensures forall n :: n in r[..|r| - 1] <==> n in notes && n.id != id
  {
    Append(RemoveById(notes, id, title, content), id, title, content)
  }

  // ---------------------------------------------------------------------
  // Append

  /** Posting a note whose id is new and then deleting that id gives back
      the list as it was. */
  lemma AppendThenRemove(notes: seq<Note>, id: string, title: string, content: string, t: string, c: string)
    requires !HasId(notes, id)
    ensures RemoveById(Append(notes, id, title, content), id, t, c) == notes
  {
    var keep := (n: Note) => n.id != id;
    FilterConcat(notes, [Note(id, title, content)], keep);
    FilterKeepsAll(notes, keep);
    assert Filter([Note(id, title, content)], keep) == [];
  }

  /** Posting keeps ids unique exactly when the new id is not already taken. */
  lemma AppendKeepsUniqueIds(notes: seq<Note>, id: string, title: string, content: string)
    requires UniqueIds(notes)
    ensures UniqueIds(Append(notes, id, title, content)) <==> !HasId(notes, id)
  {
  }

  // ---------------------------------------------------------------------
  // Remove by id

  /** Removal is keyed on the id alone: the title and content passed along
      do not change the result. */
  lemma RemoveIgnoresTitleAndContent(notes: seq<Note>, id: string, t1: string, c1: string, t2: string, c2: string)
    ensures RemoveById(notes, id, t1, c1) == RemoveById(notes, id, t2, c2)
  {
  }

  /** Removal keeps the surviving notes in their original relative order:
      it acts on each part of a list separately and concatenates the results. */
  lemma RemoveKeepsOrder(a: seq<Note>, b: seq<Note>, id: string, title: string, content: string)
    ensures RemoveById(a + b, id, title, content)
         == RemoveById(a, id, title, content) + RemoveById(b, id, title, content)
  {
    FilterConcat(a, b, (n: Note) => n.id != id);
  }

  /** Removing an id that no note carries changes nothing. */
  lemma RemoveAbsentId(notes: seq<Note>, id: string, title: string, content: string)
    requires !HasId(notes, id)
    ensures RemoveById(notes, id, title, content) == notes
  {
    FilterKeepsAll(notes, (n: Note) => n.id != id);
  }

  /** Removing the same id twice is the same as removing it once. */
  lemma RemoveIdempotent(notes: seq<Note>, id: string, title: string, content: string)
    ensures RemoveById(RemoveById(notes, id, title, content), id, title, content)
         == RemoveById(notes, id, title, content)
  {
    var once := RemoveById(notes, id, title, content);
    RemoveAbsentId(once, id, title, content);
  }

  /** In a list with unique ids, the notes around one note do not carry its id. */
  lemma UniqueIdsAround(before: seq<Note>, n: Note, after: seq<Note>)
    requires UniqueIds(before + [n] + after)
    ensures !HasId(before, n.id) && !HasId(after, n.id)
  {
    var all := before + [n] + after;
    assert all[|before|] == n;
    forall i | 0 <= i < |before| ensures before[i].id != n.id {
      assert all[i] == before[i];
    }
    forall i | 0 <= i < |after| ensures after[i].id != n.id {
      assert all[|before| + 1 + i] == after[i];
    }
  }

  /** With unique ids, removing the id of one note removes exactly that
      note and leaves the notes before and after it as they were. */
  lemma RemoveExactlyOne(before: seq<Note>, n: Note, after: seq<Note>, title: string, content: string)
    requires UniqueIds(before + [n] + after)
    ensures RemoveById(before + [n] + after, n.id, title, content) == before + after
  {
    UniqueIdsAround(before, n, after);
    RemoveKeepsOrder(before + [n], after, n.id, title, content);
    RemoveKeepsOrder(before, [n], n.id, title, content);
    RemoveAbsentId(before, n.id, title, content);
    RemoveAbsentId(after, n.id, title, content);
    assert RemoveById([n], n.id, title, content) == [];
  }

  /** Removal keeps ids unique. */
  lemma RemoveKeepsUniqueIds(notes: seq<Note>, id: string, title: string, content: string)
    requires UniqueIds(notes)
    ensures UniqueIds(RemoveById(notes, id, title, content))
    decreases |notes|
  {
    if notes != [] {
      var rest := RemoveById(notes[1..], id, title, content);
      RemoveKeepsUniqueIds(notes[1..], id, title, content);
      RemoveKeepsOrder([notes[0]], notes[1..], id, title, content);
      assert [notes[0]] + notes[1..] == notes;
      forall m | m in rest ensures m.id != notes[0].id {
        var j :| 0 <= j < |notes[1..]| && notes[1..][j] == m;
        assert notes[j + 1] == m;
      }
    }
  }

  // ---------------------------------------------------------------------
  // Clear

  /** Clearing twice is the same as clearing once. */
  lemma ClearIdempotent(notes: seq<Note>)
    ensures Clear(Clear(notes)) == Clear(notes)
  {
  }

  // ---------------------------------------------------------------------
  // Patch

  /** A note that is not last in a list with unique ids is moved to the
      end: patching `before + [n] + after` gives `before + after` followed
      by the new note. */
  lemma PatchMovesToEnd(before: seq<Note>, n: Note, after: seq<Note>, title: string, content: string)
    requires UniqueIds(before + [n] + after)
    ensures Patch(before + [n] + after, n.id, title, content)
         == before + after + [Note(n.id, title, content)]
  {
    RemoveExactlyOne(before, n, after, title, content);
  }

  /** Patching keeps ids unique, whether or not the id was present. */
  lemma PatchKeepsUniqueIds(notes: seq<Note>, id: string, title: string, content: string)
    requires UniqueIds(notes)
    ensures UniqueIds(Patch(notes, id, title, content))
  {
    var rest := RemoveById(notes, id, title, content);
    RemoveKeepsUniqueIds(notes, id, title, content);
    AppendKeepsUniqueIds(rest, id, title, content);
  }

  /** Patching with the same values twice is the same as patching once. */
  lemma PatchIdempotent(notes: seq<Note>, id: string, title: string, content: string)
    ensures Patch(Patch(notes, id, title, content), id, title, content)
         == Patch(notes, id, title, content)
  {
    var rest := RemoveById(notes, id, title, content);
    assert !HasId(rest, id);
    AppendThenRemove(rest, id, title, content, title, content);
  }
}

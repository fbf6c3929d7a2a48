/** The sticky-note store (src/store/useNotesStore.ts). What local storage
    holds is a parameter (already parsed); writing it back is not
    modelled. */
module NotesStore {
  import opened Types
  import opened Seqs

  /** `loadFromStorage`: the stored notes, or none. */
  function LoadedNotes(stored: Option<seq<Note>>): seq<Note>
  {
    if stored.Some? then stored.value else []
  }

  /** The `notes.map` of `updateNote`. */
  function UpdatedNotes(notes: seq<Note>, id: string, content: string, now: string): seq<Note>
  {
    seq(|notes|, i requires 0 <= i < |notes| =>
      if notes[i].id == id then notes[i].(content := content, updatedAt := now) else notes[i])
  }

  function NoteWithout(id: string): Note -> bool
  {
    (n: Note) => n.id != id
  }

  function NoteWithId(id: string): Note -> bool
  {
    (n: Note) => n.id == id
  }

  /** The `notes.filter` of `deleteNote`. */
  function RemovedNotes(notes: seq<Note>, id: string): seq<Note>
  {
    Filter(NoteWithout(id), notes)
  }

  class NoteStore {
    var notes: seq<Note>

    constructor(stored: Option<seq<Note>>)
      ensures notes == LoadedNotes(stored)
    {
      notes := if stored.Some? then stored.value else [];
    }

    method LoadNotes(stored: Option<seq<Note>>)
      modifies this
      ensures notes == LoadedNotes(stored)
    {
      notes := if stored.Some? then stored.value else [];
    }

    /** `addNote`: the two time stamps are two separate clock readings. */
    method AddNote(content: string, color: string, id: string, createdAt: string, updatedAt: string)
      modifies this
      ensures notes == old(notes) + [Note(id, content, color, createdAt, updatedAt)]
    {
      var newNote := Note(id, content, color, createdAt, updatedAt);
      notes := notes + [newNote];
    }

    method UpdateNote(id: string, content: string, now: string)
      modifies this
      ensures notes == UpdatedNotes(old(notes), id, content, now)
    {
      var current := notes;
      notes := seq(|current|, i requires 0 <= i < |current| =>
        if current[i].id == id then current[i].(content := content, updatedAt := now) else current[i]);
    }

    method DeleteNote(id: string)
      modifies this
      ensures notes == RemovedNotes(old(notes), id)
    {
      notes := Filter(NoteWithout(id), notes);
    }
  }

  // ---------------------------------------------------------------------
  // Properties

  /** `updateNote` changes only the content and the stamp, only of the notes
      with the id; the count stays and an unknown id changes nothing. */
  lemma UpdatedNotesSpec(notes: seq<Note>, id: string, content: string, now: string)
    ensures |UpdatedNotes(notes, id, content, now)| == |notes|
    ensures forall i :: 0 <= i < |notes| ==>
      var r := UpdatedNotes(notes, id, content, now)[i];
      if notes[i].id == id then
        r.content == content && r.updatedAt == now
        && r.id == notes[i].id && r.color == notes[i].color && r.createdAt == notes[i].createdAt
      else r == notes[i]
    ensures (forall n :: n in notes ==> n.id != id) ==> UpdatedNotes(notes, id, content, now) == notes
  {
    if forall n :: n in notes ==> n.id != id {
      forall i | 0 <= i < |notes| ensures UpdatedNotes(notes, id, content, now)[i] == notes[i] {
        assert notes[i] in notes;
      }
    }
  }

  /** `deleteNote` removes exactly the notes with the id, keeps the others in
      order, shrinks the list by the number of matches, and with an unknown
      id changes nothing. */
  lemma RemovedNotesSpec(notes: seq<Note>, id: string)
    ensures SubsequenceOf(RemovedNotes(notes, id), notes)
    ensures forall n :: n in RemovedNotes(notes, id) <==> n in notes && n.id != id
    ensures |RemovedNotes(notes, id)| == |notes| - CountWhere(NoteWithId(id), notes)
    ensures (forall n :: n in notes ==> n.id != id) ==> RemovedNotes(notes, id) == notes
  {
    FilterIsSubsequence(NoteWithout(id), notes);
    FilterComplement(NoteWithId(id), NoteWithout(id), notes);
    if forall n :: n in notes ==> n.id != id {
      FilterAll(NoteWithout(id), notes);
    }
  }
}

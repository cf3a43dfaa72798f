/** The client's note store (App.tsx): the ordered note list, the active
    note and folder, the search box, and the handlers that replace them.
    Ids and timestamps that the client takes from `Date.now()` are
    parameters. */
module Workspace {
  import opened Common
  import opened ClientTypes

  /** The note `handleCreateNote` builds: empty title and body, the active
      folder, and a share object of the `{ isShared, permission }` shape. */
  function NewNote(id: string, folderId: string, now: int): (r: Note)
    ensures r.id == id && r.folderId == folderId && r.familyId.None?
    ensures r.title == "" && r.content == ""
    ensures r.attachments == Some([]) && r.comments == Some([])
    ensures r.shareConfig == Some(LegacyShare(false, Read)) && !r.shareConfig.value.WellFormed()
    ensures r.createdAt == now && r.updatedAt == now
  {
    Note(id, "", "", folderId, None, Some([]), Some([]), Some(LegacyShare(false, Read)), now, now)
  }

  /** `notes.map(n => n.id === updated.id ? updated : n)`. */
  function ReplaceById(notes: seq<Note>, updated: Note): (r: seq<Note>)
    ensures |r| == |notes|
    ensures forall i :: 0 <= i < |notes| ==> r[i] == (if notes[i].id == updated.id then updated else notes[i])
    decreases |notes|
  {
    if notes == [] then []
    else [if notes[0].id == updated.id then updated else notes[0]] + ReplaceById(notes[1..], updated)
  }

  predicate HasId(id: string, n: Note) { n.id == id }

  predicate LacksId(id: string, n: Note) { n.id != id }

  /** `notes.filter(n => n.id !== id)`. */
  function RemoveById(notes: seq<Note>, id: string): (r: seq<Note>)
    ensures forall n :: n in r <==> n in notes && n.id != id
    ensures forall n :: multiset(r)[n] == if n.id != id then multiset(notes)[n] else 0
    ensures IsSubsequence(r, notes)
  {
    FilterKeepsOrder(notes, n => LacksId(id, n));
    FilterCounts(notes, n => LacksId(id, n));
    Filter(notes, n => LacksId(id, n))
  }

  predicate InFolder(folderId: string, n: Note) { n.folderId == folderId }

  /** The id of the first note of the folder, or null. */
  function FirstIdInFolder(notes: seq<Note>, folderId: string): (r: Option<string>)
    ensures r.None? <==> forall n :: n in notes ==> n.folderId != folderId
    ensures r.Some? ==> (exists i :: 0 <= i < |notes| && notes[i].id == r.value &&
                          notes[i].folderId == folderId && forall j :: 0 <= j < i ==> notes[j].folderId != folderId)
  {
    match FindIndex(notes, n => InFolder(folderId, n))
    case None => None
    case Some(i) => Some(notes[i].id)
  }

  /** The sidebar filter: folder equality, then a case-insensitive
      substring test on the title or on the body. */
  predicate Matches(folderId: string, query: string, n: Note)
  {
    n.folderId == folderId
    && (Contains(LowerStr(n.title), LowerStr(query)) || Contains(LowerStr(n.content), LowerStr(query)))
  }

  function FilterNotes(notes: seq<Note>, folderId: string, query: string): (r: seq<Note>)
    ensures forall n :: n in r <==> (n in notes && n.folderId == folderId &&
                                     ((exists i :: OccursAt(LowerStr(n.title), LowerStr(query), i)) ||
                                      (exists i :: OccursAt(LowerStr(n.content), LowerStr(query), i))))
    ensures forall n :: multiset(r)[n] == if Matches(folderId, query, n) then multiset(notes)[n] else 0
    ensures IsSubsequence(r, notes)
  {
    FilterKeepsOrder(notes, n => Matches(folderId, query, n));
    FilterCounts(notes, n => Matches(folderId, query, n));
    Filter(notes, n => Matches(folderId, query, n))
  }

  /** With an empty search box the filter is the folder partition alone. */
  lemma EmptyQueryKeepsFolder(notes: seq<Note>, folderId: string)
    ensures FilterNotes(notes, folderId, "") == Filter(notes, n => InFolder(folderId, n))
  {
    forall n | n in notes
      ensures Matches(folderId, "", n) == InFolder(folderId, n)
    {
      assert OccursAt(LowerStr(n.title), LowerStr(""), 0);
    }
    FilterCongruent(notes, n => Matches(folderId, "", n), n => InFolder(folderId, n));
  }

  /** `notes.find(n => n.id === activeNoteId) || null`. */
  function NoteById(notes: seq<Note>, activeId: Option<string>): (r: Option<Note>)
    ensures activeId.None? ==> r.None?
    ensures activeId.Some? && r.None? ==> forall n :: n in notes ==> n.id != activeId.value
    ensures r.Some? ==> activeId.Some? && (exists i :: 0 <= i < |notes| && notes[i] == r.value &&
                                             r.value.id == activeId.value && forall j :: 0 <= j < i ==> notes[j].id != activeId.value)
  {
    match activeId
    case None => None
    case Some(id) => Find(notes, n => HasId(id, n))
  }

  /** Updating a note that is in the list makes it the note found by its id. */
  lemma {:induction false} UpdateThenFind(notes: seq<Note>, updated: Note)
    requires exists n :: n in notes && n.id == updated.id
    ensures NoteById(ReplaceById(notes, updated), Some(updated.id)) == Some(updated)
  {
    var after := ReplaceById(notes, updated);
    var i :| 0 <= i < |notes| && notes[i].id == updated.id;
    assert after[i] == updated;
    var found := NoteById(after, Some(updated.id));
    assert found.Some?;
    var k :| 0 <= k < |after| && after[k] == found.value && forall j :: 0 <= j < k ==> after[j].id != updated.id;
    assert notes[k].id == after[k].id;
  }

  /** An update never changes which id sits at which position. */
  lemma UpdateKeepsIds(notes: seq<Note>, updated: Note)
    ensures forall i :: 0 <= i < |notes| ==> ReplaceById(notes, updated)[i].id == notes[i].id
  {
  }

  /** An update for an id the list does not hold leaves the list as it was. */
  lemma {:induction false} UpdateUnknownId(notes: seq<Note>, updated: Note)
    requires forall n :: n in notes ==> n.id != updated.id
    ensures ReplaceById(notes, updated) == notes
  {
    var r := ReplaceById(notes, updated);
    forall i | 0 <= i < |notes| ensures r[i] == notes[i] {
      assert notes[i] in notes;
    }
  }

  class Workspace {
    var notes: seq<Note>
    var activeNoteId: Option<string>
    var activeFolderId: string
    var searchQuery: string

    constructor(seed: seq<Note>, activeId: Option<string>, folderId: string)
      ensures notes == seed && activeNoteId == activeId && activeFolderId == folderId && searchQuery == ""
    {
      notes := seed;
      activeNoteId := activeId;
      activeFolderId := folderId;
      searchQuery := "";
    }

    /** `filteredNotes`. */
    function FilteredNotes(): (r: seq<Note>)
      reads this
      ensures forall n :: n in r <==> n in notes && Matches(activeFolderId, searchQuery, n)
      ensures forall n :: multiset(r)[n] == if Matches(activeFolderId, searchQuery, n) then multiset(notes)[n] else 0
      ensures IsSubsequence(r, notes)
    {
      FilterNotes(notes, activeFolderId, searchQuery)
    }

    /** `activeNote`. */
    function ActiveNote(): (r: Option<Note>)
      reads this
      ensures r.Some? ==> r.value in notes && activeNoteId == Some(r.value.id)
      ensures activeNoteId.Some? && r.None? ==> forall n :: n in notes ==> n.id != activeNoteId.value
    {
      NoteById(notes, activeNoteId)
    }

    method CreateNote(id: string, now: int)
      modifies this`notes, this`activeNoteId
      ensures notes == [NewNote(id, activeFolderId, now)] + old(notes)
      ensures |notes| == |old(notes)| + 1 && notes[1..] == old(notes)
      ensures activeNoteId == Some(id)
      ensures ActiveNote() == Some(NewNote(id, activeFolderId, now))
    {
      var created := NewNote(id, activeFolderId, now);
      notes := [created] + notes;
      activeNoteId := Some(created.id);
      assert notes[0] == created;
    }

    method UpdateNote(updated: Note)
      modifies this`notes
      ensures notes == ReplaceById(old(notes), updated)
      ensures |notes| == |old(notes)|
      ensures forall i :: 0 <= i < |notes| ==> notes[i].id == old(notes)[i].id
      ensures (forall n :: n in old(notes) ==> n.id != updated.id) ==> notes == old(notes)
    {
      UpdateKeepsIds(notes, updated);
      if forall n :: n in notes ==> n.id != updated.id {
        UpdateUnknownId(notes, updated);
      }
      notes := ReplaceById(notes, updated);
    }

    method DeleteNote(id: string)
      modifies this`notes, this`activeNoteId
      ensures notes == RemoveById(old(notes), id)
      ensures forall n :: n in notes <==> n in old(notes) && n.id != id
      ensures IsSubsequence(notes, old(notes))
      ensures old(activeNoteId) == Some(id) ==> activeNoteId == FirstIdInFolder(notes, activeFolderId)
      ensures old(activeNoteId) != Some(id) ==> activeNoteId == old(activeNoteId)
    {
      var remaining := RemoveById(notes, id);
      notes := remaining;
      if activeNoteId == Some(id) {
        activeNoteId := FirstIdInFolder(remaining, activeFolderId);
      }
    }

    method Navigate(id: string)
      modifies this`activeNoteId, this`activeFolderId
      ensures NoteById(notes, Some(id)).None? ==>
        activeNoteId == old(activeNoteId) && activeFolderId == old(activeFolderId)
      ensures NoteById(notes, Some(id)).Some? ==>
        activeFolderId == NoteById(notes, Some(id)).value.folderId && activeNoteId == Some(id)
    {
      var target := NoteById(notes, Some(id));
      if target.Some? {
        activeFolderId := target.value.folderId;
        activeNoteId := Some(id);
      }
    }

    /** Clicking a folder in the sidebar. */
    method SelectFolder(folderId: string)
      modifies this`activeFolderId
      ensures activeFolderId == folderId
    {
      activeFolderId := folderId;
    }

    /** Clicking a note in the sidebar. */
    method SelectNote(id: string)
      modifies this`activeNoteId
      ensures activeNoteId == Some(id)
    {
      activeNoteId := Some(id);
    }

    /** Typing in the search box. */
    method SetSearchQuery(query: string)
      modifies this`searchQuery
      ensures searchQuery == query
    {
      searchQuery := query;
    }
  }
}

/** The note endpoints (backend/handlers/notes.go). The caller is the user
    id the gate put in the request context. */
module NoteHandlers {
  import opened Common
  import opened ServerModels
  import opened Store
  import opened Sql
  import FamilyHandlers

  /** The rows `GetNotes` lists: the caller's live personal notes, in the
      requested folder when one is given, and mentioning the search text
      in the title or the content when one is given. */
  predicate Listed(n: Note, caller: string, folderId: string, search: string)
  {
    n.Live() && n.userId == caller && n.Personal()
    && (folderId != "" ==> n.folderId == folderId)
    && (search != "" ==> Like(n.title, "%" + search + "%") || Like(n.content, "%" + search + "%"))
  }

  function ListedBy(caller: string, folderId: string, search: string): Note -> bool
  {
    (n: Note) => Listed(n, caller, folderId, search)
  }

  /** What `GetNotes` answers, stated as one filter and one ordering. */
  function NotesFor(notes: seq<Note>, caller: string, folderId: string, search: string): (r: seq<Note>)
    ensures forall n :: n in r <==> n in notes && Listed(n, caller, folderId, search)
    ensures NewestFirst(r)
    ensures multiset(r) == multiset(Filter(notes, ListedBy(caller, folderId, search)))
  {
    SortNewestFirst(Filter(notes, ListedBy(caller, folderId, search)))
  }

  function OwnPersonal(caller: string): Note -> bool
  {
    (n: Note) => n.Live() && n.userId == caller && n.Personal()
  }

  function InFolder(folderId: string): Note -> bool
  {
    (n: Note) => n.folderId == folderId
  }

  function Mentioning(search: string): Note -> bool
  {
    (n: Note) => Like(n.title, "%" + search + "%") || Like(n.content, "%" + search + "%")
  }

  /** `GetNotes`: the query is narrowed one condition at a time, then
      ordered by `updatedAt`, newest first. */
  method GetNotes(db: Database, caller: string, folderId: string, search: string) returns (r: Response<seq<Note>>)
    ensures r == Ok(200, NotesFor(db.notes, caller, folderId, search))
  {
    ghost var p: Note -> bool := OwnPersonal(caller);
    var query := Filter(db.notes, OwnPersonal(caller));
    if folderId != "" {
      ghost var q := (n: Note) => p(n) && n.folderId == folderId;
      FilterFilter(db.notes, p, InFolder(folderId), q);
      query := Filter(query, InFolder(folderId));
      p := q;
    }
    assert forall n :: p(n) == (n.Live() && n.userId == caller && n.Personal() && (folderId != "" ==> n.folderId == folderId));
    if search != "" {
      ghost var q := (n: Note) => p(n) && (Like(n.title, "%" + search + "%") || Like(n.content, "%" + search + "%"));
      FilterFilter(db.notes, p, Mentioning(search), q);
      query := Filter(query, Mentioning(search));
      p := q;
    }
    assert forall n :: p(n) == Listed(n, caller, folderId, search);
    FilterCongruent(db.notes, p, ListedBy(caller, folderId, search));
    r := Ok(200, SortNewestFirst(query));
  }

  /** With a search text free of '%' and '_', a note is found exactly when
      the text occurs in its title or content, ignoring ASCII case. */
  lemma SearchFindsSubstrings(notes: seq<Note>, caller: string, folderId: string, search: string)
    requires search != "" && WildcardFree(search)
    ensures forall n :: n in NotesFor(notes, caller, folderId, search) <==>
      n in notes && n.Live() && n.userId == caller && n.Personal()
      && (folderId != "" ==> n.folderId == folderId)
      && (Contains(LowerStr(n.title), LowerStr(search)) || Contains(LowerStr(n.content), LowerStr(search)))
  {
    forall n | n in notes
      ensures Like(n.title, "%" + search + "%") <==> Contains(LowerStr(n.title), LowerStr(search))
      ensures Like(n.content, "%" + search + "%") <==> Contains(LowerStr(n.content), LowerStr(search))
    {
      LikeContains(n.title, search);
      LikeContains(n.content, search);
    }
  }

  /** An empty search and an empty folder narrow nothing: all of the
      caller's live personal notes are listed. */
  lemma NoFiltersListAllOwnNotes(notes: seq<Note>, caller: string)
    ensures forall n :: n in NotesFor(notes, caller, "", "") <==> n in notes && n.Live() && n.userId == caller && n.Personal()
  {
  }

  /** The note `CreateNote` tries to insert: the body with the caller as
      owner, and "n-" plus the title as id when the body has none. */
  function Incoming(body: Note, caller: string): (n: Note)
    ensures n.userId == caller
    ensures n.id == if body.id == "" then "n-" + body.title else body.id
    ensures n.(id := body.id, userId := body.userId) == body
  {
    var owned := body.(userId := caller);
    if owned.id == "" then owned.(id := "n-" + owned.title) else owned
  }

  /** `CreateNote`. A decoded body never carries a deletion time, since
      `DeletedAt` is not read from JSON. */
  function CreateOutcome(d: DbState, caller: string, body: Body<Note>, now: Time): (r: Outcome<Note>)
    requires body.Parsed? ==> body.value.deletedAt.None?
    ensures body.Malformed? ==> r == Outcome(Err(400, body.message), d)
    ensures r.response.Ok? <==> body.Parsed? && forall x :: x in d.notes ==> x.id != Incoming(body.value, caller).id
    ensures body.Parsed? && r.response.Err? ==> r == Outcome(Err(500, "Failed to create note"), d)
    ensures r.response.Ok? ==>
      var stored := StoredNote(Incoming(body.value, caller), now);
      r.response == Ok(201, stored) && r.db == d.(notes := d.notes + [stored])
      && stored.userId == caller && stored.Live()
  {
    match body
    case Malformed(message) => Outcome(Err(400, message), d)
    case Parsed(b) =>
      var note := Incoming(b, caller);
      match InsertNote(d.notes, note, now)
      case None => Outcome(Err(500, "Failed to create note"), d)
      case Some(notes) => Outcome(Ok(201, StoredNote(note, now)), d.(notes := notes))
  }

  /** Two notes sent without an id and with the same title get the same
      id, so the second is refused, whoever sends it. */
  lemma UntitledNotesCollide(d: DbState, first: string, second: string, n1: Note, n2: Note, t1: Time, t2: Time)
    requires n1.id == "" && n2.id == "" && n1.title == n2.title
    requires n1.deletedAt.None? && n2.deletedAt.None?
    requires CreateOutcome(d, first, Parsed(n1), t1).response.Ok?
    ensures var after := CreateOutcome(d, first, Parsed(n1), t1).db;
      CreateOutcome(after, second, Parsed(n2), t2) == Outcome(Err(500, "Failed to create note"), after)
  {
    var after := CreateOutcome(d, first, Parsed(n1), t1).db;
    var stored := StoredNote(Incoming(n1, first), t1);
    assert stored in after.notes && stored.id == Incoming(n2, second).id;
  }

  /** The fields `UpdateNote` copies from the body onto the stored note. */
  function Updated(note: Note, data: Note): (r: Note)
    ensures r.id == note.id && r.userId == note.userId && r.createdAt == note.createdAt && r.deletedAt == note.deletedAt
    ensures r.title == data.title && r.content == data.content && r.updatedAt == data.updatedAt
    ensures r.folderId == data.folderId && r.isPublic == data.isPublic
    ensures r.publicPermission == data.publicPermission && r.familyId == data.familyId
  {
    note.(title := data.title, content := data.content, updatedAt := data.updatedAt, folderId := data.folderId,
          isPublic := data.isPublic, publicPermission := data.publicPermission, familyId := data.familyId)
  }

  /** `UpdateNote`: the note is looked up before the body is read, so a
      note the caller does not own answers 404 even to a malformed body.
      The copied `UpdatedAt` is replaced by the save time. */
  function UpdateOutcome(d: DbState, caller: string, id: string, body: Body<Note>, now: Time): (r: Outcome<Note>)
    ensures LiveNote(d.notes, id, caller).None? ==> r == Outcome(Err(404, "Note not found"), d)
    ensures LiveNote(d.notes, id, caller).Some? && body.Malformed? ==> r == Outcome(Err(400, body.message), d)
    ensures r.response.Ok? <==> LiveNote(d.notes, id, caller).Some? && body.Parsed?
    ensures r.response.Ok? ==>
      var before := LiveNote(d.notes, id, caller).value;
      var saved := r.response.value;
      r.response.status == 200
      && saved == Updated(before, body.value).(updatedAt := now)
      && saved.id == id && saved.userId == caller && saved.createdAt == before.createdAt && saved.Live()
      && |r.db.notes| == |d.notes|
      && (forall i :: 0 <= i < |d.notes| ==>
            r.db.notes[i] == if d.notes[i].Live() && d.notes[i].id == id then saved else d.notes[i])
      && r.db == d.(notes := r.db.notes)
  {
    match LiveNote(d.notes, id, caller)
    case None => Outcome(Err(404, "Note not found"), d)
    case Some(note) =>
      match body
      case Malformed(message) => Outcome(Err(400, message), d)
      case Parsed(data) =>
        var changed := Updated(note, data);
        Outcome(Ok(200, changed.(updatedAt := now)), d.(notes := SaveNote(d.notes, changed, now)))
  }

  /** An update may name any family, one the caller does not belong to
      included: the note then leaves the caller's list and appears in that
      family's list. */
  lemma UpdateSharesWithAnyFamily(d: DbState, caller: string, id: string, data: Note, now: Time, member: string, fid: string)
    requires UpdateOutcome(d, caller, id, Parsed(data), now).response.Ok?
    requires data.familyId == Some(fid) && fid != ""
    requires UserById(d.users, member).Some? && UserById(d.users, member).value.familyId == Some(fid)
    ensures var after := UpdateOutcome(d, caller, id, Parsed(data), now);
      after.response.value !in NotesFor(after.db.notes, caller, "", "")
      && FamilyHandlers.GetFamilyNotes(after.db, member).Ok?
      && after.response.value in FamilyHandlers.GetFamilyNotes(after.db, member).value
  {
    var after := UpdateOutcome(d, caller, id, Parsed(data), now);
    var i :| 0 <= i < |d.notes| && d.notes[i] == LiveNote(d.notes, id, caller).value;
    assert after.db.notes[i] == after.response.value;
    assert after.db.users == d.users;
  }

  /** `DeleteNote`: marks the caller's live note with that id, and answers
      success whether or not there was one. */
  function DeleteOutcome(d: DbState, caller: string, id: string, now: Time): (r: Outcome<string>)
    ensures r.response == Ok(200, "Note deleted")
    ensures |r.db.notes| == |d.notes| && r.db == d.(notes := r.db.notes)
    ensures forall i :: 0 <= i < |d.notes| && (d.notes[i].id != id || d.notes[i].userId != caller) ==>
      r.db.notes[i] == d.notes[i]
    ensures forall i :: 0 <= i < |d.notes| && d.notes[i].id == id && d.notes[i].userId == caller ==>
      r.db.notes[i].deletedAt.Some? && r.db.notes[i].(deletedAt := d.notes[i].deletedAt) == d.notes[i]
    ensures LiveNote(r.db.notes, id, caller).None?
  {
    Outcome(Ok(200, "Note deleted"), d.(notes := SoftDeleteNotes(d.notes, id, caller, now)))
  }

  /** A deleted note's id stays taken: creating a note with it fails. */
  lemma DeletedIdStaysTaken(d: DbState, caller: string, id: string, now: Time, body: Note, later: Time)
    requires body.id == id && id != "" && body.deletedAt.None?
    requires exists n :: n in d.notes && n.id == id
    ensures var after := DeleteOutcome(d, caller, id, now).db;
      CreateOutcome(after, caller, Parsed(body), later).response == Err(500, "Failed to create note")
  {
    var after := DeleteOutcome(d, caller, id, now).db;
    var n :| n in d.notes && n.id == id;
    var i :| 0 <= i < |d.notes| && d.notes[i] == n;
    assert after.notes[i].id == id && after.notes[i] in after.notes;
  }

  /** `CreateNote` against the live database. */
  method CreateNote(db: Database, caller: string, body: Body<Note>, now: Time) returns (r: Response<Note>)
    requires body.Parsed? ==> body.value.deletedAt.None?
    modifies db
    ensures Outcome(r, db.State()) == CreateOutcome(old(db.State()), caller, body, now)
  {
    if body.Malformed? {
      return Err(400, body.message);
    }
    var note := body.value.(userId := caller);
    if note.id == "" {
      note := note.(id := "n-" + note.title);
    }
    var created := db.CreateNote(note, now);
    if !created {
      return Err(500, "Failed to create note");
    }
    r := Ok(201, StoredNote(note, now));
  }

  /** `UpdateNote` against the live database. */
  method UpdateNote(db: Database, caller: string, id: string, body: Body<Note>, now: Time) returns (r: Response<Note>)
    modifies db
    ensures Outcome(r, db.State()) == UpdateOutcome(old(db.State()), caller, id, body, now)
  {
    var found := LiveNote(db.notes, id, caller);
    if found.None? {
      return Err(404, "Note not found");
    }
    if body.Malformed? {
      return Err(400, body.message);
    }
    var note := Updated(found.value, body.value);
    db.Save(note, now);
    r := Ok(200, note.(updatedAt := now));
  }

  /** `DeleteNote` against the live database. */
  method DeleteNote(db: Database, caller: string, id: string, now: Time) returns (r: Response<string>)
    modifies db
    ensures Outcome(r, db.State()) == DeleteOutcome(old(db.State()), caller, id, now)
  {
    db.DeleteNotes(id, caller, now);
    r := Ok(200, "Note deleted");
  }
}

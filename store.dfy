/** The server's database as the handlers use it through gorm: four tables
    kept in insertion order, lookups by key, and the few writes the
    handlers issue. gorm's conventions are spelled out here: `Create` fills
    zero `CreatedAt`/`UpdatedAt` with the current time and zero fields
    that carry a `default` tag with that default, and fails on a taken
    primary key or unique username; `Save` rewrites a row and stamps its
    `UpdatedAt`; `Delete` on a model with `DeletedAt` only marks rows, and
    every query skips marked rows. */
module Store {
  import opened Common
  import opened ServerModels

  /** The tables, and whether the events table has the `family_id` column
      that the event query names. */
  datatype DbState = DbState(
    users: seq<User>,
    notes: seq<Note>,
    folders: seq<Folder>,
    events: seq<EventRow>,
    eventsHaveFamilyColumn: bool)

  /** A handler's reply together with the database it leaves behind. */
  datatype Outcome<T> = Outcome(response: Response<T>, db: DbState)

  /** Primary keys are unique in every table, and so are usernames. */
  ghost predicate Keyed(d: DbState)
  {
    UsersKeyed(d.users) && NotesKeyed(d.notes) && FoldersKeyed(d.folders) && EventsKeyed(d.events)
  }

  ghost predicate UsersKeyed(users: seq<User>)
  {
    forall i, j :: 0 <= i < j < |users| ==> users[i].id != users[j].id && users[i].username != users[j].username
  }

  ghost predicate NotesKeyed(notes: seq<Note>)
  {
    forall i, j :: 0 <= i < j < |notes| ==> notes[i].id != notes[j].id
  }

  ghost predicate FoldersKeyed(folders: seq<Folder>)
  {
    forall i, j :: 0 <= i < j < |folders| ==> folders[i].id != folders[j].id
  }

  ghost predicate EventsKeyed(events: seq<EventRow>)
  {
    forall i, j :: 0 <= i < j < |events| ==> events[i].event.id != events[j].event.id
  }

  /** gorm's rule for `CreatedAt`/`UpdatedAt` on insert. */
  function Stamp(t: Time, now: Time): (r: Time)
    ensures t != 0 ==> r == t
    ensures t == 0 ==> r == now
  {
    if t == 0 then now else t
  }

  /** `First(&user, "id = ?", id)`. */
  function UserById(users: seq<User>, id: string): (r: Option<User>)
    ensures r.Some? ==> r.value in users && r.value.id == id
    ensures r.None? <==> forall u :: u in users ==> u.id != id
    decreases |users|
  {
    if users == [] then None
    else if users[0].id == id then Some(users[0])
    else
      assert forall u :: u in users ==> u == users[0] || u in users[1..];
      UserById(users[1..], id)
  }

  /** `Where("username = ?", name).First(&user)`. */
  function UserByUsername(users: seq<User>, name: string): (r: Option<User>)
    ensures r.Some? ==> r.value in users && r.value.username == name
    ensures r.None? <==> forall u :: u in users ==> u.username != name
  {
    Find(users, (u: User) => u.username == name)
  }

  /** `Where("family_id = ?", fid).First(&member)`: some user holds `fid`. */
  predicate HasMember(users: seq<User>, fid: string)
  {
    exists u :: u in users && u.familyId == Some(fid)
  }

  /** `Where("family_id = ?", fid).Find(&members)`. */
  function MembersOf(users: seq<User>, fid: string): (r: seq<User>)
    ensures forall u :: u in r <==> u in users && u.familyId == Some(fid)
    ensures forall u :: multiset(r)[u] == if u.familyId == Some(fid) then multiset(users)[u] else 0
    ensures IsSubsequence(r, users)
  {
    FilterKeepsOrder(users, (u: User) => u.familyId == Some(fid));
    FilterCounts(users, (u: User) => u.familyId == Some(fid));
    Filter(users, (u: User) => u.familyId == Some(fid))
  }

  /** `Where("id = ? AND user_id = ?", id, owner).First(&note)` on notes. */
  function LiveNote(notes: seq<Note>, id: string, owner: string): (r: Option<Note>)
    ensures r.Some? ==> r.value in notes && r.value.Live() && r.value.id == id && r.value.userId == owner
    ensures r.None? <==> forall n :: n in notes ==> !(n.Live() && n.id == id && n.userId == owner)
  {
    Find(notes, (n: Note) => n.Live() && n.id == id && n.userId == owner)
  }

  /** `Create(&user)`: appended with its timestamps filled in, unless its
      id or its username is taken. */
  function InsertUser(users: seq<User>, u: User, now: Time): (r: Option<seq<User>>)
    ensures r.None? <==> exists x :: x in users && (x.id == u.id || x.username == u.username)
    ensures r.Some? ==> |r.value| == |users| + 1 && r.value[..|users|] == users
    ensures r.Some? ==> var x := r.value[|users|];
      x == u.(createdAt := x.createdAt, updatedAt := x.updatedAt)
      && x.createdAt == Stamp(u.createdAt, now) && x.updatedAt == Stamp(u.updatedAt, now)
  {
    if exists x :: x in users && (x.id == u.id || x.username == u.username) then None
    else
      var r := users + [u.(createdAt := Stamp(u.createdAt, now), updatedAt := Stamp(u.updatedAt, now))];
      assert r[..|users|] == users;
      Some(r)
  }

  /** `Save(&user)` after setting its `FamilyID`: the row with that id gets
      the new family and a fresh `UpdatedAt`; nothing else changes. */
  function SetFamily(users: seq<User>, id: string, family: Option<string>, now: Time): (r: seq<User>)
    ensures |r| == |users|
    ensures forall i :: 0 <= i < |users| && users[i].id != id ==> r[i] == users[i]
    ensures forall i :: 0 <= i < |users| && users[i].id == id ==> r[i] == users[i].(familyId := family, updatedAt := now)
  {
    seq(|users|, i requires 0 <= i < |users| =>
      if users[i].id == id then users[i].(familyId := family, updatedAt := now) else users[i])
  }

  /** `Create(&folder)`: appended unless its id is taken. */
  function InsertFolder(folders: seq<Folder>, f: Folder): (r: Option<seq<Folder>>)
    ensures r.None? <==> exists x :: x in folders && x.id == f.id
    ensures r.Some? ==> r.value == folders + [f]
  {
    if exists x :: x in folders && x.id == f.id then None else Some(folders + [f])
  }

  /** The row `Create(&note)` writes: timestamps filled in and an empty
      `PublicPermission` replaced by its default "read". */
  function StoredNote(n: Note, now: Time): (r: Note)
    ensures r.createdAt == Stamp(n.createdAt, now) && r.updatedAt == Stamp(n.updatedAt, now)
    ensures r.publicPermission == if n.publicPermission == "" then "read" else n.publicPermission
    ensures r.(createdAt := n.createdAt, updatedAt := n.updatedAt, publicPermission := n.publicPermission) == n
  {
    n.(createdAt := Stamp(n.createdAt, now), updatedAt := Stamp(n.updatedAt, now),
       publicPermission := if n.publicPermission == "" then "read" else n.publicPermission)
  }

  /** `Create(&note)`: fails when the id is taken, by a live row or by a
      soft-deleted one. */
  function InsertNote(notes: seq<Note>, n: Note, now: Time): (r: Option<seq<Note>>)
    ensures r.None? <==> exists x :: x in notes && x.id == n.id
    ensures r.Some? ==> r.value == notes + [StoredNote(n, now)]
  {
    if exists x :: x in notes && x.id == n.id then None else Some(notes + [StoredNote(n, now)])
  }

  /** `Save(&note)` for a loaded live note: the live row with its id
      becomes `n`, stamped with the current time. */
  function SaveNote(notes: seq<Note>, n: Note, now: Time): (r: seq<Note>)
    ensures |r| == |notes|
    ensures forall i :: 0 <= i < |notes| ==>
      r[i] == if notes[i].Live() && notes[i].id == n.id then n.(updatedAt := now) else notes[i]
  {
    seq(|notes|, i requires 0 <= i < |notes| =>
      if notes[i].Live() && notes[i].id == n.id then n.(updatedAt := now) else notes[i])
  }

  /** `Where("id = ? AND user_id = ?", id, owner).Delete(&Note{})`: the
      matching live rows are marked deleted now. */
  function SoftDeleteNotes(notes: seq<Note>, id: string, owner: string, now: Time): (r: seq<Note>)
    ensures |r| == |notes|
    ensures forall i :: 0 <= i < |notes| ==>
      r[i] == if notes[i].Live() && notes[i].id == id && notes[i].userId == owner
              then notes[i].(deletedAt := Some(now)) else notes[i]
  {
    seq(|notes|, i requires 0 <= i < |notes| =>
      if notes[i].Live() && notes[i].id == id && notes[i].userId == owner
      then notes[i].(deletedAt := Some(now)) else notes[i])
  }

  /** The largest rowid SQLite stores: a signed 64-bit integer. */
  const MaxRowId: nat := 0x7FFF_FFFF_FFFF_FFFF

  /** The id SQLite gives an event inserted with id 0 (`AUTOINCREMENT`,
      the key being an auto-increment integer): one past the largest id
      in the table, soft-deleted rows included. An id above `MaxRowId`
      was stored wrapped to a negative rowid and does not count. */
  function NextEventId(events: seq<EventRow>): (r: nat)
    ensures 0 < r <= MaxRowId + 1
    ensures forall x :: x in events && x.event.id <= MaxRowId ==> x.event.id < r
  {
    if events == [] then 1
    else
      var rest := NextEventId(events[1..]);
      assert forall x :: x in events ==> x == events[0] || x in events[1..];
      var id := events[0].event.id;
      if id < rest || id > MaxRowId then rest else id + 1
  }

  /** The row `Create(&event)` writes: its id, timestamps, and an empty
      type or recurrence replaced by its default. */
  function StoredEvent(events: seq<EventRow>, e: Event, now: Time): (r: Event)
    ensures r.id == if e.id == 0 then NextEventId(events) else e.id
    ensures r.createdAt == Stamp(e.createdAt, now) && r.updatedAt == Stamp(e.updatedAt, now)
    ensures r.kind == if e.kind == "" then "solar" else e.kind
    ensures r.recurrence == if e.recurrence == "" then "none" else e.recurrence
    ensures r.(id := e.id, createdAt := e.createdAt, updatedAt := e.updatedAt, kind := e.kind,
               recurrence := e.recurrence) == e
  {
    e.(id := if e.id == 0 then NextEventId(events) else e.id,
       createdAt := Stamp(e.createdAt, now), updatedAt := Stamp(e.updatedAt, now),
       kind := if e.kind == "" then "solar" else e.kind,
       recurrence := if e.recurrence == "" then "none" else e.recurrence)
  }

  /** `Create(&event)`: fails when a non-zero id is taken, or when the id
      is zero and the counter has passed the largest rowid (SQLITE_FULL);
      the new row has no family. */
  function InsertEvent(events: seq<EventRow>, e: Event, now: Time): (r: Option<seq<EventRow>>)
    ensures r.None? <==> if e.id == 0 then NextEventId(events) > MaxRowId
                         else exists x :: x in events && x.event.id == e.id
    ensures r.Some? ==> r.value == events + [EventRow(StoredEvent(events, e, now), None)]
    ensures r.Some? ==> forall x :: x in events ==> x.event.id != StoredEvent(events, e, now).id
  {
    if e.id == 0 && NextEventId(events) > MaxRowId then None
    else if e.id != 0 && exists x :: x in events && x.event.id == e.id then None
    else Some(events + [EventRow(StoredEvent(events, e, now), None)])
  }

  /** `Where("id = ? AND user_id = ?", id, owner).Delete(&Event{})`. */
  function SoftDeleteEvents(events: seq<EventRow>, id: nat, owner: string, now: Time): (r: seq<EventRow>)
    ensures |r| == |events|
    ensures forall i :: 0 <= i < |events| ==>
      r[i] == if events[i].event.Live() && events[i].event.id == id && events[i].event.userId == owner
              then events[i].(event := events[i].event.(deletedAt := Some(now))) else events[i]
  {
    seq(|events|, i requires 0 <= i < |events| =>
      if events[i].event.Live() && events[i].event.id == id && events[i].event.userId == owner
      then events[i].(event := events[i].event.(deletedAt := Some(now))) else events[i])
  }

  /** Changing one user's family leaves every other user's lookup as it
      was. */
  lemma {:induction false} SetFamilyKeepsOthers(users: seq<User>, id: string, family: Option<string>, now: Time, other: string)
    requires other != id
    ensures UserById(SetFamily(users, id, family, now), other) == UserById(users, other)
    decreases |users|
  {
    var r := SetFamily(users, id, family, now);
    if users != [] {
      SetFamilyKeepsOthers(users[1..], id, family, now, other);
      assert r[1..] == SetFamily(users[1..], id, family, now);
    }
  }

  /** A user with a row who is given a family makes that family exist. */
  lemma SetFamilyMakesMember(users: seq<User>, id: string, fid: string, now: Time)
    requires UserById(users, id).Some?
    ensures HasMember(SetFamily(users, id, Some(fid), now), fid)
  {
    var r := SetFamily(users, id, Some(fid), now);
    var i :| 0 <= i < |users| && users[i] == UserById(users, id).value;
    assert r[i].familyId == Some(fid) && r[i] in r;
  }

  /** Writes to the users table keep ids and usernames unique. */
  lemma UserWritesKeepKeys(users: seq<User>, u: User, id: string, family: Option<string>, now: Time)
    requires UsersKeyed(users)
    ensures InsertUser(users, u, now).Some? ==> UsersKeyed(InsertUser(users, u, now).value)
    ensures UsersKeyed(SetFamily(users, id, family, now))
  {
    if InsertUser(users, u, now).Some? {
      var r := InsertUser(users, u, now).value;
      forall i, j | 0 <= i < j < |r| ensures r[i].id != r[j].id && r[i].username != r[j].username {
        assert r[i] == users[i] && users[i] in users;
        if j < |users| {
          assert r[j] == users[j];
        }
      }
    }
  }

  /** Writes to the notes table keep note ids unique. */
  lemma NoteWritesKeepKeys(notes: seq<Note>, n: Note, id: string, owner: string, now: Time)
    requires NotesKeyed(notes)
    ensures InsertNote(notes, n, now).Some? ==> NotesKeyed(InsertNote(notes, n, now).value)
    ensures NotesKeyed(SaveNote(notes, n, now))
    ensures NotesKeyed(SoftDeleteNotes(notes, id, owner, now))
  {
    if InsertNote(notes, n, now).Some? {
      var r := InsertNote(notes, n, now).value;
      forall i, j | 0 <= i < j < |r| ensures r[i].id != r[j].id {
        assert r[i] == notes[i] && notes[i] in notes;
      }
    }
  }

  /** Adding a folder keeps folder ids unique. */
  lemma FolderInsertKeepsKeys(folders: seq<Folder>, f: Folder)
    requires FoldersKeyed(folders)
    ensures InsertFolder(folders, f).Some? ==> FoldersKeyed(InsertFolder(folders, f).value)
  {
    if InsertFolder(folders, f).Some? {
      var r := InsertFolder(folders, f).value;
      forall i, j | 0 <= i < j < |r| ensures r[i].id != r[j].id {
        assert r[i] == folders[i] && folders[i] in folders;
      }
    }
  }

  /** Writes to the events table keep event ids unique, the ids SQLite
      picks included. */
  lemma EventWritesKeepKeys(events: seq<EventRow>, e: Event, id: nat, owner: string, now: Time)
    requires EventsKeyed(events)
    ensures InsertEvent(events, e, now).Some? ==> EventsKeyed(InsertEvent(events, e, now).value)
    ensures EventsKeyed(SoftDeleteEvents(events, id, owner, now))
  {
    if InsertEvent(events, e, now).Some? {
      var r := InsertEvent(events, e, now).value;
      forall i, j | 0 <= i < j < |r| ensures r[i].event.id != r[j].event.id {
        assert r[i] == events[i] && events[i] in events;
      }
    }
  }

  /** The database the server process talks to. */
  class Database {
    var users: seq<User>
    var notes: seq<Note>
    var folders: seq<Folder>
    var events: seq<EventRow>
    const eventsHaveFamilyColumn: bool

    function State(): DbState
      reads this
    {
      DbState(users, notes, folders, events, eventsHaveFamilyColumn)
    }

    constructor(d: DbState)
      ensures State() == d
    {
      users, notes, folders, events := d.users, d.notes, d.folders, d.events;
      eventsHaveFamilyColumn := d.eventsHaveFamilyColumn;
    }

    method CreateUser(u: User, now: Time) returns (ok: bool)
      modifies this
      ensures ok == InsertUser(old(users), u, now).Some?
      ensures State() == old(State()).(users := InsertUser(old(users), u, now).GetOr(old(users)))
    {
      var r := InsertUser(users, u, now);
      ok := r.Some?;
      if ok {
        users := r.value;
      }
    }

    method SaveFamily(id: string, family: Option<string>, now: Time)
      modifies this
      ensures State() == old(State()).(users := SetFamily(old(users), id, family, now))
    {
      users := SetFamily(users, id, family, now);
    }

    method CreateFolder(f: Folder) returns (ok: bool)
      modifies this
      ensures ok == InsertFolder(old(folders), f).Some?
      ensures State() == old(State()).(folders := InsertFolder(old(folders), f).GetOr(old(folders)))
    {
      var r := InsertFolder(folders, f);
      ok := r.Some?;
      if ok {
        folders := r.value;
      }
    }

    method CreateNote(n: Note, now: Time) returns (ok: bool)
      modifies this
      ensures ok == InsertNote(old(notes), n, now).Some?
      ensures State() == old(State()).(notes := InsertNote(old(notes), n, now).GetOr(old(notes)))
    {
      var r := InsertNote(notes, n, now);
      ok := r.Some?;
      if ok {
        notes := r.value;
      }
    }

    method Save(n: Note, now: Time)
      modifies this
      ensures State() == old(State()).(notes := SaveNote(old(notes), n, now))
    {
      notes := SaveNote(notes, n, now);
    }

    method DeleteNotes(id: string, owner: string, now: Time)
      modifies this
      ensures State() == old(State()).(notes := SoftDeleteNotes(old(notes), id, owner, now))
    {
      notes := SoftDeleteNotes(notes, id, owner, now);
    }

    method CreateEvent(e: Event, now: Time) returns (ok: bool)
      modifies this
      ensures ok == InsertEvent(old(events), e, now).Some?
      ensures State() == old(State()).(events := InsertEvent(old(events), e, now).GetOr(old(events)))
    {
      var r := InsertEvent(events, e, now);
      ok := r.Some?;
      if ok {
        events := r.value;
      }
    }

    method DeleteEvents(id: nat, owner: string, now: Time)
      modifies this
      ensures State() == old(State()).(events := SoftDeleteEvents(old(events), id, owner, now))
    {
      events := SoftDeleteEvents(events, id, owner, now);
    }
  }
}

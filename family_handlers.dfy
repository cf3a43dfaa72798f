/** Family membership (backend/handlers/family.go). A user's `familyId`
    is absent or names a family; a family has no row of its own and exists
    only while some user holds its id. The caller is the user id the gate
    put in the request context. */
module FamilyHandlers {
  import opened Common
  import opened ServerModels
  import opened Store
  import opened Sql

  const NoSuchUser: string := "用户不存在"
  const AlreadyInFamily: string := "您已属于一个家庭，请先退出当前家庭"

  datatype FamilyCreated = FamilyCreated(message: string, familyId: string, folder: Folder)
  datatype Joined = Joined(message: string, familyId: string)
  datatype Members = Members(familyId: Option<string>, members: seq<User>)

  /** The id of a new family: "family-" and the first eight characters of
      a fresh UUID. */
  function FamilyIdFrom(uuid: string): (fid: string)
    requires |uuid| >= 8
    ensures |fid| == 15 && fid[..7] == "family-" && fid[7..] == uuid[..8]
  {
    "family-" + uuid[..8]
  }

  /** The shared folder made with a new family. */
  function FamilyFolder(owner: string, fid: string, name: string, now: Time): (f: Folder)
    ensures f.id == "folder-" + fid && f.userId == owner && f.familyId == Some(fid)
    ensures f.name == name + " 的共享" && f.icon == "\U{1F3E0}" && f.kind == "family" && f.createdAt == now
  {
    Folder("folder-" + fid, owner, Some(fid), name + " 的共享", "\U{1F3E0}", "family", now)
  }

  /** `CreateFamily`. The folder insert's failure is ignored: the reply
      shows the folder even when its id was taken. */
  function CreateOutcome(d: DbState, caller: string, body: Body<string>, uuid: string, now: Time): (r: Outcome<FamilyCreated>)
    requires |uuid| >= 8
    ensures body.Malformed? ==> r == Outcome(Err(400, "请提供家庭名称"), d)
    ensures body.Parsed? && UserById(d.users, caller).None? ==> r == Outcome(Err(404, NoSuchUser), d)
    ensures body.Parsed? && UserById(d.users, caller).Some? && UserById(d.users, caller).value.familyId.Some? ==>
      r == Outcome(Err(409, AlreadyInFamily), d)
    ensures r.response.Ok? <==> body.Parsed? && UserById(d.users, caller).Some? && UserById(d.users, caller).value.familyId.None?
    ensures r.response.Ok? ==>
      var fid := FamilyIdFrom(uuid);
      var folder := FamilyFolder(caller, fid, body.value, now);
      r.response == Ok(201, FamilyCreated("家庭创建成功", fid, folder))
      && r.db == d.(users := SetFamily(d.users, caller, Some(fid), now),
                    folders := InsertFolder(d.folders, folder).GetOr(d.folders))
  {
    if body.Malformed? then Outcome(Err(400, "请提供家庭名称"), d)
    else match UserById(d.users, caller)
      case None => Outcome(Err(404, NoSuchUser), d)
      case Some(u) =>
        if u.familyId.Some? then Outcome(Err(409, AlreadyInFamily), d)
        else
          var fid := FamilyIdFrom(uuid);
          var folder := FamilyFolder(caller, fid, body.value, now);
          Outcome(Ok(201, FamilyCreated("家庭创建成功", fid, folder)),
                  d.(users := SetFamily(d.users, caller, Some(fid), now),
                     folders := InsertFolder(d.folders, folder).GetOr(d.folders)))
  }

  /** `JoinFamily`: the id is `required`, so an empty one is refused like a
      malformed body. */
  function JoinOutcome(d: DbState, caller: string, body: Body<string>, now: Time): (r: Outcome<Joined>)
    ensures body.Malformed? || body.value == "" ==> r == Outcome(Err(400, "请提供家庭编号"), d)
    ensures body.Parsed? && body.value != "" && UserById(d.users, caller).None? ==> r == Outcome(Err(404, NoSuchUser), d)
    ensures body.Parsed? && body.value != "" && UserById(d.users, caller).Some? && UserById(d.users, caller).value.familyId.Some? ==>
      r == Outcome(Err(409, AlreadyInFamily), d)
    ensures r.response.Err? ==> r.db == d
    ensures r.response.Ok? <==>
      body.Parsed? && body.value != "" && UserById(d.users, caller).Some?
      && UserById(d.users, caller).value.familyId.None? && HasMember(d.users, body.value)
    ensures r.response.Ok? ==>
      r.response == Ok(200, Joined("成功加入家庭", body.value))
      && r.db == d.(users := SetFamily(d.users, caller, Some(body.value), now))
  {
    if body.Malformed? || body.value == "" then Outcome(Err(400, "请提供家庭编号"), d)
    else match UserById(d.users, caller)
      case None => Outcome(Err(404, NoSuchUser), d)
      case Some(u) =>
        if u.familyId.Some? then Outcome(Err(409, AlreadyInFamily), d)
        else if !HasMember(d.users, body.value) then Outcome(Err(404, "家庭不存在，请检查家庭编号"), d)
        else Outcome(Ok(200, Joined("成功加入家庭", body.value)),
                     d.(users := SetFamily(d.users, caller, Some(body.value), now)))
  }

  /** `LeaveFamily`. */
  function LeaveOutcome(d: DbState, caller: string, now: Time): (r: Outcome<string>)
    ensures UserById(d.users, caller).None? ==> r == Outcome(Err(404, NoSuchUser), d)
    ensures UserById(d.users, caller).Some? && UserById(d.users, caller).value.familyId.None? ==>
      r == Outcome(Err(400, "您当前不属于任何家庭"), d)
    ensures r.response.Ok? <==> UserById(d.users, caller).Some? && UserById(d.users, caller).value.familyId.Some?
    ensures r.response.Ok? ==>
      r.response == Ok(200, "已退出家庭") && r.db == d.(users := SetFamily(d.users, caller, None, now))
  {
    match UserById(d.users, caller)
    case None => Outcome(Err(404, NoSuchUser), d)
    case Some(u) =>
      if u.familyId.None? then Outcome(Err(400, "您当前不属于任何家庭"), d)
      else Outcome(Ok(200, "已退出家庭"), d.(users := SetFamily(d.users, caller, None, now)))
  }

  /** `GetFamilyMembers`: every user holding the caller's family id, the
      caller included, in table order. */
  function GetFamilyMembers(users: seq<User>, caller: string): (r: Response<Members>)
    ensures UserById(users, caller).None? <==> r == Err(404, NoSuchUser)
    ensures UserById(users, caller).Some? && UserById(users, caller).value.familyId.None? ==>
      r == Ok(200, Members(None, []))
    ensures UserById(users, caller).Some? && UserById(users, caller).value.familyId.Some? ==>
      var fid := UserById(users, caller).value.familyId.value;
      r.Ok? && r.value.familyId == Some(fid)
      && (forall u :: u in r.value.members <==> u in users && u.familyId == Some(fid))
      && r.value.members == MembersOf(users, fid)
      && UserById(users, caller).value in r.value.members
  {
    match UserById(users, caller)
    case None => Err(404, NoSuchUser)
    case Some(u) =>
      if u.familyId.None? then Ok(200, Members(None, []))
      else Ok(200, Members(u.familyId, MembersOf(users, u.familyId.value)))
  }

  /** The `WHERE family_id = ?` filter, with gorm's soft-delete scope. */
  function FamilyNote(fid: string): (p: Note -> bool)
    ensures forall n :: p(n) <==> n.Live() && n.familyId == Some(fid)
  {
    (n: Note) => n.Live() && n.familyId == Some(fid)
  }

  /** `GetFamilyNotes`: the live notes shared with the caller's family,
      whoever wrote them, newest first. */
  function GetFamilyNotes(d: DbState, caller: string): (r: Response<seq<Note>>)
    ensures UserById(d.users, caller).None? <==> r == Err(404, NoSuchUser)
    ensures UserById(d.users, caller).Some? && UserById(d.users, caller).value.familyId.None? ==> r == Ok(200, [])
    ensures UserById(d.users, caller).Some? && UserById(d.users, caller).value.familyId.Some? ==>
      var fid := UserById(d.users, caller).value.familyId.value;
      r.Ok? && r.status == 200
      && (forall n :: n in r.value <==> n in d.notes && n.Live() && n.familyId == Some(fid))
      && NewestFirst(r.value)
      && multiset(r.value) == multiset(Filter(d.notes, FamilyNote(fid)))
  {
    match UserById(d.users, caller)
    case None => Err(404, NoSuchUser)
    case Some(u) =>
      if u.familyId.None? then Ok(200, [])
      else Ok(200, SortNewestFirst(Filter(d.notes, FamilyNote(u.familyId.value))))
  }

  /** Once its last member leaves, a family cannot be joined again: no
      one, whatever their state, gets a success from joining it. */
  lemma {:induction false} EmptyFamilyCannotBeJoined(d: DbState, last: string, fid: string, joiner: string, t1: Time, t2: Time)
    requires UserById(d.users, last).Some? && UserById(d.users, last).value.familyId == Some(fid)
    requires forall u :: u in d.users && u.familyId == Some(fid) ==> u.id == last
    ensures var left := LeaveOutcome(d, last, t1).db;
      !HasMember(left.users, fid)
      && JoinOutcome(left, joiner, Parsed(fid), t2) == Outcome(JoinOutcome(left, joiner, Parsed(fid), t2).response, left)
      && JoinOutcome(left, joiner, Parsed(fid), t2).response.Err?
  {
    var left := LeaveOutcome(d, last, t1).db;
    assert left.users == SetFamily(d.users, last, None, t1);
    forall u | u in left.users ensures u.familyId != Some(fid) {
      var i :| 0 <= i < |left.users| && left.users[i] == u;
      assert d.users[i] in d.users;
      if d.users[i].id != last {
        assert u == d.users[i];
      }
    }
  }

  /** A user outside any family who joins with the id just handed to the
      family's founder is let in. */
  lemma JoinAfterCreate(d: DbState, founder: string, name: string, uuid: string, joiner: string, t1: Time, t2: Time)
    requires |uuid| >= 8
    requires founder != joiner
    requires UserById(d.users, founder).Some? && UserById(d.users, founder).value.familyId.None?
    requires UserById(d.users, joiner).Some? && UserById(d.users, joiner).value.familyId.None?
    ensures var created := CreateOutcome(d, founder, Parsed(name), uuid, t1);
      created.response.Ok?
      && JoinOutcome(created.db, joiner, Parsed(created.response.value.familyId), t2).response.Ok?
  {
    var created := CreateOutcome(d, founder, Parsed(name), uuid, t1);
    var fid := FamilyIdFrom(uuid);
    assert created.db.users == SetFamily(d.users, founder, Some(fid), t1);
    SetFamilyKeepsOthers(d.users, founder, Some(fid), t1, joiner);
    SetFamilyMakesMember(d.users, founder, fid, t1);
  }

  /** `CreateFamily` against the live database. */
  method CreateFamily(db: Database, caller: string, body: Body<string>, uuid: string, now: Time)
    returns (r: Response<FamilyCreated>)
    requires |uuid| >= 8
    modifies db
    ensures Outcome(r, db.State()) == CreateOutcome(old(db.State()), caller, body, uuid, now)
  {
    if body.Malformed? {
      return Err(400, "请提供家庭名称");
    }
    var user := UserById(db.users, caller);
    if user.None? {
      return Err(404, NoSuchUser);
    }
    if user.value.familyId.Some? {
      return Err(409, AlreadyInFamily);
    }
    var fid := FamilyIdFrom(uuid);
    db.SaveFamily(caller, Some(fid), now);
    var folder := FamilyFolder(caller, fid, body.value, now);
    var _ := db.CreateFolder(folder);
    r := Ok(201, FamilyCreated("家庭创建成功", fid, folder));
  }

  /** `JoinFamily` against the live database. */
  method JoinFamily(db: Database, caller: string, body: Body<string>, now: Time) returns (r: Response<Joined>)
    modifies db
    ensures Outcome(r, db.State()) == JoinOutcome(old(db.State()), caller, body, now)
  {
    if body.Malformed? || body.value == "" {
      return Err(400, "请提供家庭编号");
    }
    var user := UserById(db.users, caller);
    if user.None? {
      return Err(404, NoSuchUser);
    }
    if user.value.familyId.Some? {
      return Err(409, AlreadyInFamily);
    }
    if !HasMember(db.users, body.value) {
      return Err(404, "家庭不存在，请检查家庭编号");
    }
    db.SaveFamily(caller, Some(body.value), now);
    r := Ok(200, Joined("成功加入家庭", body.value));
  }

  /** `LeaveFamily` against the live database. */
  method LeaveFamily(db: Database, caller: string, now: Time) returns (r: Response<string>)
    modifies db
    ensures Outcome(r, db.State()) == LeaveOutcome(old(db.State()), caller, now)
  {
    var user := UserById(db.users, caller);
    if user.None? {
      return Err(404, NoSuchUser);
    }
    if user.value.familyId.None? {
      return Err(400, "您当前不属于任何家庭");
    }
    db.SaveFamily(caller, None, now);
    r := Ok(200, "已退出家庭");
  }
}

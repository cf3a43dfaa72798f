/** Login and the two-step registration (backend/handlers/auth.go). A
    token is represented by the claims it carries; bcrypt by the
    `Bcrypt` hash, which matches exactly the password it was made from. */
module AuthHandlers {
  import opened Common
  import opened ServerModels
  import opened Store
  import opened Jwt

  datatype Credentials = Credentials(username: string, password: string)
  datatype VerifyForm = VerifyForm(username: string, code: string)

  datatype LoginReply = LoginReply(token: Claims, user: User)
  datatype CodeSent = CodeSent(message: string, username: string)
  datatype Registered = Registered(message: string, token: Claims, user: User)

  const LoginInvalid: string := "用户名或密码错误"

  /** `Login`: both fields are `required`, so an empty one is refused like
      a malformed body; an unknown username and a wrong password get the
      same answer. */
  function Login(users: seq<User>, body: Body<Credentials>, now: Time): (r: Response<LoginReply>)
    ensures body.Malformed? || body.value.username == "" || body.value.password == "" ==>
      r == Err(400, "用户名和密码不能为空")
    ensures r.Ok? ==>
      (r.status == 200 && r.value.user in users
       && r.value.user.username == body.value.username
       && r.value.user.passwordHash == Bcrypt(body.value.password)
       && r.value.token == IssueClaims(r.value.user.id, r.value.user.username, now))
    ensures body.Parsed? && body.value.username != "" && body.value.password != "" && UsersKeyed(users) ==>
      (r.Ok? <==> exists u :: u in users && u.username == body.value.username && u.passwordHash == Bcrypt(body.value.password))
      && (r.Err? ==> r == Err(401, LoginInvalid))
  {
    if body.Malformed? || body.value.username == "" || body.value.password == "" then
      Err(400, "用户名和密码不能为空")
    else
      match UserByUsername(users, body.value.username)
      case None => Err(401, LoginInvalid)
      case Some(u) =>
        if u.passwordHash != Bcrypt(body.value.password) then Err(401, LoginInvalid)
        else
          assert UsersKeyed(users) ==> forall v :: v in users && v.username == u.username ==> v == u;
          Ok(200, LoginReply(IssueClaims(u.id, u.username, now), u))
  }

  /** An unknown username and a known one with a wrong password cannot be
      told apart from the reply. */
  lemma LoginHidesWhichPartIsWrong(users: seq<User>, unknown: string, p1: string, known: string, p2: string, now: Time)
    requires UsersKeyed(users)
    requires unknown != "" && p1 != "" && known != "" && p2 != ""
    requires forall u :: u in users ==> u.username != unknown
    requires exists u :: u in users && u.username == known && u.passwordHash != Bcrypt(p2)
    ensures Login(users, Parsed(Credentials(unknown, p1)), now) == Login(users, Parsed(Credentials(known, p2)), now)
    ensures Login(users, Parsed(Credentials(unknown, p1)), now) == Err(401, LoginInvalid)
  {
    var u :| u in users && u.username == known && u.passwordHash != Bcrypt(p2);
    assert forall v :: v in users && v.username == known ==> v == u by {
      forall v | v in users && v.username == known ensures v == u {
        var i :| 0 <= i < |users| && users[i] == u;
        var j :| 0 <= j < |users| && users[j] == v;
        assert i == j;
      }
    }
  }

  /** The registration form's rules: `required,min=3,max=20` on the
      username and `required,min=6` on the password. The bounds count
      characters and already exclude the empty strings `required`
      refuses. */
  predicate AcceptableForm(body: Body<Credentials>)
    ensures AcceptableForm(body) ==> body.Parsed? && body.value.username != [] && body.value.password != []
  {
    body.Parsed? && 3 <= |body.value.username| <= 20 && 6 <= |body.value.password|
  }

  datatype Requested = Requested(response: Response<CodeSent>, codes: map<string, CodeInfo>)

  /** `RegisterRequest`: for an acceptable form and a free username, a new
      six-digit code made from `entropy` replaces any pending request for
      that username. */
  function RequestOutcome(users: seq<User>, codes: map<string, CodeInfo>, body: Body<Credentials>,
                          entropy: seq<byte>, now: Time): (r: Requested)
    requires |entropy| == 6
    ensures !AcceptableForm(body) ==> r == Requested(Err(400, "用户名至少3个字符，密码至少6个字符"), codes)
    ensures AcceptableForm(body) && (exists u :: u in users && u.username == body.value.username) ==>
      r == Requested(Err(409, "用户名已被注册"), codes)
    ensures r.response.Ok? <==> AcceptableForm(body) && forall u :: u in users ==> u.username != body.value.username
    ensures r.response.Ok? ==>
      r.response == Ok(200, CodeSent("验证码已发送，请联系管理员获取", body.value.username))
      && r.codes == Generated(codes, body.value.username, body.value.password, DigitCode(entropy), now)
  {
    if !AcceptableForm(body) then Requested(Err(400, "用户名至少3个字符，密码至少6个字符"), codes)
    else if UserByUsername(users, body.value.username).Some? then Requested(Err(409, "用户名已被注册"), codes)
    else
      var f := body.value;
      Requested(Ok(200, CodeSent("验证码已发送，请联系管理员获取", f.username)),
                Generated(codes, f.username, f.password, DigitCode(entropy), now))
  }

  /** The account `RegisterVerify` creates. */
  function NewAccount(username: string, password: string, now: Time): (u: User)
    ensures u.id == "u-" + username && u.username == username
    ensures u.passwordHash == Bcrypt(password) && u.avatarColor == "bg-blue-500"
    ensures u.familyId.None? && u.createdAt == now && u.updatedAt == now
  {
    User("u-" + username, username, Bcrypt(password), "bg-blue-500", None, now, now)
  }

  datatype Verification = Verification(response: Response<Registered>, users: seq<User>, codes: map<string, CodeInfo>)

  /** `RegisterVerify`. The code is checked first, so a confirmed code is
      spent even when the account cannot be created. */
  function VerifyOutcome(users: seq<User>, codes: map<string, CodeInfo>, body: Body<VerifyForm>, now: Time): (r: Verification)
    ensures body.Malformed? || body.value.username == "" || body.value.code == "" ==>
      r == Verification(Err(400, "请输入用户名和验证码"), users, codes)
    ensures body.Parsed? && body.value.username != "" && body.value.code != "" ==>
      r.codes == Verified(codes, body.value.username, body.value.code, now).codes
    ensures (body.Parsed? && body.value.username != "" && body.value.code != ""
             && !Verified(codes, body.value.username, body.value.code, now).ok) ==>
      r.response == Err(400, "验证码错误或已过期") && r.users == users
    ensures r.response.Ok? <==>
      body.Parsed? && body.value.username != "" && body.value.code != ""
      && Verified(codes, body.value.username, body.value.code, now).ok
      && forall u :: u in users ==> u.id != "u-" + body.value.username && u.username != body.value.username
    ensures r.response.Ok? ==>
      var account := NewAccount(body.value.username, codes[body.value.username].password, now);
      r.response == Ok(201, Registered("注册成功", IssueClaims(account.id, account.username, now), account))
      && r.users == users + [account]
    ensures r.response.Err? ==> r.users == users
    ensures r.response.Err? && r.response.status == 500 ==> r.response.error == "注册失败，请稍后重试"
  {
    if body.Malformed? || body.value.username == "" || body.value.code == "" then
      Verification(Err(400, "请输入用户名和验证码"), users, codes)
    else
      var f := body.value;
      var v := Verified(codes, f.username, f.code, now);
      if !v.ok then Verification(Err(400, "验证码错误或已过期"), users, v.codes)
      else
        var row := User("u-" + f.username, f.username, Bcrypt(v.password), "bg-blue-500", None, 0, 0);
        match InsertUser(users, row, now)
        case None => Verification(Err(500, "注册失败，请稍后重试"), users, v.codes)
        case Some(stored) =>
          var account := NewAccount(f.username, v.password, now);
          assert stored == stored[..|users|] + [stored[|users|]];
          Verification(Ok(201, Registered("注册成功", IssueClaims(account.id, account.username, now), account)),
                       stored, v.codes)
  }

  /** A request followed, within ten minutes, by a confirmation with the
      code it produced creates the account with the password given at
      request time, and logs it in. */
  lemma RequestThenVerify(users: seq<User>, codes: map<string, CodeInfo>, username: string, password: string,
                          entropy: seq<byte>, issued: Time, now: Time)
    requires |entropy| == 6
    requires 3 <= |username| <= 20 && 6 <= |password|
    requires forall u :: u in users ==> u.id != "u-" + username && u.username != username
    requires issued <= now <= issued + CodeLifetime
    ensures var req := RequestOutcome(users, codes, Parsed(Credentials(username, password)), entropy, issued);
      var ver := VerifyOutcome(users, req.codes, Parsed(VerifyForm(username, DigitCode(entropy))), now);
      req.response.Ok? && ver.response.Ok?
      && ver.response.value.user == NewAccount(username, password, now)
      && ver.users == users + [NewAccount(username, password, now)]
      && username !in ver.codes
  {
    var req := RequestOutcome(users, codes, Parsed(Credentials(username, password)), entropy, issued);
    GenerateThenVerify(codes, username, password, DigitCode(entropy), issued, now);
    assert req.codes[username].password == password;
  }

  /** What a confirmation yields does not depend on anything sent with it
      but the username and code: the password is the one stored by the
      request. */
  lemma VerifyUsesRequestedPassword(users: seq<User>, codes: map<string, CodeInfo>, username: string,
                                    code: string, now: Time)
    requires username != "" && code != ""
    requires VerifyOutcome(users, codes, Parsed(VerifyForm(username, code)), now).response.Ok?
    ensures username in codes
    ensures VerifyOutcome(users, codes, Parsed(VerifyForm(username, code)), now).response.value.user.passwordHash
            == Bcrypt(codes[username].password)
  {
  }

  /** The legacy endpoint refuses every request. */
  function Register(): (r: Response<string>)
    ensures r.Err? && r.status == 400
  {
    Err(400, "请使用新的注册流程")
  }

  /** `RegisterRequest` against the live code store. */
  method RegisterRequest(db: Database, store: CodeStore, body: Body<Credentials>, entropy: seq<byte>, now: Time)
    returns (r: Response<CodeSent>)
    requires |entropy| == 6
    modifies store
    ensures Requested(r, store.codes) == RequestOutcome(db.users, old(store.codes), body, entropy, now)
  {
    if !AcceptableForm(body) {
      return Err(400, "用户名至少3个字符，密码至少6个字符");
    }
    if UserByUsername(db.users, body.value.username).Some? {
      return Err(409, "用户名已被注册");
    }
    var _ := store.Generate(body.value.username, body.value.password, now, entropy);
    r := Ok(200, CodeSent("验证码已发送，请联系管理员获取", body.value.username));
  }

  /** `RegisterVerify` against the live code store and database. */
  method RegisterVerify(db: Database, store: CodeStore, body: Body<VerifyForm>, now: Time)
    returns (r: Response<Registered>)
    modifies db, store
    ensures Verification(r, db.users, store.codes) == VerifyOutcome(old(db.users), old(store.codes), body, now)
    ensures db.State() == old(db.State()).(users := db.users)
  {
    if body.Malformed? || body.value.username == "" || body.value.code == "" {
      return Err(400, "请输入用户名和验证码");
    }
    var password, valid := store.Verify(body.value.username, body.value.code, now);
    if !valid {
      return Err(400, "验证码错误或已过期");
    }
    var row := User("u-" + body.value.username, body.value.username, Bcrypt(password), "bg-blue-500", None, 0, 0);
    var created := db.CreateUser(row, now);
    if !created {
      return Err(500, "注册失败，请稍后重试");
    }
    var account := NewAccount(body.value.username, password, now);
    r := Ok(201, Registered("注册成功", IssueClaims(account.id, account.username, now), account));
  }
}

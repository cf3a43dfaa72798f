/** The server's middleware (backend/middleware/jwt.go): the claims of an
    issued token, the gate in front of every route, the in-memory store of
    registration codes and the digit-code generator. Signing is opaque: a
    token string is whatever the signer produced, and `decode` stands for
    the library's signature check, giving back the claims a genuine token
    carries. The clock and the random bytes are parameters. */
module Jwt {
  import opened Common
  import opened ServerModels

  /** `tokenExpiry`: seven days. */
  const TokenLifetime: int := 7 * 24 * Hour

  /** Codes stay valid for ten minutes. */
  const CodeLifetime: int := 10 * Minute

  datatype Claims = Claims(userId: string, username: string, expiresAt: Time, issuedAt: Time, issuer: string)

  /** JWT numeric dates are whole seconds: `time.Truncate(time.Second)`. */
  function WholeSeconds(t: Time): (r: Time)
    ensures r <= t < r + Second && r % Second == 0
  {
    t - t % Second
  }

  /** The claims `GenerateToken` signs. */
  function IssueClaims(userId: string, username: string, now: Time): (c: Claims)
    ensures c.userId == userId && c.username == username && c.issuer == "gonote"
    ensures c.issuedAt <= now < c.issuedAt + Second
    ensures c.expiresAt == c.issuedAt + TokenLifetime
  {
    ShiftWholeSeconds(now, TokenLifetime / Second);
    Claims(userId, username, WholeSeconds(now + TokenLifetime), WholeSeconds(now), "gonote")
  }

  lemma ShiftWholeSeconds(t: Time, k: int)
    ensures WholeSeconds(t + k * Second) == WholeSeconds(t) + k * Second
  {
    assert (t + k * Second) % Second == t % Second;
  }

  /** `ParseToken`: the signature check, then the library's expiry check,
      which accepts a token only strictly before its expiry. */
  function ParseToken(token: string, decode: string -> Option<Claims>, now: Time): (r: Option<Claims>)
    ensures r.Some? <==> decode(token).Some? && now < decode(token).value.expiresAt
    ensures r.Some? ==> r == decode(token)
  {
    match decode(token)
    case None => None
    case Some(c) => if now < c.expiresAt then Some(c) else None
  }

  /** What the gate stores in the request context. */
  datatype Identity = Identity(userId: string, username: string)

  /** The gate either lets the request through, with the caller's identity
      when a token was checked, or answers it. */
  datatype GateResult = Proceed(identity: Option<Identity>) | Reject(status: nat, error: string)

  const AuthPrefix: string := "/api/auth/"

  /** `strings.SplitN(h, " ", 2)`: split at the first space. */
  function SplitFirstSpace(h: string): (parts: seq<string>)
    ensures ' ' !in h ==> parts == [h]
    ensures ' ' in h ==> |parts| == 2 && h == parts[0] + " " + parts[1] && ' ' !in parts[0]
    decreases |h|
  {
    if h == [] then [h]
    else if h[0] == ' ' then ["", h[1..]]
    else
      var rest := SplitFirstSpace(h[1..]);
      assert h == [h[0]] + h[1..];
      if |rest| == 2 then [[h[0]] + rest[0], rest[1]] else [h]
  }

  /** `JWTAuthMiddleware`. */
  function Gate(path: string, header: string, decode: string -> Option<Claims>, now: Time): (r: GateResult)
    ensures AuthPrefix <= path ==> r == Proceed(None)
    ensures !(AuthPrefix <= path) && header == "" ==> r == Reject(401, "请先登录")
    ensures !(AuthPrefix <= path) && header != "" && !("Bearer " <= header) ==> r == Reject(401, "Token 格式错误")
    ensures !(AuthPrefix <= path) && "Bearer " <= header ==>
      (r.Proceed? <==> ParseToken(header[7..], decode, now).Some?)
    ensures !(AuthPrefix <= path) && r.Proceed? ==>
      "Bearer " <= header && ParseToken(header[7..], decode, now).Some?
      && r.identity == Some(Identity(decode(header[7..]).value.userId, decode(header[7..]).value.username))
    ensures !(AuthPrefix <= path) && "Bearer " <= header && ParseToken(header[7..], decode, now).None? ==>
      r == Reject(401, "Token 无效或已过期")
    ensures r.Reject? ==> r.status == 401
  {
    if AuthPrefix <= path then Proceed(None)
    else if header == "" then Reject(401, "请先登录")
    else
      var parts := SplitFirstSpace(header);
      BearerSplit(header);
      if |parts| != 2 || parts[0] != "Bearer" then Reject(401, "Token 格式错误")
      else match ParseToken(parts[1], decode, now)
        case None => Reject(401, "Token 无效或已过期")
        case Some(c) => Proceed(Some(Identity(c.userId, c.username)))
  }

  /** Splitting at the first space gives two parts, the first "Bearer",
      exactly when the header starts with "Bearer "; the second part is
      then the rest of the header. */
  lemma BearerSplit(h: string)
    ensures (|SplitFirstSpace(h)| == 2 && SplitFirstSpace(h)[0] == "Bearer") <==> "Bearer " <= h
    ensures "Bearer " <= h ==> SplitFirstSpace(h)[1] == h[7..]
  {
    var parts := SplitFirstSpace(h);
    if |parts| == 2 && parts[0] == "Bearer" {
      assert h[..7] == "Bearer" + " ";
    }
    if "Bearer " <= h {
      assert h == "Bearer" + " " + h[7..];
      SplitAfterWord("Bearer", h[7..]);
    }
  }

  /** A header made of a word without spaces, a space and a rest splits
      into the word and the rest. */
  lemma {:induction false} SplitAfterWord(w: string, rest: string)
    requires forall k :: 0 <= k < |w| ==> w[k] != ' '
    ensures SplitFirstSpace(w + " " + rest) == [w, rest]
    decreases |w|
  {
    var h := w + " " + rest;
    if w != [] {
      assert h[1..] == w[1..] + " " + rest;
      SplitAfterWord(w[1..], rest);
      assert [h[0]] + w[1..] == w;
    }
  }

  /** A token issued at `issued` lets its holder through the gate, as that
      user, until the issue time plus seven days (in whole seconds), and
      not from then on. */
  lemma IssuedTokenLifetime(userId: string, username: string, issued: Time, token: string,
                            decode: string -> Option<Claims>, path: string, now: Time)
    requires decode(token) == Some(IssueClaims(userId, username, issued))
    requires !(AuthPrefix <= path)
    ensures var c := IssueClaims(userId, username, issued);
      Gate(path, "Bearer " + token, decode, now)
        == if now < c.expiresAt then Proceed(Some(Identity(userId, username)))
           else Reject(401, "Token 无效或已过期")
  {
    var h := "Bearer " + token;
    assert "Bearer " <= h && h[7..] == token;
    BearerSplit(h);
  }

  /** A pending registration: the code, and the password to use once the
      code is confirmed. */
  datatype CodeInfo = CodeInfo(code: string, username: string, password: string, expiresAt: Time)

  /** The store after `GenerateVerificationCode`. */
  function Generated(codes: map<string, CodeInfo>, username: string, password: string, code: string,
                     now: Time): (r: map<string, CodeInfo>)
    ensures r.Keys == codes.Keys + {username}
    ensures r[username] == CodeInfo(code, username, password, now + CodeLifetime)
    ensures forall u :: u in codes && u != username ==> r[u] == codes[u]
  {
    codes[username := CodeInfo(code, username, password, now + CodeLifetime)]
  }

  datatype Verdict = Verdict(password: string, ok: bool, codes: map<string, CodeInfo>)

  /** `VerifyCode`: the password and true for a correct code that has not
      expired, otherwise "" and false. A used code and an expired one are
      removed; a wrong code leaves the entry for another try. */
  function Verified(codes: map<string, CodeInfo>, username: string, code: string, now: Time): (r: Verdict)
    ensures r.ok <==> username in codes && now <= codes[username].expiresAt && codes[username].code == code
    ensures r.ok ==> r.password == codes[username].password
    ensures !r.ok ==> r.password == ""
    ensures username in r.codes <==> username in codes && !r.ok && now <= codes[username].expiresAt
    ensures r.codes == codes || r.codes == codes - {username}
  {
    if username !in codes then Verdict("", false, codes)
    else
      var info := codes[username];
      assert username in codes.Keys && username !in (codes - {username}).Keys;
      if now > info.expiresAt then Verdict("", false, codes - {username})
      else if info.code != code then Verdict("", false, codes)
      else Verdict(info.password, true, codes - {username})
  }

  /** A code confirmed within ten minutes of its request, including at
      exactly ten minutes, yields the password given with the request. */
  lemma GenerateThenVerify(codes: map<string, CodeInfo>, username: string, password: string, code: string,
                           issued: Time, now: Time)
    requires issued <= now <= issued + CodeLifetime
    ensures Verified(Generated(codes, username, password, code, issued), username, code, now).ok
    ensures Verified(Generated(codes, username, password, code, issued), username, code, now).password == password
  {
  }

  /** A confirmed code cannot be used a second time. */
  lemma CodeIsSingleUse(codes: map<string, CodeInfo>, username: string, code: string, now: Time, later: Time)
    requires Verified(codes, username, code, now).ok
    ensures !Verified(Verified(codes, username, code, now).codes, username, code, later).ok
  {
  }

  /** A wrong code on a live entry keeps it, so the right code still works
      afterwards. */
  lemma WrongCodeAllowsRetry(codes: map<string, CodeInfo>, username: string, wrong: string, now: Time, later: Time)
    requires username in codes && wrong != codes[username].code
    requires now <= codes[username].expiresAt && later <= codes[username].expiresAt
    ensures !Verified(codes, username, wrong, now).ok
    ensures Verified(Verified(codes, username, wrong, now).codes, username, codes[username].code, later).ok
  {
  }

  /** A new request replaces the pending one: only the newest code counts,
      and it brings the newest password. */
  lemma NewestRequestWins(codes: map<string, CodeInfo>, username: string, p1: string, c1: string, t1: Time,
                          p2: string, c2: string, t2: Time, now: Time)
    requires c1 != c2
    ensures var s := Generated(Generated(codes, username, p1, c1, t1), username, p2, c2, t2);
      !Verified(s, username, c1, now).ok
      && (t2 <= now <= t2 + CodeLifetime ==> Verified(s, username, c2, now) == Verdict(p2, true, s - {username}))
  {
  }

  /** A byte. */
  newtype byte = x: int | 0 <= x < 256

  const Digits: string := "0123456789"

  /** The character `generateRandomCode` makes of one random byte. */
  function DigitOf(b: byte): (c: char)
    ensures '0' <= c <= '9'
  {
    Digits[b as int % 10]
  }

  /** The code for a run of random bytes: one digit per byte. */
  function DigitCode(entropy: seq<byte>): (code: string)
    ensures |code| == |entropy|
    ensures forall i :: 0 <= i < |code| ==> '0' <= code[i] <= '9' && code[i] == DigitOf(entropy[i])
  {
    seq(|entropy|, i requires 0 <= i < |entropy| => DigitOf(entropy[i]))
  }

  /** `string(b)` for bytes below 0x80: one character per byte. */
  function AsText(b: seq<byte>): (s: string)
    ensures |s| == |b| && forall i :: 0 <= i < |b| ==> s[i] as int == b[i] as int
  {
    seq(|b|, i requires 0 <= i < |b| => b[i] as int as char)
  }

  /** `generateRandomCode(length)`: `entropy` stands for the bytes
      `rand.Read` puts in the buffer, which the loop overwrites one by one
      with the digit each selects. */
  method GenerateRandomCode(length: nat, entropy: seq<byte>) returns (code: string)
    requires |entropy| == length
    ensures |code| == length
    ensures forall i :: 0 <= i < |code| ==> '0' <= code[i] <= '9'
    ensures code == DigitCode(entropy)
  {
    var b := new byte[length](i requires 0 <= i < length => entropy[i]);
    for i := 0 to length
      invariant forall k :: 0 <= k < i ==> b[k] as int == DigitOf(entropy[k]) as int
      invariant forall k :: i <= k < length ==> b[k] == entropy[k]
    {
      b[i] := Digits[b[i] as int % 10] as int as byte;
    }
    code := AsText(b[..]);
  }

  /** The process-wide map of pending registrations. */
  class CodeStore {
    var codes: map<string, CodeInfo>

    constructor()
      ensures codes == map[]
    {
      codes := map[];
    }

    /** `GenerateVerificationCode`: a six-digit code, stored for the
        username over any earlier one. */
    method Generate(username: string, password: string, now: Time, entropy: seq<byte>) returns (code: string)
      requires |entropy| == 6
      modifies this
      ensures code == DigitCode(entropy) && |code| == 6
      ensures codes == Generated(old(codes), username, password, code, now)
    {
      code := GenerateRandomCode(6, entropy);
      codes := codes[username := CodeInfo(code, username, password, now + CodeLifetime)];
    }

    /** `VerifyCode`. */
    method Verify(username: string, code: string, now: Time) returns (password: string, ok: bool)
      modifies this
      ensures Verdict(password, ok, codes) == Verified(old(codes), username, code, now)
    {
      if username !in codes {
        return "", false;
      }
      var info := codes[username];
      if now > info.expiresAt {
        codes := codes - {username};
        return "", false;
      }
      if info.code != code {
        return "", false;
      }
      codes := codes - {username};
      return info.password, true;
    }
  }
}

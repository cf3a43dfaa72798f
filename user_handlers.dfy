/** User search (backend/handlers/users.go). */
module UserHandlers {
  import opened Common
  import opened ServerModels
  import opened Sql
  import opened Store

  /** One search result: three fields of the user row, never its password
      hash or family. */
  datatype UserHit = UserHit(id: string, username: string, avatarColor: string)

  /** The JSON body: a Go slice that nothing was appended to is `null`. */
  datatype Hits = Null | Array(items: seq<UserHit>)

  const SearchLimit: nat := 5

  function Hit(u: User): (h: UserHit)
    ensures h.id == u.id && h.username == u.username && h.avatarColor == u.avatarColor
  {
    UserHit(u.id, u.username, u.avatarColor)
  }

  function HitsOf(users: seq<User>): (r: seq<UserHit>)
    ensures |r| == |users| && forall i :: 0 <= i < |users| ==> r[i] == Hit(users[i])
  {
    seq(|users|, i requires 0 <= i < |users| => Hit(users[i]))
  }

  predicate NameLike(u: User, q: string)
  {
    Like(u.username, "%" + q + "%")
  }

  function NameLikeBy(q: string): User -> bool
  {
    (u: User) => NameLike(u, q)
  }

  /** What `SearchUsers` answers: nothing for an empty query; otherwise the
      first five users, in table order, whose username is LIKE the query
      wrapped in '%', as `null` when there are none. */
  function Search(users: seq<User>, q: string): (r: Response<Hits>)
    ensures r.Ok? && r.status == 200
    ensures q == "" ==> r.value == Array([])
    ensures q != "" ==> (r.value.Array? <==> exists u :: u in users && NameLike(u, q))
    ensures r.value.Array? ==> |r.value.items| <= SearchLimit
    ensures r.value.Array? ==> forall h :: h in r.value.items ==> exists u :: u in users && NameLike(u, q) && h == Hit(u)
    ensures q != "" && r.value.Array? ==>
      var matches := Filter(users, NameLikeBy(q));
      |r.value.items| == (if |matches| < SearchLimit then |matches| else SearchLimit)
      && forall i :: 0 <= i < |r.value.items| ==> r.value.items[i] == Hit(matches[i])
  {
    if q == "" then Ok(200, Array([]))
    else
      var found := Take(Filter(users, NameLikeBy(q)), SearchLimit);
      if found == [] then
        assert forall u :: u in users ==> !NameLike(u, q) by {
          forall u | u in users ensures !NameLike(u, q) {
            assert Filter(users, NameLikeBy(q)) == [];
          }
        }
        Ok(200, Null)
      else
        var items := HitsOf(found);
        assert found[0] in Filter(users, NameLikeBy(q));
        assert forall h :: h in items ==> exists u :: u in users && NameLike(u, q) && h == Hit(u) by {
          forall h | h in items ensures exists u :: u in users && NameLike(u, q) && h == Hit(u) {
            var i :| 0 <= i < |items| && items[i] == h;
            assert found[i] in Filter(users, NameLikeBy(q));
          }
        }
        Ok(200, Array(items))
  }

  /** `SearchUsers`: the rows are projected one by one onto a slice that
      starts out nil. */
  method SearchUsers(db: Database, q: string) returns (r: Response<Hits>)
    ensures r == Search(db.users, q)
  {
    if q == "" {
      return Ok(200, Array([]));
    }
    var found := Take(Filter(db.users, NameLikeBy(q)), SearchLimit);
    var result: Option<seq<UserHit>> := None;
    for i := 0 to |found|
      invariant i == 0 <==> result.None?
      invariant result.Some? ==> result.value == HitsOf(found[..i])
    {
      var so_far := if result.Some? then result.value else [];
      assert found[..i + 1] == found[..i] + [found[i]];
      result := Some(so_far + [Hit(found[i])]);
    }
    if result.None? {
      r := Ok(200, Null);
    } else {
      assert found[..|found|] == found;
      r := Ok(200, Array(result.value));
    }
  }

  /** For a query without '%' or '_', every user found has the query in
      their username, ignoring ASCII case. */
  lemma PlainQueryFindsSubstrings(users: seq<User>, q: string)
    requires q != "" && WildcardFree(q)
    ensures Search(users, q).value.Array? ==>
      forall h :: h in Search(users, q).value.items ==> Contains(LowerStr(h.username), LowerStr(q))
  {
    forall u | u in users ensures NameLike(u, q) <==> Contains(LowerStr(u.username), LowerStr(q)) {
      LikeContains(u.username, q);
    }
  }
}

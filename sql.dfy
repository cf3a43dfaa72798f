/** The parts of SQLite's semantics the handlers' queries depend on: the
    LIKE operator, text comparison (BETWEEN) and `ORDER BY updated_at DESC`. */
module Sql {
  import opened Common
  import opened ServerModels

  /** SQLite's `t LIKE p` without ESCAPE: '%' matches any run of
      characters, '_' any one character, and other characters match
      themselves up to ASCII case. */
  predicate Like(t: string, p: string)
    ensures Like(t, p) && '%' !in p ==> |t| == |p|
    decreases |p|, |t|
  {
    if p == [] then t == []
    else if p[0] == '%' then Like(t, p[1..]) || (t != [] && Like(t[1..], p))
    else if t == [] then false
    else
      assert '%' !in p ==> '%' !in p[1..] by {
        if '%' in p[1..] {
          var k :| 0 <= k < |p[1..]| && p[1..][k] == '%';
          assert p[k + 1] == '%';
        }
      }
      (p[0] == '_' || Lower(t[0]) == Lower(p[0])) && Like(t[1..], p[1..])
  }

  /** Without wildcards LIKE is equality up to ASCII case. */
  lemma {:induction false} LikeLiteral(t: string, p: string)
    requires WildcardFree(p)
    ensures Like(t, p) <==> LowerStr(t) == LowerStr(p)
    decreases |p|
  {
    if p != [] && t != [] {
      assert WildcardFree(p[1..]);
      LikeLiteral(t[1..], p[1..]);
      assert LowerStr(t) == [Lower(t[0])] + LowerStr(t[1..]);
      assert LowerStr(p) == [Lower(p[0])] + LowerStr(p[1..]);
    }
  }

  /** No '%' and no '_': a LIKE pattern that only compares characters. */
  predicate WildcardFree(s: string)
  {
    forall i :: 0 <= i < |s| ==> s[i] != '%' && s[i] != '_'
  }

  /** '%' alone matches every text. */
  lemma {:induction false} LikeAnything(t: string)
    ensures Like(t, "%")
    decreases |t|
  {
    if t != [] {
      LikeAnything(t[1..]);
    }
  }

  /** A leading '%' lets the rest of the pattern match any suffix. */
  lemma {:induction false} LikeLeadingPercent(t: string, q: string)
    ensures Like(t, "%" + q) <==> exists i :: 0 <= i <= |t| && Like(t[i..], q)
    decreases |t|
  {
    var p := "%" + q;
    assert p[1..] == q;
    assert t[0..] == t;
    if t != [] {
      LikeLeadingPercent(t[1..], q);
      forall i | 0 <= i <= |t| - 1
        ensures t[1..][i..] == t[i + 1..]
      {
      }
      if Like(t, p) && !Like(t, q) {
        var i :| 0 <= i <= |t[1..]| && Like(t[1..][i..], q);
        assert Like(t[i + 1..], q);
      }
      if exists i :: 0 <= i <= |t| && Like(t[i..], q) {
        var i :| 0 <= i <= |t| && Like(t[i..], q);
        if i > 0 {
          assert Like(t[1..][i - 1..], q);
        }
      }
    }
  }

  /** A wildcard-free text followed by '%' matches the texts that start
      with it, up to ASCII case. */
  lemma {:induction false} LikePrefix(t: string, s: string)
    requires WildcardFree(s)
    ensures Like(t, s + "%") <==> |s| <= |t| && LowerStr(t[..|s|]) == LowerStr(s)
    decreases |s|
  {
    var p := s + "%";
    if s == [] {
      assert p == "%";
      LikeAnything(t);
      assert LowerStr(t[..0]) == LowerStr(s);
    } else {
      assert p[0] == s[0] && p[1..] == s[1..] + "%";
      if t != [] {
        LikePrefix(t[1..], s[1..]);
      }
      if t != [] && |s| <= |t| {
        var a, b := LowerStr(t[..|s|]), LowerStr(s);
        assert t[1..][..|s| - 1] == t[..|s|][1..];
        assert LowerStr(t[..|s|][1..]) == a[1..];
        assert LowerStr(s[1..]) == b[1..];
        assert a == b <==> a[0] == b[0] && a[1..] == b[1..] by {
          if a[0] == b[0] && a[1..] == b[1..] {
            assert a == [a[0]] + a[1..] && b == [b[0]] + b[1..];
          }
        }
      }
    }
  }

  /** `t LIKE '%' || s || '%'` for a wildcard-free `s` holds exactly when
      `s` occurs in `t`, up to ASCII case. */
  lemma LikeContains(t: string, s: string)
    requires WildcardFree(s)
    ensures Like(t, "%" + s + "%") <==> Contains(LowerStr(t), LowerStr(s))
  {
    assert "%" + s + "%" == "%" + (s + "%");
    LikeLeadingPercent(t, s + "%");
    var lt, ls := LowerStr(t), LowerStr(s);
    forall i | 0 <= i <= |t|
      ensures Like(t[i..], s + "%") <==> OccursAt(lt, ls, i)
    {
      LikePrefix(t[i..], s);
      if |s| <= |t| - i {
        assert t[i..][..|s|] == t[i..i + |s|];
        assert LowerStr(t[i..i + |s|]) == lt[i..i + |s|];
      }
    }
    if Contains(lt, ls) {
      var i :| OccursAt(lt, ls, i);
      assert Like(t[i..], s + "%");
    }
  }

  /** With a wildcard in the query, LIKE is no substring test: "_" finds
      a username that does not contain "_". */
  lemma UnderscoreMatchesAnyCharacter()
    ensures Like("ann", "%" + "_" + "%") && !Contains("ann", "_")
  {
    assert Like("nn", "%");
    assert Like("ann", "_%");
    assert !Contains("ann", "_");
  }

  /** SQLite's BINARY text comparison: code point by code point, a proper
      prefix first. */
  predicate TextLe(a: string, b: string)
    decreases |a|
  {
    a == [] || (b != [] && (a[0] < b[0] || (a[0] == b[0] && TextLe(a[1..], b[1..]))))
  }

  /** The characters SQLite skips around a number: space, tab, line feed,
      vertical tab, form feed and carriage return. */
  predicate IsSpace(c: char)
  {
    c == ' ' || c == '\t' || c == '\n' || c == '\U{B}' || c == '\U{C}' || c == '\r'
  }

  predicate IsDigit(c: char) { '0' <= c <= '9' }

  /** The number of leading characters of `s` that satisfy `p`. */
  function RunOf(s: string, p: char -> bool): (n: nat)
    ensures n <= |s|
    ensures forall i :: 0 <= i < n ==> p(s[i])
    ensures n < |s| ==> !p(s[n])
    decreases |s|
  {
    if s != [] && p(s[0]) then 1 + RunOf(s[1..], p) else 0
  }

  /** `s` without a leading '+' or '-'. */
  function Unsigned(s: string): (r: string)
    ensures |r| <= |s|
  {
    if s != [] && (s[0] == '+' || s[0] == '-') then s[1..] else s
  }

  /** An exponent part: 'e' or 'E', an optional sign, then digits only. */
  predicate IsExponent(e: string)
  {
    e != [] && (e[0] == 'e' || e[0] == 'E')
    && var v := Unsigned(e[1..]); v != [] && RunOf(v, IsDigit) == |v|
  }

  /** A decimal numeral after its sign: digits, optionally a '.' and more
      digits, at least one digit in all, then an optional exponent. */
  predicate IsUnsignedNumeral(u: string)
  {
    var m := RunOf(u, IsDigit);
    var f := if m < |u| && u[m] == '.' then 1 + RunOf(u[m + 1..], IsDigit) else 0;
    (m > 0 || f > 1) && (m + f == |u| || IsExponent(u[m + f..]))
  }

  /** Whether NUMERIC affinity turns the text `s` into a number: a well-formed
      integer or real literal, with white space allowed around it. */
  predicate NumericText(s: string)
  {
    var a := RunOf(s, IsSpace);
    var rest := s[a..];
    var z := |rest| - RunOf(Reverse(rest), IsSpace);
    IsUnsignedNumeral(Unsigned(rest[..z]))
  }

  function Reverse(s: string): (r: string)
    ensures |r| == |s| && forall i :: 0 <= i < |s| ==> r[i] == s[|s| - 1 - i]
  {
    seq(|s|, i requires 0 <= i < |s| => s[|s| - 1 - i])
  }

  /** `x >= b` with `x` a stored date. The column is declared `datetime`, so
      it has NUMERIC affinity, and comparing it with a bound applies that
      affinity to the bound: a bound that reads as a number becomes one, and
      every text value sorts above every number. */
  predicate AtLeast(x: string, b: string)
  {
    NumericText(b) || TextLe(b, x)
  }

  /** `x <= b` with `x` a stored date, under the same conversion: nothing
      stored as text is at most a number. */
  predicate AtMost(x: string, b: string)
  {
    !NumericText(b) && TextLe(x, b)
  }

  /** `x BETWEEN lo AND hi` on the stored date text `x`. With text bounds an
      empty range (`hi` before `lo`) holds nothing and both ends of a
      non-empty range are inside it; a numeric `hi` admits nothing, and a
      numeric `lo` admits everything up to `hi`. */
  predicate Between(x: string, lo: string, hi: string)
    ensures Between(x, lo, hi) ==> !NumericText(hi) && (NumericText(lo) || TextLe(lo, hi))
    ensures !NumericText(lo) && !NumericText(hi) && TextLe(lo, hi) && (x == lo || x == hi) ==> Between(x, lo, hi)
    ensures NumericText(lo) && !NumericText(hi) ==> (Between(x, lo, hi) <==> TextLe(x, hi))
  {
    TextLeReflexive(lo);
    TextLeReflexive(hi);
    TextLeTransitive(lo, x, hi);
    AtLeast(x, lo) && AtMost(x, hi)
  }

  /** The range a year alone ends: `end=2025` is the number 2025, below every
      stored date, so the range holds no date at all. */
  lemma YearEndHoldsNothing(x: string)
    ensures NumericText("2025") && !Between(x, "2024-01-01", "2025")
  {
    assert RunOf("2025", IsSpace) == 0;
    assert "2025"[0..] == "2025";
    assert Reverse("2025") == "5202";
    assert RunOf("5202", IsSpace) == 0;
    assert "2025"[..4] == "2025";
    assert Unsigned("2025") == "2025";
    assert RunOf("2025"[3..], IsDigit) == 1;
    assert RunOf("2025"[2..], IsDigit) == 2;
    assert RunOf("2025"[1..], IsDigit) == 3;
    assert RunOf("2025", IsDigit) == 4;
  }

  lemma {:induction false} TextLeTransitive(a: string, b: string, c: string)
    ensures TextLe(a, b) && TextLe(b, c) ==> TextLe(a, c)
    decreases |a|
  {
    if a != [] && b != [] && c != [] && a[0] == b[0] == c[0] {
      TextLeTransitive(a[1..], b[1..], c[1..]);
    }
  }

  lemma {:induction false} TextLeReflexive(a: string)
    ensures TextLe(a, a)
    decreases |a|
  {
    if a != [] {
      TextLeReflexive(a[1..]);
    }
  }

  lemma {:induction false} TextLeAntisymmetric(a: string, b: string)
    requires TextLe(a, b) && TextLe(b, a)
    ensures a == b
    decreases |a|
  {
    if a != [] {
      assert b != [] && a[0] == b[0];
      TextLeAntisymmetric(a[1..], b[1..]);
      assert a == [a[0]] + a[1..] && b == [b[0]] + b[1..];
    }
  }

  /** A range with equal text ends holds exactly the stored text equal to
      them, and a numeric one holds nothing. */
  lemma BetweenPoint(x: string, d: string)
    ensures Between(x, d, d) <==> x == d && !NumericText(d)
  {
    if Between(x, d, d) {
      TextLeAntisymmetric(x, d);
    } else {
      TextLeReflexive(d);
    }
  }

  /** Newest first: `updatedAt` never increases along the list. */
  ghost predicate NewestFirst(s: seq<Note>)
  {
    forall i, j :: 0 <= i < j < |s| ==> s[i].updatedAt >= s[j].updatedAt
  }

  /** Puts `n` in front of the first note that is not newer than it. */
  function InsertByUpdated(n: Note, s: seq<Note>): (r: seq<Note>)
    requires NewestFirst(s)
    ensures |r| == |s| + 1
    ensures forall x :: x in r <==> x in s || x == n
    ensures NewestFirst(r)
    ensures multiset(r) == multiset(s) + multiset{n}
    decreases |s|
  {
    if s == [] || s[0].updatedAt <= n.updatedAt then
      [n] + s
    else
      var rest := InsertByUpdated(n, s[1..]);
      assert s == [s[0]] + s[1..];
      forall k | 0 <= k < |rest| ensures rest[k].updatedAt <= s[0].updatedAt {
        assert rest[k] in rest;
        if rest[k] != n {
          var j :| 0 <= j < |s[1..]| && s[1..][j] == rest[k];
          assert s[j + 1] == rest[k];
        }
      }
      NewestFirstCons(s[0], rest);
      [s[0]] + rest
  }

  lemma NewestFirstCons(x: Note, s: seq<Note>)
    requires NewestFirst(s)
    requires forall k :: 0 <= k < |s| ==> s[k].updatedAt <= x.updatedAt
    ensures NewestFirst([x] + s)
  {
    var r := [x] + s;
    forall i, j | 0 <= i < j < |r| ensures r[i].updatedAt >= r[j].updatedAt {
      assert r[j] == s[j - 1];
      if i > 0 {
        assert r[i] == s[i - 1];
      }
    }
  }

  /** `ORDER BY updated_at DESC`: the same rows, newest first; rows with
      equal `updatedAt` keep their table order. */
  function SortNewestFirst(s: seq<Note>): (r: seq<Note>)
    ensures |r| == |s|
    ensures forall x :: x in r <==> x in s
    ensures NewestFirst(r)
    ensures multiset(r) == multiset(s)
    decreases |s|
  {
    if s == [] then []
    else
      var sorted := SortNewestFirst(s[1..]);
      assert s == [s[0]] + s[1..];
      InsertByUpdated(s[0], sorted)
  }
}

/** The editor's preview pane (components/Editor.tsx): the body with every
    `@word` turned into a mention pill and then every `[[title]]` turned
    into a link to the first note with that exact title, or into a
    "broken link" marker when there is none. Both passes are JavaScript
    global `replace` calls, modelled as left-to-right scans. The link pass
    yields pieces (a plain character, a link, a broken link) that one
    function renders with the HTML templates, so that reasoning about the
    scan never has to look inside the templates. */
module EditorPreview {
  import opened Common
  import opened ClientTypes

  /** `\w` in a JavaScript regular expression without the `u` flag. */
  predicate IsWordChar(c: char)
  {
    ('a' <= c <= 'z') || ('A' <= c <= 'Z') || ('0' <= c <= '9') || c == '_'
  }

  /** `.` without the `s` flag stops at these. */
  predicate IsLineTerminator(c: char)
  {
    c == '\n' || c == '\r' || c == '\U{2028}' || c == '\U{2029}'
  }

  /** The length of the run of word characters `s` starts with: what the
      greedy `\w+` takes. */
  function WordRun(s: string): (n: nat)
    ensures n <= |s|
    ensures forall i :: 0 <= i < n ==> IsWordChar(s[i])
    ensures n < |s| ==> !IsWordChar(s[n])
    decreases |s|
  {
    if s != [] && IsWordChar(s[0]) then 1 + WordRun(s[1..]) else 0
  }

  const MentionOpen: string := "<span class=\"mention-pill\">@"
  const MentionClose: string := "</span>"

  /** `.replace(/@(\w+)/g, '<span class="mention-pill">@$1</span>')`:
      it only adds markup. */
  function Mentions(s: string): (r: string)
    ensures |s| <= |r|
    decreases |s|
  {
    if s == [] then []
    else if s[0] == '@' && |s| > 1 && IsWordChar(s[1]) then
      var n := WordRun(s[1..]);
      MentionOpen + s[1..1 + n] + MentionClose + Mentions(s[1 + n..])
    else [s[0]] + Mentions(s[1..])
  }

  /** The markup the mention pass adds holds no link bracket, so it
      neither makes nor breaks a `[[…]]`. */
  lemma {:induction false} MentionsKeepBrackets(s: string)
    ensures '[' in Mentions(s) <==> '[' in s
    ensures ']' in Mentions(s) <==> ']' in s
    decreases |s|
  {
    if s == [] {
    } else if s[0] == '@' && |s| > 1 && IsWordChar(s[1]) {
      var n := WordRun(s[1..]);
      var w, rest := s[1..1 + n], s[1 + n..];
      assert s == [s[0]] + w + rest;
      PillHasNoBracket(w);
      MentionsKeepBrackets(rest);
    } else {
      assert s == [s[0]] + s[1..];
      MentionsKeepBrackets(s[1..]);
    }
  }

  lemma PillHasNoBracket(w: string)
    requires forall k :: 0 <= k < |w| ==> IsWordChar(w[k])
    ensures '[' !in w && ']' !in w
    ensures '[' !in MentionOpen + w + MentionClose && ']' !in MentionOpen + w + MentionClose
  {
    assert '[' !in MentionOpen && ']' !in MentionOpen;
    assert '[' !in MentionClose && ']' !in MentionClose;
  }

  /** An '@' not followed by a word character is kept as it is. */
  lemma LoneAtKept(s: string)
    requires s == [] || !IsWordChar(s[0])
    ensures Mentions("@" + s) == "@" + Mentions(s)
  {
    assert ("@" + s)[1..] == s;
  }

  /** Text before any '@' passes through the mention pass unchanged. */
  lemma {:induction false} MentionsPlainPrefix(p: string, s: string)
    requires forall k :: 0 <= k < |p| ==> p[k] != '@'
    ensures Mentions(p + s) == p + Mentions(s)
    decreases |p|
  {
    if p == [] {
      assert p + s == s;
    } else {
      var ps := p + s;
      assert ps[0] == p[0];
      assert ps[1..] == p[1..] + s;
      MentionsPlainPrefix(p[1..], s);
      calc {
        Mentions(ps);
        [ps[0]] + Mentions(ps[1..]);
        [p[0]] + (p[1..] + Mentions(s));
      }
      assert [p[0]] + p[1..] == p;
    }
  }

  /** Text without an '@' comes out of the mention pass unchanged. */
  lemma MentionsWithoutAt(s: string)
    requires forall k :: 0 <= k < |s| ==> s[k] != '@'
    ensures Mentions(s) == s
  {
    MentionsPlainPrefix(s, []);
    assert s + [] == s;
  }

  /** A single mention: `@` and a whole word become one pill with the word. */
  lemma {:induction false} MentionOfWord(w: string, rest: string)
    requires w != [] && forall i :: 0 <= i < |w| ==> IsWordChar(w[i])
    requires rest != [] ==> !IsWordChar(rest[0])
    ensures Mentions("@" + w + rest) == MentionOpen + w + MentionClose + Mentions(rest)
  {
    var s := "@" + w + rest;
    WordRunOfWord(w, rest);
    assert s[1..] == w + rest;
    assert s[1..1 + |w|] == w;
    assert s[1 + |w|..] == rest;
  }

  lemma {:induction false} WordRunOfWord(w: string, rest: string)
    requires forall i :: 0 <= i < |w| ==> IsWordChar(w[i])
    requires rest != [] ==> !IsWordChar(rest[0])
    ensures WordRun(w + rest) == |w|
    decreases |w|
  {
    if w == [] {
      assert w + rest == rest;
    } else {
      assert (w + rest)[1..] == w[1..] + rest;
      WordRunOfWord(w[1..], rest);
    }
  }

  /** A line terminator sits somewhere in `s[i..j]`. */
  predicate BreakBetween(s: string, i: nat, j: nat)
    requires j <= |s|
  {
    exists k :: i <= k < j && IsLineTerminator(s[k])
  }

  /** The position of the `]]` closing a link whose title starts at `i`:
      the lazy `(.*?)\]\]` takes the nearest one, and finds none when a
      line terminator or the end of the text comes first. */
  function CloseAt(s: string, i: nat): (r: Option<nat>)
    ensures r.Some? ==> i <= r.value && r.value + 1 < |s| && s[r.value] == ']' && s[r.value + 1] == ']'
    ensures r.Some? ==> forall k :: i <= k < r.value ==> !IsLineTerminator(s[k]) && !(s[k] == ']' && s[k + 1] == ']')
    ensures r.None? ==> forall j :: i <= j && j + 1 < |s| && s[j] == ']' && s[j + 1] == ']' ==> BreakBetween(s, i, j)
    decreases |s| - i
  {
    if i + 1 >= |s| then None
    else if s[i] == ']' && s[i + 1] == ']' then Some(i)
    else if IsLineTerminator(s[i]) then None
    else CloseAt(s, i + 1)
  }

  predicate TitleIs(title: string, n: Note) { n.title == title }

  /** `notes.find(n => n.title === p1)`: the first note with exactly that
      title. */
  function Resolve(notes: seq<Note>, title: string): (r: Option<Note>)
    ensures r.Some? ==> r.value.title == title
    ensures r.Some? ==> exists i :: 0 <= i < |notes| && notes[i] == r.value && forall j :: 0 <= j < i ==> notes[j].title != title
    ensures r.None? <==> forall n :: n in notes ==> n.title != title
  {
    Find(notes, n => TitleIs(title, n))
  }

  /** One piece of the link pass's output. */
  datatype Piece = Plain(c: char) | Link(noteId: string, title: string) | Broken(title: string)

  /** The replacement chosen for one `[[title]]`: a link to the first note
      with exactly that title, or the broken marker when no note has it. */
  function LinkFor(notes: seq<Note>, title: string): (r: Piece)
    ensures r.Link? <==> exists n :: n in notes && n.title == title
    ensures r.Link? ==> r.title == title && r == Link(Resolve(notes, title).value.id, title)
    ensures r.Broken? ==> r.title == title
  {
    match Resolve(notes, title)
    case Some(n) => Link(n.id, title)
    case None => Broken(title)
  }

  /** Characters kept as they are. */
  function Plains(s: string): (r: seq<Piece>)
    ensures |r| == |s| && forall i :: 0 <= i < |s| ==> r[i] == Plain(s[i])
  {
    seq(|s|, i requires 0 <= i < |s| => Plain(s[i]))
  }

  /** `.replace(/\[\[(.*?)\]\]/g, ...)`, as pieces: every character is
      kept or consumed by a link. */
  function LinkPass(notes: seq<Note>, s: string): (r: seq<Piece>)
    ensures |r| <= |s|
    decreases |s|
  {
    if |s| < 2 then Plains(s)
    else if s[0] == '[' && s[1] == '[' then
      match CloseAt(s, 2)
      case Some(j) => [LinkFor(notes, s[2..j])] + LinkPass(notes, s[j + 2..])
      case None => [Plain(s[0])] + LinkPass(notes, s[1..])
    else [Plain(s[0])] + LinkPass(notes, s[1..])
  }

  /** An opening `[[` with no `]]` before the next line break (and no
      other '[' after it) is no link: all of it stays text. */
  lemma UnclosedLinkIsText(notes: seq<Note>, t: string)
    requires '[' !in t
    requires forall j :: 0 <= j && j + 1 < |t| && t[j] == ']' && t[j + 1] == ']' ==> BreakBetween(t, 0, j)
    ensures LinkPass(notes, "[[" + t) == Plains("[[" + t)
  {
    var s := "[[" + t;
    UnclosedHasNoClose(t);
    assert s[1..] == "[" + t;
    LoneBracketIsText(notes, t);
    assert [Plain('[')] + Plains("[" + t) == Plains(s);
  }

  lemma LoneBracketIsText(notes: seq<Note>, t: string)
    requires '[' !in t
    ensures LinkPass(notes, "[" + t) == Plains("[" + t)
  {
    var u := "[" + t;
    if t != [] {
      assert t[0] != '[' by {
        assert t[0] in t;
      }
      assert u[0] == '[' && u[1] == t[0] && u[1..] == t;
      assert LinkPass(notes, u) == [Plain('[')] + LinkPass(notes, t);
      NoBracketNoLinks(notes, t);
      assert [Plain('[')] + Plains(t) == Plains(u);
    }
  }

  lemma UnclosedHasNoClose(t: string)
    requires forall j :: 0 <= j && j + 1 < |t| && t[j] == ']' && t[j + 1] == ']' ==> BreakBetween(t, 0, j)
    ensures CloseAt("[[" + t, 2).None?
  {
    var s := "[[" + t;
    forall j | 2 <= j && j + 1 < |s| && s[j] == ']' && s[j + 1] == ']'
      ensures BreakBetween(s, 2, j)
    {
      assert t[j - 2] == ']' && t[j - 1] == ']';
      assert BreakBetween(t, 0, j - 2);
      var k :| 0 <= k < j - 2 && IsLineTerminator(t[k]);
      assert 2 <= k + 2 < j && IsLineTerminator(s[k + 2]);
    }
  }

  /** The page icon in front of a link text. The source file's bytes hold
      the UTF-8 encoding of U+1F4C4 read back as Windows-1252, so the page
      shows these four characters. */
  const PageIcon: string := "\U{F0}\U{178}\U{201C}\U{201E}"

  /** The opening tag of a link to the note `id`: an anchor whose click
      handler calls `window.navigate` with the id. */
  function LinkOpen(id: string): (r: string)
    ensures |r| == |NavigateCall| + |id| + |LinkClass|
    ensures r[..|NavigateCall|] == NavigateCall && r[|NavigateCall|..|NavigateCall| + |id|] == id
  {
    NavigateCall + id + LinkClass
  }

  const NavigateCall: string := "<a href=\"#\" onclick=\"event.preventDefault(); window.navigate('"

  const LinkClass: string :=
    "')\" class=\"wiki-link text-notion-text border-b border-notion-text/30 hover:bg-notion-hover transition-colors font-medium\">"

  const BrokenOpen: string :=
    "<span class=\"wiki-link-broken text-notion-dim/60 border-b border-dashed border-notion-dim/30 cursor-help\" title=\"Page not created yet\">"

  /** The HTML the callback returns for each kind of piece: a plain
      character as itself; a link as the anchor that navigates to the piece's
      note id, holding the icon, a space and the title; a broken marker as
      the span with the same content. */
  function PieceHtml(p: Piece): (r: string)
    ensures p.Plain? ==> r == [p.c]
    ensures p.Link? ==> r == LinkOpen(p.noteId) + PageIcon + " " + p.title + "</a>"
    ensures p.Broken? ==> r == BrokenOpen + PageIcon + " " + p.title + "</span>"
    ensures p.Link? ==> EndsWith(r, " " + p.title + "</a>")
    ensures p.Broken? ==> EndsWith(r, " " + p.title + "</span>")
    ensures r != []
  {
    match p
    case Plain(c) => [c]
    case Link(id, title) => Labelled(LinkOpen(id), title, "</a>")
    case Broken(title) => Labelled(BrokenOpen, title, "</span>")
  }

  /** An element holding the page icon and a link text. */
  function Labelled(open: string, title: string, close: string): (r: string)
    ensures r == open + PageIcon + " " + title + close
    ensures EndsWith(r, " " + title + close)
  {
    EndsWithAppend(open + PageIcon, " " + title + close);
    assert open + PageIcon + (" " + title + close) == open + PageIcon + " " + title + close;
    open + PageIcon + (" " + title + close)
  }

  /** `s` ends with `suffix`. */
  predicate EndsWith(s: string, suffix: string)
  {
    |suffix| <= |s| && s[|s| - |suffix|..] == suffix
  }

  lemma EndsWithAppend(s: string, suffix: string)
    ensures EndsWith(s + suffix, suffix)
  {
    assert (s + suffix)[|s|..] == suffix;
  }

  /** The pieces' HTML, one after the other. */
  function Html(ps: seq<Piece>): (r: string)
    ensures |ps| <= |r|
    decreases |ps|
  {
    if ps == [] then [] else PieceHtml(ps[0]) + Html(ps[1..])
  }

  /** The markup of a sequence of pieces is that of its parts, one after
      the other. */
  lemma {:induction false} HtmlAppend(a: seq<Piece>, b: seq<Piece>)
    ensures Html(a + b) == Html(a) + Html(b)
    decreases |a|
  {
    if a == [] {
      assert a + b == b;
    } else {
      assert (a + b)[1..] == a[1..] + b;
      HtmlAppend(a[1..], b);
    }
  }

  /** The preview pane's pieces: the mention pass, then the link pass;
      body text without '[' yields no link, whatever its mentions. */
  function PreviewPieces(notes: seq<Note>, content: string): (r: seq<Piece>)
    ensures '[' !in content ==> r == Plains(Mentions(content))
  {
    MentionsKeepBrackets(content);
    NoBracketNoLinks(notes, Mentions(content));
    LinkPass(notes, Mentions(content))
  }

  /** The text handed to the Markdown renderer: without '[' in the body
      it is the mention pass's output. */
  function Preview(notes: seq<Note>, content: string): (r: string)
    ensures '[' !in content ==> r == Mentions(content)
  {
    PlainsRenderAsText(Mentions(content));
    Html(PreviewPieces(notes, content))
  }

  /** Text before any '[' passes through the link pass unchanged. */
  lemma {:induction false} LinkPassPlainPrefix(notes: seq<Note>, p: string, s: string)
    requires forall k :: 0 <= k < |p| ==> p[k] != '['
    ensures LinkPass(notes, p + s) == Plains(p) + LinkPass(notes, s)
    decreases |p|
  {
    if p == [] {
      assert p + s == s;
    } else {
      var ps := p + s;
      assert ps[0] == p[0];
      assert ps[1..] == p[1..] + s;
      LinkPassPlainPrefix(notes, p[1..], s);
      if |ps| < 2 {
        assert s == [] && ps == p;
        assert Plains(p[1..]) == [];
        assert LinkPass(notes, []) == [];
      } else {
        calc {
          LinkPass(notes, ps);
          [Plain(ps[0])] + LinkPass(notes, ps[1..]);
          [Plain(p[0])] + (Plains(p[1..]) + LinkPass(notes, s));
        }
      }
      assert [Plain(p[0])] + Plains(p[1..]) == Plains(p);
    }
  }

  /** Text without a '[' comes out of the link pass as plain characters. */
  lemma NoBracketNoLinks(notes: seq<Note>, s: string)
    ensures '[' !in s ==> LinkPass(notes, s) == Plains(s)
  {
    if '[' !in s {
      assert forall k :: 0 <= k < |s| ==> s[k] in s;
      LinkPassPlainPrefix(notes, s, []);
      assert s + [] == s;
      assert Plains(s) + [] == Plains(s);
    }
  }

  /** Plain characters render as themselves. */
  lemma {:induction false} PlainsRenderAsText(s: string)
    ensures Html(Plains(s)) == s
    decreases |s|
  {
    if s != [] {
      assert Plains(s)[1..] == Plains(s[1..]);
      PlainsRenderAsText(s[1..]);
      assert Html(Plains(s)) == [s[0]] + Html(Plains(s[1..]));
    }
  }

  /** Text with neither '@' nor '[' previews as itself. */
  lemma PlainTextPreview(notes: seq<Note>, s: string)
    requires '@' !in s && '[' !in s
    ensures PreviewPieces(notes, s) == Plains(s)
    ensures Preview(notes, s) == s
  {
    assert forall k :: 0 <= k < |s| ==> s[k] in s;
    MentionsWithoutAt(s);
    NoBracketNoLinks(notes, s);
  }

  /** A title with no ']' and no line terminator: the lazy match of
      `[[t]]` ends at the `]]` right after it. */
  predicate PlainTitle(t: string)
  {
    forall k :: 0 <= k < |t| ==> !IsLineTerminator(t[k]) && t[k] != ']'
  }

  /** The markup of one wiki link. */
  function LinkMarkup(t: string): (r: string)
    ensures |r| == |t| + 4 && r[..2] == "[[" && r[2..|t| + 2] == t && r[|t| + 2..] == "]]"
  {
    "[[" + t + "]]"
  }

  lemma {:induction false} CloseAfterTitle(t: string, rest: string, i: nat)
    requires 2 <= i <= 2 + |t|
    requires PlainTitle(t)
    ensures CloseAt(LinkMarkup(t) + rest, i) == Some(2 + |t|)
    decreases 2 + |t| - i
  {
    var s := LinkMarkup(t) + rest;
    assert s[2 + |t|] == ']' && s[3 + |t|] == ']';
    if i < 2 + |t| {
      assert s[i] == t[i - 2];
      CloseAfterTitle(t, rest, i + 1);
    }
  }

  /** One wiki link: `[[t]]` becomes the link to the first note titled
      exactly `t`, or the broken marker when no note has that title. */
  lemma LinkOfTitle(notes: seq<Note>, t: string, rest: string)
    requires PlainTitle(t)
    ensures LinkPass(notes, LinkMarkup(t) + rest) == [LinkFor(notes, t)] + LinkPass(notes, rest)
  {
    var s := LinkMarkup(t) + rest;
    CloseAfterTitle(t, rest, 2);
    assert s[2..2 + |t|] == t;
    assert s[2 + |t| + 2..] == rest;
  }

  /** Plain text followed by one wiki link (for example "See [[Roadmap]]")
      previews as the same text followed by the link to the first note with
      that title, or by the broken marker when no note has it. */
  lemma TextThenLink(notes: seq<Note>, p: string, t: string)
    requires forall k :: 0 <= k < |p| ==> p[k] != '@' && p[k] != '['
    requires PlainTitle(t) && forall k :: 0 <= k < |t| ==> t[k] != '@'
    ensures PreviewPieces(notes, p + LinkMarkup(t)) == Plains(p) + [LinkFor(notes, t)]
  {
    TextThenLinkMentions(p, t);
    LinkOfTitle(notes, t, []);
    assert LinkMarkup(t) + [] == LinkMarkup(t);
    assert LinkPass(notes, []) == [];
    LinkPassPlainPrefix(notes, p, LinkMarkup(t));
  }

  /** The same as HTML: "See [[Roadmap]]" renders "See " and then the
      anchor that navigates to the first note titled "Roadmap", holding the
      icon and the title, or the broken-link span when no note has it. */
  lemma TextThenLinkHtml(notes: seq<Note>, p: string, t: string)
    requires forall k :: 0 <= k < |p| ==> p[k] != '@' && p[k] != '['
    requires PlainTitle(t) && forall k :: 0 <= k < |t| ==> t[k] != '@'
    ensures Resolve(notes, t).Some? ==>
      Preview(notes, p + LinkMarkup(t)) == p + (LinkOpen(Resolve(notes, t).value.id) + PageIcon + " " + t + "</a>")
    ensures Resolve(notes, t).None? ==>
      Preview(notes, p + LinkMarkup(t)) == p + (BrokenOpen + PageIcon + " " + t + "</span>")
  {
    var c := p + LinkMarkup(t);
    var link := LinkFor(notes, t);
    TextThenLink(notes, p, t);
    TextThenPieceHtml(p, link);
    calc {
      Preview(notes, c);
      Html(PreviewPieces(notes, c));
      Html(Plains(p) + [link]);
      p + PieceHtml(link);
    }
  }

  /** Plain text then one piece renders as the text then that piece's HTML. */
  lemma TextThenPieceHtml(p: string, x: Piece)
    ensures Html(Plains(p) + [x]) == p + PieceHtml(x)
  {
    HtmlAppend(Plains(p), [x]);
    PlainsRenderAsText(p);
    assert Html([x]) == PieceHtml(x) + Html([]);
  }

  lemma TextThenLinkMentions(p: string, t: string)
    requires forall k :: 0 <= k < |p| ==> p[k] != '@'
    requires forall k :: 0 <= k < |t| ==> t[k] != '@'
    ensures Mentions(p + LinkMarkup(t)) == p + LinkMarkup(t)
  {
    MarkupWithoutAt(t);
    NoAtAppend(p, LinkMarkup(t));
    MentionsWithoutAt(p + LinkMarkup(t));
  }

  lemma MarkupWithoutAt(t: string)
    requires forall k :: 0 <= k < |t| ==> t[k] != '@'
    ensures forall k :: 0 <= k < |LinkMarkup(t)| ==> LinkMarkup(t)[k] != '@'
  {
    var m := LinkMarkup(t);
    forall k | 0 <= k < |m| ensures m[k] != '@' {
      if 2 <= k < 2 + |t| {
        assert m[k] == m[2..|t| + 2][k - 2];
      } else if k < 2 {
        assert m[k] == m[..2][k];
      } else {
        assert m[k] == m[|t| + 2..][k - |t| - 2];
      }
    }
  }

  lemma NoAtAppend(a: string, b: string)
    requires forall k :: 0 <= k < |a| ==> a[k] != '@'
    requires forall k :: 0 <= k < |b| ==> b[k] != '@'
    ensures forall k :: 0 <= k < |a + b| ==> (a + b)[k] != '@'
  {
  }

  lemma PlainTitleAppend(a: string, b: string)
    requires PlainTitle(a) && PlainTitle(b)
    ensures PlainTitle(a + b)
  {
  }

  /** The mention pill's markup holds no ']' and no line terminator. */
  lemma PillIsPlainTitle(w: string)
    requires forall i :: 0 <= i < |w| ==> IsWordChar(w[i])
    ensures PlainTitle(MentionOpen + w + MentionClose)
  {
    assert PlainTitle(MentionOpen);
    assert PlainTitle(MentionClose);
    PlainTitleAppend(MentionOpen, w);
    PlainTitleAppend(MentionOpen + w, MentionClose);
  }

  /** The mention pass runs first, so `[[@word]]` looks for a note whose
      title is the mention pill's markup, not "@word". */
  lemma MentionInsideLink(notes: seq<Note>, w: string)
    requires w != [] && forall i :: 0 <= i < |w| ==> IsWordChar(w[i])
    ensures PreviewPieces(notes, LinkMarkup("@" + w)) == [LinkFor(notes, MentionOpen + w + MentionClose)]
  {
    var pill := MentionOpen + w + MentionClose;
    MentionInMarkup(w);
    PillIsPlainTitle(w);
    LinkOfTitle(notes, pill, []);
    assert LinkMarkup(pill) + [] == LinkMarkup(pill);
    assert LinkPass(notes, []) == [];
  }

  lemma MentionInMarkup(w: string)
    requires w != [] && forall i :: 0 <= i < |w| ==> IsWordChar(w[i])
    ensures Mentions(LinkMarkup("@" + w)) == LinkMarkup(MentionOpen + w + MentionClose)
  {
    var open, close := "[[", "]]";
    var pill := MentionOpen + w + MentionClose;
    MentionThenText(w, close);
    MentionsPlainPrefix(open, "@" + w + close);
    assert LinkMarkup("@" + w) == open + ("@" + w + close);
    assert open + (pill + close) == LinkMarkup(pill);
  }

  lemma MentionThenText(w: string, rest: string)
    requires w != [] && forall i :: 0 <= i < |w| ==> IsWordChar(w[i])
    requires rest != [] ==> !IsWordChar(rest[0])
    requires forall k :: 0 <= k < |rest| ==> rest[k] != '@'
    ensures Mentions("@" + w + rest) == MentionOpen + w + MentionClose + rest
  {
    MentionOfWord(w, rest);
    MentionsWithoutAt(rest);
  }
}

/** The HTML text that the highlighter writes: escaping, tags, and an independent
    reader that says what such text means (its characters, its open elements). */
module Markup {
  import opened Wrappers

  lemma Associates<T>(a: seq<T>, b: seq<T>, c: seq<T>)
    ensures a + b + c == a + (b + c)
  {
  }

  // ----- writing -----

  /** `s.replace(/c/g, repl)` for a one-character pattern. */
  function ReplaceAll(s: string, c: char, repl: string): string {
    if s == "" then "" else (if s[0] == c then repl else [s[0]]) + ReplaceAll(s[1..], c, repl)
  }

  /** The three passes of the escape function, in the source's order. */
  function Escape(s: string): string {
    ReplaceAll(ReplaceAll(ReplaceAll(s, '&', "&amp;"), '<', "&lt;"), '>', "&gt;")
  }

  function EscapeChar(c: char): string {
    if c == '&' then "&amp;" else if c == '<' then "&lt;" else if c == '>' then "&gt;" else [c]
  }

  datatype Token = Chr(c: char) | Tag(body: string)

  function RenderToken(t: Token): string {
    match t
    case Chr(c) => EscapeChar(c)
    case Tag(body) => "<" + body + ">"
  }

  function Render(doc: seq<Token>): string {
    if doc == [] then "" else RenderToken(doc[0]) + Render(doc[1..])
  }

  function Chars(s: string): seq<Token> {
    seq(|s|, i requires 0 <= i < |s| => Chr(s[i]))
  }

  lemma {:induction false} ReplaceAllConcat(a: string, b: string, c: char, repl: string)
    ensures ReplaceAll(a + b, c, repl) == ReplaceAll(a, c, repl) + ReplaceAll(b, c, repl)
  {
    if a == "" {
      assert a + b == b;
    } else {
      assert (a + b)[1..] == a[1..] + b;
      ReplaceAllConcat(a[1..], b, c, repl);
      Associates(if a[0] == c then repl else [a[0]], ReplaceAll(a[1..], c, repl), ReplaceAll(b, c, repl));
    }
  }

  lemma EscapeStep(s: string)
    requires s != ""
    ensures Escape(s) == EscapeChar(s[0]) + Escape(s[1..])
  {
    var c := s[0];
    var first := ReplaceAll([c], '&', "&amp;");
    var rest := ReplaceAll(s[1..], '&', "&amp;");
    assert [c] + s[1..] == s;
    ReplaceAllConcat([c], s[1..], '&', "&amp;");
    ReplaceAllConcat(first, rest, '<', "&lt;");
    ReplaceAllConcat(ReplaceAll(first, '<', "&lt;"), ReplaceAll(rest, '<', "&lt;"), '>', "&gt;");
    EscapeOne(c);
  }

  lemma ReplaceOne(c: char, d: char, repl: string)
    ensures ReplaceAll([c], d, repl) == if c == d then repl else [c]
  {
    assert [c][1..] == "" && ReplaceAll("", d, repl) == "";
    assert repl + "" == repl && [c] + "" == [c];
  }

  lemma EscapeOne(c: char)
    ensures Escape([c]) == EscapeChar(c)
  {
    ReplaceOne(c, '&', "&amp;");
    ReplaceOne(c, '<', "&lt;");
    ReplaceOne(c, '>', "&gt;");
    if c == '&' {
      NoOccurrence("&amp;", '<', "&lt;");
      NoOccurrence("&amp;", '>', "&gt;");
    } else if c == '<' {
      NoOccurrence("&lt;", '>', "&gt;");
    }
  }

  lemma {:induction false} NoOccurrence(s: string, c: char, repl: string)
    requires c !in s
    ensures ReplaceAll(s, c, repl) == s
  {
    if s != "" {
      NoOccurrence(s[1..], c, repl);
    }
  }

  /** Escaping text is rendering it character by character. */
  lemma {:induction false} RenderChars(s: string)
    ensures Render(Chars(s)) == Escape(s)
  {
    if s != "" {
      EscapeStep(s);
      RenderChars(s[1..]);
      assert Chars(s)[1..] == Chars(s[1..]);
    }
  }

  lemma {:induction false} RenderConcat(a: seq<Token>, b: seq<Token>)
    ensures Render(a + b) == Render(a) + Render(b)
  {
    if a == [] {
      assert a + b == b;
    } else {
      assert (a + b)[1..] == a[1..] + b;
      RenderConcat(a[1..], b);
      Associates(RenderToken(a[0]), Render(a[1..]), Render(b));
    }
  }

  // ----- reading -----

  function FindChar(s: string, c: char): (r: Option<nat>)
    ensures r.Some? ==> r.value < |s| && s[r.value] == c && c !in s[..r.value]
  {
    if s == "" then None
    else if s[0] == c then Some(0)
    else
      match FindChar(s[1..], c)
      case None => None
      case Some(k) => assert s[..k + 1] == [s[0]] + s[1..][..k]; Some(k + 1)
  }

  /** An independent reader of the emitted text: `<...>` is a tag, the three entities
      are one character each, a bare `>` or `&` is malformed. */
  function Read(s: string): Option<seq<Token>> {
    if s == "" then Some([])
    else if s[0] == '<' then
      var k :- FindChar(s, '>');
      var rest :- Read(s[k + 1..]);
      Some([Tag(s[1..k])] + rest)
    else if s[0] == '&' then
      if "&amp;" <= s then var rest :- Read(s[5..]); Some([Chr('&')] + rest)
      else if "&lt;" <= s then var rest :- Read(s[4..]); Some([Chr('<')] + rest)
      else if "&gt;" <= s then var rest :- Read(s[4..]); Some([Chr('>')] + rest)
      else None
    else if s[0] == '>' then None
    else
      var rest :- Read(s[1..]);
      Some([Chr(s[0])] + rest)
  }

  /** No tag of the document is cut short by a `>` inside it. */
  predicate Plain(doc: seq<Token>) {
    doc == [] || ((doc[0].Tag? ==> '>' !in doc[0].body) && Plain(doc[1..]))
  }

  lemma {:induction false} PlainConcat(a: seq<Token>, b: seq<Token>)
    ensures Plain(a + b) <==> Plain(a) && Plain(b)
  {
    if a == [] {
      assert a + b == b;
    } else {
      assert (a + b)[1..] == a[1..] + b;
      PlainConcat(a[1..], b);
    }
  }

  lemma {:induction false} PlainChars(s: string)
    ensures Plain(Chars(s))
  {
    if s != "" {
      assert Chars(s)[1..] == Chars(s[1..]);
      PlainChars(s[1..]);
    }
  }

  lemma {:induction false} FindFirst(s: string, k: nat, c: char)
    requires k < |s| && s[k] == c && c !in s[..k]
    ensures FindChar(s, c) == Some(k)
  {
    var r := FindChar(s, c);
    if k == 0 {
    } else {
      assert s[0] == s[..k][0];
      assert s[1..][..k - 1] == s[..k][1..];
      FindFirst(s[1..], k - 1, c);
    }
  }

  /** Reading back what was rendered gives the same tokens. */
  lemma {:induction false} ReadRender(doc: seq<Token>)
    requires Plain(doc)
    ensures Read(Render(doc)) == Some(doc)
  {
    if doc != [] {
      ReadRender(doc[1..]);
      var rest := Render(doc[1..]);
      var s := Render(doc);
      assert s == RenderToken(doc[0]) + rest;
      match doc[0]
      case Tag(body) =>
        var k := 1 + |body|;
        assert s[..k] == "<" + body;
        FindFirst(s, k, '>');
        assert s[1..k] == body && s[k + 1..] == rest;
      case Chr(c) =>
        var e := EscapeChar(c);
        assert e <= s && s[|e|..] == rest;
        if c == '<' || c == '>' {
          assert s[1] != 'a';
        }
        if c == '>' {
          assert s[1] != 'l';
        }
      assert [doc[0]] + doc[1..] == doc;
    }
  }

  // ----- meaning -----

  function TextOf(doc: seq<Token>): string {
    if doc == [] then ""
    else (if doc[0].Chr? then [doc[0].c] else "") + TextOf(doc[1..])
  }

  /** The element name of a tag body: everything before the first blank. */
  function NameOf(body: string): string {
    match FindChar(body, ' ')
    case None => body
    case Some(k) => body[..k]
  }

  predicate IsClose(body: string) {
    |body| > 0 && body[0] == '/'
  }

  /** The stack of open tag bodies after reading `doc` with `open` already open;
      None when a closing tag does not match the innermost open element.
      void elements are opened and never closed. */
  function Nest(doc: seq<Token>, open: seq<string>): Option<seq<string>> {
    if doc == [] then Some(open)
    else
      match doc[0]
      case Chr(_) => Nest(doc[1..], open)
      case Tag(body) =>
        if !IsClose(body) then
          Nest(doc[1..], if IsVoid(NameOf(body)) then open else open + [body])
        else if open != [] && NameOf(open[|open| - 1]) == body[1..] then
          Nest(doc[1..], open[..|open| - 1])
        else None
  }

  /** A document is balanced when it closes, in order, exactly what it opens. */
  ghost predicate Balanced(doc: seq<Token>) {
    Nest(doc, []) == Some([])
  }

  /** The void elements of the HTML Standard (section 13.1.2, and the obsolete `param`). */
  predicate IsVoid(name: string) {
    name in {"area", "base", "br", "col", "embed", "hr", "img", "input", "link", "meta", "param", "source",
             "track", "wbr"}
  }

  predicate Contains(s: string, sub: string) {
    exists k :: 0 <= k <= |s| && sub <= s[k..]
  }

  /** The test the source applies to an element name, as a search anywhere in it. */
  predicate LooksVoid(name: string) {
    Contains(name, "br") || Contains(name, "hr") || Contains(name, "img") || Contains(name, "input")
  }

  /** Of the void elements, the test finds exactly five. */
  lemma WhichVoidElementsAreFound(name: string)
    requires IsVoid(name)
    ensures LooksVoid(name) <==> name in {"br", "hr", "img", "input", "wbr"}
  {
    if name == "br" || name == "hr" || name == "img" || name == "input" {
      assert name <= name[0..];
    } else if name == "wbr" {
      assert "br" <= name[1..];
    } else {
      NotFound(name);
    }
  }

  lemma NotFound(name: string)
    requires 'h' !in name && 'g' !in name && !('i' in name && 'p' in name)
    requires forall k | 0 <= k < |name| - 1 :: !(name[k] == 'b' && name[k + 1] == 'r')
    ensures !LooksVoid(name)
  {
    forall k | 0 <= k <= |name|
      ensures !("br" <= name[k..]) && !("hr" <= name[k..]) && !("img" <= name[k..]) && !("input" <= name[k..])
    {
      var rest := name[k..];
      assert forall j | 0 <= j < |rest| :: rest[j] == name[k + j] && rest[j] in name;
      Beginnings(rest);
    }
  }

  lemma Beginnings(s: string)
    ensures "br" <= s ==> |s| > 1 && s[0] == 'b' && s[1] == 'r'
    ensures "hr" <= s ==> |s| > 0 && s[0] == 'h'
    ensures "img" <= s ==> |s| > 2 && s[2] == 'g'
    ensures "input" <= s ==> |s| > 2 && s[0] == 'i' && s[2] == 'p'
  {
  }

  /** The source's test is right about the name. */
  predicate Judged(name: string) {
    IsVoid(name) <==> LooksVoid(name)
  }

  /** The source opens such an element and never closes it. */
  predicate Stuck(name: string) {
    LooksVoid(name) && !IsVoid(name)
  }

  /** Every character of the document with the tag bodies it lies under, outermost first. */
  function Contexts(doc: seq<Token>, open: seq<string>): seq<(char, seq<string>)> {
    if doc == [] then []
    else
      match doc[0]
      case Chr(c) => [(c, open)] + Contexts(doc[1..], open)
      case Tag(body) =>
        if !IsClose(body) then
          Contexts(doc[1..], if IsVoid(NameOf(body)) then open else open + [body])
        else
          Contexts(doc[1..], if open == [] then open else open[..|open| - 1])
  }

  lemma {:induction false} TextConcat(a: seq<Token>, b: seq<Token>)
    ensures TextOf(a + b) == TextOf(a) + TextOf(b)
  {
    if a == [] {
      assert a + b == b;
    } else {
      assert (a + b)[1..] == a[1..] + b;
      TextConcat(a[1..], b);
      Associates(if a[0].Chr? then [a[0].c] else "", TextOf(a[1..]), TextOf(b));
    }
  }

  lemma {:induction false} TextOfChars(s: string)
    ensures TextOf(Chars(s)) == s
  {
    if s != "" {
      assert Chars(s)[1..] == Chars(s[1..]);
      TextOfChars(s[1..]);
    }
  }

  lemma {:induction false} NestConcat(a: seq<Token>, b: seq<Token>, open: seq<string>)
    ensures Nest(a + b, open) == match Nest(a, open) case None => None case Some(mid) => Nest(b, mid)
    decreases |a|
  {
    if a == [] {
      assert a + b == b;
    } else {
      assert (a + b)[1..] == a[1..] + b;
      match a[0]
      case Chr(_) => NestConcat(a[1..], b, open);
      case Tag(body) =>
        if !IsClose(body) {
          NestConcat(a[1..], b, if IsVoid(NameOf(body)) then open else open + [body]);
        } else if open != [] && NameOf(open[|open| - 1]) == body[1..] {
          NestConcat(a[1..], b, open[..|open| - 1]);
        }
    }
  }

  lemma NestThen(a: seq<Token>, b: seq<Token>, open: seq<string>, mid: seq<string>, out: seq<string>)
    requires Nest(a, open) == Some(mid) && Nest(b, mid) == Some(out)
    ensures Nest(a + b, open) == Some(out)
  {
    NestConcat(a, b, open);
  }

  lemma {:induction false} NestChars(s: string, open: seq<string>)
    ensures Nest(Chars(s), open) == Some(open)
  {
    if s != "" {
      assert Chars(s)[1..] == Chars(s[1..]);
      NestChars(s[1..], open);
    }
  }

  /** What is well nested on its own stays so inside other open elements. */
  lemma {:induction false} NestUnder(a: seq<Token>, open: seq<string>, outer: seq<string>)
    requires Nest(a, open).Some?
    ensures Nest(a, outer + open) == Some(outer + Nest(a, open).value)
    decreases |a|
  {
    if a != [] {
      match a[0]
      case Chr(_) => NestUnder(a[1..], open, outer);
      case Tag(body) =>
        if !IsClose(body) {
          if !IsVoid(NameOf(body)) {
            assert outer + open + [body] == outer + (open + [body]);
            NestUnder(a[1..], open + [body], outer);
          } else {
            NestUnder(a[1..], open, outer);
          }
        } else {
          assert (outer + open)[..|outer + open| - 1] == outer + open[..|open| - 1];
          NestUnder(a[1..], open[..|open| - 1], outer);
        }
    }
  }

  lemma BalancedUnder(a: seq<Token>, outer: seq<string>)
    requires Balanced(a)
    ensures Nest(a, outer) == Some(outer)
  {
    assert outer + [] == outer;
    NestUnder(a, [], outer);
  }

  // ----- documents that cannot be balanced -----

  function StuckBodies(open: seq<string>): nat {
    if open == [] then 0 else StuckBodies(open[..|open| - 1]) + if Stuck(NameOf(open[|open| - 1])) then 1 else 0
  }

  predicate OpensStuck(t: Token) {
    t.Tag? && !IsClose(t.body) && Stuck(NameOf(t.body))
  }

  function StuckTags(doc: seq<Token>): nat {
    if doc == [] then 0 else (if OpensStuck(doc[0]) then 1 else 0) + StuckTags(doc[1..])
  }

  /** Closing tags only name elements that the source does not take for void. */
  predicate CloserJudged(t: Token) {
    t.Tag? && IsClose(t.body) ==> !LooksVoid(t.body[1..])
  }

  ghost predicate ClosersJudged(doc: seq<Token>) {
    forall k | 0 <= k < |doc| :: CloserJudged(doc[k])
  }

  /** What is stuck stays open. */
  lemma {:induction false} StuckTagsStay(doc: seq<Token>, open: seq<string>)
    requires ClosersJudged(doc) && Nest(doc, open).Some?
    ensures StuckBodies(Nest(doc, open).value) == StuckBodies(open) + StuckTags(doc)
    decreases |doc|
  {
    hide Stuck, LooksVoid, IsVoid, StuckBodies, NameOf;
    if doc != [] {
      match doc[0]
      case Chr(_) => StuckTagsStay(doc[1..], open);
      case Tag(body) =>
        var open' := if !IsClose(body) then (if IsVoid(NameOf(body)) then open else open + [body])
                     else open[..|open| - 1];
        StuckTagsStay(doc[1..], open');
        StuckTagStep(body, open);
    }
  }

  lemma StuckTagStep(body: string, open: seq<string>)
    ensures !IsClose(body) ==>
              StuckBodies(if IsVoid(NameOf(body)) then open else open + [body])
              == StuckBodies(open) + if Stuck(NameOf(body)) then 1 else 0
    ensures IsClose(body) && open != [] && NameOf(open[|open| - 1]) == body[1..] && !LooksVoid(body[1..]) ==>
              StuckBodies(open[..|open| - 1]) == StuckBodies(open)
  {
    hide LooksVoid, IsVoid, NameOf;
    assert (open + [body])[..|open|] == open;
  }

  /** A closing tag that names a void element closes nothing. */
  lemma {:induction false} StrayCloser(doc: seq<Token>, open: seq<string>, k: nat)
    requires k < |doc| && doc[k].Tag? && IsClose(doc[k].body) && IsVoid(doc[k].body[1..])
    requires forall b <- open :: !IsVoid(NameOf(b))
    ensures Nest(doc, open) == None
    decreases |doc|
  {
    hide IsVoid, NameOf;
    if k > 0 {
      match doc[0]
      case Chr(_) => StrayCloser(doc[1..], open, k - 1);
      case Tag(body) =>
        if !IsClose(body) {
          StrayCloser(doc[1..], if IsVoid(NameOf(body)) then open else open + [body], k - 1);
        } else if open != [] && NameOf(open[|open| - 1]) == body[1..] {
          StrayCloser(doc[1..], open[..|open| - 1], k - 1);
        }
    }
  }

  lemma {:induction false} StuckTagShows(doc: seq<Token>, k: nat)
    requires k < |doc| && OpensStuck(doc[k])
    ensures StuckTags(doc) > 0
  {
    hide OpensStuck;
    if k > 0 {
      StuckTagShows(doc[1..], k - 1);
    }
  }

  /** A document that opens a stuck element, or closes a void one, is not balanced. */
  lemma MisjudgedNotBalanced(doc: seq<Token>, k: nat)
    requires ClosersJudged(doc) && k < |doc| && doc[k].Tag?
    requires OpensStuck(doc[k]) || (IsClose(doc[k].body) && IsVoid(doc[k].body[1..]))
    ensures !Balanced(doc)
  {
    hide IsVoid, LooksVoid, Stuck, NameOf, IsClose;
    if OpensStuck(doc[k]) {
      StuckTagShows(doc, k);
      if Balanced(doc) {
        StuckTagsStay(doc, []);
      }
    } else {
      StrayCloser(doc, [], k);
    }
  }
}

/** The highlighter's document is made of spans, and so is the text of a tree that a browser can
    parse from it. */
module HighlightSpans {
  import opened Wrappers
  import opened Markup
  import opened Highlight
  import opened HighlightProofs
  import N = NodeStream
  import M = MergeStreams
  import B = HighlightBlock
  import L = HighlightLosses
  import Roots = HighlightRoots

  // ----- only spans are written -----

  /** Written into an attribute as it is. */
  predicate SafeName(s: string) {
    '&' !in s && '<' !in s && '>' !in s && '"' !in s
  }

  ghost predicate SafeNames(reg: Registry) {
    && SafeName(reg.prefix) && (forall name <- reg.languages :: SafeName(name))
    && (forall id ::
          && (reg.mode(id).className.Some? ==> SafeName(reg.mode(id).className.value))
          && (reg.mode(id).keywordClasses.Some? ==> forall k <- reg.mode(id).keywordClasses.value :: SafeName(k)))
  }

  function ClassOf(body: string): string
    requires |body| >= 13
  {
    body[12..|body| - 1]
  }

  predicate SpanTag(body: string) {
    |body| >= 13 && body == SpanBody("", ClassOf(body)) && SafeName(ClassOf(body))
  }

  predicate SpanToken(t: Token) {
    t.Tag? ==> t.body == "/span" || SpanTag(t.body)
  }

  ghost predicate SpanDoc(doc: seq<Token>) {
    forall k | 0 <= k < |doc| :: SpanToken(doc[k])
  }

  lemma SpanBodyIsTag(prefix: string, cls: string)
    requires SafeName(prefix) && SafeName(cls)
    ensures SpanTag(SpanBody(prefix, cls))
  {
    var body := SpanBody(prefix, cls);
    assert |body| >= 13 && ClassOf(body) == prefix + cls;
    assert SpanBody("", prefix + cls) == body;
  }

  lemma WrapSpans(prefix: string, cls: string, doc: seq<Token>)
    requires SafeName(prefix) && SafeName(cls) && SpanDoc(doc)
    ensures SpanDoc(Wrap(SpanBody(prefix, cls), doc))
  {
    SpanBodyIsTag(prefix, cls);
    hide SpanTag, SafeName, SpanBody;
  }

  lemma CharsSpans(s: string)
    ensures SpanDoc(Chars(s))
  {
  }

  lemma OpenSpans(reg: Registry, id: ModeId)
    requires SafeNames(reg)
    ensures SpanDoc(OpenTag(reg, id))
  {
    if reg.mode(id).className.Some? {
      SpanBodyIsTag(reg.prefix, reg.mode(id).className.value);
    }
  }

  lemma {:induction false} CloseSpans(reg: Registry, modes: seq<ModeId>)
    ensures SpanDoc(CloseTags(reg, modes))
  {
    hide SpanTag;
    if modes != [] {
      CloseSpans(reg, modes[1..]);
    }
  }

  lemma {:induction false} OpenAllSpans(reg: Registry, modes: seq<ModeId>)
    requires SafeNames(reg)
    ensures SpanDoc(OpenTags(reg, modes))
  {
    hide SpanTag, SafeNames;
    if modes != [] {
      OpenSpans(reg, modes[0]);
      OpenAllSpans(reg, modes[1..]);
    }
  }

  lemma {:induction false} KeywordSpans(reg: Registry, classes: set<string>, text: string, from: nat,
                                        words: seq<WordHit>)
    requires from <= |text| && SafeName(reg.prefix) && (forall k <- classes :: SafeName(k))
    requires KeywordDoc(reg, classes, text, from, words).Ok?
    ensures SpanDoc(KeywordDoc(reg, classes, text, from, words).value)
    decreases words
  {
    hide SpanToken, SafeName, Chars, Wrap;
    if words == [] {
      CharsSpans(text[from..]);
    } else {
      var w := words[0];
      var upto := w.index + w.len;
      var word := Chars(text[w.index..upto]);
      KeywordSpans(reg, classes, text, upto, words[1..]);
      CharsSpans(text[from..w.index]);
      CharsSpans(text[w.index..upto]);
      if w.cls.Some? {
        WrapSpans(reg.prefix, w.cls.value, word);
      }
    }
  }

  ghost predicate Spanned(r: Rendered) {
    SpanDoc(r.doc) && (r.language.Some? ==> SafeName(r.language.value))
  }

  lemma LanguageSpans(r: Rendered)
    requires Spanned(r)
    ensures SpanDoc(Wrap(LanguageBody(r.language), r.doc))
  {
    WrapSpans("", if r.language.Some? then r.language.value else "undefined", r.doc);
  }

  lemma {:induction false} FlushSpans(reg: Registry, st: State, answers: Answers)
    requires SafeNames(reg) && SpanDoc(st.doc) && Flush(reg, st, answers).Ok?
    ensures SpanDoc(Flush(reg, st, answers).value.doc)
    decreases answers, 1
  {
    hide KeywordDoc, FlushNamed, FlushDetected, Chars, SpanToken, SafeName;
    CharsSpans(st.buf);
    var mode := reg.mode(st.stack[|st.stack| - 1]);
    match mode.sub
    case NoSub =>
      if mode.keywordClasses.Some? {
        KeywordSpans(reg, mode.keywordClasses.value, st.buf, 0, answers.words);
      }
    case Named(name) =>
      if name in reg.languages {
        NamedSpans(reg, st, mode, name, answers.nested);
      }
    case Auto => DetectedSpans(reg, st, mode, answers.nested);
  }

  lemma {:induction false} NamedSpans(reg: Registry, st: State, mode: Mode, name: string, nested: Nested)
    requires SafeNames(reg) && SpanDoc(st.doc) && FlushNamed(reg, st, mode, name, nested).Ok?
    ensures SpanDoc(FlushNamed(reg, st, mode, name, nested).value.doc)
    decreases nested, 0
  {
    hide Highlighted, Wrap, SpanToken, SafeName, Spanned;
    RunSpans(reg, name, st.buf, nested.script, true, Continued(st, name));
    LanguageSpans(Highlighted(reg, name, st.buf, nested.script, true, Continued(st, name)).value);
  }

  lemma {:induction false} DetectedSpans(reg: Registry, st: State, mode: Mode, nested: Nested)
    requires SafeNames(reg) && SpanDoc(st.doc) && FlushDetected(reg, st, mode, nested).Ok?
    ensures SpanDoc(FlushDetected(reg, st, mode, nested).value.doc)
    decreases nested, 0
  {
    hide BestOf, Wrap, SpanToken, SafeName, Spanned;
    PlainSpans(st.buf);
    BestSpans(reg, st.buf, nested.candidates, NoneYet(st.buf));
    LanguageSpans(BestOf(reg, st.buf, nested.candidates, NoneYet(st.buf)).value.best);
  }

  lemma PlainSpans(text: string)
    ensures Spanned(PlainResult(text))
  {
    CharsSpans(text);
  }

  lemma {:induction false} BestSpans(reg: Registry, text: string, candidates: Candidates, ranking: Ranking)
    requires SafeNames(reg) && Spanned(ranking.best) && Spanned(ranking.second)
             && BestOf(reg, text, candidates, ranking).Ok?
    ensures Spanned(BestOf(reg, text, candidates, ranking).value.best)
    decreases candidates, 0
  {
    hide Highlighted, SpanToken, SafeName;
    match candidates
    case NoMore =>
    case Candidate(name, script, others) =>
      var r := Highlighted(reg, name, text, script, false, None);
      RunSpans(reg, name, text, script, false, None);
      BestSpans(reg, text, others, Ranked(ranking, r.value.(language := Some(name))));
  }

  lemma {:induction false} BeginSpans(reg: Registry, st: State, lexeme: string, id: ModeId, answers: Answers)
    requires SafeNames(reg) && SpanDoc(st.doc) && BeginMode(reg, st, lexeme, id, answers).Ok?
    ensures SpanDoc(BeginMode(reg, st, lexeme, id, answers).value.st.doc)
    decreases answers, 2
  {
    hide Flush, OpenTag, SpanToken, SafeNames;
    var m := reg.mode(id);
    OpenSpans(reg, id);
    if !m.skip {
      FlushSpans(reg, if m.excludeBegin then st.(buf := st.buf + lexeme) else st, answers);
    }
  }

  lemma {:induction false} EndSpans(reg: Registry, st: State, lexeme: string, pos: nat, answers: Answers)
    requires SafeNames(reg) && SpanDoc(st.doc) && pos < |st.stack| && EndModes(reg, st, lexeme, pos, answers).Ok?
    ensures SpanDoc(EndModes(reg, st, lexeme, pos, answers).value.st.doc)
    decreases answers, 2
  {
    hide Flush, CloseTags, OpenTag, LeftScore, SpanToken, SafeNames;
    var m := reg.mode(st.stack[|st.stack| - 1]);
    CloseSpans(reg, st.stack[pos..]);
    var starts := reg.mode(st.stack[pos]).starts;
    if starts.Some? {
      OpenSpans(reg, starts.value);
    }
    if !m.skip {
      FlushSpans(reg, if m.returnEnd || m.excludeEnd then st else st.(buf := st.buf + lexeme), answers);
    }
  }

  lemma {:induction false} StepSpans(reg: Registry, st: State, lexeme: string, hit: Hit, ignoreIllegals: bool,
                                     atEnd: bool)
    requires SafeNames(reg) && SpanDoc(st.doc) && st.stack != []
    requires Process(reg, st, lexeme, hit, ignoreIllegals, atEnd).Ok?
             && Process(reg, st, lexeme, hit, ignoreIllegals, atEnd).value.Advanced?
    ensures SpanDoc(Process(reg, st, lexeme, hit, ignoreIllegals, atEnd).value.st.doc)
    decreases hit
  {
    hide BeginMode, EndModes, EndedAt, FirstBegun, SpanDoc, SafeNames;
    var top := reg.mode(st.stack[|st.stack| - 1]);
    match FirstBegun(top.contains, hit.begins)
    case Some(id) => BeginSpans(reg, st, lexeme, id, hit.flush);
    case None =>
      var ended := EndedAt(reg, st.stack, |st.stack| - 1, hit.ends).value;
      if ended.Some? {
        EndSpans(reg, st, lexeme, ended.value, hit.flush);
      }
  }

  lemma {:induction false} LoopSpans(reg: Registry, st: State, text: string, pos: nat, script: Script, name: string,
                                     ignoreIllegals: bool)
    requires SafeNames(reg) && SpanDoc(st.doc) && name in reg.languages
    requires Loop(reg, st, text, pos, script, name, ignoreIllegals).Ok?
    ensures Spanned(Loop(reg, st, text, pos, script, name, ignoreIllegals).value)
    decreases script, 1
  {
    hide Flush, CloseTags, Process, SpanToken, SafeName;
    if st.stack == [] {
      EmptyStackThrows(reg, st, text, pos, script, name, ignoreIllegals);
    } else {
      match script
      case End(last) =>
        var st0 := st.(buf := st.buf + Tail(text, pos));
        FlushSpans(reg, st0, last);
        CloseSpans(reg, Flush(reg, st0, last).value.stack[1..]);
      case Step(hit, rest) =>
        LoopUnfolds(reg, st, text, pos, hit, rest, name, ignoreIllegals);
        if pos <= hit.index && hit.index + hit.len <= |text| {
          var lexeme := text[hit.index..hit.index + hit.len];
          var st1 := st.(buf := st.buf + text[pos..hit.index]);
          var step := Process(reg, st1, lexeme, hit, ignoreIllegals, hit.index == |text|);
          if step.Ok? && step.value.Advanced? {
            StepSpans(reg, st1, lexeme, hit, ignoreIllegals, hit.index == |text|);
            LoopSpans(reg, step.value.st, text, hit.index + step.value.adv, rest, name, ignoreIllegals);
          } else {
            PlainSpans(text);
          }
        }
    }
  }

  lemma {:induction false} RunSpans(reg: Registry, name: string, text: string, script: Script, ignoreIllegals: bool,
                                    start: Option<Chain>)
    requires SafeNames(reg) && Highlighted(reg, name, text, script, ignoreIllegals, start).Ok?
    ensures Spanned(Highlighted(reg, name, text, script, ignoreIllegals, start).value)
    decreases script, 2
  {
    hide Loop, OpenTags, SafeNames, Spanned;
    var modes := StartChain(reg, name, start).modes;
    OpenAllSpans(reg, modes[1..]);
    LoopSpans(reg, Opening(reg, modes), text, 0, script, name, ignoreIllegals);
  }

  // ----- parsing a span document -----

  function SpanElement(body: string): N.Element
    requires |body| >= 13
  {
    N.Element("span", [N.Attribute("class", ClassOf(body))])
  }

  /** The siblings at the front of a document, and what is left: nothing, or a closing tag. */
  function Parse(doc: seq<Token>): (r: (N.Forest, seq<Token>))
    ensures |r.1| <= |doc|
    decreases |doc|
  {
    if doc == [] then (N.Leaf, [])
    else match doc[0]
      case Chr(c) => var (f, rest) := Parse(doc[1..]); (N.TextNode([c], f), rest)
      case Tag(body) =>
        if IsClose(body) then (N.Leaf, doc)
        else if |body| < 13 then (N.Leaf, [])
        else
          var (children, r1) := Parse(doc[1..]);
          if r1 == [] then (N.Leaf, [])
          else
            var (next, r2) := Parse(r1[1..]);
            (N.ElementNode(SpanElement(body), children, next), r2)
  }

  lemma SpanElementWrites(body: string)
    requires SpanTag(body)
    ensures M.OpenTag(SpanElement(body)) == Tag(body) && M.CloseTag(SpanElement(body)) == Tag("/span")
    ensures M.PlainElement(SpanElement(body)) && !IsVoid("span") && !LooksVoid("span")
    ensures NameOf(body) == "span" && !IsClose(body)
  {
    var v := ClassOf(body);
    EscapesToItself(v);
    NoQuote(v);
    SpanIsNotVoid();
    SpanName("", v);
    hide NameOf, LooksVoid, IsVoid, Escape, M.QuoteFirst, M.PlainElement;
    ClassText(v);
    SpanElementPlain(body);
    assert "span" + (" " + "class" + "=\"" + v + "\"" + "") == "span class=\"" + "" + v + "\"";
  }

  lemma ClassText(v: string)
    ensures M.AttributeText([N.Attribute("class", v)]) == " " + "class" + "=\"" + M.QuoteFirst(Escape(v)) + "\"" + ""
  {
    hide Escape, M.QuoteFirst;
    assert [N.Attribute("class", v)][1..] == [];
    assert M.AttributeText([]) == "";
  }

  lemma SpanElementPlain(body: string)
    requires SpanTag(body)
    ensures M.PlainElement(SpanElement(body))
  {
  }

  lemma EscapesToItself(v: string)
    requires SafeName(v)
    ensures Escape(v) == v
  {
    NoOccurrence(v, '&', "&amp;");
    NoOccurrence(v, '<', "&lt;");
    NoOccurrence(v, '>', "&gt;");
  }

  lemma NoQuote(v: string)
    requires SafeName(v)
    ensures M.QuoteFirst(v) == v
  {
  }

  /** Forest `f` writes `doc` up to `rest`, where the innermost open element is closed. */
  ghost predicate Gives(doc: seq<Token>, open: seq<string>, f: N.Forest, rest: seq<Token>) {
    && doc == B.ForestDoc(f) + rest && B.PlainForest(f) && B.NoVoidForest(f)
    && (open == [] ==> rest == [])
    && (open != [] ==> rest != [] && rest[0] == Tag("/span") && Nest(rest[1..], open[..|open| - 1]) == Some([]))
  }

  /** A document of spans whose open elements are closed is written by the forest it parses to. */
  lemma {:induction false} ParseGives(doc: seq<Token>, open: seq<string>)
    requires SpanDoc(doc) && Nest(doc, open) == Some([])
    ensures Gives(doc, open, Parse(doc).0, Parse(doc).1)
    decreases |doc|
  {
    if doc == [] {
    } else {
      match doc[0]
      case Chr(c) =>
        ParseGives(doc[1..], open);
        CharGives(doc, open, c, Parse(doc[1..]).0, Parse(doc[1..]).1);
      case Tag(body) =>
        if IsClose(body) {
          assert body == "/span";
          assert [] + doc == doc;
        } else {
          OpensSpan(doc, open, body);
          hide Nest, SpanToken, SpanTag, Gives;
          ParseGives(doc[1..], open + [body]);
          var (children, r1) := Parse(doc[1..]);
          AfterSpan(doc[1..], open, body, children, r1);
          ParseGives(r1[1..], open);
          var (next, r2) := Parse(r1[1..]);
          ParseUnfolds(doc, body);
          SpanGives(doc, open, body, children, r1, next, r2);
        }
    }
  }

  lemma CharGives(doc: seq<Token>, open: seq<string>, c: char, f: N.Forest, rest: seq<Token>)
    requires doc != [] && doc[0] == Chr(c) && Gives(doc[1..], open, f, rest)
    ensures Gives(doc, open, N.TextNode([c], f), rest)
  {
    hide Nest, B.PlainForest, B.NoVoidForest;
    assert doc == [doc[0]] + doc[1..];
    assert Chars([c]) == [doc[0]];
    Associates([doc[0]], B.ForestDoc(f), rest);
    CharForest(c, f);
  }

  lemma CharForest(c: char, f: N.Forest)
    ensures B.PlainForest(f) ==> B.PlainForest(N.TextNode([c], f))
    ensures B.NoVoidForest(f) ==> B.NoVoidForest(N.TextNode([c], f))
  {
  }

  lemma OpensSpan(doc: seq<Token>, open: seq<string>, body: string)
    requires SpanDoc(doc) && doc != [] && doc[0] == Tag(body) && !IsClose(body) && Nest(doc, open) == Some([])
    ensures SpanTag(body) && |body| >= 13 && SpanDoc(doc[1..]) && Nest(doc[1..], open + [body]) == Some([])
  {
    assert SpanToken(doc[0]);
    SpanElementWrites(body);
    hide SpanTag, NameOf, LooksVoid;
  }

  /** Behind the children of a span, the document closes it and goes on. */
  lemma AfterSpan(doc: seq<Token>, open: seq<string>, body: string, children: N.Forest, r1: seq<Token>)
    requires SpanDoc(doc) && Gives(doc, open + [body], children, r1)
    ensures r1 != [] && r1[0] == Tag("/span") && SpanDoc(r1[1..]) && Nest(r1[1..], open) == Some([])
    ensures |r1| <= |doc|
  {
    hide Nest, SpanToken, B.PlainForest, B.NoVoidForest, B.ForestDoc;
    assert (open + [body])[..|open|] == open;
    var before := B.ForestDoc(children);
    SpanSuffix(before, r1);
    assert r1 == [r1[0]] + r1[1..];
    SpanSuffix([r1[0]], r1[1..]);
  }

  lemma SpanSuffix(a: seq<Token>, b: seq<Token>)
    requires SpanDoc(a + b)
    ensures SpanDoc(b)
  {
    hide SpanToken;
    forall k | 0 <= k < |b| ensures SpanToken(b[k]) {
      assert (a + b)[|a| + k] == b[k];
    }
  }

  lemma ParseUnfolds(doc: seq<Token>, body: string)
    requires doc != [] && doc[0] == Tag(body) && !IsClose(body) && |body| >= 13 && Parse(doc[1..]).1 != []
    ensures var (children, r1) := Parse(doc[1..]);
            var (next, r2) := Parse(r1[1..]);
            Parse(doc) == (N.ElementNode(SpanElement(body), children, next), r2)
  {
  }

  lemma SpanForest(body: string, children: N.Forest, next: N.Forest)
    requires SpanTag(body) && |body| >= 13
    requires B.PlainForest(children) && B.NoVoidForest(children) && B.PlainForest(next) && B.NoVoidForest(next)
    ensures var f := N.ElementNode(SpanElement(body), children, next);
            && B.PlainForest(f) && B.NoVoidForest(f)
            && B.ForestDoc(f) == [Tag(body)] + (B.ForestDoc(children) + ([Tag("/span")] + B.ForestDoc(next)))
  {
    SpanElementWrites(body);
    hide SpanTag, M.PlainElement, LooksVoid, IsVoid, NameOf, M.OpenTag, M.CloseTag;
  }

  lemma SpanGives(doc: seq<Token>, open: seq<string>, body: string, children: N.Forest, r1: seq<Token>,
                  next: N.Forest, r2: seq<Token>)
    requires SpanTag(body) && |body| >= 13 && doc != [] && doc[0] == Tag(body)
    requires Gives(doc[1..], open + [body], children, r1) && r1 != [] && r1[0] == Tag("/span")
    requires Gives(r1[1..], open, next, r2)
    ensures Gives(doc, open, N.ElementNode(SpanElement(body), children, next), r2)
  {
    SpanForest(body, children, next);
    hide Nest, SpanTag, B.PlainForest, B.NoVoidForest, B.ForestDoc, SpanElement;
    assert doc == [Tag(body)] + doc[1..];
    assert r1 == [Tag("/span")] + r1[1..];
    Rejoined([Tag(body)], B.ForestDoc(children), [Tag("/span")], B.ForestDoc(next), r2);
  }

  lemma Rejoined<T>(a: seq<T>, b: seq<T>, c: seq<T>, d: seq<T>, e: seq<T>)
    ensures a + (b + (c + (d + e))) == (a + (b + (c + d))) + e
  {
  }

  /** End to end, with the tree that the highlighted text parses to. */
  lemma HighlightedBlockIsShown(reg: Registry, name: string, script: Script, original: N.Forest)
    requires Roots.RootsStay(reg) && SafeNames(reg) && name in reg.languages
    requires B.PlainForest(original) && L.RunKeeps(reg, name, N.Content(original), script, true, None)
    ensures var r := Highlighted(reg, name, N.Content(original), script, true, None);
            && !r.Thrown?
            && (r.Ok? ==>
                  var parsed := Parse(r.value.doc).0;
                  B.ForestDoc(parsed) == r.value.doc && B.BlockShown(original, parsed))
  {
    hide Highlighted, Roots.RootsStay, SafeNames, L.RunKeeps, B.PlainForest, B.NoVoidForest, B.BlockShown,
      B.ForestDoc, Parse;
    var text := N.Content(original);
    Roots.SpansAreBalanced(reg, name, text, script, true);
    var r := Highlighted(reg, name, text, script, true, None);
    if r.Ok? {
      RunSpans(reg, name, text, script, true, None);
      ParseGives(r.value.doc, []);
      var (parsed, rest) := Parse(r.value.doc);
      assert B.ForestDoc(parsed) + [] == B.ForestDoc(parsed);
      B.BlockKeepsTextAndMarkup(reg, name, script, original, parsed);
    }
  }

  /** The same when the language is detected. */
  lemma DetectedBlockIsShown(reg: Registry, candidates: Candidates, original: N.Forest)
    requires Roots.RootsStay(reg) && SafeNames(reg)
    requires B.PlainForest(original) && L.BestKeeps(reg, N.Content(original), candidates)
    ensures var r := BestOf(reg, N.Content(original), candidates, NoneYet(N.Content(original)));
            && !r.Thrown?
            && (r.Ok? ==>
                  var parsed := Parse(r.value.best.doc).0;
                  B.ForestDoc(parsed) == r.value.best.doc && B.BlockShown(original, parsed))
  {
    hide BestOf, Roots.RootsStay, SafeNames, L.BestKeeps, B.PlainForest, B.NoVoidForest, B.BlockShown, B.ForestDoc,
      Parse, Steady, Roots.Reached;
    var text := N.Content(original);
    Roots.ReachedAreSteady(reg);
    var claims := Claims(true, (iset s | Roots.Reached(reg, s)), false, false);
    CharsFacts(claims, text);
    BestFaithful(reg, claims, text, candidates, NoneYet(text));
    var r := BestOf(reg, text, candidates, NoneYet(text));
    if r.Ok? {
      PlainSpans(text);
      BestSpans(reg, text, candidates, NoneYet(text));
      ParseGives(r.value.best.doc, []);
      var (parsed, rest) := Parse(r.value.best.doc);
      assert B.ForestDoc(parsed) + [] == B.ForestDoc(parsed);
      B.DetectedBlockKeepsTextAndMarkup(reg, candidates, original, parsed);
    }
  }
}

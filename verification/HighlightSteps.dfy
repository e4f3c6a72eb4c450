/** Where the spans of the highlighter lie: what one lexeme puts before, inside and behind them, which
    words are marked, and how a sub-language goes on from where it ended. */
module HighlightSteps {
  import opened Wrappers
  import opened Markup
  import opened Highlight
  import opened HighlightProofs
  import L = HighlightLosses
  import M = MergeStreams

  // ----- flushing -----

  predicate Shows(reg: Registry, st: State, answers: Answers) {
    L.FlushAvoids(L.Repeats, reg, st, answers) && L.FlushAvoids(L.Drops, reg, st, answers)
  }

  /** What was buffered is now in the document, and nothing else. */
  lemma FlushShowsBuffer(reg: Registry, st: State, answers: Answers)
    requires Flush(reg, st, answers).Ok? && Shows(reg, st, answers)
    ensures TextOf(Flush(reg, st, answers).value.doc) == TextOf(st.doc) + st.buf
  {
    hide Flush, L.FlushAvoids;
    var st0 := st.(ledger := CLEAN);
    L.FlushAnyLedger(reg, st, CLEAN, answers);
    L.FlushAvoidsAnyLedger(L.Repeats, reg, st, CLEAN, answers);
    L.FlushAvoidsAnyLedger(L.Drops, reg, st, CLEAN, answers);
    L.FlushAvoidsIff(L.Repeats, reg, st0, answers);
    L.FlushAvoidsIff(L.Drops, reg, st0, answers);
    FlushKeeps(reg, NO_CLAIMS, "", Shown(st0), st0, answers);
  }

  // ----- the lexeme and the spans -----

  /** The document ends with `tags`, and `text` is all that it shows before them. */
  ghost predicate EndsWith(doc: seq<Token>, text: string, tags: seq<Token>) {
    |doc| >= |tags| && doc[|doc| - |tags|..] == tags && TextOf(doc[..|doc| - |tags|]) == text
  }

  lemma EndsWithTags(doc: seq<Token>, tags: seq<Token>)
    ensures EndsWith(doc + tags, TextOf(doc), tags)
  {
    hide TextOf;
    assert (doc + tags)[..|doc|] == doc;
  }

  /** The span of a mode that is entered: the text before the lexeme lies in front of it; the lexeme lies
      in front of it when `excludeBegin` is set, otherwise inside it, unless it is given back. A mode
      with `skip` opens its span in front of everything that is still buffered. */
  lemma BeginPlacesLexeme(reg: Registry, st: State, lexeme: string, id: ModeId, answers: Answers)
    requires BeginMode(reg, st, lexeme, id, answers).Ok?
    requires reg.mode(id).skip || Shows(reg, L.BeforeBegin(st, reg.mode(id), lexeme), answers)
    ensures var next, m := BeginMode(reg, st, lexeme, id, answers).value.st, reg.mode(id);
            var front := if m.skip then "" else st.buf + if m.excludeBegin then lexeme else "";
            && EndsWith(next.doc, TextOf(st.doc) + front, OpenTag(reg, id))
            && next.buf == if m.skip then st.buf + lexeme else if m.returnBegin || m.excludeBegin then "" else lexeme
  {
    hide Flush, OpenTag, TextOf, EndsWith, Shows;
    var m := reg.mode(id);
    if m.skip {
      EndsWithTags(st.doc, OpenTag(reg, id));
      assert TextOf(st.doc) + "" == TextOf(st.doc);
    } else {
      var st0 := L.BeforeBegin(st, m, lexeme);
      FlushShowsBuffer(reg, st0, answers);
      EndsWithTags(Flush(reg, st0, answers).value.doc, OpenTag(reg, id));
      assert st.buf + "" == st.buf;
    }
  }

  /** The spans that are left: the text before the lexeme lies inside them; the lexeme lies inside them
      unless it is given back or `excludeEnd` is set, and then behind them. A mode with `skip` closes
      its spans in front of everything that is still buffered. */
  lemma EndPlacesLexeme(reg: Registry, st: State, lexeme: string, pos: nat, answers: Answers)
    requires pos < |st.stack| && EndModes(reg, st, lexeme, pos, answers).Ok?
    requires var m := reg.mode(st.stack[|st.stack| - 1]); m.skip || Shows(reg, L.BeforeEnd(st, m, lexeme), answers)
    ensures var next, m := EndModes(reg, st, lexeme, pos, answers).value.st, reg.mode(st.stack[|st.stack| - 1]);
            var inside := if m.skip then "" else st.buf + if m.returnEnd || m.excludeEnd then "" else lexeme;
            && EndsWith(next.doc, TextOf(st.doc) + inside, LeftTags(reg, st.stack, pos))
            && next.buf == if m.skip then st.buf + lexeme else if m.excludeEnd then lexeme else ""
  {
    hide Flush, EndModes, LeftTags, TextOf, EndsWith, Shows;
    var m := reg.mode(st.stack[|st.stack| - 1]);
    var adv := if m.returnEnd then 0 else |lexeme|;
    var repeated := if m.returnEnd && (m.skip || m.excludeEnd) then |lexeme| else 0;
    EndFlushes(reg, st, lexeme, pos, answers);
    if m.skip {
      EndWrites(reg, st, lexeme, pos, answers, st.(buf := st.buf + lexeme), repeated, adv);
      EndsWithTags(st.doc, LeftTags(reg, st.stack, pos));
      assert TextOf(st.doc) + "" == TextOf(st.doc);
    } else {
      var st0 := L.BeforeEnd(st, m, lexeme);
      var st1 := Flush(reg, st0, answers).value;
      FlushShowsBuffer(reg, st0, answers);
      EndWrites(reg, st, lexeme, pos, answers, st1.(buf := if m.excludeEnd then lexeme else ""), repeated, adv);
      EndsWithTags(st1.doc, LeftTags(reg, st.stack, pos));
      assert st.buf + "" == st.buf;
    }
  }

  lemma EndFlushes(reg: Registry, st: State, lexeme: string, pos: nat, answers: Answers)
    requires pos < |st.stack| && EndModes(reg, st, lexeme, pos, answers).Ok?
    ensures var m := reg.mode(st.stack[|st.stack| - 1]);
            m.skip || Flush(reg, L.BeforeEnd(st, m, lexeme), answers).Ok?
  {
    hide Flush, CloseTags, OpenTag, LeftScore;
  }

  // ----- keywords -----

  /** Word `j` covers character `k`. */
  predicate Covers(words: seq<WordHit>, j: int, k: int) {
    0 <= j < |words| && words[j].index <= k < words[j].index + words[j].len
  }

  function WordBodies(reg: Registry, cls: Option<string>): seq<string> {
    if cls.Some? then ["span class=\"" + reg.prefix + cls.value + "\""] else []
  }

  /** Character `k` of the buffer lies in the span of the keyword that covers it, if one does. */
  ghost predicate Marked(reg: Registry, text: string, words: seq<WordHit>, k: nat, shown: (char, seq<string>))
    requires k < |text|
  {
    && shown.0 == text[k]
    && (forall j | Covers(words, j, k) :: shown.1 == WordBodies(reg, words[j].cls))
    && ((forall j :: !Covers(words, j, k)) ==> shown.1 == [])
  }

  ghost predicate AllMarked(reg: Registry, text: string, from: nat, words: seq<WordHit>,
                            shown: seq<(char, seq<string>)>) {
    from <= |text| && |shown| == |text| - from
    && forall n | 0 <= n < |shown| :: Marked(reg, text, words, from + n, shown[n])
  }

  /** Exactly the characters of the keywords are marked, each with its keyword's class. */
  lemma {:induction false} KeywordsAreMarked(
      reg: Registry, classes: set<string>, text: string, from: nat, words: seq<WordHit>)
    requires from <= |text| && KeywordDoc(reg, classes, text, from, words).Ok?
    ensures AllMarked(reg, text, from, words, Contexts(KeywordDoc(reg, classes, text, from, words).value, []))
    ensures forall j | 0 <= j < |words| :: from <= words[j].index
    decreases words
  {
    hide Contexts, Nest, SpanBody, Chars;
    if words == [] {
      M.ContextsChars(text[from..], []);
      assert forall n | 0 <= n < |text| - from :: M.Same(text[from..], [])[n] == (text[from + n], []);
    } else {
      var w := words[0];
      var upto := w.index + w.len;
      KeywordsAreMarked(reg, classes, text, upto, words[1..]);
      var rest := KeywordDoc(reg, classes, text, upto, words[1..]).value;
      WordContexts(reg, text[from..w.index], text[w.index..upto], w.cls, rest);
      MarksJoin(reg, text, from, words, Contexts(rest, []));
    }
  }

  /** In a mode with keywords, what a flush writes is the buffer with exactly its keywords marked. */
  lemma FlushMarksKeywords(reg: Registry, st: State, answers: Answers)
    requires st.stack != [] && Flush(reg, st, answers).Ok?
    requires var m := reg.mode(st.stack[|st.stack| - 1]); m.sub == NoSub && m.keywordClasses.Some?
    ensures var doc := Flush(reg, st, answers).value.doc;
            && |doc| >= |st.doc| && doc[..|st.doc|] == st.doc
            && AllMarked(reg, st.buf, 0, answers.words, Contexts(doc[|st.doc|..], []))
  {
    hide KeywordDoc, AllMarked, Contexts;
    var classes := reg.mode(st.stack[|st.stack| - 1]).keywordClasses.value;
    KeywordsAreMarked(reg, classes, st.buf, 0, answers.words);
    var doc := KeywordDoc(reg, classes, st.buf, 0, answers.words).value;
    assert (st.doc + doc)[|st.doc|..] == doc;
  }

  lemma WordContexts(reg: Registry, gap: string, word: string, cls: Option<string>, rest: seq<Token>)
    ensures var marked := if cls.Some? then Wrap(SpanBody(reg.prefix, cls.value), Chars(word)) else Chars(word);
            Contexts(Chars(gap) + marked + rest, [])
            == M.Same(gap, []) + M.Same(word, WordBodies(reg, cls)) + Contexts(rest, [])
  {
    if cls.Some? {
      SpanText(reg.prefix, cls.value);
    }
    hide Contexts, Nest, SpanBody, Chars, Wrap;
    var marked := if cls.Some? then Wrap(SpanBody(reg.prefix, cls.value), Chars(word)) else Chars(word);
    NestChars(gap, []);
    NestChars(word, []);
    M.ContextsChars(gap, []);
    M.ContextsChars(word, []);
    if cls.Some? {
      WrapContexts(SpanBody(reg.prefix, cls.value), Chars(word), []) by {
        SpanName(reg.prefix, cls.value);
      }
      M.ContextsChars(word, [SpanBody(reg.prefix, cls.value)]);
      assert [] + [SpanBody(reg.prefix, cls.value)] == [SpanBody(reg.prefix, cls.value)];
    }
    assert Nest(marked, []) == Some([]) && Contexts(marked, []) == M.Same(word, WordBodies(reg, cls));
    Associates(Chars(gap), marked, rest);
    M.ContextsAfter(Chars(gap), marked + rest, []);
    M.ContextsAfter(marked, rest, []);
    Associates(M.Same(gap, []), M.Same(word, WordBodies(reg, cls)), Contexts(rest, []));
  }

  lemma SpanText(prefix: string, cls: string)
    ensures SpanBody(prefix, cls) == "span class=\"" + prefix + cls + "\""
  {
  }

  /** What is wrapped lies inside the wrapping span, and what follows does not. */
  lemma WrapContexts(body: string, doc: seq<Token>, open: seq<string>)
    requires Balanced(doc) && NameOf(body) == "span" && !IsClose(body)
    ensures Contexts(Wrap(body, doc), open) == Contexts(doc, open + [body])
    ensures Nest(Wrap(body, doc), open) == Some(open)
  {
    hide Nest, Contexts, NameOf, IsVoid;
    SpanIsNotVoid();
    BalancedUnder(doc, open + [body]);
    CloseSpan(open, body);
    OpensOne(body, open);
    NestThen([Tag(body)], doc, open, open + [body], open + [body]);
    NestThen([Tag(body)] + doc, [SPAN_END], open, open + [body], open);
    M.ContextsAfter([Tag(body)] + doc, [SPAN_END], open);
    M.ContextsAfter([Tag(body)], doc, open);
    EndShowsNothing(open + [body]);
    assert Contexts(doc, open + [body]) + [] == Contexts(doc, open + [body]);
    assert [] + Contexts(doc, open + [body]) == Contexts(doc, open + [body]);
  }

  lemma OpensOne(body: string, open: seq<string>)
    requires NameOf(body) == "span" && !IsClose(body)
    ensures Nest([Tag(body)], open) == Some(open + [body]) && Contexts([Tag(body)], open) == []
  {
    hide NameOf;
    SpanIsNotVoid();
    assert [Tag(body)][1..] == [];
  }

  lemma EndShowsNothing(open: seq<string>)
    ensures Contexts([SPAN_END], open) == []
  {
    assert [SPAN_END][1..] == [];
  }

  lemma MarksJoin(reg: Registry, text: string, from: nat, words: seq<WordHit>, rest: seq<(char, seq<string>)>)
    requires words != []
    requires var w := words[0]; from <= w.index && AllMarked(reg, text, w.index + w.len, words[1..], rest)
    requires forall j | 1 <= j < |words| :: words[0].index + words[0].len <= words[j].index
    ensures var w := words[0];
            var gap, word := text[from..w.index], text[w.index..w.index + w.len];
            AllMarked(reg, text, from, words, M.Same(gap, []) + M.Same(word, WordBodies(reg, w.cls)) + rest)
  {
    hide WordBodies;
    var w := words[0];
    var upto := w.index + w.len;
    var shown := M.Same(text[from..w.index], []) + M.Same(text[w.index..upto], WordBodies(reg, w.cls)) + rest;
    forall n | 0 <= n < |shown| ensures Marked(reg, text, words, from + n, shown[n]) {
      var k := from + n;
      if k >= upto {
        assert shown[n] == rest[k - upto];
        assert Marked(reg, text, words[1..], upto + (k - upto), rest[k - upto]);
        assert forall j | Covers(words, j, k) :: Covers(words[1..], j - 1, k);
        assert forall j | Covers(words[1..], j, k) :: Covers(words, j + 1, k);
      } else if k >= w.index {
        assert Covers(words, 0, k);
        assert forall j | Covers(words, j, k) :: j == 0;
      } else {
        assert forall j :: !Covers(words, j, k);
      }
    }
  }

  // ----- sub-languages -----

  /** What a named sub-language shows lies in a span of its name, which has no prefix; its relevance counts
      where the mode's own does. */
  lemma NestedIsWrapped(reg: Registry, st: State, mode: Mode, name: string, nested: Nested, open: seq<string>)
    requires FlushNamed(reg, st, mode, name, nested).Ok? && name in reg.languages
    requires var run := Highlighted(reg, name, st.buf, nested.script, true, Continued(st, name));
             Balanced(run.value.doc)
    ensures var run := Highlighted(reg, name, st.buf, nested.script, true, Continued(st, name)).value;
            var next := FlushNamed(reg, st, mode, name, nested).value;
            && next.relevance - st.relevance == (if mode.relevance > 0 then run.relevance else 0)
            && |next.doc| >= |st.doc| && next.doc[..|st.doc|] == st.doc
            && Contexts(next.doc[|st.doc|..], open) == Contexts(run.doc, open + ["span class=\"" + name + "\""])
  {
    hide Highlighted, Nest, Contexts, NameOf, Wrap;
    var run := Highlighted(reg, name, st.buf, nested.script, true, Continued(st, name)).value;
    HighlightedFaithful(reg, NO_CLAIMS, name, st.buf, nested.script, true, Continued(st, name));
    SpanName("", name);
    assert SpanBody("", name) == "span class=\"" + name + "\"";
    WrapContexts(SpanBody("", name), run.doc, open);
    var next := FlushNamed(reg, st, mode, name, nested).value;
    assert next.doc[|st.doc|..] == Wrap(SpanBody("", name), run.doc);
  }

  /** The mode stack that a run goes through, whatever the text. */
  function StackRun(reg: Registry, stack: seq<ModeId>, script: Script): seq<ModeId>
    decreases script
  {
    match script
    case End(_) => stack
    case Step(hit, rest) => if stack == [] then [] else StackRun(reg, NextStack(reg, stack, hit), rest)
  }

  function NextStack(reg: Registry, stack: seq<ModeId>, hit: Hit): seq<ModeId>
    requires stack != []
  {
    match FirstBegun(reg.mode(stack[|stack| - 1]).contains, hit.begins)
    case Some(id) => stack + [id]
    case None => Unbegun(reg, stack, hit.ends)
  }

  lemma NextIsNext(reg: Registry, st: State, lexeme: string, hit: Hit, ignoreIllegals: bool, atEnd: bool)
    requires st.stack != [] && Process(reg, st, lexeme, hit, ignoreIllegals, atEnd).Ok?
    requires Process(reg, st, lexeme, hit, ignoreIllegals, atEnd).value.Advanced?
    ensures Process(reg, st, lexeme, hit, ignoreIllegals, atEnd).value.st.stack == NextStack(reg, st.stack, hit)
  {
    hide Process, Unbegun, FirstBegun, FirstAt, NoneBegun;
    StepStack(reg, st, lexeme, hit, ignoreIllegals, atEnd);
    FirstBegunIsFirst(reg.mode(st.stack[|st.stack| - 1]).contains, hit.begins);
  }

  lemma {:induction false} LoopStack(
      reg: Registry, st: State, text: string, pos: nat, script: Script, name: string, ignoreIllegals: bool)
    ensures var r := Loop(reg, st, text, pos, script, name, ignoreIllegals);
            r.Ok? && r.value.top.Some? ==> r.value.top.value.modes == StackRun(reg, st.stack, script)
    decreases script
  {
    hide Process, Flush, NextStack, CloseTags;
    if st.stack == [] {
      EmptyStackThrows(reg, st, text, pos, script, name, ignoreIllegals);
    } else if script.Step? {
      var hit := script.hit;
      LoopUnfolds(reg, st, text, pos, hit, script.rest, name, ignoreIllegals);
      if pos <= hit.index && hit.index + hit.len <= |text| {
        var lexeme := text[hit.index..hit.index + hit.len];
        var st1 := st.(buf := st.buf + text[pos..hit.index]);
        var step := Process(reg, st1, lexeme, hit, ignoreIllegals, hit.index == |text|);
        if step.Ok? && step.value.Advanced? {
          NextIsNext(reg, st1, lexeme, hit, ignoreIllegals, hit.index == |text|);
          LoopStack(reg, step.value.st, text, hit.index + step.value.adv, script.rest, name, ignoreIllegals);
        }
      }
    }
  }

  /** One script after another. */
  function Then(a: Script, b: Script): Script {
    match a
    case End(_) => b
    case Step(hit, rest) => Step(hit, Then(rest, b))
  }

  lemma {:induction false} StackRunThen(reg: Registry, stack: seq<ModeId>, a: Script, b: Script)
    ensures StackRun(reg, stack, Then(a, b)) == StackRun(reg, StackRun(reg, stack, a), b)
    decreases a
  {
    hide NextStack;
    match a
    case End(_) =>
    case Step(hit, rest) =>
      if stack != [] {
        StackRunThen(reg, NextStack(reg, stack, hit), rest, b);
      } else {
        NothingRuns(reg, b);
      }
  }

  lemma NothingRuns(reg: Registry, script: Script)
    ensures StackRun(reg, [], script) == []
  {
  }

  lemma NamedLeaves(reg: Registry, st: State, mode: Mode, name: string, nested: Nested)
    requires FlushNamed(reg, st, mode, name, nested).Ok? && name in reg.languages
    ensures var tops := FlushNamed(reg, st, mode, name, nested).value.tops;
            && nested.One? && name in tops
            && tops[name].modes == StackRun(reg, StartChain(reg, name, Continued(st, name)).modes, nested.script)
            && forall other | other != name :: (other in tops <==> other in st.tops)
                                               && (other in tops ==> tops[other] == st.tops[other])
  {
    hide Loop, OpenTags, Wrap;
    var start := Continued(st, name);
    HighlightedFaithful(reg, NO_CLAIMS, name, st.buf, nested.script, true, start);
    LoopStack(reg, Opening(reg, StartChain(reg, name, start).modes), st.buf, 0, nested.script, name, true);
  }

  /** A sub-language goes on where it ended: two pieces of its text leave the modes that their matches,
      one after the other, lead to from the language's own mode. */
  lemma SubLanguageResumes(reg: Registry, st: State, mode: Mode, name: string, first: Nested, st1: State,
                           second: Nested)
    requires name in reg.languages && name !in st.tops
    requires FlushNamed(reg, st, mode, name, first).Ok?
    requires st1.tops == FlushNamed(reg, st, mode, name, first).value.tops
    requires FlushNamed(reg, st1, mode, name, second).Ok?
    ensures var tops := FlushNamed(reg, st1, mode, name, second).value.tops;
            && first.One? && second.One? && name in tops
            && tops[name].modes == StackRun(reg, [reg.languages[name]], Then(first.script, second.script))
  {
    hide FlushNamed, StackRun, Then;
    NamedLeaves(reg, st, mode, name, first);
    NamedLeaves(reg, st1, mode, name, second);
    StackRunThen(reg, [reg.languages[name]], first.script, second.script);
  }

  // ----- relevance -----

  /** Each ended mode counts once, whatever else is ended: with its relevance, unless it is skipped or
      holds a sub-language. */
  lemma {:induction false} EachModeCounts(reg: Registry, modes: seq<ModeId>, k: nat)
    requires k < |modes|
    ensures var m := reg.mode(modes[k]);
            LeftScore(reg, modes) - LeftScore(reg, modes[..k] + modes[k + 1..])
            == if m.skip || !m.sub.NoSub? then 0 else m.relevance
  {
    if k == 0 {
      assert modes[..0] + modes[1..] == modes[1..];
    } else {
      var others := modes[..k] + modes[k + 1..];
      assert others[1..] == modes[1..][..k - 1] + modes[1..][k..];
      EachModeCounts(reg, modes[1..], k - 1);
    }
  }

  /** Each keyword counts once, and no other word does. */
  lemma {:induction false} EachKeywordCounts(words: seq<WordHit>, k: nat)
    requires k < |words|
    ensures KeywordScore(words) - KeywordScore(words[..k] + words[k + 1..])
         == if words[k].cls.Some? then words[k].score else 0
  {
    if k == 0 {
      assert words[..0] + words[1..] == words[1..];
    } else {
      var others := words[..k] + words[k + 1..];
      assert others[1..] == words[1..][..k - 1] + words[1..][k..];
      EachKeywordCounts(words[1..], k - 1);
    }
  }

  lemma FlushAddsRelevance(reg: Registry, st: State, answers: Answers)
    requires st.stack != []
    ensures var m := reg.mode(st.stack[|st.stack| - 1]);
            var r := Flush(reg, st, answers);
            r.Ok? ==>
              && (m.sub == NoSub ==>
                    r.value.relevance - st.relevance
                    == if m.keywordClasses.Some? then KeywordScore(answers.words) else 0)
              && (!m.sub.NoSub? && m.relevance <= 0 ==> r.value.relevance == st.relevance)
  {
    hide KeywordDoc, KeywordScore, Highlighted, BestOf, Wrap, Chars;
  }

  /** What leaving modes adds to the relevance, next to what the flush adds: a mode that is left alone
      adds its own; what is nested in another language adds only where the mode counts at all. */
  lemma EndAddsRelevance(reg: Registry, st: State, lexeme: string, answers: Answers)
    requires st.stack != [] && EndModes(reg, st, lexeme, |st.stack| - 1, answers).Ok?
    ensures var m := reg.mode(st.stack[|st.stack| - 1]);
            var added := EndModes(reg, st, lexeme, |st.stack| - 1, answers).value.st.relevance - st.relevance;
            && (m.skip ==> added == 0)
            && (m.sub == NoSub && !m.skip ==>
                  added == m.relevance + if m.keywordClasses.Some? then KeywordScore(answers.words) else 0)
            && (!m.sub.NoSub? && m.relevance <= 0 ==> added == 0)
  {
    hide Flush, KeywordScore, EndModes;
    EndFlushes(reg, st, lexeme, |st.stack| - 1, answers);
    EndRelevance(reg, st, lexeme, answers);
    FlushAddsRelevance(reg, L.BeforeEnd(st, reg.mode(st.stack[|st.stack| - 1]), lexeme), answers);
  }

  lemma EndRelevance(reg: Registry, st: State, lexeme: string, answers: Answers)
    requires st.stack != [] && EndModes(reg, st, lexeme, |st.stack| - 1, answers).Ok?
    ensures var m := reg.mode(st.stack[|st.stack| - 1]);
            EndModes(reg, st, lexeme, |st.stack| - 1, answers).value.st.relevance
            == ModeScore(m) + if m.skip then st.relevance
                else Flush(reg, L.BeforeEnd(st, m, lexeme), answers).value.relevance
  {
    hide Flush, CloseTags, OpenTag;
    assert st.stack[|st.stack| - 1..] == [st.stack[|st.stack| - 1]];
    assert LeftScore(reg, [st.stack[|st.stack| - 1]]) == ModeScore(reg.mode(st.stack[|st.stack| - 1])) + 0;
  }
}

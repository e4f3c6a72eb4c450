/** The highlighter as the source writes it: strings appended in place, a mode stack that is
    pushed and popped, one buffer. Every method is proved against the document it stands for. */
module HighlighterEngine {
  import opened Wrappers
  import opened Markup
  import H = Highlight
  import P = HighlightProofs

  type Registry = H.Registry
  type ModeId = H.ModeId

  type Chain = H.Chain

  datatype Result = Result(value: string, language: Option<string>, top: Option<Chain>, relevance: int)

  ghost predicate Shown(r: H.Attempt<Result>, spec: H.Attempt<H.Rendered>) {
    && (r.Ok? <==> spec.Ok?)
    && (r.Thrown? <==> spec.Thrown?)
    && (r.Ok? ==> ShownResult(r.value, spec.value))
  }

  ghost predicate ShownResult(r: Result, spec: H.Rendered) {
    r.value == Render(spec.doc) && r.language == spec.language && r.top == spec.top && r.relevance == spec.relevance
  }

  /** The best result of automatic detection, and the second best. */
  ghost predicate ShownRanking(r: H.Attempt<(Result, Result)>, spec: H.Attempt<H.Ranking>) {
    && (r.Ok? <==> spec.Ok?)
    && (r.Thrown? <==> spec.Thrown?)
    && (r.Ok? ==> ShownResult(r.value.0, spec.value.best) && ShownResult(r.value.1, spec.value.second))
  }

  /** `o`: an opening tag, its content and, unless left open, the closing tag. */
  function BuildSpan(reg: Registry, cls: string, inner: string, leaveOpen: bool, noPrefix: bool): string {
    "<span class=\"" + (if noPrefix then "" else reg.prefix) + cls + "\">" + inner + if leaveOpen then "" else "</span>"
  }

  lemma OpeningTag(px: string, cls: string)
    ensures RenderToken(Tag(H.SpanBody(px, cls))) == "<span class=\"" + px + cls + "\">"
    ensures RenderToken(H.SPAN_END) == "</span>"
  {
    assert "<" + "span class=\"" == "<span class=\"" && "\"" + ">" == "\">";
    Brackets("<", "span class=\"", px, cls, "\"", ">");
  }

  lemma Brackets(a: string, b: string, px: string, cls: string, c: string, d: string)
    ensures a + (b + px + cls + c) + d == a + b + px + cls + (c + d)
  {
  }

  lemma BuildSpanWraps(reg: Registry, cls: string, doc: seq<Token>, noPrefix: bool)
    ensures BuildSpan(reg, cls, Render(doc), false, noPrefix)
         == Render(H.Wrap(H.SpanBody(if noPrefix then "" else reg.prefix, cls), doc))
  {
    var px := if noPrefix then "" else reg.prefix;
    var open := Tag(H.SpanBody(px, cls));
    OpeningTag(px, cls);
    hide H.SpanBody, RenderToken;
    RenderConcat([open], doc);
    RenderConcat([open] + doc, [H.SPAN_END]);
    RenderOne(open);
    RenderOne(H.SPAN_END);
  }

  lemma BuildSpanOpens(reg: Registry, id: ModeId)
    ensures reg.mode(id).className.Some? ==>
              BuildSpan(reg, reg.mode(id).className.value, "", true, false) == Render(H.OpenTag(reg, id))
    ensures reg.mode(id).className.None? ==> Render(H.OpenTag(reg, id)) == ""
  {
    if reg.mode(id).className.Some? {
      RenderOne(H.OpenTag(reg, id)[0]);
      assert H.OpenTag(reg, id) == [H.OpenTag(reg, id)[0]];
    }
  }

  lemma RenderOne(t: Token)
    ensures Render([t]) == RenderToken(t)
  {
    assert [t][1..] == [];
    assert RenderToken(t) + "" == RenderToken(t);
  }

  class Highlighter {
    const reg: Registry
    var output: string
    var buffer: string
    var stack: seq<ModeId>
    var rooted: bool
    var tops: map<string, Chain>
    var relevance: int
    ghost var st: H.State

    ghost predicate Valid()
      reads this
    {
      && output == Render(st.doc) && buffer == st.buf
      && stack == st.stack && rooted == st.rooted && tops == st.tops && relevance == st.relevance
    }

    constructor (reg: Registry, name: string, stack: seq<ModeId>)
      requires stack != []
      ensures Valid() && this.reg == reg
      ensures st == H.Opening(reg, stack)
    {
      this.reg := reg;
      this.buffer := "";
      this.stack := stack;
      this.rooted := true;
      this.tops := map[];
      this.relevance := 0;
      this.st := H.Opening(reg, stack);
      hide Render, H.OpenTags, H.OpenTag, BuildSpan;
      var p := "";
      var n := |stack| - 1;
      NothingToReopen(reg, stack);
      while n > 0
        invariant 0 <= n < |stack|
        invariant p == Render(H.OpenTags(reg, stack[n + 1..]))
      {
        ReopenStep(reg, stack, n);
        if reg.mode(stack[n]).className.Some? {
          p := BuildSpan(reg, reg.mode(stack[n]).className.value, "", true, false) + p;
        }
        n := n - 1;
      }
      this.output := p;
    }

    /** Appends the plain buffer, escaped. */
    method AppendPlain()
      requires Valid()
      modifies this
      ensures Valid() && st == old(st).(doc := old(st).doc + Chars(old(st).buf), buf := "")
    {
      RenderChars(buffer);
      RenderConcat(st.doc, Chars(buffer));
      output := output + Escape(buffer);
      st := st.(doc := st.doc + Chars(buffer), buf := "");
      buffer := "";
    }

    /** The keyword branch of `l`: a scan over the reported words. */
    method MarkKeywords(classes: set<string>, words: seq<H.WordHit>) returns (r: H.Attempt<string>, score: int)
      ensures var spec := H.KeywordDoc(reg, classes, buffer, 0, words);
              && (r.Ok? <==> spec.Ok?) && (r.Thrown? <==> spec.Thrown?)
              && (r.Ok? ==> r.value == Render(spec.value) && score == H.KeywordScore(words))
    {
      hide H.KeywordDoc, H.KeywordScore, Pending, Escape, BuildSpan;
      var a := "";
      score := 0;
      var t: nat := 0;
      var k: nat := 0;
      ghost var spec := H.KeywordDoc(reg, classes, buffer, 0, words);
      assert words[0..] == words;
      PendingStarts(spec);
      while k < |words|
        invariant k <= |words| && t <= |buffer|
        invariant Pending(spec, a, H.KeywordDoc(reg, classes, buffer, t, words[k..]))
        invariant score + H.KeywordScore(words[k..]) == H.KeywordScore(words)
      {
        var w := words[k];
        assert words[k..][0] == w && words[k..][1..] == words[k + 1..];
        PendingStep(reg, classes, buffer, t, words[k..], a, spec);
        ScoreOne(words[k..]);
        if w.index < t || w.index + w.len > |buffer| || (w.cls.Some? && w.cls.value !in classes) {
          return H.NoSuchMatch, score;
        }
        var word := buffer[w.index..w.index + w.len];
        var marked := if w.cls.Some? then BuildSpan(reg, w.cls.value, Escape(word), false, false) else Escape(word);
        a := a + Escape(buffer[t..w.index]) + marked;
        t := w.index + w.len;
        score := score + if w.cls.Some? then w.score else 0;
        k := k + 1;
      }
      PendingEnds(reg, classes, buffer, t, words[k..], a, spec);
      ScoreOne(words[k..]);
      return H.Ok(a + Escape(buffer[t..])), score;
    }

    /** `l`: writes the buffer out, marked up as the current mode asks, and clears it. */
    method Flush(answers: H.Answers) returns (r: H.Attempt<()>)
      requires Valid()
      modifies this
      decreases answers, 1
      ensures Flushed(r, H.Flush(reg, old(st), answers)) && (r.Ok? ==> Valid())
    {
      hide H.FlushWords, H.FlushNamed, H.FlushDetected, Render, Chars;
      if stack == [] {
        return H.Thrown;
      }
      var mode := reg.mode(stack[|stack| - 1]);
      match mode.sub
      case NoSub =>
        if mode.keywordClasses.Some? {
          r := FlushWords(mode.keywordClasses.value, answers.words);
        } else {
          AppendPlain();
          r := H.Ok(());
        }
      case Named(name) =>
        if name in reg.languages {
          r := FlushNamed(mode, name, answers.nested);
        } else {
          AppendPlain();
          r := H.Ok(());
        }
      case Auto => r := FlushDetected(mode, answers.nested);
    }

    ghost predicate Flushed(r: H.Attempt<()>, spec: H.Attempt<H.State>)
      reads this
    {
      (r.Ok? <==> spec.Ok?) && (r.Thrown? <==> spec.Thrown?) && (r.Ok? ==> st == spec.value)
    }

    method FlushWords(classes: set<string>, words: seq<H.WordHit>) returns (r: H.Attempt<()>)
      requires Valid()
      modifies this
      ensures Flushed(r, H.FlushWords(reg, old(st), classes, words)) && (r.Ok? ==> Valid())
    {
      hide H.KeywordDoc, H.KeywordScore, Render;
      var marked, score := MarkKeywords(classes, words);
      if !marked.Ok? {
        return marked.PropagateFailure();
      }
      ghost var doc := H.KeywordDoc(reg, classes, buffer, 0, words).value;
      RenderConcat(st.doc, doc);
      output := output + marked.value;
      buffer := "";
      relevance := relevance + score;
      st := st.(doc := st.doc + doc, buf := "", relevance := relevance);
      return H.Ok(());
    }

    /** The sub-language branch of `l` for a named language, continued from where it last ended. */
    method FlushNamed(mode: H.Mode, name: string, nested: H.Nested) returns (r: H.Attempt<()>)
      requires Valid() && name in reg.languages
      modifies this
      decreases nested, 0
      ensures Flushed(r, H.FlushNamed(reg, old(st), mode, name, nested)) && (r.Ok? ==> Valid())
    {
      hide H.Highlighted, H.Absorb, H.FlushNamed, Render;
      if !nested.One? {
        NothingNamed(reg, st, mode, name, nested);
        return H.NoSuchMatch;
      }
      var start := if name in tops then Some(tops[name]) else None;
      assert start == H.Continued(st, name);
      ghost var spec := H.Highlighted(reg, name, buffer, nested.script, true, start);
      NamedResult(reg, st, mode, name, nested);
      var inner := Highlight(reg, name, buffer, nested.script, true, start);
      if !inner.Ok? {
        return inner.PropagateFailure();
      }
      AppendResult(mode, inner.value, spec.value);
      tops := if inner.value.top.Some? then tops[name := inner.value.top.value] else tops - {name};
      st := st.(tops := tops);
      return H.Ok(());
    }

    method FlushDetected(mode: H.Mode, nested: H.Nested) returns (r: H.Attempt<()>)
      requires Valid()
      modifies this
      decreases nested, 0
      ensures Flushed(r, H.FlushDetected(reg, old(st), mode, nested)) && (r.Ok? ==> Valid())
    {
      hide H.BestOf, H.Absorb, Render;
      if !nested.Many? {
        return H.NoSuchMatch;
      }
      ghost var spec := H.BestOf(reg, buffer, nested.candidates, H.NoneYet(buffer));
      var found := HighlightAuto(reg, buffer, nested.candidates);
      if !found.Ok? {
        return found.PropagateFailure();
      }
      AppendResult(mode, found.value.0, spec.value.best);
      return H.Ok(());
    }

    /** Appends a sub-language result inside a span named after the language. */
    method AppendResult(mode: H.Mode, inner: Result, ghost spec: H.Rendered)
      requires Valid() && ShownResult(inner, spec)
      modifies this
      ensures Valid() && st == H.Absorb(old(st), mode, spec)
    {
      if mode.relevance > 0 {
        relevance := relevance + inner.relevance;
      }
      var cls := if inner.language.Some? then inner.language.value else "undefined";
      ghost var doc := H.Wrap(H.LanguageBody(spec.language), spec.doc);
      BuildSpanWraps(reg, cls, spec.doc, true);
      RenderConcat(st.doc, doc);
      output := output + BuildSpan(reg, cls, inner.value, false, true);
      buffer := "";
      st := H.Absorb(st, mode, spec);
    }

    /** `u`: opens the mode's span and pushes the mode. */
    method Enter(id: ModeId)
      requires Valid()
      modifies this
      ensures Valid() && st == H.Enter(reg, old(st), id)
    {
      BuildSpanOpens(reg, id);
      RenderConcat(st.doc, H.OpenTag(reg, id));
      if reg.mode(id).className.Some? {
        output := output + BuildSpan(reg, reg.mode(id).className.value, "", true, false);
      }
      stack := stack + [id];
      st := H.Enter(reg, st, id);
    }

    /** The do-while loop that closes spans and pops modes down to `pos`, inclusive, counting their
        relevance; the root's parent is no mode. */
    method PopTo(pos: nat)
      requires Valid() && pos < |stack|
      modifies this
      ensures Valid()
      ensures var popped := old(st).stack[pos..];
              st == old(st).(doc := old(st).doc + H.CloseTags(reg, popped), stack := old(st).stack[..pos],
                             rooted := old(st).rooted && pos > 0,
                             relevance := old(st).relevance + H.LeftScore(reg, popped))
    {
      hide H.CloseTags, H.CloseTag, H.LeftScore, Render;
      ghost var all := stack;
      ghost var closed: seq<Token> := [];
      PopStarts(reg, all, output);
      NothingLeft(reg, all);
      while |stack| > pos
        invariant pos <= |stack| <= |all| && stack == all[..|stack|]
        invariant closed == H.CloseTags(reg, all[|stack|..])
        invariant output == old(output) + Render(closed) && buffer == old(buffer) && tops == old(tops) && st == old(st)
        invariant rooted == old(rooted) && relevance == old(relevance) + H.LeftScore(reg, all[|stack|..])
        decreases |stack|
      {
        var top := stack[|stack| - 1];
        var mode := reg.mode(top);
        PopStep(reg, old(output), closed, all, |stack| - 1);
        ScoreStep(reg, all, |stack| - 1);
        if mode.className.Some? {
          output := output + "</span>";
        }
        if !mode.skip && mode.sub.NoSub? {
          relevance := relevance + mode.relevance;
        }
        closed := closed + H.CloseTag(reg, top);
        stack := stack[..|stack| - 1];
      }
      if pos == 0 {
        rooted := false;
      }
      RenderConcat(st.doc, closed);
      st := st.(doc := st.doc + closed, stack := all[..pos], rooted := rooted, relevance := relevance);
    }

    /** The loop over the parents at the end of `k`: every mode but the outermost has its span closed. */
    method CloseOpen()
      requires Valid() && stack != []
      modifies this
      ensures Valid() && st == old(st).(doc := old(st).doc + H.CloseTags(reg, old(st).stack[1..]))
    {
      hide H.CloseTags, Render;
      ghost var closed: seq<Token> := [];
      PopStarts(reg, stack, output);
      var n := |stack| - 1;
      while n > 0
        invariant 0 <= n < |stack| && stack == old(stack) && rooted == old(rooted) && relevance == old(relevance)
        invariant closed == H.CloseTags(reg, stack[n + 1..])
        invariant output == old(output) + Render(closed) && buffer == old(buffer) && tops == old(tops) && st == old(st)
      {
        PopStep(reg, old(output), closed, stack, n);
        if reg.mode(stack[n]).className.Some? {
          output := output + "</span>";
        }
        closed := closed + H.CloseTag(reg, stack[n]);
        n := n - 1;
      }
      RenderConcat(st.doc, closed);
      st := st.(doc := st.doc + closed);
    }

    /** The part of `a` that enters a child mode. */
    method BeginMode(lexeme: string, id: ModeId, answers: H.Answers) returns (r: H.Attempt<nat>)
      requires Valid()
      modifies this
      decreases answers, 2
      ensures var spec := H.BeginMode(reg, old(st), lexeme, id, answers);
              && (r.Ok? <==> spec.Ok?) && (r.Thrown? <==> spec.Thrown?)
              && (r.Ok? ==> spec.value == H.Advanced(st, r.value) && Valid())
    {
      var m := reg.mode(id);
      ghost var repeated := if m.returnBegin && (m.skip || m.excludeBegin) then |lexeme| else 0;
      if m.skip {
        buffer := buffer + lexeme;
        st := st.(buf := st.buf + lexeme);
      } else {
        if m.excludeBegin {
          buffer := buffer + lexeme;
          st := st.(buf := st.buf + lexeme);
        }
        var flushed := Flush(answers);
        if !flushed.Ok? {
          return flushed.PropagateFailure();
        }
        buffer := if m.returnBegin || m.excludeBegin then "" else lexeme;
        st := st.(buf := buffer);
      }
      st := st.(ledger := st.ledger.Plus(H.Ledger(repeated, 0)));
      Enter(id);
      return H.Ok(if m.returnBegin then 0 else |lexeme|);
    }

    /** The text side of leaving modes: the lexeme goes to the buffer before the flush, after it, or not at all. */
    method EndText(lexeme: string, answers: H.Answers) returns (r: H.Attempt<()>)
      requires Valid() && stack != []
      modifies this
      decreases answers, 2
      ensures var m := reg.mode(old(stack)[|old(stack)| - 1]);
              if m.skip then r.Ok? && st == old(st).(buf := old(st).buf + lexeme) && Valid()
              else
                var before := if m.returnEnd || m.excludeEnd then old(st) else old(st).(buf := old(st).buf + lexeme);
                var spec := H.Flush(reg, before, answers);
                && (r.Ok? <==> spec.Ok?) && (r.Thrown? <==> spec.Thrown?)
                && (r.Ok? ==> st == spec.value.(buf := if m.excludeEnd then lexeme else "") && Valid())
      ensures r.Ok? ==> stack == old(stack)
    {
      hide H.Flush, Render;
      var m := reg.mode(stack[|stack| - 1]);
      if m.skip {
        buffer := buffer + lexeme;
        st := st.(buf := st.buf + lexeme);
      } else {
        if !(m.returnEnd || m.excludeEnd) {
          buffer := buffer + lexeme;
          st := st.(buf := st.buf + lexeme);
        }
        var flushed := Flush(answers);
        if !flushed.Ok? {
          return flushed;
        }
        buffer := if m.excludeEnd then lexeme else "";
        st := st.(buf := buffer);
      }
      return H.Ok(());
    }

    /** The part of `a` that leaves the modes down to `pos`. */
    method EndModes(lexeme: string, pos: nat, answers: H.Answers) returns (r: H.Attempt<nat>)
      requires Valid() && pos < |stack|
      modifies this
      decreases answers, 3
      ensures var spec := H.EndModes(reg, old(st), lexeme, pos, answers);
              && (r.Ok? <==> spec.Ok?) && (r.Thrown? <==> spec.Thrown?)
              && (r.Ok? ==> spec.value == H.Advanced(st, r.value) && Valid())
    {
      hide H.EndModes, H.Flush, H.CloseTags, H.Enter, H.LeftScore, Render, P.Popped;
      EndFails(reg, st, lexeme, pos, answers);
      var m := reg.mode(stack[|stack| - 1]);
      var outer := reg.mode(stack[pos]);
      ghost var repeated := if m.returnEnd && (m.skip || m.excludeEnd) then |lexeme| else 0;
      ghost var adv := if m.returnEnd then 0 else |lexeme|;
      var done := EndText(lexeme, answers);
      if !done.Ok? {
        return done.PropagateFailure();
      }
      P.EndWrites(reg, old(st), lexeme, pos, answers, st, repeated, adv);
      st := st.(ledger := st.ledger.Plus(H.Ledger(repeated, 0)));
      PoppedInTwo(reg, st, pos);
      PopTo(pos);
      if outer.starts.Some? {
        Enter(outer.starts.value);
      }
      return H.Ok(if m.returnEnd then 0 else |lexeme|);
    }

    /** `a`: one lexeme after the text in front of it; returns how far to advance, or that the lexeme is illegal. */
    method ProcessLexeme(gap: string, lexeme: string, hit: H.Hit, ignoreIllegals: bool, ghost atEnd: bool)
      returns (r: H.Attempt<Option<nat>>)
      requires Valid() && stack != []
      modifies this
      decreases hit, 0
      ensures var spec := H.Process(reg, old(st).(buf := old(st).buf + gap), lexeme, hit, ignoreIllegals, atEnd);
              && (r.Ok? <==> spec.Ok?) && (r.Thrown? <==> spec.Thrown?)
              && (r.Ok? && r.value.None? ==> spec.value.IllegalLexeme?)
              && (r.Ok? && r.value.Some? ==> spec.value == H.Advanced(st, r.value.value) && Valid())
      ensures var contains := reg.mode(old(stack)[|old(stack)| - 1]).contains;
              r.Ok? ==>
                && (forall k | H.FirstAt(contains, hit.begins, k) :: stack == old(stack) + [contains[k]])
                && (H.NoneBegun(contains, hit.begins) ==> stack == P.Unbegun(reg, old(stack), hit.ends))
    {
      hide H.BeginMode, H.EndModes, H.FirstAt, H.NoneBegun, P.Unbegun;
      buffer := buffer + gap;
      st := st.(buf := st.buf + gap);
      StackAfter(reg, st, lexeme, hit, ignoreIllegals, atEnd);
      var last := |stack| - 1;
      var begun := FindBegun(reg.mode(stack[last]).contains, hit.begins);
      P.FirstBegunIsFirst(reg.mode(stack[last]).contains, hit.begins);
      if begun.Some? {
        var adv := BeginMode(lexeme, begun.value, hit.flush);
        return if adv.Ok? then H.Ok(Some(adv.value)) else adv.PropagateFailure();
      }
      var ended := FindEnded(hit.ends);
      if !ended.Ok? {
        return ended.PropagateFailure();
      }
      if ended.value.Some? {
        var adv := EndModes(lexeme, ended.value.value, hit.flush);
        return if adv.Ok? then H.Ok(Some(adv.value)) else adv.PropagateFailure();
      }
      if !ignoreIllegals && hit.illegal {
        return H.Ok(None);
      }
      buffer := buffer + lexeme;
      st := st.(buf := st.buf + lexeme, ledger := st.ledger.Plus(H.Ledger(0, if lexeme == "" && !atEnd then 1 else 0)));
      return H.Ok(Some(if lexeme == "" then 1 else |lexeme|));
    }

    /** The end of `k`: the rest of the text, the last flush, and the closing of all open spans. */
    method Finish(tail: string, last: H.Answers, name: string, ghost text: string, ghost at: nat,
                  ghost ignoreIllegals: bool)
      returns (r: H.Attempt<Result>)
      requires Valid() && tail == H.Tail(text, at)
      modifies this
      decreases last, 2
      ensures Shown(r, H.Loop(reg, old(st), text, at, H.End(last), name, ignoreIllegals))
    {
      hide H.Flush, H.CloseTags;
      if stack == [] {
        return H.Thrown;
      }
      buffer := buffer + tail;
      st := st.(buf := st.buf + tail);
      var flushed := Flush(last);
      if !flushed.Ok? {
        return flushed.PropagateFailure();
      }
      CloseOpen();
      return H.Ok(Result(output, Some(name), Some(H.Chain(stack, rooted)), relevance));
    }

    /** The main loop of `k` over the matches, the final flush and the closing of open spans. */
    method Loop(name: string, text: string, script: H.Script, ignoreIllegals: bool) returns (r: H.Attempt<Result>)
      requires Valid()
      modifies this
      decreases script, 1
      ensures Shown(r, H.Loop(reg, old(st), text, 0, script, name, ignoreIllegals))
    {
      hide H.Process, H.Flush, H.CloseTags, H.OpenTags, Render, H.Tail, H.Loop;
      var at: nat := 0;
      var todo := script;
      ghost var spec := H.Loop(reg, st, text, 0, script, name, ignoreIllegals);
      while todo.Step?
        invariant Valid()
        invariant spec == H.Loop(reg, st, text, at, todo, name, ignoreIllegals)
        invariant todo == script || todo < script
        decreases todo
      {
        P.LoopUnfolds(reg, st, text, at, todo.hit, todo.rest, name, ignoreIllegals);
        if stack == [] {
          return H.Thrown;
        }
        var hit := todo.hit;
        if hit.index < at || hit.index + hit.len > |text| {
          return H.NoSuchMatch;
        }
        var lexeme := text[hit.index..hit.index + hit.len];
        var adv := ProcessLexeme(text[at..hit.index], lexeme, hit, ignoreIllegals, hit.index == |text|);
        if !adv.Ok? {
          return adv.PropagateFailure();
        }
        if adv.value.None? {
          RenderChars(text);
          return H.Ok(Result(Escape(text), None, None, 0));
        }
        at := hit.index + adv.value.value;
        todo := todo.rest;
      }
      r := Finish(H.Tail(text, at), todo.last, name, text, at, ignoreIllegals);
    }

    /** The search for the first child whose begin expression matches. */
    method FindBegun(contains: seq<ModeId>, begins: set<ModeId>) returns (r: Option<ModeId>)
      ensures r == H.FirstBegun(contains, begins)
      ensures r.Some? ==> exists k :: H.FirstAt(contains, begins, k) && r.value == contains[k]
      ensures r.None? ==> H.NoneBegun(contains, begins)
    {
      var k := 0;
      assert contains[0..] == contains;
      while k < |contains|
        invariant k <= |contains| && forall j | 0 <= j < k :: contains[j] !in begins
        invariant H.FirstBegun(contains, begins) == H.FirstBegun(contains[k..], begins)
      {
        if contains[k] in begins {
          assert H.FirstAt(contains, begins, k);
          return Some(contains[k]);
        }
        assert contains[k..][1..] == contains[k + 1..];
        k := k + 1;
      }
      return None;
    }

    /** The search outwards for a mode whose end expression matches, then past modes that end their parents. */
    method FindEnded(ends: set<nat>) returns (r: H.Attempt<Option<nat>>)
      requires stack != []
      ensures r == H.EndedAt(reg, stack, |stack| - 1, ends)
    {
      var pos := |stack| - 1;
      while true
        invariant 0 <= pos < |stack|
        invariant H.EndedAt(reg, stack, |stack| - 1, ends) == H.EndedAt(reg, stack, pos, ends)
        decreases pos
      {
        var mode := reg.mode(stack[pos]);
        if mode.hasEnd && pos in ends {
          var up := pos;
          while up > 0 && reg.mode(stack[up]).endsParent
            invariant 0 <= up <= pos
            invariant H.Climb(reg, stack, pos) == H.Climb(reg, stack, up)
          {
            up := up - 1;
          }
          return H.Ok(Some(up));
        }
        if !mode.endsWithParent {
          return H.Ok(None);
        }
        if pos == 0 {
          return H.Thrown;
        }
        pos := pos - 1;
      }
    }
  }

  lemma StackAfter(reg: Registry, st: H.State, lexeme: string, hit: H.Hit, ignoreIllegals: bool, atEnd: bool)
    requires st.stack != []
    ensures var spec := H.Process(reg, st, lexeme, hit, ignoreIllegals, atEnd);
            var contains := reg.mode(st.stack[|st.stack| - 1]).contains;
            spec.Ok? ==>
              && (spec.value.Advanced? ==>
                    && (forall k | H.FirstAt(contains, hit.begins, k) ::
                          spec.value.st.stack == st.stack + [contains[k]])
                    && (H.NoneBegun(contains, hit.begins)
                        ==> spec.value.st.stack == P.Unbegun(reg, st.stack, hit.ends)))
              && (spec.value.IllegalLexeme? ==>
                    H.NoneBegun(contains, hit.begins) && P.Unbegun(reg, st.stack, hit.ends) == st.stack)
  {
    hide H.Process;
    if H.Process(reg, st, lexeme, hit, ignoreIllegals, atEnd).Ok? {
      P.StepStack(reg, st, lexeme, hit, ignoreIllegals, atEnd);
    }
  }

  /** `a` is the rendered part of `spec` in front of `rest`. */
  ghost predicate Pending(spec: H.Attempt<seq<Token>>, a: string, rest: H.Attempt<seq<Token>>) {
    && (spec.Ok? <==> rest.Ok?)
    && (spec.Thrown? <==> rest.Thrown?)
    && (spec.Ok? ==> Render(spec.value) == a + Render(rest.value))
  }

  lemma PendingStarts(spec: H.Attempt<seq<Token>>)
    ensures Pending(spec, "", spec)
  {
    assert spec.Ok? ==> "" + Render(spec.value) == Render(spec.value);
  }

  lemma PendingStep(reg: Registry, classes: set<string>, text: string, t: nat, words: seq<H.WordHit>, a: string,
                    spec: H.Attempt<seq<Token>>)
    requires t <= |text| && words != []
    requires Pending(spec, a, H.KeywordDoc(reg, classes, text, t, words))
    ensures var w := words[0];
            if w.index < t || w.index + w.len > |text| || (w.cls.Some? && w.cls.value !in classes)
            then spec.NoSuchMatch?
            else
              var word := text[w.index..w.index + w.len];
              var marked := if w.cls.Some? then BuildSpan(reg, w.cls.value, Escape(word), false, false)
                            else Escape(word);
              Pending(spec, a + Escape(text[t..w.index]) + marked,
                      H.KeywordDoc(reg, classes, text, w.index + w.len, words[1..]))
  {
    hide Render, Escape, BuildSpan, Chars;
    var w := words[0];
    if t <= w.index && w.index + w.len <= |text| && (w.cls.Some? ==> w.cls.value in classes) {
      var word := text[w.index..w.index + w.len];
      var rest := H.KeywordDoc(reg, classes, text, w.index + w.len, words[1..]);
      if rest.Ok? {
        WordRendered(reg, text[t..w.index], word, w.cls, rest.value);
        var marked := if w.cls.Some? then BuildSpan(reg, w.cls.value, Escape(word), false, false) else Escape(word);
        Associates(a, Escape(text[t..w.index]) + marked, Render(rest.value));
        Associates(a, Escape(text[t..w.index]), marked);
      }
    }
  }

  lemma ScoreOne(words: seq<H.WordHit>)
    ensures H.KeywordScore(words)
         == if words == [] then 0 else (if words[0].cls.Some? then words[0].score else 0) + H.KeywordScore(words[1..])
  {
  }

  lemma PendingEnds(reg: Registry, classes: set<string>, text: string, t: nat, words: seq<H.WordHit>, a: string,
                    spec: H.Attempt<seq<Token>>)
    requires t <= |text| && words == []
    requires Pending(spec, a, H.KeywordDoc(reg, classes, text, t, words))
    ensures spec.Ok? && Render(spec.value) == a + Escape(text[t..])
  {
    RenderChars(text[t..]);
  }

  lemma NothingToReopen(reg: Registry, stack: seq<ModeId>)
    ensures Render(H.OpenTags(reg, stack[|stack|..])) == ""
  {
  }

  lemma ReopenStep(reg: Registry, stack: seq<ModeId>, n: nat)
    requires n < |stack|
    ensures Render(H.OpenTags(reg, stack[n..]))
         == (if reg.mode(stack[n]).className.Some?
             then BuildSpan(reg, reg.mode(stack[n]).className.value, "", true, false) else "")
            + Render(H.OpenTags(reg, stack[n + 1..]))
  {
    assert stack[n..][1..] == stack[n + 1..];
    RenderConcat(H.OpenTag(reg, stack[n]), H.OpenTags(reg, stack[n + 1..]));
    BuildSpanOpens(reg, stack[n]);
  }

  lemma PopStarts(reg: Registry, all: seq<ModeId>, output: string)
    ensures H.CloseTags(reg, all[|all|..]) == [] && output + Render([]) == output
  {
  }

  lemma NothingLeft(reg: Registry, all: seq<ModeId>)
    ensures H.LeftScore(reg, all[|all|..]) == 0
  {
  }

  lemma ScoreStep(reg: Registry, all: seq<ModeId>, n: nat)
    requires n < |all|
    ensures H.LeftScore(reg, all[n..]) == H.ModeScore(reg.mode(all[n])) + H.LeftScore(reg, all[n + 1..])
  {
    assert all[n..][1..] == all[n + 1..];
  }

  lemma PopStep(reg: Registry, before: string, closed: seq<Token>, all: seq<ModeId>, n: nat)
    requires n < |all| && closed == H.CloseTags(reg, all[n + 1..])
    ensures closed + H.CloseTag(reg, all[n]) == H.CloseTags(reg, all[n..])
    ensures before + Render(closed + H.CloseTag(reg, all[n]))
         == before + Render(closed) + if reg.mode(all[n]).className.Some? then "</span>" else ""
  {
    assert all[n..] == [all[n]] + all[n + 1..];
    P.CloseTagsFlip(reg, all[n], all[n + 1..]);
    PopRendered(reg, before, closed, all[n]);
  }

  lemma PopRendered(reg: Registry, before: string, closed: seq<Token>, id: ModeId)
    ensures before + Render(closed + H.CloseTag(reg, id))
         == before + Render(closed) + if reg.mode(id).className.Some? then "</span>" else ""
  {
    RenderConcat(closed, H.CloseTag(reg, id));
    OpeningTag("", "");
    RenderOne(H.SPAN_END);
    Associates(before, Render(closed), Render(H.CloseTag(reg, id)));
  }

  lemma NothingNamed(reg: Registry, st: H.State, mode: H.Mode, name: string, nested: H.Nested)
    requires !nested.One?
    ensures H.FlushNamed(reg, st, mode, name, nested).NoSuchMatch?
  {
  }

  lemma NamedResult(reg: Registry, st: H.State, mode: H.Mode, name: string, nested: H.Nested)
    requires nested.One?
    ensures var run := H.Highlighted(reg, name, st.buf, nested.script, true, H.Continued(st, name));
            var spec := H.FlushNamed(reg, st, mode, name, nested);
            && (run.Ok? <==> spec.Ok?) && (run.Thrown? <==> spec.Thrown?)
            && (run.Ok? ==>
                  var absorbed := H.Absorb(st, mode, run.value);
                  && absorbed.tops == st.tops
                  && spec.value == absorbed.(tops :=
                       if run.value.top.Some? then st.tops[name := run.value.top.value] else st.tops - {name}))
  {
    hide H.Highlighted, H.Wrap, H.LanguageBody;
  }

  lemma EndFails(reg: Registry, st: H.State, lexeme: string, pos: nat, answers: H.Answers)
    requires pos < |st.stack|
    ensures var m := reg.mode(st.stack[|st.stack| - 1]);
            var flushed := H.Flush(reg, if m.returnEnd || m.excludeEnd then st
                                   else st.(buf := st.buf + lexeme), answers);
            var spec := H.EndModes(reg, st, lexeme, pos, answers);
            !m.skip && !flushed.Ok? ==> !spec.Ok? && (flushed.Thrown? <==> spec.Thrown?)
  {
    hide H.Flush, H.CloseTags, H.LeftScore, H.OpenTag;
  }

  /** Ending modes in two steps: they are popped, and what the outermost of them starts is entered. */
  lemma PoppedInTwo(reg: Registry, st: H.State, pos: nat)
    requires pos < |st.stack|
    ensures var popped, starts := st.stack[pos..], reg.mode(st.stack[pos]).starts;
            var st1 := st.(doc := st.doc + H.CloseTags(reg, popped), stack := st.stack[..pos],
                           rooted := st.rooted && pos > 0, relevance := st.relevance + H.LeftScore(reg, popped));
            P.Popped(reg, st, pos) == if starts.Some? then H.Enter(reg, st1, starts.value) else st1
  {
    hide H.CloseTags, H.LeftScore, H.OpenTag;
    var closing := H.CloseTags(reg, st.stack[pos..]);
    match reg.mode(st.stack[pos]).starts
    case None =>
      assert closing + [] == closing && st.stack[..pos] + [] == st.stack[..pos];
    case Some(id) =>
      Associates(st.doc, closing, H.OpenTag(reg, id));
  }

  lemma WordRendered(reg: Registry, gap: string, word: string, cls: Option<string>, rest: seq<Token>)
    ensures var marked := if cls.Some? then H.Wrap(H.SpanBody(reg.prefix, cls.value), Chars(word)) else Chars(word);
            var shown := if cls.Some? then BuildSpan(reg, cls.value, Escape(word), false, false) else Escape(word);
            Render(Chars(gap) + marked + rest) == Escape(gap) + shown + Render(rest)
  {
    var marked := if cls.Some? then H.Wrap(H.SpanBody(reg.prefix, cls.value), Chars(word)) else Chars(word);
    RenderChars(gap);
    RenderChars(word);
    if cls.Some? {
      BuildSpanWraps(reg, cls.value, Chars(word), false);
    }
    RenderConcat(Chars(gap) + marked, rest);
    RenderConcat(Chars(gap), marked);
  }

  /** `x`: highlights in every candidate language and keeps the two most relevant results. */
  method HighlightAuto(reg: Registry, text: string, candidates: H.Candidates) returns (r: H.Attempt<(Result, Result)>)
    decreases candidates, 0
    ensures ShownRanking(r, H.BestOf(reg, text, candidates, H.NoneYet(text)))
  {
    RenderChars(text);
    var best, second := Result(Escape(text), None, None, 0), Result(Escape(text), None, None, 0);
    ghost var ranking := H.NoneYet(text);
    var todo := candidates;
    ghost var spec := H.BestOf(reg, text, candidates, ranking);
    while todo.Candidate?
      invariant ShownResult(best, ranking.best) && ShownResult(second, ranking.second)
      invariant ranking.second.relevance <= ranking.best.relevance
      invariant spec == H.BestOf(reg, text, todo, ranking)
      invariant todo == candidates || todo < candidates
      decreases todo
    {
      if todo.name !in reg.languages {
        return H.NoSuchMatch;
      }
      ghost var one := H.Highlighted(reg, todo.name, text, todo.script, false, None);
      var run := Highlight(reg, todo.name, text, todo.script, false, None);
      if !run.Ok? {
        return run.PropagateFailure();
      }
      var t := run.value.(language := Some(todo.name));
      ranking := H.Ranked(ranking, one.value.(language := Some(todo.name)));
      if t.relevance > second.relevance {
        second := t;
      }
      if t.relevance > best.relevance {
        second, best := best, t;
      }
      todo := todo.others;
    }
    return H.Ok((best, second));
  }

  /** `k`: from the language's own mode, or from where an earlier run ended. */
  method Highlight(reg: Registry, name: string, text: string, script: H.Script, ignoreIllegals: bool,
                   start: Option<Chain>)
    returns (r: H.Attempt<Result>)
    decreases script, 2
    ensures Shown(r, H.Highlighted(reg, name, text, script, ignoreIllegals, start))
  {
    hide H.OpenTags, Render, H.Loop;
    if name !in reg.languages {
      return H.Thrown;
    }
    var chain := H.StartChain(reg, name, start);
    if !H.Continuable(reg, name, chain) {
      return H.Thrown;
    }
    var h := new Highlighter(reg, name, chain.modes);
    r := h.Loop(name, text, script, ignoreIllegals);
  }
}

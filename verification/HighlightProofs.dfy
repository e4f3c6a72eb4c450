/** Text conservation, nesting and absence of exceptions for the highlighter. */
module HighlightProofs {
  import opened Wrappers
  import opened Markup
  import opened Highlight

  // ----- hypotheses on a grammar -----

  /** No mode returns a lexeme to the input that it has also emitted. */
  ghost predicate Conserving(reg: Registry) {
    forall id ::
      var m := reg.mode(id);
      !(m.returnBegin && (m.skip || m.excludeBegin)) && !(m.returnEnd && (m.skip || m.excludeEnd))
  }

  /** What is left of the stack when position `pos` is ended. */
  function Left(reg: Registry, stack: seq<ModeId>, pos: nat): seq<ModeId>
    requires pos < |stack|
  {
    stack[..pos] + match reg.mode(stack[pos]).starts case None => [] case Some(id) => [id]
  }

  /** What a lexeme leaves of the stack when it begins no child. */
  function Unbegun(reg: Registry, stack: seq<ModeId>, ends: set<nat>): seq<ModeId>
    requires stack != []
  {
    match EndedAt(reg, stack, |stack| - 1, ends)
    case Ok(Some(pos)) => Left(reg, stack, pos)
    case _ => stack
  }

  /** A lexeme that satisfies these end expressions throws nothing and does not end the root. */
  predicate EndsWell(reg: Registry, stack: seq<ModeId>, ends: set<nat>)
    requires stack != []
  {
    match EndedAt(reg, stack, |stack| - 1, ends)
    case Ok(None) => true
    case Ok(Some(pos)) => pos > 0
    case _ => false
  }

  function AfterEnds(reg: Registry, stack: seq<ModeId>, ends: set<nat>): seq<ModeId>
    requires stack != [] && EndsWell(reg, stack, ends)
  {
    match EndedAt(reg, stack, |stack| - 1, ends).value
    case None => stack
    case Some(pos) => Left(reg, stack, pos)
  }

  ghost predicate SteadyAt(reg: Registry, stacks: iset<seq<ModeId>>, stack: seq<ModeId>) {
    && stack != []
    && (forall c <- reg.mode(stack[|stack| - 1]).contains :: stack + [c] in stacks)
    && (forall ends :: EndsWell(reg, stack, ends) && AfterEnds(reg, stack, ends) in stacks)
  }

  /** Mode stacks that lexemes only lead to each other, with every root always at the bottom. */
  ghost predicate Steady(reg: Registry, stacks: iset<seq<ModeId>>) {
    && (forall name <- reg.languages :: [reg.languages[name]] in stacks)
    && (forall stack <- stacks :: SteadyAt(reg, stacks, stack))
  }

  /** No name that is written into a tag contains `>`. */
  ghost predicate PlainNames(reg: Registry) {
    && '>' !in reg.prefix
    && (forall name <- reg.languages :: '>' !in name)
    && (forall id ::
          && (reg.mode(id).className.Some? ==> '>' !in reg.mode(id).className.value)
          && (reg.mode(id).keywordClasses.Some? ==> forall k <- reg.mode(id).keywordClasses.value :: '>' !in k))
  }

  /** Which of the results a proof is after, each under its own hypothesis on the grammar. */
  datatype Claims = Claims(nested: bool, stacks: iset<seq<ModeId>>, plain: bool, conserving: bool)

  ghost predicate Wanted(reg: Registry, claims: Claims) {
    && (claims.nested ==> Steady(reg, claims.stacks))
    && (claims.plain ==> PlainNames(reg))
    && (claims.conserving ==> Conserving(reg))
  }

  // ----- what a rendered text satisfies -----

  ghost predicate Shaped(claims: Claims, doc: seq<Token>) {
    && (claims.nested ==> Balanced(doc))
    && (claims.plain ==> Plain(doc))
  }

  /** `shown` is `text`, up to the repetitions and omissions on the ledger. */
  ghost predicate Accounts(claims: Claims, text: string, shown: string, ledger: Ledger) {
    && |shown| + ledger.dropped == |text| + ledger.repeated
    && (ledger.Clean() ==> shown == text)
    && (claims.conserving ==> ledger.repeated == 0)
  }

  ghost predicate Faithful(reg: Registry, claims: Claims, text: string, r: Rendered) {
    && Shaped(claims, r.doc)
    && Accounts(claims, text, TextOf(r.doc), r.ledger)
    && (r.language.Some? ==> r.language.value in reg.languages)
  }

  function OpenBody(reg: Registry, id: ModeId): seq<string> {
    match reg.mode(id).className
    case None => []
    case Some(cls) => [SpanBody(reg.prefix, cls)]
  }

  /** The bodies of the spans that a mode stack keeps open. */
  function Opened(reg: Registry, modes: seq<ModeId>): seq<string> {
    if modes == [] then [] else OpenBody(reg, modes[0]) + Opened(reg, modes[1..])
  }

  ghost predicate SafeStack(reg: Registry, stacks: iset<seq<ModeId>>, name: string, stack: seq<ModeId>) {
    && name in reg.languages
    && stack != [] && stack[0] == reg.languages[name] && stack in stacks
  }

  ghost predicate SafeChain(reg: Registry, stacks: iset<seq<ModeId>>, name: string, chain: Chain) {
    chain.rooted && SafeStack(reg, stacks, name, chain.modes)
  }

  ghost predicate SafeTops(reg: Registry, stacks: iset<seq<ModeId>>, tops: map<string, Chain>) {
    forall n <- tops :: SafeChain(reg, stacks, n, tops[n])
  }

  /** The open spans are those of the classed modes above the root. */
  ghost predicate SpansInv(reg: Registry, claims: Claims, name: string, doc: seq<Token>, stack: seq<ModeId>) {
    && (claims.plain ==> Plain(doc))
    && (claims.nested ==>
          && SafeStack(reg, claims.stacks, name, stack)
          && Nest(doc, []) == Some(Opened(reg, stack[1..])))
  }

  /** The loop invariant: what was emitted and buffered is the text consumed so far, up to the
      ledger, and the spans in the document match the mode stack. */
  ghost predicate Inv(reg: Registry, claims: Claims, name: string, done: string, st: State) {
    && Accounts(claims, done, TextOf(st.doc) + st.buf, st.ledger)
    && SpansInv(reg, claims, name, st.doc, st.stack)
    && (claims.nested ==> st.rooted && SafeTops(reg, claims.stacks, st.tops))
  }

  // ----- documents -----

  lemma FindInAppend(a: string, c: char, b: string)
    requires c !in a
    ensures FindChar(a + [c] + b, c) == Some(|a|)
  {
    assert (a + [c] + b)[..|a|] == a;
    FindFirst(a + [c] + b, |a|, c);
  }

  lemma SpanName(prefix: string, cls: string)
    ensures NameOf(SpanBody(prefix, cls)) == "span"
    ensures !IsClose(SpanBody(prefix, cls))
    ensures !IsVoid("span")
  {
    var rest := "class=\"" + prefix + cls + "\"";
    assert SpanBody(prefix, cls) == "span" + [' '] + rest;
    FindInAppend("span", ' ', rest);
    SpanIsNotVoid();
  }

  lemma SpanIsNotVoid()
    ensures !IsVoid("span") && !LooksVoid("span")
  {
    var s := "span";
    forall k | 0 <= k <= |s|
      ensures !("br" <= s[k..]) && !("hr" <= s[k..]) && !("img" <= s[k..]) && !("input" <= s[k..])
    {
      assert k < |s| ==> s[k..][0] == s[k];
    }
  }

  lemma WrapFacts(claims: Claims, prefix: string, cls: string, doc: seq<Token>)
    requires Shaped(claims, doc)
    requires claims.plain ==> '>' !in prefix && '>' !in cls
    ensures TextOf(Wrap(SpanBody(prefix, cls), doc)) == TextOf(doc)
    ensures Shaped(claims, Wrap(SpanBody(prefix, cls), doc))
  {
    var body := SpanBody(prefix, cls);
    var inside := doc + [SPAN_END];
    SpanName(prefix, cls);
    assert Wrap(body, doc) == [Tag(body)] + inside && Wrap(body, doc)[1..] == inside;
    TextConcat(doc, [SPAN_END]);
    PlainConcat(doc, [SPAN_END]);
    assert Plain([SPAN_END]);
    if claims.nested {
      ClosesInside(doc, body);
      assert [] + [body] == [body];
    }
  }

  lemma ClosesInside(doc: seq<Token>, body: string)
    requires Balanced(doc) && NameOf(body) == "span"
    ensures Nest(doc + [SPAN_END], [body]) == Some([])
  {
    BalancedUnder(doc, [body]);
    NestConcat(doc, [SPAN_END], [body]);
    CloseSpan([], body);
  }

  lemma CloseSpan(open: seq<string>, body: string)
    requires NameOf(body) == "span"
    ensures Nest([SPAN_END], open + [body]) == Some(open)
  {
    assert (open + [body])[..|open|] == open;
    assert SPAN_END.body[1..] == "span";
    assert Nest([], open) == Some(open);
    assert [SPAN_END][1..] == [];
  }

  lemma CharsFacts(claims: Claims, s: string)
    ensures Shaped(claims, Chars(s))
    ensures Accounts(claims, s, TextOf(Chars(s)), CLEAN)
  {
    TextOfChars(s);
    NestChars(s, []);
    PlainChars(s);
  }

  lemma ShapedConcat(claims: Claims, a: seq<Token>, b: seq<Token>)
    requires Shaped(claims, a) && Shaped(claims, b)
    ensures Shaped(claims, a + b)
  {
    NestConcat(a, b, []);
    PlainConcat(a, b);
  }

  lemma OpenTagNest(reg: Registry, id: ModeId, open: seq<string>)
    ensures Nest(OpenTag(reg, id), open) == Some(open + OpenBody(reg, id))
    ensures TextOf(OpenTag(reg, id)) == ""
  {
    match reg.mode(id).className
    case None => assert open + [] == open;
    case Some(cls) => SpanName(reg.prefix, cls);
  }

  lemma OpenTagPlain(reg: Registry, id: ModeId)
    requires PlainNames(reg)
    ensures Plain(OpenTag(reg, id))
  {
    assert reg.mode(id).className.Some? ==> '>' !in reg.mode(id).className.value;
  }

  lemma {:induction false} OpenTagsPlain(reg: Registry, modes: seq<ModeId>)
    requires PlainNames(reg)
    ensures Plain(OpenTags(reg, modes))
  {
    if modes != [] {
      OpenTagPlain(reg, modes[0]);
      OpenTagsPlain(reg, modes[1..]);
      PlainConcat(OpenTag(reg, modes[0]), OpenTags(reg, modes[1..]));
    }
  }

  lemma {:induction false} OpenTagsNest(reg: Registry, modes: seq<ModeId>, open: seq<string>)
    ensures Nest(OpenTags(reg, modes), open) == Some(open + Opened(reg, modes))
    ensures TextOf(OpenTags(reg, modes)) == ""
    decreases |modes|
  {
    if modes == [] {
      assert open + [] == open;
    } else {
      hide Nest, TextOf, OpenTag, OpenBody;
      var open' := open + OpenBody(reg, modes[0]);
      OpenTagNest(reg, modes[0], open);
      OpenTagsNest(reg, modes[1..], open');
      Associates(open, OpenBody(reg, modes[0]), Opened(reg, modes[1..]));
      NestThen(OpenTag(reg, modes[0]), OpenTags(reg, modes[1..]), open, open', open + Opened(reg, modes));
      TextConcat(OpenTag(reg, modes[0]), OpenTags(reg, modes[1..]));
    }
  }

  lemma {:induction false} CloseTagsNest(reg: Registry, modes: seq<ModeId>, open: seq<string>)
    ensures Nest(CloseTags(reg, modes), open + Opened(reg, modes)) == Some(open)
    ensures TextOf(CloseTags(reg, modes)) == ""
    ensures Plain(CloseTags(reg, modes))
    decreases |modes|
  {
    if modes == [] {
      assert open + [] == open;
    } else {
      var outer, inner := modes[0], modes[1..];
      CloseTagsFlip(reg, outer, inner);
      assert [outer] + inner == modes;
      var rest := CloseTags(reg, inner);
      var first := CloseTag(reg, outer);
      var open' := open + OpenBody(reg, outer);
      Associates(open, OpenBody(reg, outer), Opened(reg, inner));
      CloseTagsNest(reg, inner, open');
      CloseOne(reg, outer, open);
      NestThen(rest, first, open' + Opened(reg, inner), open', open);
      TextConcat(rest, first);
      PlainConcat(rest, first);
    }
  }

  lemma CloseOne(reg: Registry, id: ModeId, open: seq<string>)
    ensures Nest(CloseTag(reg, id), open + OpenBody(reg, id)) == Some(open)
    ensures TextOf(CloseTag(reg, id)) == ""
    ensures Plain(CloseTag(reg, id))
  {
    match reg.mode(id).className
    case None => assert open + [] == open;
    case Some(cls) =>
      SpanName(reg.prefix, cls);
      CloseSpan(open, SpanBody(reg.prefix, cls));
  }

  /** All closing tags look alike, so closing outermost-first reads like closing innermost-first. */
  lemma CloseTagsFlip(reg: Registry, id: ModeId, modes: seq<ModeId>)
    ensures CloseTags(reg, [id] + modes) == CloseTags(reg, modes) + CloseTag(reg, id)
  {
    assert ([id] + modes)[1..] == modes;
    AllSpanEnds(reg, modes);
    var n := |CloseTags(reg, modes)|;
    assert CloseTags(reg, modes) == seq(n, i => SPAN_END);
  }

  lemma AllSpanEnds(reg: Registry, modes: seq<ModeId>)
    ensures forall i | 0 <= i < |CloseTags(reg, modes)| :: CloseTags(reg, modes)[i] == SPAN_END
  {
  }

  lemma {:induction false} OpenedConcat(reg: Registry, a: seq<ModeId>, b: seq<ModeId>)
    ensures Opened(reg, a + b) == Opened(reg, a) + Opened(reg, b)
  {
    if a == [] {
      assert a + b == b;
    } else {
      assert (a + b)[1..] == a[1..] + b;
      OpenedConcat(reg, a[1..], b);
      Associates(OpenBody(reg, a[0]), Opened(reg, a[1..]), Opened(reg, b));
    }
  }

  // ----- single moves of the state -----

  lemma AccountsAppend(claims: Claims, done: string, shown: string, buf: string, more: string, l1: Ledger, l2: Ledger)
    requires Accounts(claims, done, shown + buf, l1) && Accounts(claims, buf, more, l2)
    ensures Accounts(claims, done, shown + more, l1.Plus(l2))
  {
  }

  lemma SpansAppend(reg: Registry, claims: Claims, name: string, doc: seq<Token>, stack: seq<ModeId>, more: seq<Token>)
    requires SpansInv(reg, claims, name, doc, stack) && Shaped(claims, more)
    ensures SpansInv(reg, claims, name, doc + more, stack)
  {
    PlainConcat(doc, more);
    if claims.nested {
      NestConcat(doc, more, []);
      BalancedUnder(more, Opened(reg, stack[1..]));
    }
  }

  lemma Emit(reg: Registry, claims: Claims, name: string, done: string, st: State, doc: seq<Token>, ledger: Ledger)
    requires Inv(reg, claims, name, done, st)
    requires Shaped(claims, doc) && Accounts(claims, st.buf, TextOf(doc), ledger)
    ensures Inv(reg, claims, name, done, st.(doc := st.doc + doc, buf := "", ledger := st.ledger.Plus(ledger)))
  {
    TextConcat(st.doc, doc);
    AccountsAppend(claims, done, TextOf(st.doc), st.buf, TextOf(doc), st.ledger, ledger);
    SpansAppend(reg, claims, name, st.doc, st.stack, doc);
    assert TextOf(st.doc + doc) + "" == TextOf(st.doc) + TextOf(doc);
  }

  lemma Buffer(reg: Registry, claims: Claims, name: string, done: string, st: State, more: string)
    requires Inv(reg, claims, name, done, st)
    ensures Inv(reg, claims, name, done + more, st.(buf := st.buf + more))
  {
    assert TextOf(st.doc) + (st.buf + more) == TextOf(st.doc) + st.buf + more;
  }

  lemma Refill(reg: Registry, claims: Claims, name: string, done: string, st: State, more: string)
    requires Inv(reg, claims, name, done, st) && st.buf == ""
    ensures Inv(reg, claims, name, done + more, st.(buf := more))
  {
    Buffer(reg, claims, name, done, st, more);
    assert st.buf + more == more;
  }

  /** Emitting a lexeme that is also given back to the input is recorded as repetition. */
  lemma Repeat(reg: Registry, claims: Claims, name: string, done: string, st: State, lexeme: string)
    requires Inv(reg, claims, name, done + lexeme, st)
    requires !claims.conserving
    ensures Inv(reg, claims, name, done, st.(ledger := st.ledger.Plus(Ledger(|lexeme|, 0))))
  {
    assert lexeme == "" ==> done + lexeme == done;
  }

  lemma Entered(reg: Registry, claims: Claims, name: string, done: string, st: State, id: ModeId)
    requires Wanted(reg, claims) && Inv(reg, claims, name, done, st)
    requires claims.nested ==> st.stack + [id] in claims.stacks
    ensures Inv(reg, claims, name, done, Enter(reg, st, id))
  {
    hide Steady, Conserving, PlainNames, OpenTag;
    var tag := OpenTag(reg, id);
    OpenTagNest(reg, id, if st.stack == [] then [] else Opened(reg, st.stack[1..]));
    TextConcat(st.doc, tag);
    PlainConcat(st.doc, tag);
    if claims.plain {
      OpenTagPlain(reg, id);
    }
    assert TextOf(st.doc + tag) == TextOf(st.doc);
    if claims.nested {
      OpenedConcat(reg, st.stack[1..], [id]);
      assert Opened(reg, [id]) == OpenBody(reg, id) + [] == OpenBody(reg, id);
      assert (st.stack + [id])[1..] == st.stack[1..] + [id];
      NestThen(st.doc, tag, [], Opened(reg, st.stack[1..]), Opened(reg, st.stack[1..] + [id]));
    }
  }

  /** The tags that ending position `pos` writes. */
  function LeftTags(reg: Registry, stack: seq<ModeId>, pos: nat): seq<Token>
    requires pos < |stack|
  {
    CloseTags(reg, stack[pos..]) + match reg.mode(stack[pos]).starts case None => [] case Some(id) => OpenTag(reg, id)
  }

  lemma LeftTagsNest(reg: Registry, stack: seq<ModeId>, pos: nat)
    requires 0 < pos < |stack|
    ensures Left(reg, stack, pos) != [] && Left(reg, stack, pos)[0] == stack[0]
    ensures Nest(LeftTags(reg, stack, pos), Opened(reg, stack[1..])) == Some(Opened(reg, Left(reg, stack, pos)[1..]))
  {
    hide Nest, CloseTags, OpenTag, Opened, OpenBody;
    var starts := reg.mode(stack[pos]).starts;
    var kept := stack[1..pos];
    OpenedConcat(reg, kept, stack[pos..]);
    assert kept + stack[pos..] == stack[1..];
    CloseTagsNest(reg, stack[pos..], Opened(reg, kept));
    if starts.Some? {
      OpenTagNest(reg, starts.value, Opened(reg, kept));
      OpenedOne(reg, starts.value);
      OpenedConcat(reg, kept, [starts.value]);
      assert Left(reg, stack, pos)[1..] == kept + [starts.value];
      NestThen(CloseTags(reg, stack[pos..]), OpenTag(reg, starts.value), Opened(reg, stack[1..]), Opened(reg, kept),
               Opened(reg, kept) + OpenBody(reg, starts.value));
    } else {
      assert Left(reg, stack, pos)[1..] == kept;
      assert LeftTags(reg, stack, pos) == CloseTags(reg, stack[pos..]);
    }
  }

  lemma OpenedOne(reg: Registry, id: ModeId)
    ensures Opened(reg, [id]) == OpenBody(reg, id)
  {
    assert Opened(reg, [id]) == OpenBody(reg, id) + [];
  }

  lemma LeftTagsText(reg: Registry, stack: seq<ModeId>, pos: nat)
    requires pos < |stack|
    ensures TextOf(LeftTags(reg, stack, pos)) == ""
    ensures PlainNames(reg) ==> Plain(LeftTags(reg, stack, pos))
  {
    hide Nest, OpenTag, CloseTags, PlainNames, Plain, TextOf;
    var starts := reg.mode(stack[pos]).starts;
    CloseTagsNest(reg, stack[pos..], []);
    if starts.Some? {
      OpenTagNest(reg, starts.value, []);
      TextConcat(CloseTags(reg, stack[pos..]), OpenTag(reg, starts.value));
      PlainConcat(CloseTags(reg, stack[pos..]), OpenTag(reg, starts.value));
      if PlainNames(reg) {
        OpenTagPlain(reg, starts.value);
      }
    } else {
      assert LeftTags(reg, stack, pos) == CloseTags(reg, stack[pos..]);
    }
  }

  /** What ending position `pos` makes of a state. */
  function Popped(reg: Registry, st: State, pos: nat): State
    requires pos < |st.stack|
  {
    st.(doc := st.doc + LeftTags(reg, st.stack, pos), stack := Left(reg, st.stack, pos),
        rooted := st.rooted && pos > 0, relevance := st.relevance + LeftScore(reg, st.stack[pos..]))
  }

  /** Ending a position other than the root's keeps the invariant. */
  lemma Replaced(reg: Registry, claims: Claims, name: string, done: string, st: State, pos: nat)
    requires Wanted(reg, claims) && Inv(reg, claims, name, done, st) && pos < |st.stack|
    requires claims.nested ==> pos > 0 && Left(reg, st.stack, pos) in claims.stacks
    ensures Inv(reg, claims, name, done, Popped(reg, st, pos))
  {
    hide Nest, TextOf, Plain, SafeTops, Accounts, LeftTags, Opened, Left, Steady, PlainNames, Conserving, LeftScore;
    var tags := LeftTags(reg, st.stack, pos);
    LeftTagsText(reg, st.stack, pos);
    TextConcat(st.doc, tags);
    PlainConcat(st.doc, tags);
    assert TextOf(st.doc + tags) == TextOf(st.doc) + "" == TextOf(st.doc);
    if claims.nested {
      LeftTagsNest(reg, st.stack, pos);
      NestThen(st.doc, tags, [], Opened(reg, st.stack[1..]), Opened(reg, Left(reg, st.stack, pos)[1..]));
    }
  }

  lemma {:induction false} KeywordsFaithful(reg: Registry, claims: Claims, classes: set<string>, text: string,
        from: nat, words: seq<WordHit>)
    requires from <= |text|
    requires claims.plain ==> '>' !in reg.prefix && forall k <- classes :: '>' !in k
    requires KeywordDoc(reg, classes, text, from, words).Ok?
    ensures var doc := KeywordDoc(reg, classes, text, from, words).value;
            Shaped(claims, doc) && Accounts(claims, text[from..], TextOf(doc), CLEAN)
    decreases words
  {
    if words == [] {
      CharsFacts(claims, text[from..]);
    } else {
      hide Shaped, Accounts, Wrap, TextOf, Chars;
      var w := words[0];
      var upto := w.index + w.len;
      KeywordsFaithful(reg, claims, classes, text, upto, words[1..]);
      WordFaithful(reg, claims, text[from..w.index], text[w.index..upto], w.cls, text[upto..],
                   KeywordDoc(reg, classes, text, upto, words[1..]).value);
      SplitTwice(text, from, w.index, upto);
    }
  }

  lemma SplitTwice(text: string, from: nat, mid: nat, upto: nat)
    requires from <= mid <= upto <= |text|
    ensures text[from..] == text[from..mid] + text[mid..upto] + text[upto..]
  {
  }

  lemma WordFaithful(reg: Registry, claims: Claims, gap: string, word: string, cls: Option<string>, text: string,
                     rest: seq<Token>)
    requires Shaped(claims, rest) && Accounts(claims, text, TextOf(rest), CLEAN)
    requires claims.plain && cls.Some? ==> '>' !in reg.prefix && '>' !in cls.value
    ensures var marked := if cls.Some? then Wrap(SpanBody(reg.prefix, cls.value), Chars(word)) else Chars(word);
            var doc := Chars(gap) + marked + rest;
            Shaped(claims, doc) && Accounts(claims, gap + word + text, TextOf(doc), CLEAN)
  {
    var marked := if cls.Some? then Wrap(SpanBody(reg.prefix, cls.value), Chars(word)) else Chars(word);
    CharsFacts(claims, gap);
    CharsFacts(claims, word);
    if cls.Some? {
      WrapFacts(claims, reg.prefix, cls.value, Chars(word));
    }
    hide Wrap, TextOf, Balanced, Plain, Chars;
    TextOfChars(gap);
    TextOfChars(word);
    ShapedConcat(claims, Chars(gap), marked);
    ShapedConcat(claims, Chars(gap) + marked, rest);
    TextConcat(Chars(gap) + marked, rest);
    TextConcat(Chars(gap), marked);
  }

  // ----- finding the ended mode -----

  /** The child that is begun is the first whose begin expression matches; there is none if and only if
      no child's does. */
  lemma {:induction false} FirstBegunIsFirst(contains: seq<ModeId>, begins: set<ModeId>)
    ensures FirstBegun(contains, begins) == None <==> NoneBegun(contains, begins)
    ensures forall k | FirstAt(contains, begins, k) :: FirstBegun(contains, begins) == Some(contains[k])
    ensures FirstBegun(contains, begins).Some? ==> exists k :: FirstAt(contains, begins, k)
  {
    if contains != [] && contains[0] !in begins {
      FirstBegunIsFirst(contains[1..], begins);
      forall k | FirstAt(contains, begins, k) ensures FirstBegun(contains, begins) == Some(contains[k]) {
        assert FirstAt(contains[1..], begins, k - 1);
      }
      if k :| FirstAt(contains[1..], begins, k) {
        assert FirstAt(contains, begins, k + 1);
      }
    } else if contains != [] {
      assert FirstAt(contains, begins, 0);
    }
  }

  /** Which mode a lexeme ends: the innermost matching mode `hit` that is reachable through modes
      ending with their parents, and from there out to the nearest mode that does not end its parent. */
  lemma {:induction false} EndedAtIsInnermost(reg: Registry, stack: seq<ModeId>, pos: nat, ends: set<nat>)
    returns (hit: nat)
    requires pos < |stack| && EndedAt(reg, stack, pos, ends).Ok?
    ensures hit <= pos
    ensures forall i | hit < i <= pos :: reg.mode(stack[i]).endsWithParent && !(reg.mode(stack[i]).hasEnd && i in ends)
    ensures match EndedAt(reg, stack, pos, ends).value
            case None => !reg.mode(stack[hit]).endsWithParent && !(reg.mode(stack[hit]).hasEnd && hit in ends)
            case Some(out) =>
              && reg.mode(stack[hit]).hasEnd && hit in ends
              && out <= hit && (forall i | out < i <= hit :: reg.mode(stack[i]).endsParent)
              && (out > 0 ==> !reg.mode(stack[out]).endsParent)
  {
    var mode := reg.mode(stack[pos]);
    if mode.hasEnd && pos in ends {
      hit := pos;
      ClimbIsNearest(reg, stack, pos);
    } else if !mode.endsWithParent {
      hit := pos;
    } else {
      hit := EndedAtIsInnermost(reg, stack, pos - 1, ends);
    }
  }

  lemma {:induction false} ClimbIsNearest(reg: Registry, stack: seq<ModeId>, pos: nat)
    requires pos < |stack|
    ensures var out := Climb(reg, stack, pos);
            && (forall i | out < i <= pos :: reg.mode(stack[i]).endsParent)
            && (out > 0 ==> !reg.mode(stack[out]).endsParent)
  {
    if pos > 0 && reg.mode(stack[pos]).endsParent {
      ClimbIsNearest(reg, stack, pos - 1);
    }
  }

  /** The mode stack after one lexeme: the first child whose begin expression matches is entered, whatever
      the lexeme ends; only without such a child are modes ended. Only a lexeme that does neither can be
      illegal. */
  lemma StepStack(reg: Registry, st: State, lexeme: string, hit: Hit, ignoreIllegals: bool, atEnd: bool)
    requires st.stack != [] && Process(reg, st, lexeme, hit, ignoreIllegals, atEnd).Ok?
    ensures var contains := reg.mode(st.stack[|st.stack| - 1]).contains;
            var step := Process(reg, st, lexeme, hit, ignoreIllegals, atEnd).value;
            && (step.Advanced? ==>
                  && (forall k | FirstAt(contains, hit.begins, k) :: step.st.stack == st.stack + [contains[k]])
                  && (NoneBegun(contains, hit.begins) ==> step.st.stack == Unbegun(reg, st.stack, hit.ends)))
            && (step.IllegalLexeme? <==>
                  && NoneBegun(contains, hit.begins) && EndedAt(reg, st.stack, |st.stack| - 1, hit.ends) == Ok(None)
                  && !ignoreIllegals && hit.illegal)
  {
    hide Flush, FirstBegun, EndedAt, CloseTags, OpenTag, LeftScore, FirstAt, NoneBegun;
    FirstBegunIsFirst(reg.mode(st.stack[|st.stack| - 1]).contains, hit.begins);
  }

  // ----- the mutual induction -----

  lemma StackFacts(reg: Registry, claims: Claims, name: string, done: string, st: State)
    requires Inv(reg, claims, name, done, st)
    ensures claims.nested ==>
              && SafeChain(reg, claims.stacks, name, Chain(st.stack, st.rooted))
              && SafeTops(reg, claims.stacks, st.tops)
  {
  }

  lemma StackNonempty(reg: Registry, claims: Claims, name: string, done: string, st: State)
    requires Inv(reg, claims, name, done, st)
    ensures claims.nested ==> st.stack != []
  {
  }

  lemma Scored(reg: Registry, claims: Claims, name: string, done: string, st: State, tops: map<string, Chain>,
               relevance: int)
    requires Inv(reg, claims, name, done, st)
    requires claims.nested ==> SafeTops(reg, claims.stacks, tops)
    ensures Inv(reg, claims, name, done, st.(tops := tops, relevance := relevance))
  {
  }

  lemma ConservingFacts(reg: Registry, claims: Claims, id: ModeId)
    requires Wanted(reg, claims)
    ensures claims.conserving ==>
              && !(reg.mode(id).returnBegin && (reg.mode(id).skip || reg.mode(id).excludeBegin))
              && !(reg.mode(id).returnEnd && (reg.mode(id).skip || reg.mode(id).excludeEnd))
  {
  }

  lemma PlainFacts(reg: Registry, claims: Claims, id: ModeId)
    requires Wanted(reg, claims) && claims.plain
    ensures '>' !in reg.prefix
    ensures reg.mode(id).keywordClasses.Some? ==> forall k <- reg.mode(id).keywordClasses.value :: '>' !in k
  {
  }

  /** A flush keeps the invariant and the mode stack, and empties the buffer. */
  ghost predicate Flushes(reg: Registry, claims: Claims, name: string, done: string, st: State, r: Attempt<State>) {
    && (claims.nested ==> !r.Thrown?)
    && (r.Ok? ==> Inv(reg, claims, name, done, r.value) && r.value.buf == "" && r.value.stack == st.stack)
  }

  lemma {:induction false} FlushKeeps(reg: Registry, claims: Claims, name: string, done: string, st: State,
                                      answers: Answers)
    requires Wanted(reg, claims) && Inv(reg, claims, name, done, st)
    ensures Flushes(reg, claims, name, done, st, Flush(reg, st, answers))
    decreases answers, 1
  {
    hide Inv, Wanted, FlushWords, FlushNamed, FlushDetected;
    StackNonempty(reg, claims, name, done, st);
    if st.stack != [] {
      var mode := reg.mode(st.stack[|st.stack| - 1]);
      match mode.sub
      case NoSub =>
        if mode.keywordClasses.None? {
          EmitPlain(reg, claims, name, done, st);
        } else {
          if claims.plain {
            PlainFacts(reg, claims, st.stack[|st.stack| - 1]);
          }
          WordsKeep(reg, claims, name, done, st, mode.keywordClasses.value, answers.words);
        }
      case Named(sub) =>
        if sub in reg.languages {
          NamedKeeps(reg, claims, name, done, st, mode, sub, answers.nested);
        } else {
          EmitPlain(reg, claims, name, done, st);
        }
      case Auto => DetectedKeeps(reg, claims, name, done, st, mode, answers.nested);
    }
  }

  lemma WordsKeep(reg: Registry, claims: Claims, name: string, done: string, st: State, classes: set<string>,
                  words: seq<WordHit>)
    requires Inv(reg, claims, name, done, st)
    requires claims.plain ==> '>' !in reg.prefix && forall k <- classes :: '>' !in k
    ensures Flushes(reg, claims, name, done, st, FlushWords(reg, st, classes, words))
  {
    hide Inv, Accounts, Shaped, KeywordDoc;
    KeywordsNeverThrow(reg, classes, st.buf, 0, words);
    var doc := KeywordDoc(reg, classes, st.buf, 0, words);
    if doc.Ok? {
      KeywordsFaithful(reg, claims, classes, st.buf, 0, words);
      assert st.buf[0..] == st.buf;
      Emit(reg, claims, name, done, st, doc.value, CLEAN);
      var st1 := st.(doc := st.doc + doc.value, buf := "");
      Scored(reg, claims, name, done, st1, st.tops, st.relevance + KeywordScore(words));
    }
  }

  lemma {:induction false} NamedKeeps(
      reg: Registry, claims: Claims, name: string, done: string, st: State, mode: Mode, sub: string, nested: Nested)
    requires Wanted(reg, claims) && Inv(reg, claims, name, done, st) && sub in reg.languages
    ensures Flushes(reg, claims, name, done, st, FlushNamed(reg, st, mode, sub, nested))
    decreases nested, 0
  {
    hide Inv, Wanted, Faithful, Highlighted, SafeChain;
    StackFacts(reg, claims, name, done, st);
    if nested.One? {
      var start := Continued(st, sub);
      HighlightedFaithful(reg, claims, sub, st.buf, nested.script, true, start);
      var r := Highlighted(reg, sub, st.buf, nested.script, true, start);
      if r.Ok? {
        EmitWrapped(reg, claims, name, done, st, mode, r.value);
        var st1 := Absorb(st, mode, r.value);
        Scored(reg, claims, name, done, st1, st.tops[sub := r.value.top.value], st1.relevance);
      }
    }
  }

  lemma {:induction false} DetectedKeeps(
      reg: Registry, claims: Claims, name: string, done: string, st: State, mode: Mode, nested: Nested)
    requires Wanted(reg, claims) && Inv(reg, claims, name, done, st)
    ensures Flushes(reg, claims, name, done, st, FlushDetected(reg, st, mode, nested))
    decreases nested, 0
  {
    hide Inv, Wanted, BestOf;
    if nested.Many? {
      CharsFacts(claims, st.buf);
      hide Faithful;
      BestFaithful(reg, claims, st.buf, nested.candidates, NoneYet(st.buf));
      var r := BestOf(reg, st.buf, nested.candidates, NoneYet(st.buf));
      if r.Ok? {
        EmitWrapped(reg, claims, name, done, st, mode, r.value.best);
      }
    }
  }

  lemma KeywordsNeverThrow(reg: Registry, classes: set<string>, text: string, from: nat, words: seq<WordHit>)
    requires from <= |text|
    ensures !KeywordDoc(reg, classes, text, from, words).Thrown?
    decreases words
  {
    if words != [] && from <= words[0].index && words[0].index + words[0].len <= |text| {
      KeywordsNeverThrow(reg, classes, text, words[0].index + words[0].len, words[1..]);
    }
  }

  lemma EmitPlain(reg: Registry, claims: Claims, name: string, done: string, st: State)
    requires Inv(reg, claims, name, done, st)
    ensures Inv(reg, claims, name, done, st.(doc := st.doc + Chars(st.buf), buf := ""))
  {
    CharsFacts(claims, st.buf);
    hide Inv, Shaped, Accounts, Chars, TextOf;
    Emit(reg, claims, name, done, st, Chars(st.buf), CLEAN);
    assert st.ledger.Plus(CLEAN) == st.ledger;
  }

  lemma EmitWrapped(reg: Registry, claims: Claims, name: string, done: string, st: State, mode: Mode, r: Rendered)
    requires Wanted(reg, claims) && Inv(reg, claims, name, done, st)
    requires Faithful(reg, claims, st.buf, r)
    ensures Inv(reg, claims, name, done, Absorb(st, mode, r))
  {
    WrapFacts(claims, "", if r.language.Some? then r.language.value else "undefined", r.doc);
    Emit(reg, claims, name, done, st, Wrap(LanguageBody(r.language), r.doc), r.ledger);
  }

  lemma {:induction false} BestFaithful(reg: Registry, claims: Claims, text: string, candidates: Candidates,
                                        ranking: Ranking)
    requires Wanted(reg, claims) && Faithful(reg, claims, text, ranking.best)
             && Faithful(reg, claims, text, ranking.second)
    ensures var r := BestOf(reg, text, candidates, ranking);
            && (claims.nested ==> !r.Thrown?)
            && (r.Ok? ==> Faithful(reg, claims, text, r.value.best) && Faithful(reg, claims, text, r.value.second))
    decreases candidates, 0
  {
    match candidates
    case NoMore =>
    case Candidate(name, script, others) =>
      if name in reg.languages {
        HighlightedFaithful(reg, claims, name, text, script, false, None);
        var r := Highlighted(reg, name, text, script, false, None);
        if r.Ok? {
          BestFaithful(reg, claims, text, others, Ranked(ranking, r.value.(language := Some(name))));
        }
      }
  }

  lemma {:induction false} BeginKeeps(reg: Registry, claims: Claims, name: string, done: string, st: State,
                                      lexeme: string, id: ModeId, answers: Answers)
    requires Wanted(reg, claims) && Inv(reg, claims, name, done, st)
    requires claims.nested ==> st.stack + [id] in claims.stacks
    ensures claims.nested ==> !BeginMode(reg, st, lexeme, id, answers).Thrown?
    ensures BeginMode(reg, st, lexeme, id, answers).Ok? ==>
              var step := BeginMode(reg, st, lexeme, id, answers).value;
              step.Advanced? && step.adv <= |lexeme| && Inv(reg, claims, name, done + lexeme[..step.adv], step.st)
    decreases answers, 2
  {
    hide Inv, Wanted, Accounts, Flush;
    var m := reg.mode(id);
    ConservingFacts(reg, claims, id);
    assert lexeme[..|lexeme|] == lexeme && done + lexeme[..0] == done;
    var emitted := st.(buf := st.buf + lexeme);
    Buffer(reg, claims, name, done, st, lexeme);
    if m.skip {
      if m.returnBegin {
        Repeat(reg, claims, name, done, emitted, lexeme);
        Entered(reg, claims, name, done, emitted.(ledger := st.ledger.Plus(Ledger(|lexeme|, 0))), id);
      } else {
        Entered(reg, claims, name, done + lexeme, emitted, id);
      }
    } else if m.excludeBegin {
      FlushKeeps(reg, claims, name, done + lexeme, emitted, answers);
      var r := Flush(reg, emitted, answers);
      if r.Ok? {
        if m.returnBegin {
          Repeat(reg, claims, name, done, r.value, lexeme);
          Entered(reg, claims, name, done, r.value.(ledger := r.value.ledger.Plus(Ledger(|lexeme|, 0))), id);
        } else {
          Entered(reg, claims, name, done + lexeme, r.value, id);
        }
      }
    } else {
      FlushKeeps(reg, claims, name, done, st, answers);
      var r := Flush(reg, st, answers);
      if r.Ok? {
        if m.returnBegin {
          Entered(reg, claims, name, done, r.value, id);
        } else {
          Refill(reg, claims, name, done, r.value, lexeme);
          Entered(reg, claims, name, done + lexeme, r.value.(buf := lexeme), id);
        }
      }
    }
  }

  /** The text side of `EndModes`, before any mode is popped. */
  lemma {:induction false} EndEmits(reg: Registry, claims: Claims, name: string, done: string, st: State,
                                    lexeme: string, answers: Answers)
    requires st.stack != []
    requires Wanted(reg, claims) && Inv(reg, claims, name, done, st)
    ensures
      var m := reg.mode(st.stack[|st.stack| - 1]);
      var adv := if m.returnEnd then 0 else |lexeme|;
      var repeated := if m.returnEnd && (m.skip || m.excludeEnd) then |lexeme| else 0;
      if m.skip then
        Inv(reg, claims, name, done + lexeme[..adv],
            st.(buf := st.buf + lexeme, ledger := st.ledger.Plus(Ledger(repeated, 0))))
      else
        var r := Flush(reg, if m.returnEnd || m.excludeEnd then st else st.(buf := st.buf + lexeme), answers);
        && (claims.nested ==> !r.Thrown?)
        && (r.Ok? ==>
              && r.value.stack == st.stack
              && Inv(reg, claims, name, done + lexeme[..adv],
                     r.value.(buf := if m.excludeEnd then lexeme else "",
                              ledger := r.value.ledger.Plus(Ledger(repeated, 0)))))
    decreases answers, 2
  {
    hide Inv, Wanted, Accounts, Flush;
    var m := reg.mode(st.stack[|st.stack| - 1]);
    ConservingFacts(reg, claims, st.stack[|st.stack| - 1]);
    assert lexeme[..|lexeme|] == lexeme && done + lexeme[..0] == done;
    var emitted := st.(buf := st.buf + lexeme);
    Buffer(reg, claims, name, done, st, lexeme);
    if m.skip {
      if m.returnEnd {
        Repeat(reg, claims, name, done, emitted, lexeme);
      }
    } else if m.excludeEnd {
      FlushKeeps(reg, claims, name, done, st, answers);
      var r := Flush(reg, st, answers);
      if r.Ok? {
        Refill(reg, claims, name, done, r.value, lexeme);
        if m.returnEnd {
          Repeat(reg, claims, name, done, r.value.(buf := lexeme), lexeme);
        }
      }
    } else {
      FlushKeeps(reg, claims, name, done, st, answers);
      FlushKeeps(reg, claims, name, done + lexeme, emitted, answers);
    }
  }

  lemma {:induction false} EndKeeps(reg: Registry, claims: Claims, name: string, done: string, st: State,
                                    lexeme: string, pos: nat, answers: Answers)
    requires pos < |st.stack|
    requires claims.nested ==> pos > 0 && Left(reg, st.stack, pos) in claims.stacks
    requires Wanted(reg, claims) && Inv(reg, claims, name, done, st)
    ensures claims.nested ==> !EndModes(reg, st, lexeme, pos, answers).Thrown?
    ensures EndModes(reg, st, lexeme, pos, answers).Ok? ==>
              var step := EndModes(reg, st, lexeme, pos, answers).value;
              step.Advanced? && step.adv <= |lexeme| && Inv(reg, claims, name, done + lexeme[..step.adv], step.st)
    decreases answers, 3
  {
    hide Inv, Wanted, Accounts, Flush, CloseTags;
    var m := reg.mode(st.stack[|st.stack| - 1]);
    var adv := if m.returnEnd then 0 else |lexeme|;
    var repeated := if m.returnEnd && (m.skip || m.excludeEnd) then |lexeme| else 0;
    EndEmits(reg, claims, name, done, st, lexeme, answers);
    var r :=
      if m.skip then Ok(st.(buf := st.buf + lexeme))
      else Flush(reg, if m.returnEnd || m.excludeEnd then st else st.(buf := st.buf + lexeme), answers);
    if r.Ok? {
      var st2 := if m.skip then r.value else r.value.(buf := if m.excludeEnd then lexeme else "");
      var charged := st2.(ledger := st2.ledger.Plus(Ledger(repeated, 0)));
      var done' := done + lexeme[..adv];
      assert Inv(reg, claims, name, done', charged);
      hide Popped;
      Replaced(reg, claims, name, done', charged, pos);
      EndWrites(reg, st, lexeme, pos, answers, st2, repeated, adv);
    }
  }

  /** The tags and the stack of `EndModes`, after the text side. */
  lemma EndWrites(reg: Registry, st: State, lexeme: string, pos: nat, answers: Answers, st2: State, repeated: nat,
                  adv: nat)
    requires pos < |st.stack|
    requires var m := reg.mode(st.stack[|st.stack| - 1]);
             && adv == (if m.returnEnd then 0 else |lexeme|)
             && repeated == (if m.returnEnd && (m.skip || m.excludeEnd) then |lexeme| else 0)
             && if m.skip then st2 == st.(buf := st.buf + lexeme)
                else var r := Flush(reg, if m.returnEnd || m.excludeEnd then st
                                    else st.(buf := st.buf + lexeme), answers);
                     r.Ok? && st2 == r.value.(buf := if m.excludeEnd then lexeme else "") && st2.stack == st.stack
    ensures st2.stack == st.stack
    ensures EndModes(reg, st, lexeme, pos, answers)
         == Ok(Advanced(Popped(reg, st2.(ledger := st2.ledger.Plus(Ledger(repeated, 0))), pos), adv))
  {
    hide Flush, CloseTags, OpenTag, LeftScore;
    var closing := CloseTags(reg, st.stack[pos..]);
    match reg.mode(st.stack[pos]).starts
    case None =>
      assert closing + [] == closing && st.stack[..pos] + [] == st.stack[..pos];
    case Some(id) =>
      Associates(st2.doc, closing, OpenTag(reg, id));
  }

  /** What a step that advances consumes of the text. */
  function Consumed(lexeme: string, adv: nat, next: string): string {
    if adv <= |lexeme| then lexeme[..adv] else next[..if next == "" then 0 else 1]
  }

  lemma {:induction false} ProcessKeeps(reg: Registry, claims: Claims, name: string, done: string, st: State,
                                        lexeme: string, hit: Hit, ignoreIllegals: bool, next: string)
    requires st.stack != []
    requires Wanted(reg, claims) && Inv(reg, claims, name, done, st)
    ensures claims.nested ==> !Process(reg, st, lexeme, hit, ignoreIllegals, next == "").Thrown?
    ensures Process(reg, st, lexeme, hit, ignoreIllegals, next == "").Ok? ==>
              var step := Process(reg, st, lexeme, hit, ignoreIllegals, next == "").value;
              && (step.IllegalLexeme? ==> !ignoreIllegals)
              && (step.Advanced? ==>
                    Inv(reg, claims, name, done + Consumed(lexeme, step.adv, next), step.st))
    decreases hit, 0
  {
    hide Inv, Wanted, BeginMode, EndModes;
    var last := |st.stack| - 1;
    match FirstBegun(reg.mode(st.stack[last]).contains, hit.begins)
    case Some(id) =>
      BegunKept(reg, claims, name, done, st, hit.begins);
      BeginKeeps(reg, claims, name, done, st, lexeme, id, hit.flush);
    case None =>
      EndedKept(reg, claims, name, done, st, hit.ends);
      var ended := EndedAt(reg, st.stack, last, hit.ends);
      if ended.Ok? && ended.value.Some? {
        EndKeeps(reg, claims, name, done, st, lexeme, ended.value.value, hit.flush);
      } else if ended.Ok? && (ignoreIllegals || !hit.illegal) {
        FallThroughKeeps(reg, claims, name, done, st, lexeme, next);
      }
  }

  lemma BegunKept(reg: Registry, claims: Claims, name: string, done: string, st: State, begins: set<ModeId>)
    requires Wanted(reg, claims) && Inv(reg, claims, name, done, st) && st.stack != []
    ensures var begun := FirstBegun(reg.mode(st.stack[|st.stack| - 1]).contains, begins);
            begun.Some? && claims.nested ==> st.stack + [begun.value] in claims.stacks
  {
    hide SteadyAt, Nest, Conserving, PlainNames, FirstBegun, Accounts, SafeTops;
    BegunIsChild(reg.mode(st.stack[|st.stack| - 1]).contains, begins);
    if claims.nested {
      assert SteadyAt(reg, claims.stacks, st.stack);
      SteadyChildren(reg, claims.stacks, st.stack);
    }
  }

  lemma BegunIsChild(contains: seq<ModeId>, begins: set<ModeId>)
    ensures FirstBegun(contains, begins).Some? ==> FirstBegun(contains, begins).value in contains
  {
  }

  lemma SteadyChildren(reg: Registry, stacks: iset<seq<ModeId>>, stack: seq<ModeId>)
    requires SteadyAt(reg, stacks, stack)
    ensures stack != [] && forall c <- reg.mode(stack[|stack| - 1]).contains :: stack + [c] in stacks
  {
    hide EndsWell, AfterEnds;
  }

  lemma EndedKept(reg: Registry, claims: Claims, name: string, done: string, st: State, ends: set<nat>)
    requires Wanted(reg, claims) && Inv(reg, claims, name, done, st) && st.stack != []
    ensures var ended := EndedAt(reg, st.stack, |st.stack| - 1, ends);
            claims.nested ==>
              && ended.Ok?
              && (ended.value.Some? ==>
                    ended.value.value > 0 && Left(reg, st.stack, ended.value.value) in claims.stacks)
  {
    hide Left, EndedAt, EndsWell, AfterEnds, Nest, Conserving, PlainNames;
    if claims.nested {
      assert SteadyAt(reg, claims.stacks, st.stack);
      assert EndsWell(reg, st.stack, ends) && AfterEnds(reg, st.stack, ends) in claims.stacks;
      EndsWellMeans(reg, st.stack, ends);
    }
  }

  lemma EndsWellMeans(reg: Registry, stack: seq<ModeId>, ends: set<nat>)
    requires stack != [] && EndsWell(reg, stack, ends)
    ensures var ended := EndedAt(reg, stack, |stack| - 1, ends);
            && ended.Ok?
            && (ended.value.Some? ==>
                  ended.value.value > 0 && AfterEnds(reg, stack, ends) == Left(reg, stack, ended.value.value))
  {
    hide Left, EndedAt;
  }

  lemma FallThroughKeeps(reg: Registry, claims: Claims, name: string, done: string, st: State, lexeme: string,
                         next: string)
    requires Inv(reg, claims, name, done, st)
    ensures lexeme != "" ==> Inv(reg, claims, name, done + lexeme[..|lexeme|],
                                 st.(buf := st.buf + lexeme, ledger := st.ledger.Plus(Ledger(0, 0))))
    ensures lexeme == "" ==> Inv(reg, claims, name, done + next[..if next == "" then 0 else 1],
                                 st.(buf := st.buf + lexeme,
                                     ledger := st.ledger.Plus(Ledger(0, if next == "" then 0 else 1))))
  {
    Buffer(reg, claims, name, done, st, lexeme);
    assert lexeme[..|lexeme|] == lexeme;
    assert lexeme == "" ==> st.buf + lexeme == st.buf;
    assert next == "" ==> done + next[..0] == done;
  }

  /** One iteration: the invariant moves from the old position to the new one. */
  lemma {:induction false} StepKeeps(reg: Registry, claims: Claims, name: string, st: State, text: string, pos: nat,
                                     hit: Hit, ignoreIllegals: bool)
    requires Wanted(reg, claims) && st.stack != []
    requires pos <= hit.index && hit.index + hit.len <= |text|
    requires Inv(reg, claims, name, text[..pos], st)
    ensures
      var lexeme := text[hit.index..hit.index + hit.len];
      var step := Process(reg, st.(buf := st.buf + text[pos..hit.index]), lexeme, hit, ignoreIllegals,
                          hit.index == |text|);
      && (claims.nested ==> !step.Thrown?)
      && (step.Ok? && step.value.IllegalLexeme? ==> !ignoreIllegals)
      && (step.Ok? && step.value.Advanced?
          ==> Inv(reg, claims, name, Upto(text, hit.index + step.value.adv), step.value.st))
    decreases hit, 1
  {
    hide Inv, Wanted, Accounts;
    var lexeme := text[hit.index..hit.index + hit.len];
    var gap := text[pos..hit.index];
    var next := text[hit.index..];
    var st1 := st.(buf := st.buf + gap);
    assert text[..pos] + gap == text[..hit.index];
    Buffer(reg, claims, name, text[..pos], st, gap);
    ProcessKeeps(reg, claims, name, text[..hit.index], st1, lexeme, hit, ignoreIllegals, next);
    var step := Process(reg, st1, lexeme, hit, ignoreIllegals, hit.index == |text|);
    if step.Ok? && step.value.Advanced? {
      var adv := step.value.adv;
      if adv <= |lexeme| {
        assert text[..hit.index] + lexeme[..adv] == text[..hit.index + adv];
      } else {
        StepsOverOne(reg, st1, lexeme, hit, ignoreIllegals, next == "");
        assert next != "" ==> text[..hit.index] + next[..1] == text[..hit.index + 1];
        assert next == "" ==> text[..hit.index] + next[..0] == text;
      }
    }
  }

  /** The part of the text before `pos`, which may be one past the end. */
  function Upto(text: string, pos: nat): string {
    if pos <= |text| then text[..pos] else text
  }

  lemma LoopUnfolds(reg: Registry, st: State, text: string, at: nat, hit: Hit, rest: Script, name: string,
                    ignoreIllegals: bool)
    ensures var loop := Loop(reg, st, text, at, Step(hit, rest), name, ignoreIllegals);
            if st.stack == [] then loop.Thrown?
            else if hit.index < at || hit.index + hit.len > |text| then loop.NoSuchMatch?
            else
              var lexeme := text[hit.index..hit.index + hit.len];
              var step := Process(reg, st.(buf := st.buf + text[at..hit.index]), lexeme, hit, ignoreIllegals,
                                  hit.index == |text|);
              && (step.Thrown? ==> loop.Thrown?)
              && (step.NoSuchMatch? ==> loop.NoSuchMatch?)
              && (step.Ok? && step.value.IllegalLexeme? ==> loop == Ok(PlainResult(text)))
              && (step.Ok? && step.value.Advanced? ==>
                    loop == Loop(reg, step.value.st, text, hit.index + step.value.adv, rest, name, ignoreIllegals))
  {
    hide Process;
  }

  lemma EmptyStackThrows(reg: Registry, st: State, text: string, pos: nat, script: Script, name: string,
                         ignoreIllegals: bool)
    requires st.stack == []
    ensures Loop(reg, st, text, pos, script, name, ignoreIllegals).Thrown?
  {
  }

  lemma {:induction false} LoopKeeps(reg: Registry, claims: Claims, name: string, st: State, text: string, pos: nat,
                                     script: Script, ignoreIllegals: bool)
    requires name in reg.languages && Wanted(reg, claims)
    requires Inv(reg, claims, name, Upto(text, pos), st)
    ensures claims.nested ==> !Loop(reg, st, text, pos, script, name, ignoreIllegals).Thrown?
    ensures Loop(reg, st, text, pos, script, name, ignoreIllegals).Ok? ==>
              RunResult(reg, claims, name, text, ignoreIllegals,
                        Loop(reg, st, text, pos, script, name, ignoreIllegals).value)
    decreases script, 1
  {
    hide Inv, Wanted, Accounts, RunResult, Process, SafeStack, SafeTops, Loop;
    StackNonempty(reg, claims, name, Upto(text, pos), st);
    if st.stack == [] {
      EmptyStackThrows(reg, st, text, pos, script, name, ignoreIllegals);
    } else {
      match script
      case End(last) =>
        LoopEnds(reg, claims, name, st, text, pos, last, ignoreIllegals);
      case Step(hit, rest) =>
        LoopUnfolds(reg, st, text, pos, hit, rest, name, ignoreIllegals);
        if pos <= hit.index && hit.index + hit.len <= |text| {
          StepKeeps(reg, claims, name, st, text, pos, hit, ignoreIllegals);
          var lexeme := text[hit.index..hit.index + hit.len];
          var step := Process(reg, st.(buf := st.buf + text[pos..hit.index]), lexeme, hit, ignoreIllegals,
                              hit.index == |text|);
          if step.Ok? && step.value.Advanced? {
            LoopKeeps(reg, claims, name, step.value.st, text, hit.index + step.value.adv, rest, ignoreIllegals);
          } else if step.Ok? {
            IllegalFallback(reg, claims, name, text);
          }
        }
    }
  }

  lemma IllegalFallback(reg: Registry, claims: Claims, name: string, text: string)
    ensures RunResult(reg, claims, name, text, false, PlainResult(text))
  {
    CharsFacts(claims, text);
  }

  /** What a completed run gives: a faithful document and, unless the text was found illegal,
      the language and a mode stack from which a later run may continue. */
  ghost predicate RunResult(reg: Registry, claims: Claims, name: string, text: string, ignoreIllegals: bool,
                            r: Rendered) {
    && Faithful(reg, claims, text, r)
    && (r.top.Some? && claims.nested ==> SafeChain(reg, claims.stacks, name, r.top.value))
    && (ignoreIllegals ==> r.top.Some? && r.language == Some(name))
  }

  lemma StepsOverOne(reg: Registry, st: State, lexeme: string, hit: Hit, ignoreIllegals: bool, atEnd: bool)
    requires st.stack != []
    requires Process(reg, st, lexeme, hit, ignoreIllegals, atEnd).Ok?
    requires Process(reg, st, lexeme, hit, ignoreIllegals, atEnd).value.Advanced?
    ensures Process(reg, st, lexeme, hit, ignoreIllegals, atEnd).value.adv > |lexeme| ==>
              lexeme == "" && Process(reg, st, lexeme, hit, ignoreIllegals, atEnd).value.adv == 1
  {
  }

  lemma Closes(reg: Registry, claims: Claims, name: string, text: string, st: State)
    requires Inv(reg, claims, name, text, st) && st.buf == "" && st.stack != []
    requires name in reg.languages
    ensures Faithful(reg, claims, text, Finished(reg, st, name))
    ensures claims.nested ==> SafeChain(reg, claims.stacks, name, Finished(reg, st, name).top.value)
  {
    var closing := CloseTags(reg, st.stack[1..]);
    CloseTagsNest(reg, st.stack[1..], []);
    TextConcat(st.doc, closing);
    PlainConcat(st.doc, closing);
    NestConcat(st.doc, closing, []);
    assert [] + Opened(reg, st.stack[1..]) == Opened(reg, st.stack[1..]);
    assert TextOf(st.doc + closing) == TextOf(st.doc) + "";
  }

  lemma {:induction false} LoopEnds(reg: Registry, claims: Claims, name: string, st: State, text: string, pos: nat,
                                    last: Answers, ignoreIllegals: bool)
    requires name in reg.languages && Wanted(reg, claims) && st.stack != []
    requires Inv(reg, claims, name, Upto(text, pos), st)
    ensures var loop := Loop(reg, st, text, pos, End(last), name, ignoreIllegals);
            && (claims.nested ==> !loop.Thrown?)
            && (loop.Ok? ==> RunResult(reg, claims, name, text, ignoreIllegals, loop.value))
    decreases last, 3
  {
    hide Inv, Wanted, Accounts;
    var tail := Tail(text, pos);
    assert Upto(text, pos) + tail == text;
    Buffer(reg, claims, name, Upto(text, pos), st, tail);
    var st0 := st.(buf := st.buf + tail);
    FlushKeeps(reg, claims, name, text, st0, last);
    var r := Flush(reg, st0, last);
    if r.Ok? {
      Closes(reg, claims, name, text, r.value);
    }
  }

  lemma {:induction false} HighlightedFaithful(reg: Registry, claims: Claims, name: string, text: string,
        script: Script, ignoreIllegals: bool, start: Option<Chain>)
    requires name in reg.languages && Wanted(reg, claims)
    requires claims.nested && start.Some? ==> SafeChain(reg, claims.stacks, name, start.value)
    ensures claims.nested ==> !Highlighted(reg, name, text, script, ignoreIllegals, start).Thrown?
    ensures Highlighted(reg, name, text, script, ignoreIllegals, start).Ok? ==>
              RunResult(reg, claims, name, text, ignoreIllegals,
                        Highlighted(reg, name, text, script, ignoreIllegals, start).value)
    decreases script, 2
  {
    hide Inv, Wanted, Loop, RunResult;
    var chain := StartChain(reg, name, start);
    if Continuable(reg, name, chain) {
      RootIsSafe(reg, claims, name);
      StartsSafely(reg, claims, name, chain.modes);
      assert Upto(text, 0) == "";
      LoopKeeps(reg, claims, name, Opening(reg, chain.modes), text, 0, script, ignoreIllegals);
    }
  }

  lemma RootIsSafe(reg: Registry, claims: Claims, name: string)
    requires Wanted(reg, claims) && name in reg.languages
    ensures claims.nested ==> SafeStack(reg, claims.stacks, name, [reg.languages[name]])
  {
    hide SteadyAt, Conserving, PlainNames;
  }

  lemma StartsSafely(reg: Registry, claims: Claims, name: string, stack: seq<ModeId>)
    requires Wanted(reg, claims) && stack != []
    requires claims.nested ==> SafeStack(reg, claims.stacks, name, stack)
    ensures Inv(reg, claims, name, "", Opening(reg, stack))
  {
    hide PlainNames, Conserving;
    OpenTagsNest(reg, stack[1..], []);
    if claims.plain {
      OpenTagsPlain(reg, stack[1..]);
    }
    assert [] + Opened(reg, stack[1..]) == Opened(reg, stack[1..]);
  }

  // ----- the theorems -----

  /** For every grammar, text and script: the emitted text differs from the input by exactly the
      characters on the ledger. When none was stepped over, the text is preserved if and only if
      none was emitted twice. */
  lemma TextIsAccountedFor(reg: Registry, name: string, text: string, script: Script, ignoreIllegals: bool,
                           start: Option<Chain>)
    requires Highlighted(reg, name, text, script, ignoreIllegals, start).Ok?
    ensures var r := Highlighted(reg, name, text, script, ignoreIllegals, start).value;
            && |TextOf(r.doc)| + r.ledger.dropped == |text| + r.ledger.repeated
            && (r.ledger.dropped == 0 ==> (TextOf(r.doc) == text <==> r.ledger.repeated == 0))
  {
    HighlightedFaithful(reg, Claims(false, iset{}, false, false), name, text, script, ignoreIllegals, start);
  }

  /** What a caller relies on: no exception, spans closed in order, and a chain of modes from which a
      later run of the same language can continue. */
  ghost predicate WellRun(reg: Registry, name: string, run: Attempt<Rendered>) {
    && name in reg.languages && !run.Thrown?
    && (run.Ok? ==>
          && Balanced(run.value.doc)
          && (run.value.top.Some? ==> Continuable(reg, name, run.value.top.value)))
  }

  /** On a steady grammar every run is well, for every script and text. */
  lemma SteadyRunsAreWell(reg: Registry, stacks: iset<seq<ModeId>>, name: string, text: string, script: Script,
                          ignoreIllegals: bool)
    requires Steady(reg, stacks) && name in reg.languages
    ensures WellRun(reg, name, Highlighted(reg, name, text, script, ignoreIllegals, None))
  {
    hide Steady, Highlighted;
    HighlightedFaithful(reg, Claims(true, stacks, false, false), name, text, script, ignoreIllegals, None);
  }

  // ----- the hypotheses are needed -----

  /** Everything shown or about to be shown. */
  function Shown(st: State): string {
    TextOf(st.doc) + st.buf
  }

  const NO_CLAIMS := Claims(false, iset{}, false, false)

  const PLAIN_MODE := Mode(None, [], None, false, false, false, false, false, false, false, false, None, NoSub, 1)
  const NO_ANSWERS := Answers([], Nothing)

  /** A one-language registry: a plain root with one kind of child. */
  function TwoModes(child: Mode): Registry {
    Registry(id => if id == 0 then PLAIN_MODE.(contains := [1]) else child, map["x" := 0], "")
  }

  ghost predicate StartState(st: State) {
    st == State([], "", [0], true, map[], CLEAN, 0)
  }

  /** A run whose only match is `hit`: one lexeme, then the end of the text in a mode without
      keywords or sub-language. */
  lemma OneStepRun(reg: Registry, text: string, hit: Hit, last: Answers, st0: State, st1: State, adv: nat)
    requires reg.languages == map["x" := 0] && hit.index == 0 && hit.len <= |text| && StartState(st0)
    requires Process(reg, st0, text[..hit.len], hit, true, text == "") == Ok(Advanced(st1, adv))
    requires st1.stack != [] && st1.doc == []
    requires reg.mode(st1.stack[|st1.stack| - 1]).sub.NoSub?
             && reg.mode(st1.stack[|st1.stack| - 1]).keywordClasses.None?
    ensures var r := Highlighted(reg, "x", text, Step(hit, End(last)), true, None);
            r.Ok? && TextOf(r.value.doc) == st1.buf + Tail(text, adv)
  {
    hide Process, Flush, CloseTags, TextOf, Tail;
    assert OpenTags(reg, [0][1..]) == [];
    assert text[0..hit.len] == text[..hit.len];
    assert st0.(buf := st0.buf + text[0..0]) == st0;
    PlainEnd(reg, st1, text, adv, last);
    assert Loop(reg, st0, text, 0, Step(hit, End(last)), "x", true) == Loop(reg, st1, text, adv, End(last), "x", true);
  }

  lemma PlainEnd(reg: Registry, st: State, text: string, pos: nat, last: Answers)
    requires st.stack != [] && st.doc == []
    requires reg.mode(st.stack[|st.stack| - 1]).sub.NoSub? && reg.mode(st.stack[|st.stack| - 1]).keywordClasses.None?
    ensures var r := Loop(reg, st, text, pos, End(last), "x", true);
            r.Ok? && TextOf(r.value.doc) == st.buf + Tail(text, pos)
  {
    hide KeywordDoc, Highlighted, BestOf, Nest, TextOf, Process, Tail, CloseTags, Opened, Chars;
    var rest := st.buf + Tail(text, pos);
    assert Flush(reg, st.(buf := rest), last) == Ok(st.(doc := st.doc + Chars(rest), buf := ""));
    var closing := CloseTags(reg, st.stack[1..]);
    CloseTagsNest(reg, st.stack[1..], []);
    TextOfChars(rest);
    assert st.doc + Chars(rest) == Chars(rest);
    TextConcat(Chars(rest), closing);
  }

  /** A child that both skips and returns its begin lexeme emits that lexeme twice. */
  lemma SkipWithReturnBeginRepeats(reg: Registry, lexeme: string, hit: Hit, last: Answers, st0: State)
    requires reg == TwoModes(PLAIN_MODE.(skip := true, returnBegin := true))
    requires lexeme != "" && hit.index == 0 && hit.len == |lexeme| && hit.begins == {1} && StartState(st0)
    ensures var r := Highlighted(reg, "x", lexeme, Step(hit, End(last)), true, None);
            r.Ok? && TextOf(r.value.doc) == lexeme + lexeme
  {
    var st1 := st0.(buf := lexeme, stack := [0, 1], ledger := Ledger(|lexeme|, 0));
    SkipsAndReturns(reg, st0, lexeme, hit);
    assert lexeme[..|lexeme|] == lexeme;
    OneStepRun(reg, lexeme, hit, last, st0, st1, 0);
  }

  lemma SkipsAndReturns(reg: Registry, st: State, lexeme: string, hit: Hit)
    requires reg.mode(0).contains == [1] && hit.begins == {1} && StartState(st)
    requires reg.mode(1).skip && reg.mode(1).returnBegin && reg.mode(1).className.None?
    ensures Process(reg, st, lexeme, hit, true, false)
         == Ok(Advanced(st.(buf := lexeme, stack := [0, 1], ledger := Ledger(|lexeme|, 0)), 0))
  {
    assert st.buf + lexeme == lexeme && st.stack + [1] == [0, 1];
    assert st.doc + OpenTag(reg, 1) == st.doc;
  }

  /** An empty lexeme that no rule claims steps over a character of the text. */
  lemma EmptyFallThroughDrops(reg: Registry, text: string, hit: Hit, last: Answers, st0: State)
    requires reg == TwoModes(PLAIN_MODE)
    requires text != "" && hit.index == hit.len == 0 && hit.begins == {} && StartState(st0)
    ensures var r := Highlighted(reg, "x", text, Step(hit, End(last)), true, None);
            r.Ok? && TextOf(r.value.doc) == text[1..]
  {
    hide Process, Highlighted;
    var st1 := st0.(ledger := Ledger(0, 1));
    StepsOver(reg, st0, hit);
    assert text[..0] == "";
    OneStepRun(reg, text, hit, last, st0, st1, 1);
    assert st1.buf + Tail(text, 1) == text[1..];
  }

  lemma StepsOver(reg: Registry, st: State, hit: Hit)
    requires reg.mode(0).contains == [1] && hit.begins == {} && StartState(st)
    requires !reg.mode(0).hasEnd && !reg.mode(0).endsWithParent
    ensures Process(reg, st, "", hit, true, false) == Ok(Advanced(st.(ledger := Ledger(0, 1)), 1))
  {
    hide BeginMode, EndModes;
    assert FirstBegun([1], {}) == FirstBegun([1][1..], {}) == None;
    assert st.buf + "" == st.buf;
  }

  /** A mode directly under the root that ends its parent pops the root; the next use of the
      mode stack throws. */
  lemma EndingTheRootThrows(reg: Registry, st: State, lexeme: string, hit: Hit, text: string, pos: nat, script: Script)
    requires reg == TwoModes(PLAIN_MODE.(hasEnd := true, endsParent := true))
    requires st.stack == [0, 1] && 1 in hit.ends
    ensures var step := Process(reg, st, lexeme, hit, true, false);
            && step.Ok? && step.value.Advanced? && step.value.st.stack == []
            && Loop(reg, step.value.st, text, pos, script, "x", true).Thrown?
  {
    var child := PLAIN_MODE.(hasEnd := true, endsParent := true);
    assert reg.mode(1) == child && FirstBegun(child.contains, hit.begins) == None;
    assert Climb(reg, st.stack, 1) == Climb(reg, st.stack, 0) == 0;
    assert EndedAt(reg, st.stack, 1, hit.ends) == Ok(Some(0));
    assert Flush(reg, st.(buf := st.buf + lexeme), hit.flush).Ok?;
    assert EndModes(reg, st, lexeme, 0, hit.flush).Ok?;
  }

  /** Even when the root starts itself again, the stack looks as before but is not: a later run that
      continues from it throws. */
  lemma RestartedRootThrows(reg: Registry, st: State, lexeme: string, hit: Hit, text: string, script: Script)
    requires reg.languages == map["x" := 0] && reg.mode(0) == PLAIN_MODE.(contains := [1], starts := Some(0))
    requires reg.mode(1) == PLAIN_MODE.(hasEnd := true, endsParent := true)
    requires st.stack == [0, 1] && 1 in hit.ends
    ensures var step := Process(reg, st, lexeme, hit, true, false);
            && step.Ok? && step.value.Advanced? && step.value.st.stack == [0]
            && Highlighted(reg, "x", text, script, true, Finished(reg, step.value.st, "x").top).Thrown?
  {
    assert FirstBegun(reg.mode(1).contains, hit.begins) == None;
    assert Climb(reg, st.stack, 1) == Climb(reg, st.stack, 0) == 0;
    assert EndedAt(reg, st.stack, 1, hit.ends) == Ok(Some(0));
    assert Flush(reg, st.(buf := st.buf + lexeme), hit.flush).Ok?;
    assert EndModes(reg, st, lexeme, 0, hit.flush).Ok?;
  }
}

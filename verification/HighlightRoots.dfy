/** When the highlighter throws nothing and closes its spans: exactly when no lexeme can end the
    root of the mode stack. */
module HighlightRoots {
  import opened Wrappers
  import opened Markup
  import opened Highlight
  import opened HighlightProofs

  // ----- one stack -----

  /** The search for an ended mode passes every mode above position `i`. */
  predicate Passes(reg: Registry, stack: seq<ModeId>, i: nat) {
    forall j | i < j < |stack| :: reg.mode(stack[j]).endsWithParent
  }

  /** Every climb from position `i` stops above the root. */
  predicate Guarded(reg: Registry, stack: seq<ModeId>, i: nat)
    requires i < |stack|
  {
    exists j :: 0 < j <= i && !reg.mode(stack[j]).endsParent
  }

  /** Read off the modes of the stack: no search runs past the root, and no mode that can be
      ended is only surrounded by modes that end their parent. */
  predicate RootSafe(reg: Registry, stack: seq<ModeId>) {
    && stack != []
    && !(Passes(reg, stack, 0) && reg.mode(stack[0]).endsWithParent)
    && (forall i | 0 <= i < |stack| :: Passes(reg, stack, i) && reg.mode(stack[i]).hasEnd ==> Guarded(reg, stack, i))
  }

  lemma {:induction false} ThrowsIfAllPass(reg: Registry, stack: seq<ModeId>, pos: nat)
    requires pos < |stack| && forall j | 0 <= j <= pos :: reg.mode(stack[j]).endsWithParent
    ensures EndedAt(reg, stack, pos, {}) == Thrown
  {
    if pos > 0 {
      ThrowsIfAllPass(reg, stack, pos - 1);
    }
  }

  lemma {:induction false} AllPassIfThrows(reg: Registry, stack: seq<ModeId>, pos: nat, ends: set<nat>)
    requires pos < |stack| && !EndedAt(reg, stack, pos, ends).Ok?
    ensures EndedAt(reg, stack, pos, ends).Thrown? && forall j | 0 <= j <= pos :: reg.mode(stack[j]).endsWithParent
  {
    if pos > 0 {
      AllPassIfThrows(reg, stack, pos - 1, ends);
    }
  }

  lemma {:induction false} OnlyHit(reg: Registry, stack: seq<ModeId>, pos: nat, i: nat)
    requires i <= pos < |stack| && reg.mode(stack[i]).hasEnd
    requires forall j | i < j <= pos :: reg.mode(stack[j]).endsWithParent
    ensures EndedAt(reg, stack, pos, {i}) == Ok(Some(Climb(reg, stack, i)))
  {
    if pos > i {
      OnlyHit(reg, stack, pos - 1, i);
    }
  }

  /** No lexeme throws or ends the root, whichever end expressions it satisfies, if and only if the
      modes of the stack say so. */
  lemma RootStaysIff(reg: Registry, stack: seq<ModeId>)
    requires stack != []
    ensures (forall ends :: EndsWell(reg, stack, ends)) <==> RootSafe(reg, stack)
  {
    if RootSafe(reg, stack) {
      forall ends ensures EndsWell(reg, stack, ends) {
        SafeEndsWell(reg, stack, ends);
      }
    } else {
      var ends := UnsafeEnds(reg, stack);
      assert !EndsWell(reg, stack, ends);
    }
  }

  lemma SafeEndsWell(reg: Registry, stack: seq<ModeId>, ends: set<nat>)
    requires RootSafe(reg, stack)
    ensures EndsWell(reg, stack, ends)
  {
    var last := |stack| - 1;
    if !EndedAt(reg, stack, last, ends).Ok? {
      AllPassIfThrows(reg, stack, last, ends);
      assert false;
    } else {
      var hit := EndedAtIsInnermost(reg, stack, last, ends);
      if EndedAt(reg, stack, last, ends).value.Some? {
        assert Passes(reg, stack, hit) && Guarded(reg, stack, hit);
      }
    }
  }

  lemma UnsafeEnds(reg: Registry, stack: seq<ModeId>) returns (ends: set<nat>)
    requires stack != [] && !RootSafe(reg, stack)
    ensures !EndsWell(reg, stack, ends)
  {
    var last := |stack| - 1;
    if Passes(reg, stack, 0) && reg.mode(stack[0]).endsWithParent {
      ends := {};
      ThrowsIfAllPass(reg, stack, last);
    } else {
      var i :| 0 <= i < |stack| && Passes(reg, stack, i) && reg.mode(stack[i]).hasEnd && !Guarded(reg, stack, i);
      ends := {i};
      OnlyHit(reg, stack, last, i);
      ClimbIsNearest(reg, stack, i);
      assert Climb(reg, stack, i) == 0;
    }
  }

  // ----- the stacks that lexemes lead to -----

  /** A lexeme that begins a child, or one that satisfies some end expressions. */
  datatype Move = Begin(child: ModeId) | Try(ends: set<nat>)

  function Moved(reg: Registry, stack: seq<ModeId>, move: Move): (r: Option<seq<ModeId>>)
    requires stack != []
    ensures r.Some? ==> r.value != [] && r.value[0] == stack[0]
  {
    match move
    case Begin(child) => if child in reg.mode(stack[|stack| - 1]).contains then Some(stack + [child]) else None
    case Try(ends) => if EndsWell(reg, stack, ends) then Some(AfterEnds(reg, stack, ends)) else None
  }

  function Walk(reg: Registry, stack: seq<ModeId>, moves: seq<Move>): (r: Option<seq<ModeId>>)
    requires stack != []
    ensures r.Some? ==> r.value != [] && r.value[0] == stack[0]
    decreases moves
  {
    if moves == [] then Some(stack)
    else match Moved(reg, stack, moves[0]) case None => None case Some(next) => Walk(reg, next, moves[1..])
  }

  lemma {:induction false} WalkOn(reg: Registry, stack: seq<ModeId>, moves: seq<Move>, move: Move)
    requires stack != []
    ensures Walk(reg, stack, moves + [move])
         == match Walk(reg, stack, moves) case None => None case Some(s) => Moved(reg, s, move)
    decreases moves
  {
    hide Moved;
    if moves == [] {
      assert [move][1..] == [];
    } else {
      assert (moves + [move])[1..] == moves[1..] + [move];
      match Moved(reg, stack, moves[0])
      case None =>
      case Some(next) => WalkOn(reg, next, moves[1..], move);
    }
  }

  ghost predicate Leads(reg: Registry, name: string, moves: seq<Move>, stack: seq<ModeId>) {
    name in reg.languages && Walk(reg, [reg.languages[name]], moves) == Some(stack)
  }

  ghost predicate Reached(reg: Registry, stack: seq<ModeId>) {
    exists name, moves :: Leads(reg, name, moves, stack)
  }

  /** On every stack that lexemes can lead to, the modes keep the root at the bottom. */
  ghost predicate RootsStay(reg: Registry) {
    forall stack :: Reached(reg, stack) ==> RootSafe(reg, stack)
  }

  lemma ReachedOn(reg: Registry, stack: seq<ModeId>, move: Move)
    requires Reached(reg, stack)
    ensures stack != [] && (Moved(reg, stack, move).Some? ==> Reached(reg, Moved(reg, stack, move).value))
  {
    hide Moved, Walk;
    var name, moves :| Leads(reg, name, moves, stack);
    WalkOn(reg, [reg.languages[name]], moves, move);
    if Moved(reg, stack, move).Some? {
      assert Leads(reg, name, moves + [move], Moved(reg, stack, move).value);
    }
  }

  lemma ReachedAreSteady(reg: Registry)
    requires RootsStay(reg)
    ensures Steady(reg, iset s | Reached(reg, s))
  {
    hide RootSafe, EndsWell, AfterEnds, Walk, Reached;
    var stacks := iset s | Reached(reg, s);
    forall name <- reg.languages ensures [reg.languages[name]] in stacks {
      RootReached(reg, name);
    }
    forall stack <- stacks ensures SteadyAt(reg, stacks, stack) {
      ReachedSteadyAt(reg, stack);
    }
  }

  lemma ReachedSteadyAt(reg: Registry, stack: seq<ModeId>)
    requires RootsStay(reg) && Reached(reg, stack)
    ensures SteadyAt(reg, (iset s | Reached(reg, s)), stack)
  {
    hide RootSafe, EndsWell, AfterEnds, Walk, Reached;
    ReachedOn(reg, stack, Try({}));
    forall c <- reg.mode(stack[|stack| - 1]).contains ensures Reached(reg, stack + [c]) {
      ReachedOn(reg, stack, Begin(c));
    }
    RootStaysIff(reg, stack);
    forall ends ensures EndsWell(reg, stack, ends) && Reached(reg, AfterEnds(reg, stack, ends)) {
      ReachedOn(reg, stack, Try(ends));
    }
  }

  lemma RootReached(reg: Registry, name: string)
    requires name in reg.languages
    ensures Reached(reg, [reg.languages[name]])
  {
    assert Leads(reg, name, [], [reg.languages[name]]);
  }

  /** No exception leaves the engine, and every span is closed in order. */
  lemma SpansAreBalanced(reg: Registry, name: string, text: string, script: Script, ignoreIllegals: bool)
    requires RootsStay(reg) && name in reg.languages
    ensures var r := Highlighted(reg, name, text, script, ignoreIllegals, None);
            !r.Thrown? && (r.Ok? ==> Balanced(r.value.doc))
  {
    hide Highlighted, RootsStay, Reached, Steady;
    ReachedAreSteady(reg);
    SteadyRunsAreWell(reg, (iset s | Reached(reg, s)), name, text, script, ignoreIllegals);
  }

  /** Two inputs that fail: a child of a root that can be ended and ends its parent, even when the
      root starts itself again, and a root that ends with its parent. */
  lemma RootsThatDoNotStay(reg: Registry, name: string, child: ModeId)
    requires name in reg.languages
    ensures var root := reg.languages[name];
            (reg.mode(root).endsWithParent
             || (child in reg.mode(root).contains && reg.mode(child).hasEnd && reg.mode(child).endsParent))
            ==> !RootsStay(reg)
  {
    hide Walk;
    var root := reg.languages[name];
    RootReached(reg, name);
    if reg.mode(root).endsWithParent {
      assert !RootSafe(reg, [root]);
    } else if child in reg.mode(root).contains && reg.mode(child).hasEnd && reg.mode(child).endsParent {
      ReachedOn(reg, [root], Begin(child));
      assert Moved(reg, [root], Begin(child)) == Some([root] + [child]);
      var stack := [root] + [child];
      assert Passes(reg, stack, 1) && !Guarded(reg, stack, 1);
    }
  }

  // ----- a condition that is easy to look up -----

  /** Roots have no end; the modes directly under a root, `top`, do not end their parent. */
  ghost predicate KeepsRoot(reg: Registry, top: set<ModeId>) {
    && (forall name <- reg.languages ::
          var m := reg.mode(reg.languages[name]);
          !m.hasEnd && !m.endsWithParent && forall c <- m.contains :: c in top)
    && (forall id <- top ::
          !reg.mode(id).endsParent && (reg.mode(id).starts.Some? ==> reg.mode(id).starts.value in top))
  }

  ghost predicate OverTop(reg: Registry, top: set<ModeId>, stack: seq<ModeId>) {
    && stack != [] && (exists name <- reg.languages :: stack[0] == reg.languages[name])
    && (|stack| > 1 ==> stack[1] in top)
  }

  lemma OverTopIsSafe(reg: Registry, top: set<ModeId>, stack: seq<ModeId>)
    requires KeepsRoot(reg, top) && OverTop(reg, top, stack)
    ensures RootSafe(reg, stack)
  {
    forall i | 0 <= i < |stack| && reg.mode(stack[i]).hasEnd ensures Guarded(reg, stack, i) {
      assert i > 0 && !reg.mode(stack[1]).endsParent;
    }
  }

  lemma OverTopMoves(reg: Registry, top: set<ModeId>, stack: seq<ModeId>, move: Move)
    requires KeepsRoot(reg, top) && OverTop(reg, top, stack) && Moved(reg, stack, move).Some?
    ensures OverTop(reg, top, Moved(reg, stack, move).value)
  {
    match move
    case Begin(child) =>
    case Try(ends) =>
      OverTopIsSafe(reg, top, stack);
      SafeEndsWell(reg, stack, ends);
      assert !reg.mode(stack[0]).hasEnd;
  }

  lemma {:induction false} OverTopWalks(reg: Registry, top: set<ModeId>, stack: seq<ModeId>, moves: seq<Move>)
    requires KeepsRoot(reg, top) && OverTop(reg, top, stack) && Walk(reg, stack, moves).Some?
    ensures OverTop(reg, top, Walk(reg, stack, moves).value)
    decreases moves
  {
    hide KeepsRoot, Moved;
    if moves != [] {
      OverTopMoves(reg, top, stack, moves[0]);
      OverTopWalks(reg, top, Moved(reg, stack, moves[0]).value, moves[1..]);
    }
  }

  lemma KeptRootsStay(reg: Registry, top: set<ModeId>)
    requires KeepsRoot(reg, top)
    ensures RootsStay(reg)
  {
    hide RootSafe, Walk, KeepsRoot;
    forall stack | Reached(reg, stack) ensures RootSafe(reg, stack) {
      var name, moves :| Leads(reg, name, moves, stack);
      assert OverTop(reg, top, [reg.languages[name]]);
      OverTopWalks(reg, top, [reg.languages[name]], moves);
      OverTopIsSafe(reg, top, stack);
    }
  }

  // ----- runs over the empty text that make any moves -----

  /** No language is nested in itself through its root: `rank` counts the levels. */
  ghost predicate NestingEnds(reg: Registry, rank: ModeId -> nat) {
    forall id, name ::
      reg.mode(id).sub == Named(name) && name in reg.languages ==> rank(reg.languages[name]) < rank(id)
  }

  /** Answers for an empty buffer: no words, and nothing matches in a nested language. */
  ghost function Quiet(reg: Registry, rank: ModeId -> nat, id: ModeId): Answers
    requires NestingEnds(reg, rank)
    decreases rank(id)
  {
    match reg.mode(id).sub
    case NoSub => Answers([], Nothing)
    case Auto => Answers([], Many(NoMore))
    case Named(name) =>
      Answers([], if name in reg.languages then One(End(Quiet(reg, rank, reg.languages[name]))) else Nothing)
  }

  ghost predicate Fresh(reg: Registry, tops: map<string, Chain>) {
    forall n <- tops :: n in reg.languages && tops[n] == Chain([reg.languages[n]], true)
  }

  function Start(root: ModeId): State {
    State([], "", [root], true, map[], CLEAN, 0)
  }

  lemma StartsAt(reg: Registry, name: string, text: string, script: Script, ignoreIllegals: bool, start: Option<Chain>)
    requires name in reg.languages && (start == None || start == Some(Chain([reg.languages[name]], true)))
    ensures Highlighted(reg, name, text, script, ignoreIllegals, start)
         == Loop(reg, Start(reg.languages[name]), text, 0, script, name, ignoreIllegals)
  {
    hide Loop;
    var root := reg.languages[name];
    assert [root][1..] == [];
  }

  lemma EndsAt(reg: Registry, st: State, answers: Answers, name: string)
    requires st.stack != [] && st.buf == ""
    requires Flush(reg, st, answers).Ok? ==> Flush(reg, st, answers).value.stack != []
    ensures var r := Flush(reg, st, answers);
            Loop(reg, st, "", 0, End(answers), name, true)
            == if r.Ok? then Ok(Finished(reg, r.value, name))
               else if r.Thrown? then Thrown else NoSuchMatch
  {
    hide Flush, CloseTags;
    assert st.(buf := st.buf + Tail("", 0)) == st;
  }

  /** An empty buffer can always be flushed; what is written is balanced. */
  lemma {:induction false} QuietFlush(reg: Registry, rank: ModeId -> nat, st: State) returns (d: seq<Token>)
    requires NestingEnds(reg, rank) && st.buf == "" && st.stack != [] && Fresh(reg, st.tops)
    ensures var r := Flush(reg, st, Quiet(reg, rank, st.stack[|st.stack| - 1]));
            && r.Ok? && r.value.stack == st.stack && r.value.rooted == st.rooted
            && r.value.buf == "" && Fresh(reg, r.value.tops)
            && r.value.doc == st.doc + d && Balanced(d)
    decreases rank(st.stack[|st.stack| - 1])
  {
    hide Highlighted, BestOf, Loop, Balanced, NestingEnds, Wrap;
    var id := st.stack[|st.stack| - 1];
    EmptyIsBalanced();
    d := [];
    match reg.mode(id).sub
    case NoSub =>
      assert st.doc + Chars("") == st.doc + [];
    case Auto =>
      d := Wrap(LanguageBody(None), []);
      WrappedBalanced(LanguageBody(None), []);
      BestOfNone(reg, "");
    case Named(name) =>
      if name !in reg.languages {
        assert st.doc + Chars("") == st.doc + [];
      } else {
        var root := reg.languages[name];
        RankFalls(reg, rank, id, name);
        var inner := QuietFlush(reg, rank, Start(root));
        var start := Continued(st, name);
        StartsAt(reg, name, "", End(Quiet(reg, rank, root)), true, start);
        EndsAt(reg, Start(root), Quiet(reg, rank, root), name);
        assert CloseTags(reg, [root][1..]) == [];
        assert [] + inner + [] == inner;
        WrappedBalanced(LanguageBody(Some(name)), inner);
        d := Wrap(LanguageBody(Some(name)), inner);
      }
  }

  lemma EmptyIsBalanced()
    ensures Balanced([])
  {
  }

  lemma BestOfNone(reg: Registry, text: string)
    ensures BestOf(reg, text, NoMore, NoneYet(text)) == Ok(NoneYet(text))
  {
  }

  lemma RankFalls(reg: Registry, rank: ModeId -> nat, id: ModeId, name: string)
    requires NestingEnds(reg, rank) && reg.mode(id).sub == Named(name) && name in reg.languages
    ensures rank(reg.languages[name]) < rank(id)
  {
  }

  lemma WrappedBalanced(body: string, doc: seq<Token>)
    requires Balanced(doc) && exists cls :: body == SpanBody("", cls)
    ensures Balanced(Wrap(body, doc))
  {
    hide Wrap, Balanced, SpanBody, TextOf;
    var cls :| body == SpanBody("", cls);
    WrapFacts(Claims(true, iset{}, false, false), "", cls, doc);
  }

  /** A state that a run over the empty text can be in, with the root at the bottom. */
  ghost predicate Calm(reg: Registry, name: string, st: State) {
    && name in reg.languages && st.stack != [] && st.stack[0] == reg.languages[name]
    && st.rooted && st.buf == "" && Fresh(reg, st.tops)
    && Nest(st.doc, []) == Some(Opened(reg, st.stack[1..]))
  }

  ghost function BeginHit(reg: Registry, rank: ModeId -> nat, stack: seq<ModeId>, child: ModeId): Hit
    requires NestingEnds(reg, rank) && stack != []
  {
    Hit(0, 0, {child}, {}, false, Quiet(reg, rank, stack[|stack| - 1]))
  }

  ghost function EndHit(reg: Registry, rank: ModeId -> nat, stack: seq<ModeId>, ends: set<nat>): Hit
    requires NestingEnds(reg, rank) && stack != []
  {
    Hit(0, 0, {}, ends, false, Quiet(reg, rank, stack[|stack| - 1]))
  }

  lemma BegunIs(contains: seq<ModeId>, c: ModeId)
    ensures c in contains ==> FirstBegun(contains, {c}) == Some(c)
    ensures FirstBegun(contains, {}) == None
  {
  }

  lemma NestMore(doc: seq<Token>, d: seq<Token>, open: seq<string>)
    requires Nest(doc, []) == Some(open) && Balanced(d)
    ensures Nest(doc + d, []) == Some(open)
  {
    hide Nest;
    BalancedUnder(d, open);
    NestThen(doc, d, [], open, open);
  }

  lemma {:induction false} CalmBegins(reg: Registry, rank: ModeId -> nat, name: string, st: State, c: ModeId)
    returns (next: State)
    requires NestingEnds(reg, rank) && Calm(reg, name, st) && c in reg.mode(st.stack[|st.stack| - 1]).contains
    ensures Process(reg, st, "", BeginHit(reg, rank, st.stack, c), true, true) == Ok(Advanced(next, 0))
    ensures Calm(reg, name, next) && next.stack == st.stack + [c]
  {
    hide Flush, Nest, Balanced, OpenTag, Opened, Quiet, NestingEnds;
    var top := st.stack[|st.stack| - 1];
    BegunIs(reg.mode(top).contains, c);
    var d := QuietFlush(reg, rank, st);
    var m := reg.mode(c);
    var before := if m.skip then st else Flush(reg, st, Quiet(reg, rank, top)).value;
    assert st.buf + "" == st.buf;
    if !m.skip {
      NestMore(st.doc, d, Opened(reg, st.stack[1..]));
    }
    next := Enter(reg, before.(buf := ""), c).(ledger := before.ledger.Plus(CLEAN));
    assert BeginMode(reg, st, "", c, Quiet(reg, rank, top)) == Ok(Advanced(next, 0));
    OpenTagNest(reg, c, Opened(reg, st.stack[1..]));
    OpenedOne(reg, c);
    OpenedConcat(reg, st.stack[1..], [c]);
    assert (st.stack + [c])[1..] == st.stack[1..] + [c];
    NestThen(before.doc, OpenTag(reg, c), [], Opened(reg, st.stack[1..]),
             Opened(reg, st.stack[1..]) + OpenBody(reg, c));
  }

  /** What a step that ends position `pos` does to a calm state. */
  lemma {:induction false} CalmEnds(reg: Registry, rank: ModeId -> nat, name: string, st: State, ends: set<nat>,
                                    pos: nat)
    returns (next: State, doc: seq<Token>)
    requires NestingEnds(reg, rank) && Calm(reg, name, st)
    requires EndedAt(reg, st.stack, |st.stack| - 1, ends) == Ok(Some(pos))
    ensures pos < |st.stack|
            && Process(reg, st, "", EndHit(reg, rank, st.stack, ends), true, true) == Ok(Advanced(next, 0))
    ensures next.stack == Left(reg, st.stack, pos) && next.rooted == (pos > 0) && next.buf == ""
            && Fresh(reg, next.tops)
    ensures next.doc == doc + LeftTags(reg, st.stack, pos) && Nest(doc, []) == Some(Opened(reg, st.stack[1..]))
  {
    hide Flush, Nest, Balanced, LeftTags, Left, Opened, Quiet, NestingEnds, EndModes, EndedAt, LeftScore;
    var top := st.stack[|st.stack| - 1];
    BegunIs(reg.mode(top).contains, 0);
    var d := QuietFlush(reg, rank, st);
    var m := reg.mode(top);
    assert st.buf + "" == st.buf;
    var st2 := if m.skip then st else Flush(reg, st, Quiet(reg, rank, top)).value;
    if !m.skip {
      NestMore(st.doc, d, Opened(reg, st.stack[1..]));
    }
    EndWrites(reg, st, "", pos, Quiet(reg, rank, top), st2, 0, 0);
    doc := st2.doc;
    next := Popped(reg, st2.(ledger := st2.ledger.Plus(CLEAN)), pos);
  }

  /** After one step the loop is where that step has led, still at the beginning of the text. */
  lemma LoopAfter(reg: Registry, name: string, st: State, hit: Hit, next: State, rest: Script)
    requires st.stack != [] && hit.index == hit.len == 0
    requires Process(reg, st, "", hit, true, true) == Ok(Advanced(next, 0))
    ensures Loop(reg, st, "", 0, Step(hit, rest), name, true) == Loop(reg, next, "", 0, rest, name, true)
  {
    hide Process, Loop;
    LoopUnfolds(reg, st, "", 0, hit, rest, name, true);
    assert ""[0..0] == "" && st.(buf := st.buf + ""[0..0]) == st;
  }

  /** After any moves from a calm state, a lexeme that would throw or end the root gives a bad run. */
  lemma {:induction false} BadRun(reg: Registry, rank: ModeId -> nat, name: string, st: State, moves: seq<Move>,
                                  ends: set<nat>)
    returns (script: Script)
    requires NestingEnds(reg, rank) && Calm(reg, name, st)
    requires Walk(reg, st.stack, moves).Some? && !EndsWell(reg, Walk(reg, st.stack, moves).value, ends)
    ensures !WellRun(reg, name, Loop(reg, st, "", 0, script, name, true))
    decreases moves
  {
    hide Process, Loop, Nest, Calm, NestingEnds, WellRun, EndsWell, AfterEnds;
    CalmFacts(reg, name, st);
    if moves == [] {
      script := BadStep(reg, rank, name, st, ends);
    } else {
      match moves[0]
      case Begin(child) =>
        var next := CalmBegins(reg, rank, name, st, child);
        var rest := BadRun(reg, rank, name, next, moves[1..], ends);
        script := Step(BeginHit(reg, rank, st.stack, child), rest);
        LoopAfter(reg, name, st, BeginHit(reg, rank, st.stack, child), next, rest);
      case Try(tried) =>
        var next, used := CalmTries(reg, rank, name, st, tried);
        script := BadRun(reg, rank, name, next, moves[1..], ends);
        if used {
          LoopAfter(reg, name, st, EndHit(reg, rank, st.stack, tried), next, script);
          script := Step(EndHit(reg, rank, st.stack, tried), script);
        }
    }
  }

  lemma CalmFacts(reg: Registry, name: string, st: State)
    requires Calm(reg, name, st)
    ensures st.stack != []
  {
  }

  /** A lexeme that keeps the root leads to a calm state, unless nothing is ended. */
  lemma CalmTries(reg: Registry, rank: ModeId -> nat, name: string, st: State, ends: set<nat>)
    returns (next: State, used: bool)
    requires NestingEnds(reg, rank) && Calm(reg, name, st) && st.stack != [] && EndsWell(reg, st.stack, ends)
    ensures Calm(reg, name, next) && next.stack == AfterEnds(reg, st.stack, ends)
    ensures !used ==> next == st
    ensures used ==> Process(reg, st, "", EndHit(reg, rank, st.stack, ends), true, true) == Ok(Advanced(next, 0))
  {
    hide Nest, NestingEnds, LeftTags, Process, Opened, EndedAt;
    var ended := EndedAt(reg, st.stack, |st.stack| - 1, ends);
    used := ended.value.Some?;
    if used {
      var pos := ended.value.value;
      var doc;
      next, doc := CalmEnds(reg, rank, name, st, ends, pos);
      LeftTagsNest(reg, st.stack, pos);
      NestThen(doc, LeftTags(reg, st.stack, pos), [], Opened(reg, st.stack[1..]),
               Opened(reg, Left(reg, st.stack, pos)[1..]));
    } else {
      next := st;
    }
  }

  lemma {:induction false} BadStep(reg: Registry, rank: ModeId -> nat, name: string, st: State, ends: set<nat>)
    returns (script: Script)
    requires NestingEnds(reg, rank) && Calm(reg, name, st) && st.stack != [] && !EndsWell(reg, st.stack, ends)
    ensures !WellRun(reg, name, Loop(reg, st, "", 0, script, name, true))
  {
    hide Nest, NestingEnds, LeftTags, Process, Opened, Loop;
    var hit := EndHit(reg, rank, st.stack, ends);
    var ended := EndedAt(reg, st.stack, |st.stack| - 1, ends);
    if !ended.Ok? {
      script := Step(hit, End(Answers([], Nothing)));
      BegunIs(reg.mode(st.stack[|st.stack| - 1]).contains, 0);
      ThrownStep(reg, name, st, hit, End(Answers([], Nothing)));
    } else {
      var next, doc := CalmEnds(reg, rank, name, st, ends, 0);
      if next.stack == [] {
        script := End(Answers([], Nothing));
        EmptyStackThrows(reg, next, "", 0, script, name, true);
      } else {
        script := BadEnd(reg, rank, name, next);
      }
      LoopAfter(reg, name, st, hit, next, script);
      script := Step(hit, script);
    }
  }

  lemma ThrownStep(reg: Registry, name: string, st: State, hit: Hit, rest: Script)
    requires st.stack != [] && hit.index == hit.len == 0
             && FirstBegun(reg.mode(st.stack[|st.stack| - 1]).contains, hit.begins) == None
    requires !EndedAt(reg, st.stack, |st.stack| - 1, hit.ends).Ok?
    ensures Loop(reg, st, "", 0, Step(hit, rest), name, true).Thrown?
  {
    hide Loop, BeginMode, EndModes, EndedAt, FirstBegun;
    AllPassIfThrows(reg, st.stack, |st.stack| - 1, hit.ends);
    assert ""[0..0] == "" && st.(buf := st.buf + ""[0..0]) == st;
    LoopUnfolds(reg, st, "", 0, hit, rest, name, true);
  }

  /** The root has been ended and has started a mode: no later run can continue from there. */
  lemma {:induction false} BadEnd(reg: Registry, rank: ModeId -> nat, name: string, st: State) returns (script: Script)
    requires NestingEnds(reg, rank) && st.stack != [] && !st.rooted && st.buf == "" && Fresh(reg, st.tops)
    ensures !WellRun(reg, name, Loop(reg, st, "", 0, script, name, true))
  {
    hide Flush, Nest, NestingEnds, Loop, Quiet, CloseTags;
    var answers := Quiet(reg, rank, st.stack[|st.stack| - 1]);
    var _ := QuietFlush(reg, rank, st);
    EndsAt(reg, st, answers, name);
    script := End(answers);
  }

  /** Every run, over every text and every script, throws nothing, closes its spans and leaves a
      usable stack, if and only if on every stack that lexemes can lead to the modes keep the root
      at the bottom. */
  lemma RunsAreWellIff(reg: Registry, rank: ModeId -> nat)
    requires NestingEnds(reg, rank)
    ensures (forall name, text, script, ignoreIllegals | name in reg.languages ::
               WellRun(reg, name, Highlighted(reg, name, text, script, ignoreIllegals, None)))
       <==> RootsStay(reg)
  {
    hide WellRun, Highlighted, Steady, NestingEnds, Reached, RootSafe;
    if RootsStay(reg) {
      ReachedAreSteady(reg);
      forall name, text, script, ignoreIllegals | name in reg.languages
        ensures WellRun(reg, name, Highlighted(reg, name, text, script, ignoreIllegals, None))
      {
        SteadyRunsAreWell(reg, (iset s | Reached(reg, s)), name, text, script, ignoreIllegals);
      }
    } else {
      var name, script := BadScript(reg, rank);
      assert !WellRun(reg, name, Highlighted(reg, name, "", script, true, None));
    }
  }

  lemma BadScript(reg: Registry, rank: ModeId -> nat) returns (name: string, script: Script)
    requires NestingEnds(reg, rank) && !RootsStay(reg)
    ensures name in reg.languages && !WellRun(reg, name, Highlighted(reg, name, "", script, true, None))
  {
    hide WellRun, Highlighted, NestingEnds, RootSafe, Walk, EndsWell;
    var stack :| Reached(reg, stack) && !RootSafe(reg, stack);
    var moves;
    name, moves :| Leads(reg, name, moves, stack);
    var ends := UnsafeEnds(reg, stack);
    CalmAtStart(reg, name);
    script := BadRun(reg, rank, name, Start(reg.languages[name]), moves, ends);
    StartsAt(reg, name, "", script, true, None);
  }

  lemma CalmAtStart(reg: Registry, name: string)
    requires name in reg.languages
    ensures Calm(reg, name, Start(reg.languages[name]))
  {
    assert [reg.languages[name]][1..] == [];
  }
}

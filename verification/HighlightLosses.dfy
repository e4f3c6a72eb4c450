/** When the highlighter shows every character once, as conditions on grammar, text and matches. */
module HighlightLosses {
  import opened Wrappers
  import opened Markup
  import opened Highlight
  import opened HighlightProofs
  import Roots = HighlightRoots

  /** What can go wrong with a character: it is shown again, or stepped over. */
  datatype Fault = Repeats | Drops

  function Of(ledger: Ledger, fault: Fault): nat {
    if fault.Repeats? then ledger.repeated else ledger.dropped
  }

  // ----- runs without a fault -----

  /** A buffer is flushed without the fault: it is only at risk in a nested language. */
  predicate FlushAvoids(fault: Fault, reg: Registry, st: State, answers: Answers)
    decreases answers, 1
  {
    st.stack != [] ==>
      match reg.mode(st.stack[|st.stack| - 1]).sub
      case NoSub => true
      case Named(name) => name in reg.languages ==> NamedAvoids(fault, reg, st, name, answers.nested)
      case Auto => answers.nested.Many? ==> BestAvoids(fault, reg, st.buf, answers.nested.candidates, 0, true)
  }

  predicate NamedAvoids(fault: Fault, reg: Registry, st: State, name: string, nested: Nested)
    decreases nested, 0
  {
    nested.One? ==> RunAvoids(fault, reg, name, st.buf, nested.script, true, Continued(st, name))
  }

  /** The candidate that wins is highlighted without the fault; `best` says so of the best so far,
      which is `most` relevant. */
  predicate BestAvoids(fault: Fault, reg: Registry, text: string, candidates: Candidates, most: int, best: bool)
    decreases candidates, 0
  {
    match candidates
    case NoMore => best
    case Candidate(name, script, others) =>
      match Highlighted(reg, name, text, script, false, None)
      case Ok(r) =>
        if r.relevance > most then
          BestAvoids(fault, reg, text, others, r.relevance, RunAvoids(fault, reg, name, text, script, false, None))
        else BestAvoids(fault, reg, text, others, most, best)
      case _ => true
  }

  /** The state in which the buffer is flushed before a mode is entered. */
  function BeforeBegin(st: State, m: Mode, lexeme: string): State {
    if m.excludeBegin then st.(buf := st.buf + lexeme) else st
  }

  /** The state in which the buffer is flushed before modes are left. */
  function BeforeEnd(st: State, m: Mode, lexeme: string): State {
    if m.returnEnd || m.excludeEnd then st else st.(buf := st.buf + lexeme)
  }

  /** A begin lexeme that is given back to the input was not emitted. */
  predicate BeginOnce(m: Mode, lexeme: string) {
    lexeme == "" || !(m.returnBegin && (m.skip || m.excludeBegin))
  }

  predicate EndOnce(m: Mode, lexeme: string) {
    lexeme == "" || !(m.returnEnd && (m.skip || m.excludeEnd))
  }

  /** One lexeme. Nothing is repeated when it is emitted or given back, not both; nothing is dropped when
      it is claimed by a child or an end, or not empty, or at the end of the text. */
  predicate StepAvoids(fault: Fault, reg: Registry, st: State, lexeme: string, hit: Hit, atEnd: bool)
    requires st.stack != []
    decreases hit
  {
    var top := reg.mode(st.stack[|st.stack| - 1]);
    match FirstBegun(top.contains, hit.begins)
    case Some(id) =>
      var m := reg.mode(id);
      && (fault.Repeats? ==> BeginOnce(m, lexeme))
      && (m.skip || FlushAvoids(fault, reg, BeforeBegin(st, m, lexeme), hit.flush))
    case None =>
      match EndedAt(reg, st.stack, |st.stack| - 1, hit.ends)
      case Ok(Some(_)) =>
        && (fault.Repeats? ==> EndOnce(top, lexeme))
        && (top.skip || FlushAvoids(fault, reg, BeforeEnd(st, top, lexeme), hit.flush))
      case Ok(None) => fault.Drops? ==> lexeme != "" || atEnd
      case _ => true
  }

  /** The rest of a run; `sofar` says so of what came before. An illegal lexeme gives the text back whole. */
  predicate LoopAvoids(fault: Fault, reg: Registry, st: State, text: string, pos: nat, script: Script,
                       ignoreIllegals: bool, sofar: bool)
    decreases script, 1
  {
    match script
    case End(last) => sofar && FlushAvoids(fault, reg, st.(buf := st.buf + Tail(text, pos)), last)
    case Step(hit, rest) =>
      st.stack != [] && pos <= hit.index && hit.index + hit.len <= |text| ==>
        var lexeme := text[hit.index..hit.index + hit.len];
        var st1 := st.(buf := st.buf + text[pos..hit.index]);
        match Process(reg, st1, lexeme, hit, ignoreIllegals, hit.index == |text|)
        case Ok(Advanced(next, adv)) =>
          var sofar' := sofar && StepAvoids(fault, reg, st1, lexeme, hit, hit.index == |text|);
          LoopAvoids(fault, reg, next, text, hit.index + adv, rest, ignoreIllegals, sofar')
        case _ => true
  }

  predicate RunAvoids(fault: Fault, reg: Registry, name: string, text: string, script: Script,
                      ignoreIllegals: bool, start: Option<Chain>)
    decreases script, 2
  {
    name in reg.languages && Continuable(reg, name, StartChain(reg, name, start)) ==>
      LoopAvoids(fault, reg, Opening(reg, StartChain(reg, name, start).modes), text, 0, script, ignoreIllegals, true)
  }

  /** Every character is shown once. */
  predicate RunKeeps(reg: Registry, name: string, text: string, script: Script, ignoreIllegals: bool,
                     start: Option<Chain>) {
    && RunAvoids(Repeats, reg, name, text, script, ignoreIllegals, start)
    && RunAvoids(Drops, reg, name, text, script, ignoreIllegals, start)
  }

  predicate BestKeeps(reg: Registry, text: string, candidates: Candidates) {
    BestAvoids(Repeats, reg, text, candidates, 0, true) && BestAvoids(Drops, reg, text, candidates, 0, true)
  }

  // ----- they are the runs with nothing of the kind on the ledger -----

  lemma {:induction false} FlushAvoidsIff(fault: Fault, reg: Registry, st: State, answers: Answers)
    requires Flush(reg, st, answers).Ok?
    ensures var before, after := Of(st.ledger, fault), Of(Flush(reg, st, answers).value.ledger, fault);
            after >= before && (after == before <==> FlushAvoids(fault, reg, st, answers))
    decreases answers, 1
  {
    hide FlushNamed, FlushDetected, NamedAvoids, BestAvoids, KeywordDoc;
    var mode := reg.mode(st.stack[|st.stack| - 1]);
    match mode.sub
    case NoSub =>
    case Named(name) =>
      if name in reg.languages {
        NamedAvoidsIff(fault, reg, st, mode, name, answers.nested);
      }
    case Auto => DetectedAvoidsIff(fault, reg, st, mode, answers.nested);
  }

  lemma {:induction false} NamedAvoidsIff(fault: Fault, reg: Registry, st: State, mode: Mode, name: string,
                                          nested: Nested)
    requires FlushNamed(reg, st, mode, name, nested).Ok?
    ensures var before, after := Of(st.ledger, fault), Of(FlushNamed(reg, st, mode, name, nested).value.ledger, fault);
            after >= before && (after == before <==> NamedAvoids(fault, reg, st, name, nested))
    decreases nested, 0
  {
    hide Highlighted, RunAvoids;
    RunAvoidsIff(fault, reg, name, st.buf, nested.script, true, Continued(st, name));
  }

  lemma {:induction false} DetectedAvoidsIff(fault: Fault, reg: Registry, st: State, mode: Mode, nested: Nested)
    requires FlushDetected(reg, st, mode, nested).Ok?
    ensures var before, after := Of(st.ledger, fault), Of(FlushDetected(reg, st, mode, nested).value.ledger, fault);
            && nested.Many? && after >= before
            && (after == before <==> BestAvoids(fault, reg, st.buf, nested.candidates, 0, true))
    decreases nested, 0
  {
    hide BestOf, BestAvoids;
    BestAvoidsIff(fault, reg, st.buf, nested.candidates, NoneYet(st.buf));
  }

  lemma {:induction false} BestAvoidsIff(fault: Fault, reg: Registry, text: string, candidates: Candidates,
                                         ranking: Ranking)
    requires BestOf(reg, text, candidates, ranking).Ok?
    ensures Of(BestOf(reg, text, candidates, ranking).value.best.ledger, fault) == 0
       <==> BestAvoids(fault, reg, text, candidates, ranking.best.relevance, Of(ranking.best.ledger, fault) == 0)
    decreases candidates, 0
  {
    hide Highlighted, RunAvoids;
    match candidates
    case NoMore =>
    case Candidate(name, script, others) =>
      var r := Highlighted(reg, name, text, script, false, None);
      RunAvoidsIff(fault, reg, name, text, script, false, None);
      BestAvoidsIff(fault, reg, text, others, Ranked(ranking, r.value.(language := Some(name))));
  }

  lemma {:induction false} BeginAvoidsIff(fault: Fault, reg: Registry, st: State, lexeme: string, id: ModeId,
                                          answers: Answers)
    requires BeginMode(reg, st, lexeme, id, answers).Ok?
    ensures var step, m := BeginMode(reg, st, lexeme, id, answers).value, reg.mode(id);
            && step.Advanced?
            && Of(step.st.ledger, fault) >= Of(st.ledger, fault)
            && (Of(step.st.ledger, fault) == Of(st.ledger, fault)
                <==> (fault.Repeats? ==> BeginOnce(m, lexeme))
                     && (m.skip || FlushAvoids(fault, reg, BeforeBegin(st, m, lexeme), answers)))
    decreases answers, 2
  {
    hide Flush, FlushAvoids, OpenTag;
    var m := reg.mode(id);
    if !m.skip {
      FlushAvoidsIff(fault, reg, BeforeBegin(st, m, lexeme), answers);
    }
  }

  lemma {:induction false} EndAvoidsIff(fault: Fault, reg: Registry, st: State, lexeme: string, pos: nat,
                                        answers: Answers)
    requires pos < |st.stack| && EndModes(reg, st, lexeme, pos, answers).Ok?
    ensures var step, m := EndModes(reg, st, lexeme, pos, answers).value, reg.mode(st.stack[|st.stack| - 1]);
            && step.Advanced?
            && Of(step.st.ledger, fault) >= Of(st.ledger, fault)
            && (Of(step.st.ledger, fault) == Of(st.ledger, fault)
                <==> (fault.Repeats? ==> EndOnce(m, lexeme))
                     && (m.skip || FlushAvoids(fault, reg, BeforeEnd(st, m, lexeme), answers)))
    decreases answers, 2
  {
    hide Flush, FlushAvoids, OpenTag, CloseTags, LeftScore;
    var m := reg.mode(st.stack[|st.stack| - 1]);
    if !m.skip {
      FlushAvoidsIff(fault, reg, BeforeEnd(st, m, lexeme), answers);
    }
  }

  lemma {:induction false} StepAvoidsIff(fault: Fault, reg: Registry, st: State, lexeme: string, hit: Hit,
                                         ignoreIllegals: bool, atEnd: bool)
    requires st.stack != []
    requires Process(reg, st, lexeme, hit, ignoreIllegals, atEnd).Ok?
             && Process(reg, st, lexeme, hit, ignoreIllegals, atEnd).value.Advanced?
    ensures var before, after := Of(st.ledger, fault),
            Of(Process(reg, st, lexeme, hit, ignoreIllegals, atEnd).value.st.ledger, fault);
            after >= before && (after == before <==> StepAvoids(fault, reg, st, lexeme, hit, atEnd))
    decreases hit
  {
    hide BeginMode, EndModes, FlushAvoids, BeginOnce, EndOnce, EndedAt, FirstBegun;
    var top := reg.mode(st.stack[|st.stack| - 1]);
    match FirstBegun(top.contains, hit.begins)
    case Some(id) => BeginAvoidsIff(fault, reg, st, lexeme, id, hit.flush);
    case None =>
      var ended := EndedAt(reg, st.stack, |st.stack| - 1, hit.ends);
      if ended.value.Some? {
        EndAvoidsIff(fault, reg, st, lexeme, ended.value.value, hit.flush);
      }
  }

  lemma {:induction false} LoopAvoidsIff(fault: Fault, reg: Registry, st: State, text: string, pos: nat,
                                         script: Script, name: string, ignoreIllegals: bool)
    requires Loop(reg, st, text, pos, script, name, ignoreIllegals).Ok?
    ensures Of(Loop(reg, st, text, pos, script, name, ignoreIllegals).value.ledger, fault) == 0
       <==> LoopAvoids(fault, reg, st, text, pos, script, ignoreIllegals, Of(st.ledger, fault) == 0)
    decreases script, 1
  {
    hide Flush, FlushAvoids, CloseTags, Process, StepAvoids;
    if st.stack == [] {
      EmptyStackThrows(reg, st, text, pos, script, name, ignoreIllegals);
    } else {
      match script
      case End(last) =>
        FlushAvoidsIff(fault, reg, st.(buf := st.buf + Tail(text, pos)), last);
      case Step(hit, rest) =>
        LoopUnfolds(reg, st, text, pos, hit, rest, name, ignoreIllegals);
        if pos <= hit.index && hit.index + hit.len <= |text| {
          var lexeme := text[hit.index..hit.index + hit.len];
          var st1 := st.(buf := st.buf + text[pos..hit.index]);
          var step := Process(reg, st1, lexeme, hit, ignoreIllegals, hit.index == |text|);
          if step.Ok? && step.value.Advanced? {
            StepAvoidsIff(fault, reg, st1, lexeme, hit, ignoreIllegals, hit.index == |text|);
            LoopAvoidsIff(fault, reg, step.value.st, text, hit.index + step.value.adv, rest, name, ignoreIllegals);
          }
        }
    }
  }

  /** A run shows nothing twice, or steps over nothing, if and only if no lexeme of it or of the nested
      runs it shows does so by the rules above. */
  lemma {:induction false} RunAvoidsIff(fault: Fault, reg: Registry, name: string, text: string, script: Script,
                                        ignoreIllegals: bool, start: Option<Chain>)
    requires Highlighted(reg, name, text, script, ignoreIllegals, start).Ok?
    ensures Of(Highlighted(reg, name, text, script, ignoreIllegals, start).value.ledger, fault) == 0
       <==> RunAvoids(fault, reg, name, text, script, ignoreIllegals, start)
    decreases script, 2
  {
    hide Loop, LoopAvoids, OpenTags;
    LoopAvoidsIff(fault, reg, Opening(reg, StartChain(reg, name, start).modes), text, 0, script, name, ignoreIllegals);
  }

  // ----- one step -----

  predicate FlushesAlike(a: Attempt<State>, b: Attempt<State>) {
    (a.Ok? <==> b.Ok?) && (a.Ok? ==> a.value == b.value.(ledger := a.value.ledger))
  }

  lemma FlushAnyLedger(reg: Registry, st: State, ledger: Ledger, answers: Answers)
    ensures FlushesAlike(Flush(reg, st.(ledger := ledger), answers), Flush(reg, st, answers))
  {
    hide FlushWords, FlushNamed, FlushDetected, Chars;
    if st.stack != [] {
      var mode := reg.mode(st.stack[|st.stack| - 1]);
      match mode.sub
      case NoSub =>
        if mode.keywordClasses.Some? {
          WordsAnyLedger(reg, st, ledger, mode.keywordClasses.value, answers.words);
        }
      case Named(name) => NamedAnyLedger(reg, st, ledger, mode, name, answers.nested);
      case Auto => DetectedAnyLedger(reg, st, ledger, mode, answers.nested);
    }
  }

  lemma WordsAnyLedger(reg: Registry, st: State, ledger: Ledger, classes: set<string>, words: seq<WordHit>)
    ensures FlushesAlike(FlushWords(reg, st.(ledger := ledger), classes, words), FlushWords(reg, st, classes, words))
  {
    hide KeywordDoc, KeywordScore;
  }

  lemma NamedAnyLedger(reg: Registry, st: State, ledger: Ledger, mode: Mode, name: string, nested: Nested)
    ensures FlushesAlike(FlushNamed(reg, st.(ledger := ledger), mode, name, nested),
                         FlushNamed(reg, st, mode, name, nested))
  {
    hide Highlighted, Wrap, LanguageBody;
  }

  lemma DetectedAnyLedger(reg: Registry, st: State, ledger: Ledger, mode: Mode, nested: Nested)
    ensures FlushesAlike(FlushDetected(reg, st.(ledger := ledger), mode, nested), FlushDetected(reg, st, mode, nested))
  {
    hide BestOf, Wrap, LanguageBody;
  }

  /** Two attempts at a step that differ at most in the ledger. */
  predicate SameButLedger(a: Attempt<Advance>, b: Attempt<Advance>) {
    && (a.Ok? <==> b.Ok?)
    && (a.Ok? ==> (a.value.Advanced? <==> b.value.Advanced?))
    && (a.Ok? && a.value.Advanced? ==>
          a.value.adv == b.value.adv && a.value.st == b.value.st.(ledger := a.value.st.ledger))
  }

  lemma BeginAnyLedger(reg: Registry, st: State, ledger: Ledger, lexeme: string, id: ModeId, answers: Answers)
    ensures SameButLedger(BeginMode(reg, st.(ledger := ledger), lexeme, id, answers),
                          BeginMode(reg, st, lexeme, id, answers))
  {
    FlushAnyLedger(reg, st, ledger, answers);
    FlushAnyLedger(reg, st.(buf := st.buf + lexeme), ledger, answers);
    hide Flush, OpenTag;
  }

  lemma EndAnyLedger(reg: Registry, st: State, ledger: Ledger, lexeme: string, pos: nat, answers: Answers)
    requires pos < |st.stack|
    ensures SameButLedger(EndModes(reg, st.(ledger := ledger), lexeme, pos, answers),
                          EndModes(reg, st, lexeme, pos, answers))
  {
    FlushAnyLedger(reg, st, ledger, answers);
    FlushAnyLedger(reg, st.(buf := st.buf + lexeme), ledger, answers);
    hide Flush, OpenTag, CloseTags, LeftScore;
  }

  lemma StepAnyLedger(reg: Registry, st: State, ledger: Ledger, lexeme: string, hit: Hit, ignoreIllegals: bool,
                      atEnd: bool)
    requires st.stack != []
    ensures SameButLedger(Process(reg, st.(ledger := ledger), lexeme, hit, ignoreIllegals, atEnd),
                          Process(reg, st, lexeme, hit, ignoreIllegals, atEnd))
  {
    hide BeginMode, EndModes, EndedAt, FirstBegun;
    var top := reg.mode(st.stack[|st.stack| - 1]);
    match FirstBegun(top.contains, hit.begins)
    case Some(id) => BeginAnyLedger(reg, st, ledger, lexeme, id, hit.flush);
    case None =>
      var ended := EndedAt(reg, st.stack, |st.stack| - 1, hit.ends);
      if ended.Ok? && ended.value.Some? {
        EndAnyLedger(reg, st, ledger, lexeme, ended.value.value, hit.flush);
      }
  }

  /** One lexeme, whichever rule claims it, shows exactly the text it consumes, if and only if it
      neither repeats nor drops anything; only when it does both can the two cancel out. */
  lemma StepShowsOnceIff(reg: Registry, st: State, lexeme: string, hit: Hit, ignoreIllegals: bool, next: string)
    requires st.stack != []
    requires StepAvoids(Repeats, reg, st, lexeme, hit, next == "")
             || StepAvoids(Drops, reg, st, lexeme, hit, next == "")
    ensures var step := Process(reg, st, lexeme, hit, ignoreIllegals, next == "");
            step.Ok? && step.value.Advanced? ==>
              (Shown(step.value.st) == Shown(st) + Consumed(lexeme, step.value.adv, next) <==>
                 && StepAvoids(Repeats, reg, st, lexeme, hit, next == "")
                 && StepAvoids(Drops, reg, st, lexeme, hit, next == ""))
  {
    hide Process, StepAvoids;
    var step := Process(reg, st, lexeme, hit, ignoreIllegals, next == "");
    if step.Ok? && step.value.Advanced? {
      var st0 := st.(ledger := CLEAN);
      StepAnyLedger(reg, st, CLEAN, lexeme, hit, ignoreIllegals, next == "");
      AvoidsAnyLedger(Repeats, reg, st, CLEAN, lexeme, hit, next == "");
      AvoidsAnyLedger(Drops, reg, st, CLEAN, lexeme, hit, next == "");
      StepAvoidsIff(Repeats, reg, st0, lexeme, hit, ignoreIllegals, next == "");
      StepAvoidsIff(Drops, reg, st0, lexeme, hit, ignoreIllegals, next == "");
      ProcessKeeps(reg, NO_CLAIMS, "", Shown(st0), st0, lexeme, hit, ignoreIllegals, next);
    }
  }

  lemma AvoidsAnyLedger(fault: Fault, reg: Registry, st: State, ledger: Ledger, lexeme: string, hit: Hit, atEnd: bool)
    requires st.stack != []
    ensures StepAvoids(fault, reg, st.(ledger := ledger), lexeme, hit, atEnd)
            == StepAvoids(fault, reg, st, lexeme, hit, atEnd)
  {
    FlushAvoidsAnyLedger(fault, reg, st, ledger, hit.flush);
    FlushAvoidsAnyLedger(fault, reg, st.(buf := st.buf + lexeme), ledger, hit.flush);
    hide FlushAvoids, EndedAt, FirstBegun;
  }

  lemma FlushAvoidsAnyLedger(fault: Fault, reg: Registry, st: State, ledger: Ledger, answers: Answers)
    ensures FlushAvoids(fault, reg, st.(ledger := ledger), answers) == FlushAvoids(fault, reg, st, answers)
  {
    hide RunAvoids, BestAvoids;
  }

  // ----- whole runs -----

  /** Removing the tags gives the text back if and only if the run neither repeats nor drops anything;
      only when it does both can the two cancel out. */
  lemma TextIsKeptIff(reg: Registry, name: string, text: string, script: Script, ignoreIllegals: bool,
                      start: Option<Chain>)
    requires RunAvoids(Repeats, reg, name, text, script, ignoreIllegals, start)
          || RunAvoids(Drops, reg, name, text, script, ignoreIllegals, start)
    ensures var r := Highlighted(reg, name, text, script, ignoreIllegals, start);
            r.Ok? ==>
              (TextOf(r.value.doc) == text <==> RunKeeps(reg, name, text, script, ignoreIllegals, start))
  {
    hide Highlighted, RunAvoids, TextOf;
    if Highlighted(reg, name, text, script, ignoreIllegals, start).Ok? {
      KnownLanguage(reg, name, text, script, ignoreIllegals, start);
      HighlightedFaithful(reg, NO_CLAIMS, name, text, script, ignoreIllegals, start);
      RunAvoidsIff(Repeats, reg, name, text, script, ignoreIllegals, start);
      RunAvoidsIff(Drops, reg, name, text, script, ignoreIllegals, start);
    }
  }

  lemma KnownLanguage(reg: Registry, name: string, text: string, script: Script, ignoreIllegals: bool,
                      start: Option<Chain>)
    requires Highlighted(reg, name, text, script, ignoreIllegals, start).Ok?
    ensures name in reg.languages
  {
  }

  /** The same for automatic detection, where the candidate that wins decides. */
  lemma DetectedTextIsKeptIff(reg: Registry, text: string, candidates: Candidates)
    requires BestAvoids(Repeats, reg, text, candidates, 0, true) || BestAvoids(Drops, reg, text, candidates, 0, true)
    ensures var r := BestOf(reg, text, candidates, NoneYet(text));
            r.Ok? ==>
              (TextOf(r.value.best.doc) == text <==> BestKeeps(reg, text, candidates))
  {
    hide BestOf, BestAvoids, TextOf;
    if BestOf(reg, text, candidates, NoneYet(text)).Ok? {
      CharsFacts(NO_CLAIMS, text);
      BestFaithful(reg, NO_CLAIMS, text, candidates, NoneYet(text));
      BestAvoidsIff(Repeats, reg, text, candidates, NoneYet(text));
      BestAvoidsIff(Drops, reg, text, candidates, NoneYet(text));
    }
  }

  /** With a conserving grammar nothing is repeated, and the text is kept if and only if no empty lexeme
      falls through. */
  lemma ConservingGrammarKeepsText(reg: Registry, name: string, text: string, script: Script, ignoreIllegals: bool,
                                   start: Option<Chain>)
    requires Conserving(reg)
    requires Highlighted(reg, name, text, script, ignoreIllegals, start).Ok?
    ensures RunAvoids(Repeats, reg, name, text, script, ignoreIllegals, start)
    ensures TextOf(Highlighted(reg, name, text, script, ignoreIllegals, start).value.doc) == text
       <==> RunAvoids(Drops, reg, name, text, script, ignoreIllegals, start)
  {
    hide Highlighted, RunAvoids, TextOf;
    KnownLanguage(reg, name, text, script, ignoreIllegals, start);
    HighlightedFaithful(reg, Claims(false, iset{}, false, true), name, text, script, ignoreIllegals, start);
    RunAvoidsIff(Repeats, reg, name, text, script, ignoreIllegals, start);
    RunAvoidsIff(Drops, reg, name, text, script, ignoreIllegals, start);
  }

  /** The string that is returned, read back by an independent reader, is a balanced document, and its
      text is the input exactly when nothing is repeated or dropped. */
  lemma ValueReadsBackAsText(reg: Registry, name: string, text: string, script: Script, ignoreIllegals: bool)
    requires Roots.RootsStay(reg) && PlainNames(reg) && name in reg.languages
    requires RunAvoids(Repeats, reg, name, text, script, ignoreIllegals, None)
          || RunAvoids(Drops, reg, name, text, script, ignoreIllegals, None)
    ensures var r := Highlighted(reg, name, text, script, ignoreIllegals, None);
            && !r.Thrown?
            && (r.Ok? ==>
                  var doc := Read(Render(r.value.doc));
                  && doc.Some? && Balanced(doc.value)
                  && (TextOf(doc.value) == text <==> RunKeeps(reg, name, text, script, ignoreIllegals, None)))
  {
    hide Highlighted, RunAvoids, TextOf, Balanced, Read, Render, Steady;
    Roots.ReachedAreSteady(reg);
    var stacks := iset s | Roots.Reached(reg, s);
    HighlightedFaithful(reg, Claims(true, stacks, true, false), name, text, script, ignoreIllegals, None);
    var r := Highlighted(reg, name, text, script, ignoreIllegals, None);
    if r.Ok? {
      TextIsKeptIff(reg, name, text, script, ignoreIllegals, None);
      ReadRender(r.value.doc);
    }
  }

  // ----- matches that always advance -----

  /** No match is empty, in the text or in nested runs. */
  predicate Advances(script: Script) {
    match script
    case End(last) => AnswersAdvance(last)
    case Step(hit, rest) => hit.len > 0 && AnswersAdvance(hit.flush) && Advances(rest)
  }

  predicate AnswersAdvance(answers: Answers) {
    match answers.nested
    case Nothing => true
    case One(script) => Advances(script)
    case Many(candidates) => CandidatesAdvance(candidates)
  }

  predicate CandidatesAdvance(candidates: Candidates) {
    match candidates
    case NoMore => true
    case Candidate(_, script, others) => Advances(script) && CandidatesAdvance(others)
  }

  lemma {:induction false} AnswersAdvanceClean(reg: Registry, st: State, answers: Answers)
    requires AnswersAdvance(answers)
    ensures FlushAvoids(Drops, reg, st, answers)
    decreases answers, 1
  {
    hide RunAvoids, BestAvoids, Advances, CandidatesAdvance;
    if st.stack != [] {
      match reg.mode(st.stack[|st.stack| - 1]).sub
      case NoSub =>
      case Named(name) =>
        if name in reg.languages && answers.nested.One? {
          AdvancesClean(reg, name, st.buf, answers.nested.script, true, Continued(st, name));
        }
      case Auto =>
        if answers.nested.Many? {
          CandidatesAdvanceClean(reg, st.buf, answers.nested.candidates, 0);
        }
    }
  }

  lemma {:induction false} CandidatesAdvanceClean(reg: Registry, text: string, candidates: Candidates, most: int)
    requires CandidatesAdvance(candidates)
    ensures BestAvoids(Drops, reg, text, candidates, most, true)
    decreases candidates, 0
  {
    hide RunAvoids, Highlighted, Advances;
    match candidates
    case NoMore =>
    case Candidate(name, script, others) =>
      AdvancesClean(reg, name, text, script, false, None);
      CandidatesAdvanceClean(reg, text, others, most);
      var r := Highlighted(reg, name, text, script, false, None);
      if r.Ok? {
        CandidatesAdvanceClean(reg, text, others, r.value.relevance);
      }
  }

  lemma {:induction false} LoopAdvancesClean(reg: Registry, st: State, text: string, pos: nat, script: Script,
        ignoreIllegals: bool)
    requires Advances(script)
    ensures LoopAvoids(Drops, reg, st, text, pos, script, ignoreIllegals, true)
    decreases script, 1
  {
    hide FlushAvoids, AnswersAdvance, Process;
    match script
    case End(last) => AnswersAdvanceClean(reg, st.(buf := st.buf + Tail(text, pos)), last);
    case Step(hit, rest) =>
      if st.stack != [] && pos <= hit.index && hit.index + hit.len <= |text| {
        var lexeme := text[hit.index..hit.index + hit.len];
        var st1 := st.(buf := st.buf + text[pos..hit.index]);
        AnswersAdvanceClean(reg, st1, hit.flush);
        AnswersAdvanceClean(reg, st1.(buf := st1.buf + lexeme), hit.flush);
        var step := Process(reg, st1, lexeme, hit, ignoreIllegals, hit.index == |text|);
        if step.Ok? && step.value.Advanced? {
          LoopAdvancesClean(reg, step.value.st, text, hit.index + step.value.adv, rest, ignoreIllegals);
        }
      }
  }

  /** With matches that always advance, nothing is lost, whatever the grammar. */
  lemma {:induction false} AdvancesClean(reg: Registry, name: string, text: string, script: Script,
                                         ignoreIllegals: bool, start: Option<Chain>)
    requires Advances(script)
    ensures RunAvoids(Drops, reg, name, text, script, ignoreIllegals, start)
    decreases script, 2
  {
    hide LoopAvoids, Advances, OpenTags;
    if name in reg.languages && Continuable(reg, name, StartChain(reg, name, start)) {
      LoopAdvancesClean(reg, Opening(reg, StartChain(reg, name, start).modes), text, 0, script, ignoreIllegals);
    }
  }
}

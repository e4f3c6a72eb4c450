/** The highlighter's mode-stack engine, stated on documents (token sequences).

    Regular expressions are an oracle: a `Script` lists the matches that the
    expressions report, one entry per call of `exec`, in the order the engine asks.
    Everything the engine itself decides (which rule wins, how far modes are popped,
    what is buffered, how far it advances) is computed here. */
module Highlight {
  import opened Wrappers
  import opened Markup

  // ----- grammars -----

  type ModeId = nat

  datatype SubLanguage = NoSub | Named(name: string) | Auto

  datatype Mode = Mode(
    className: Option<string>,
    contains: seq<ModeId>,
    starts: Option<ModeId>,
    skip: bool,
    excludeBegin: bool,
    returnBegin: bool,
    excludeEnd: bool,
    returnEnd: bool,
    hasEnd: bool,  // an end expression was compiled; a language's root has none
    endsWithParent: bool,
    endsParent: bool,
    keywordClasses: Option<set<string>>,
    sub: SubLanguage,
    relevance: int)

  datatype Registry = Registry(mode: ModeId -> Mode, languages: map<string, ModeId>, prefix: string)

  // ----- what the regular expressions report -----

  /** A word of the buffer; a keyword has a class and counts for the relevance. */
  datatype WordHit = WordHit(index: nat, len: nat, cls: Option<string>, score: int)

  /** One match of the current mode's terminators, with the rules it turns out to satisfy:
      the children whose begin expression matches the lexeme, the stack positions whose end
      expression does, and whether the innermost mode's illegal expression does. */
  datatype Hit = Hit(index: nat, len: nat, begins: set<ModeId>, ends: set<nat>, illegal: bool, flush: Answers)

  datatype Script = End(last: Answers) | Step(hit: Hit, rest: Script)

  /** Answers needed while one buffer is flushed. */
  datatype Answers = Answers(words: seq<WordHit>, nested: Nested)

  datatype Nested = Nothing | One(script: Script) | Many(candidates: Candidates)

  datatype Candidates = NoMore | Candidate(name: string, script: Script, others: Candidates)

  // ----- results -----

  /** `Thrown` is an exception that leaves the engine; `NoSuchMatch` marks a script that
      no regular expressions can produce for this text. */
  datatype Attempt<+T> = Ok(value: T) | Thrown | NoSuchMatch {
    predicate IsFailure() {
      !Ok?
    }

    function PropagateFailure<U>(): Attempt<U>
      requires !Ok?
    {
      if Thrown? then Thrown else NoSuchMatch
    }

    function Extract(): T
      requires Ok?
    {
      value
    }
  }

  /** Characters emitted a second time, and characters stepped over, so far. */
  datatype Ledger = Ledger(repeated: nat, dropped: nat) {
    function Plus(other: Ledger): Ledger {
      Ledger(repeated + other.repeated, dropped + other.dropped)
    }

    predicate Clean() {
      repeated == 0 && dropped == 0
    }
  }

  const CLEAN := Ledger(0, 0)

  /** A mode with its parents, the outermost first. Every mode on it is an object of its own,
      created from the grammar's, except that the outermost is the language itself while `rooted`. */
  datatype Chain = Chain(modes: seq<ModeId>, rooted: bool)

  datatype State = State(
    doc: seq<Token>,
    buf: string,
    stack: seq<ModeId>,
    rooted: bool,
    tops: map<string, Chain>,
    ledger: Ledger,
    relevance: int)

  datatype Rendered =
    Rendered(doc: seq<Token>, language: Option<string>, top: Option<Chain>, ledger: Ledger, relevance: int)

  /** The two most relevant results of automatic detection. */
  datatype Ranking = Ranking(best: Rendered, second: Rendered)

  datatype Advance = Advanced(st: State, adv: nat) | IllegalLexeme

  // ----- spans -----

  function SpanBody(prefix: string, cls: string): string {
    "span class=\"" + prefix + cls + "\""
  }

  const SPAN_END := Tag("/span")

  function Wrap(body: string, doc: seq<Token>): seq<Token> {
    [Tag(body)] + doc + [SPAN_END]
  }

  /** The opening tag a mode emits, if it has a class name. */
  function OpenTag(reg: Registry, id: ModeId): seq<Token> {
    match reg.mode(id).className
    case None => []
    case Some(cls) => [Tag(SpanBody(reg.prefix, cls))]
  }

  function OpenTags(reg: Registry, modes: seq<ModeId>): seq<Token> {
    if modes == [] then [] else OpenTag(reg, modes[0]) + OpenTags(reg, modes[1..])
  }

  function CloseTag(reg: Registry, id: ModeId): seq<Token> {
    if reg.mode(id).className.Some? then [SPAN_END] else []
  }

  function CloseTags(reg: Registry, modes: seq<ModeId>): seq<Token> {
    if modes == [] then [] else CloseTag(reg, modes[0]) + CloseTags(reg, modes[1..])
  }

  // ----- flushing the buffer -----

  function KeywordDoc(reg: Registry, classes: set<string>, text: string, from: nat,
                      words: seq<WordHit>): Attempt<seq<Token>>
    requires from <= |text|
    decreases words
  {
    if words == [] then Ok(Chars(text[from..]))
    else
      var w := words[0];
      if w.index < from || w.index + w.len > |text| || (w.cls.Some? && w.cls.value !in classes) then NoSuchMatch
      else
        var word := Chars(text[w.index..w.index + w.len]);
        var marked := if w.cls.Some? then Wrap(SpanBody(reg.prefix, w.cls.value), word) else word;
        var rest :- KeywordDoc(reg, classes, text, w.index + w.len, words[1..]);
        Ok(Chars(text[from..w.index]) + marked + rest)
  }

  /** What the keywords among the words count for the relevance. */
  function KeywordScore(words: seq<WordHit>): int {
    if words == [] then 0 else (if words[0].cls.Some? then words[0].score else 0) + KeywordScore(words[1..])
  }

  function LanguageBody(language: Option<string>): string {
    SpanBody("", if language.Some? then language.value else "undefined")
  }

  /** The buffer is written out, marked up as the innermost mode asks, and cleared. */
  function Flush(reg: Registry, st: State, answers: Answers): (r: Attempt<State>)
    ensures r.Ok? ==> r.value.stack == st.stack && r.value.buf == ""
    decreases answers, 1
  {
    if st.stack == [] then Thrown
    else
      var mode := reg.mode(st.stack[|st.stack| - 1]);
      match mode.sub
      case NoSub => if mode.keywordClasses.None? then Ok(Plainly(st))
                    else FlushWords(reg, st, mode.keywordClasses.value, answers.words)
      case Named(name) => if name !in reg.languages then Ok(Plainly(st))
                          else FlushNamed(reg, st, mode, name, answers.nested)
      case Auto => FlushDetected(reg, st, mode, answers.nested)
  }

  function Plainly(st: State): State {
    st.(doc := st.doc + Chars(st.buf), buf := "")
  }

  function FlushWords(reg: Registry, st: State, classes: set<string>, words: seq<WordHit>): (r: Attempt<State>)
    ensures r.Ok? ==> r.value.stack == st.stack && r.value.buf == ""
  {
    var doc :- KeywordDoc(reg, classes, st.buf, 0, words);
    Ok(st.(doc := st.doc + doc, buf := "", relevance := st.relevance + KeywordScore(words)))
  }

  function FlushNamed(reg: Registry, st: State, mode: Mode, name: string, nested: Nested): (r: Attempt<State>)
    ensures r.Ok? ==> r.value.stack == st.stack && r.value.buf == ""
    decreases nested, 0
  {
    if !nested.One? then NoSuchMatch
    else
      var run :- Highlighted(reg, name, st.buf, nested.script, true, Continued(st, name));
      var st1 := Absorb(st, mode, run);
      Ok(st1.(tops := if run.top.Some? then st.tops[name := run.top.value] else st.tops - {name}))
  }

  function FlushDetected(reg: Registry, st: State, mode: Mode, nested: Nested): (r: Attempt<State>)
    ensures r.Ok? ==> r.value.stack == st.stack && r.value.buf == ""
    decreases nested, 0
  {
    if !nested.Many? then NoSuchMatch
    else
      var found :- BestOf(reg, st.buf, nested.candidates, NoneYet(st.buf));
      Ok(Absorb(st, mode, found.best))
  }

  /** Where an earlier run of the sub-language ended. */
  function Continued(st: State, name: string): Option<Chain> {
    if name in st.tops then Some(st.tops[name]) else None
  }

  /** A sub-language's result takes the buffer's place. */
  function Absorb(st: State, mode: Mode, r: Rendered): State {
    st.(doc := st.doc + Wrap(LanguageBody(r.language), r.doc), buf := "", ledger := st.ledger.Plus(r.ledger),
        relevance := st.relevance + if mode.relevance > 0 then r.relevance else 0)
  }

  function PlainResult(text: string): Rendered {
    Rendered(Chars(text), None, None, CLEAN, 0)
  }

  function NoneYet(text: string): Ranking {
    Ranking(PlainResult(text), PlainResult(text))
  }

  /** A result takes its place when it is more relevant than what is there. */
  function Ranked(ranking: Ranking, r: Rendered): Ranking {
    if r.relevance > ranking.best.relevance then Ranking(r, ranking.best)
    else if r.relevance > ranking.second.relevance then Ranking(ranking.best, r)
    else ranking
  }

  /** Automatic detection: every candidate is highlighted and ranked. */
  function BestOf(reg: Registry, text: string, candidates: Candidates, ranking: Ranking): Attempt<Ranking>
    decreases candidates, 0
  {
    match candidates
    case NoMore => Ok(ranking)
    case Candidate(name, script, others) =>
      if name !in reg.languages then NoSuchMatch
      else
        var r :- Highlighted(reg, name, text, script, false, None);
        BestOf(reg, text, others, Ranked(ranking, r.(language := Some(name))))
  }

  // ----- one lexeme -----

  function Enter(reg: Registry, st: State, id: ModeId): State {
    st.(doc := st.doc + OpenTag(reg, id), stack := st.stack + [id])
  }

  function FirstBegun(contains: seq<ModeId>, begins: set<ModeId>): Option<ModeId> {
    if contains == [] then None
    else if contains[0] in begins then Some(contains[0])
    else FirstBegun(contains[1..], begins)
  }

  /** Child `k` is the first whose begin expression matches. */
  predicate FirstAt(contains: seq<ModeId>, begins: set<ModeId>, k: int) {
    0 <= k < |contains| && contains[k] in begins && forall j | 0 <= j < k :: contains[j] !in begins
  }

  predicate NoneBegun(contains: seq<ModeId>, begins: set<ModeId>) {
    forall id <- contains :: id !in begins
  }

  /** Up from `pos` while the mode there ends its parent too. */
  function Climb(reg: Registry, stack: seq<ModeId>, pos: nat): (r: nat)
    requires pos < |stack|
    ensures r <= pos
  {
    if pos > 0 && reg.mode(stack[pos]).endsParent then Climb(reg, stack, pos - 1) else pos
  }

  /** The stack position that a lexeme ends, searched outwards while modes end with their parent. */
  function EndedAt(reg: Registry, stack: seq<ModeId>, pos: nat, ends: set<nat>): (r: Attempt<Option<nat>>)
    requires pos < |stack|
    ensures r.Ok? && r.value.Some? ==> r.value.value <= pos
  {
    var mode := reg.mode(stack[pos]);
    if mode.hasEnd && pos in ends then Ok(Some(Climb(reg, stack, pos)))
    else if !mode.endsWithParent then Ok(None)
    else if pos == 0 then Thrown
    else EndedAt(reg, stack, pos - 1, ends)
  }

  function BeginMode(reg: Registry, st: State, lexeme: string, id: ModeId, answers: Answers): Attempt<Advance>
    decreases answers, 2
  {
    var m := reg.mode(id);
    var adv := if m.returnBegin then 0 else |lexeme|;
    var repeated := if m.returnBegin && (m.skip || m.excludeBegin) then |lexeme| else 0;
    if m.skip then
      var st1 := st.(buf := st.buf + lexeme, ledger := st.ledger.Plus(Ledger(repeated, 0)));
      Ok(Advanced(Enter(reg, st1, id), adv))
    else
      var st1 :- Flush(reg, if m.excludeBegin then st.(buf := st.buf + lexeme) else st, answers);
      var st2 := st1.(buf := if m.returnBegin || m.excludeBegin then "" else lexeme,
                      ledger := st1.ledger.Plus(Ledger(repeated, 0)));
      Ok(Advanced(Enter(reg, st2, id), adv))
  }

  /** What ended modes count for the relevance. */
  function LeftScore(reg: Registry, modes: seq<ModeId>): int {
    if modes == [] then 0 else ModeScore(reg.mode(modes[0])) + LeftScore(reg, modes[1..])
  }

  function ModeScore(mode: Mode): int {
    if mode.skip || !mode.sub.NoSub? then 0 else mode.relevance
  }

  /** The modes down to `pos` are ended. When that is the root, the language's own object is left:
      what the root starts is an object without a parent, even if it is the same mode again. */
  function EndModes(reg: Registry, st: State, lexeme: string, pos: nat, answers: Answers): Attempt<Advance>
    requires pos < |st.stack|
    decreases answers, 2
  {
    var m := reg.mode(st.stack[|st.stack| - 1]);
    var adv := if m.returnEnd then 0 else |lexeme|;
    var repeated := if m.returnEnd && (m.skip || m.excludeEnd) then |lexeme| else 0;
    var ended := st.stack[pos];
    var st2 :-
      if m.skip then Ok(st.(buf := st.buf + lexeme))
      else
        var st1 :- Flush(reg, if m.returnEnd || m.excludeEnd then st else st.(buf := st.buf + lexeme), answers);
        Ok(st1.(buf := if m.excludeEnd then lexeme else ""));
    var st3 := st2.(doc := st2.doc + CloseTags(reg, st.stack[pos..]), stack := st.stack[..pos],
                    rooted := st2.rooted && pos > 0, ledger := st2.ledger.Plus(Ledger(repeated, 0)),
                    relevance := st2.relevance + LeftScore(reg, st.stack[pos..]));
    var st4 := if reg.mode(ended).starts.Some? then Enter(reg, st3, reg.mode(ended).starts.value) else st3;
    Ok(Advanced(st4, adv))
  }

  /** One lexeme; `atEnd` says that nothing of the text follows it, so that stepping over
      an empty lexeme loses no character. */
  function Process(reg: Registry, st: State, lexeme: string, hit: Hit, ignoreIllegals: bool,
                   atEnd: bool): Attempt<Advance>
    requires st.stack != []
    decreases hit
  {
    var last := |st.stack| - 1;
    match FirstBegun(reg.mode(st.stack[last]).contains, hit.begins)
    case Some(id) => BeginMode(reg, st, lexeme, id, hit.flush)
    case None =>
      var ended :- EndedAt(reg, st.stack, last, hit.ends);
      if ended.Some? then EndModes(reg, st, lexeme, ended.value, hit.flush)
      else if !ignoreIllegals && hit.illegal then Ok(IllegalLexeme)
      else
        var dropped := if lexeme == "" && !atEnd then 1 else 0;
        Ok(Advanced(st.(buf := st.buf + lexeme, ledger := st.ledger.Plus(Ledger(0, dropped))),
                    if lexeme == "" then 1 else |lexeme|))
  }

  // ----- a whole text -----

  function Tail(text: string, pos: nat): string {
    if pos <= |text| then text[pos..] else ""
  }

  /** The open spans are closed; the modes are kept for a later run. */
  function Finished(reg: Registry, st: State, name: string): Rendered
    requires st.stack != []
  {
    Rendered(st.doc + CloseTags(reg, st.stack[1..]), Some(name), Some(Chain(st.stack, st.rooted)), st.ledger,
             st.relevance)
  }

  function Loop(reg: Registry, st: State, text: string, pos: nat, script: Script, name: string,
                ignoreIllegals: bool): Attempt<Rendered>
    decreases script, 1
  {
    if st.stack == [] then Thrown
    else
      match script
      case End(last) =>
        var st1 :- Flush(reg, st.(buf := st.buf + Tail(text, pos)), last);
        Ok(Finished(reg, st1, name))
      case Step(hit, rest) =>
        if hit.index < pos || hit.index + hit.len > |text| then NoSuchMatch
        else
          var lexeme := text[hit.index..hit.index + hit.len];
          var step :- Process(reg, st.(buf := st.buf + text[pos..hit.index]), lexeme, hit, ignoreIllegals,
                              hit.index == |text|);
          match step
          case IllegalLexeme => Ok(PlainResult(text))
          case Advanced(st1, adv) => Loop(reg, st1, text, hit.index + adv, rest, name, ignoreIllegals)
  }

  /** The state in which a run over a chain of modes starts: their spans are opened again. */
  function Opening(reg: Registry, modes: seq<ModeId>): State
    requires modes != []
  {
    State(OpenTags(reg, modes[1..]), "", modes, true, map[], CLEAN, 0)
  }

  /** The highlight function: `start` is the chain of modes that a previous run of the same
      sub-language ended in. The search from there for the language's own object throws when a mode
      without a parent comes first. */
  function Highlighted(reg: Registry, name: string, text: string, script: Script, ignoreIllegals: bool,
                       start: Option<Chain>): Attempt<Rendered>
    decreases script, 2
  {
    if name !in reg.languages then Thrown
    else
      var chain := StartChain(reg, name, start);
      if !Continuable(reg, name, chain) then Thrown
      else Loop(reg, Opening(reg, chain.modes), text, 0, script, name, ignoreIllegals)
  }

  function StartChain(reg: Registry, name: string, start: Option<Chain>): Chain
    requires name in reg.languages
  {
    if start.Some? then start.value else Chain([reg.languages[name]], true)
  }

  /** The outermost mode is the language itself. */
  predicate Continuable(reg: Registry, name: string, chain: Chain) {
    name in reg.languages && chain.rooted && chain.modes != [] && chain.modes[0] == reg.languages[name]
  }
}

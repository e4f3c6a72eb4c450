/** Merging the markup of the original document into the highlighted one. */
module MergeStreams {
  import opened Wrappers
  import opened Markup
  import opened NodeStream

  // ----- tags -----

  /** `s.replace('"', "&quot;")`: only the first quote is replaced. */
  function QuoteFirst(s: string): string {
    match FindChar(s, '"')
    case None => s
    case Some(k) => s[..k] + "&quot;" + s[k + 1..]
  }

  function AttributeText(attributes: seq<Attribute>): string {
    if attributes == [] then ""
    else
      " " + attributes[0].name + "=\"" + QuoteFirst(Escape(attributes[0].value)) + "\""
      + AttributeText(attributes[1..])
  }

  function OpenBody(el: Element): string {
    el.name + AttributeText(el.attributes)
  }

  function OpenTag(el: Element): Token {
    Tag(OpenBody(el))
  }

  function CloseTag(el: Element): Token {
    Tag("/" + el.name)
  }

  function EventTag(ev: Event): Token {
    if ev.start then OpenTag(ev.el) else CloseTag(ev.el)
  }

  // ----- the merged document, piece by piece -----

  /** Where each piece of the output comes from. */
  datatype Piece =
    | Gap(text: string)
    | Original(ev: Event)
    | Highlighted(ev: Event)
    | CloseAgain(el: Element)
    | OpenAgain(el: Element)

  function PieceDoc(p: Piece): seq<Token> {
    match p
    case Gap(text) => Chars(text)
    case Original(ev) => [EventTag(ev)]
    case Highlighted(ev) => [EventTag(ev)]
    case CloseAgain(el) => [CloseTag(el)]
    case OpenAgain(el) => [OpenTag(el)]
  }

  function Doc(pieces: seq<Piece>): seq<Token> {
    if pieces == [] then [] else PieceDoc(pieces[0]) + Doc(pieces[1..])
  }

  /** `s.substring(a, b)`: bounds are clamped and, if necessary, swapped. */
  function Substring(s: string, a: nat, b: nat): string {
    var x := if a <= |s| then a else |s|;
    var y := if b <= |s| then b else |s|;
    if x <= y then s[x..y] else s[y..x]
  }

  function Rest(s: string, a: nat): string {
    if a <= |s| then s[a..] else ""
  }

  /** `s`: whether the next event is taken from the original stream. */
  predicate OriginalTurn(e: seq<Event>, t: seq<Event>) {
    if e != [] && t != [] then
      if e[0].offset != t[0].offset then e[0].offset < t[0].offset else t[0].start
    else e != []
  }

  /** How many original events are taken in one go, all at offset `at`. */
  function BatchSize(e: seq<Event>, t: seq<Event>, at: nat): (n: nat)
    requires OriginalTurn(e, t) && e[0].offset == at
    ensures 1 <= n <= |e|
    ensures forall k | 0 <= k < n :: e[k].offset == at
    decreases |e|
  {
    if OriginalTurn(e[1..], t) && e[1].offset == at then 1 + BatchSize(e[1..], t, at) else 1
  }

  function Originals(e: seq<Event>): seq<Piece> {
    seq(|e|, k requires 0 <= k < |e| => Original(e[k]))
  }

  function CloseAll(open: seq<Element>): seq<Piece> {
    seq(|open|, k requires 0 <= k < |open| => CloseAgain(open[|open| - 1 - k]))
  }

  function OpenAll(open: seq<Element>): seq<Piece> {
    seq(|open|, k requires 0 <= k < |open| => OpenAgain(open[k]))
  }

  /** Open highlighted elements are closed, the original events written, the elements opened again. */
  function Batch(events: seq<Event>, open: seq<Element>): seq<Piece> {
    CloseAll(open) + Originals(events) + OpenAll(open)
  }

  function Step(ev: Event, open: seq<Element>): seq<Element> {
    if ev.start then open + [ev.el] else if open == [] then open else open[..|open| - 1]
  }

  function Merge(e: seq<Event>, t: seq<Event>, at: nat, open: seq<Element>, text: string): seq<Piece>
    decreases |e| + |t|
  {
    if e == [] && t == [] then [Gap(Rest(text, at))]
    else if OriginalTurn(e, t) then
      var off := e[0].offset;
      var n := BatchSize(e, t, off);
      [Gap(Substring(text, at, off))] + (Batch(e[..n], open) + Merge(e[n..], t, off, open, text))
    else
      [Gap(Substring(text, at, t[0].offset))]
      + ([Highlighted(t[0])] + Merge(e, t[1..], t[0].offset, Step(t[0], open), text))
  }

  lemma MergeTakesOriginal(e: seq<Event>, t: seq<Event>, at: nat, open: seq<Element>, text: string)
    requires OriginalTurn(e, t)
    ensures var off := e[0].offset;
            var n := BatchSize(e, t, off);
            Merge(e, t, at, open, text)
            == [Gap(Substring(text, at, off))] + (Batch(e[..n], open) + Merge(e[n..], t, off, open, text))
  {
  }

  lemma MergeTakesHighlighted(e: seq<Event>, t: seq<Event>, at: nat, open: seq<Element>, text: string)
    requires t != [] && !OriginalTurn(e, t)
    ensures Merge(e, t, at, open, text)
         == [Gap(Substring(text, at, t[0].offset))]
            + ([Highlighted(t[0])] + Merge(e, t[1..], t[0].offset, Step(t[0], open), text))
  {
  }

  lemma {:induction false} DocConcat(a: seq<Piece>, b: seq<Piece>)
    ensures Doc(a + b) == Doc(a) + Doc(b)
  {
    if a == [] {
      assert a + b == b;
    } else {
      assert (a + b)[1..] == a[1..] + b;
      DocConcat(a[1..], b);
      Associates(PieceDoc(a[0]), Doc(a[1..]), Doc(b));
    }
  }

  // ----- every event once, in order, at its offset -----

  function FromOriginal(pieces: seq<Piece>): seq<Event> {
    if pieces == [] then []
    else (if pieces[0].Original? then [pieces[0].ev] else []) + FromOriginal(pieces[1..])
  }

  function FromHighlighted(pieces: seq<Piece>): seq<Event> {
    if pieces == [] then []
    else (if pieces[0].Highlighted? then [pieces[0].ev] else []) + FromHighlighted(pieces[1..])
  }

  /** Each event is written when exactly the text before its offset has been written. */
  predicate InPlace(pieces: seq<Piece>, at: nat) {
    pieces == [] ||
    match pieces[0]
    case Gap(text) => InPlace(pieces[1..], at + |text|)
    case Original(ev) => ev.offset == at && InPlace(pieces[1..], at)
    case Highlighted(ev) => ev.offset == at && InPlace(pieces[1..], at)
    case _ => InPlace(pieces[1..], at)
  }

  lemma {:induction false} FromConcat(a: seq<Piece>, b: seq<Piece>)
    ensures FromOriginal(a + b) == FromOriginal(a) + FromOriginal(b)
    ensures FromHighlighted(a + b) == FromHighlighted(a) + FromHighlighted(b)
  {
    if a == [] {
      assert a + b == b;
    } else {
      assert (a + b)[1..] == a[1..] + b;
      FromConcat(a[1..], b);
      Associates(if a[0].Original? then [a[0].ev] else [], FromOriginal(a[1..]), FromOriginal(b));
      Associates(if a[0].Highlighted? then [a[0].ev] else [], FromHighlighted(a[1..]), FromHighlighted(b));
    }
  }

  predicate NoGap(pieces: seq<Piece>) {
    forall k | 0 <= k < |pieces| :: !pieces[k].Gap?
  }

  lemma {:induction false} InPlaceConcat(a: seq<Piece>, b: seq<Piece>, at: nat)
    requires NoGap(a) && InPlace(a, at) && InPlace(b, at)
    ensures InPlace(a + b, at)
  {
    if a == [] {
      assert a + b == b;
    } else {
      assert (a + b)[1..] == a[1..] + b;
      InPlaceConcat(a[1..], b, at);
    }
  }

  lemma {:induction false} OriginalsFacts(e: seq<Event>, at: nat)
    ensures FromOriginal(Originals(e)) == e && FromHighlighted(Originals(e)) == []
    ensures (forall k | 0 <= k < |e| :: e[k].offset == at) ==> InPlace(Originals(e), at)
  {
    if e != [] {
      assert Originals(e)[1..] == Originals(e[1..]);
      OriginalsFacts(e[1..], at);
    }
  }

  lemma {:induction false} ReopenFacts(pieces: seq<Piece>, at: nat)
    requires forall k | 0 <= k < |pieces| :: pieces[k].CloseAgain? || pieces[k].OpenAgain?
    ensures FromOriginal(pieces) == [] && FromHighlighted(pieces) == [] && InPlace(pieces, at)
  {
    if pieces != [] {
      ReopenFacts(pieces[1..], at);
    }
  }

  lemma BatchFacts(events: seq<Event>, open: seq<Element>, at: nat)
    ensures FromOriginal(Batch(events, open)) == events && FromHighlighted(Batch(events, open)) == []
  {
    OriginalsFacts(events, at);
    ReopenFacts(CloseAll(open), at);
    ReopenFacts(OpenAll(open), at);
    hide InPlace, FromOriginal, FromHighlighted, CloseAll, OpenAll, Originals;
    FromConcat(CloseAll(open), Originals(events));
    FromConcat(CloseAll(open) + Originals(events), OpenAll(open));
  }

  lemma BatchInPlace(events: seq<Event>, open: seq<Element>, at: nat)
    requires forall k | 0 <= k < |events| :: events[k].offset == at
    ensures NoGap(Batch(events, open)) && InPlace(Batch(events, open), at)
  {
    OriginalsFacts(events, at);
    ReopenFacts(CloseAll(open), at);
    ReopenFacts(OpenAll(open), at);
    assert NoGap(CloseAll(open)) && NoGap(CloseAll(open) + Originals(events)) && NoGap(Batch(events, open));
    hide InPlace, FromOriginal, FromHighlighted, CloseAll, OpenAll, Originals, NoGap;
    InPlaceConcat(CloseAll(open), Originals(events), at);
    InPlaceConcat(CloseAll(open) + Originals(events), OpenAll(open), at);
  }

  lemma FromGap(gap: string, rest: seq<Piece>)
    ensures FromOriginal([Gap(gap)] + rest) == FromOriginal(rest)
    ensures FromHighlighted([Gap(gap)] + rest) == FromHighlighted(rest)
  {
    assert ([Gap(gap)] + rest)[1..] == rest;
  }

  /** Every event of either stream is written exactly once and in its stream's order. */
  lemma {:induction false} MergeKeepsEvents(e: seq<Event>, t: seq<Event>, at: nat, open: seq<Element>, text: string)
    ensures FromOriginal(Merge(e, t, at, open, text)) == e
    ensures FromHighlighted(Merge(e, t, at, open, text)) == t
    decreases |e| + |t|, 1
  {
    if e == [] && t == [] {
      assert [Gap(Rest(text, at))][1..] == [];
    } else if OriginalTurn(e, t) {
      OriginalTurnKeepsEvents(e, t, at, open, text);
    } else {
      HighlightedTurnKeepsEvents(e, t, at, open, text);
    }
  }

  lemma {:induction false} OriginalTurnKeepsEvents(e: seq<Event>, t: seq<Event>, at: nat, open: seq<Element>,
        text: string)
    requires OriginalTurn(e, t)
    ensures FromOriginal(Merge(e, t, at, open, text)) == e
    ensures FromHighlighted(Merge(e, t, at, open, text)) == t
    decreases |e| + |t|, 0
  {
    hide Merge, Batch, FromOriginal, FromHighlighted, Substring;
    var off := e[0].offset;
    var n := BatchSize(e, t, off);
    MergeTakesOriginal(e, t, at, open, text);
    MergeKeepsEvents(e[n..], t, off, open, text);
    BatchKeepsEvents(e[..n], open, Substring(text, at, off), Merge(e[n..], t, off, open, text));
    assert e[..n] + e[n..] == e;
  }

  lemma {:induction false} HighlightedTurnKeepsEvents(e: seq<Event>, t: seq<Event>, at: nat, open: seq<Element>,
        text: string)
    requires t != [] && !OriginalTurn(e, t)
    ensures FromOriginal(Merge(e, t, at, open, text)) == e
    ensures FromHighlighted(Merge(e, t, at, open, text)) == t
    decreases |e| + |t|, 0
  {
    hide Merge, FromOriginal, FromHighlighted, Substring, Step;
    var off := t[0].offset;
    MergeTakesHighlighted(e, t, at, open, text);
    MergeKeepsEvents(e, t[1..], off, Step(t[0], open), text);
    HighlightKeepsEvents(t[0], Substring(text, at, off), Merge(e, t[1..], off, Step(t[0], open), text));
    assert [t[0]] + t[1..] == t;
  }

  lemma BatchKeepsEvents(events: seq<Event>, open: seq<Element>, gap: string, rest: seq<Piece>)
    ensures var pieces := [Gap(gap)] + (Batch(events, open) + rest);
            FromOriginal(pieces) == events + FromOriginal(rest) && FromHighlighted(pieces) == FromHighlighted(rest)
  {
    BatchFacts(events, open, 0);
    FromConcat(Batch(events, open), rest);
    FromGap(gap, Batch(events, open) + rest);
  }

  lemma HighlightKeepsEvents(ev: Event, gap: string, rest: seq<Piece>)
    ensures var pieces := [Gap(gap)] + ([Highlighted(ev)] + rest);
            FromOriginal(pieces) == FromOriginal(rest) && FromHighlighted(pieces) == [ev] + FromHighlighted(rest)
  {
    FromGap(gap, [Highlighted(ev)] + rest);
    assert ([Highlighted(ev)] + rest)[1..] == rest;
  }

  /** Streams with sorted offsets inside the text are written in place. */
  lemma {:induction false} MergeInPlace(e: seq<Event>, t: seq<Event>, at: nat, open: seq<Element>, text: string)
    requires Sorted(e, at, |text|) && Sorted(t, at, |text|)
    ensures InPlace(Merge(e, t, at, open, text), at)
    decreases |e| + |t|
  {
    if e == [] && t == [] {
    } else if OriginalTurn(e, t) {
      hide Batch, NoGap;
      var off := e[0].offset;
      var n := BatchSize(e, t, off);
      var rest := Merge(e[n..], t, off, open, text);
      TurnIsEarliest(e, t, at, text);
      MergeInPlace(e[n..], t, off, open, text);
      BatchInPlace(e[..n], open, off);
      InPlaceConcat(Batch(e[..n], open), rest, off);
      GapInPlace(text, at, off, Batch(e[..n], open) + rest);
    } else {
      TurnIsEarliest(e, t, at, text);
      var off := t[0].offset;
      var rest := Merge(e, t[1..], off, Step(t[0], open), text);
      MergeInPlace(e, t[1..], off, Step(t[0], open), text);
      assert ([Highlighted(t[0])] + rest)[1..] == rest;
      GapInPlace(text, at, off, [Highlighted(t[0])] + rest);
    }
  }

  lemma GapInPlace(text: string, at: nat, off: nat, rest: seq<Piece>)
    requires at <= off <= |text| && InPlace(rest, off)
    ensures InPlace([Gap(Substring(text, at, off))] + rest, at)
  {
    assert ([Gap(Substring(text, at, off))] + rest)[1..] == rest;
  }

  /** Whichever stream is chosen, no event of either stream lies before the chosen one. */
  lemma TurnIsEarliest(e: seq<Event>, t: seq<Event>, at: nat, text: string)
    requires Sorted(e, at, |text|) && Sorted(t, at, |text|)
    requires e != [] || t != []
    ensures OriginalTurn(e, t) ==>
              var n := BatchSize(e, t, e[0].offset);
              at <= e[0].offset <= |text| && Sorted(e[n..], e[0].offset, |text|) && Sorted(t, e[0].offset, |text|)
    ensures !OriginalTurn(e, t) ==>
              t != [] && at <= t[0].offset <= |text| && Sorted(e, t[0].offset, |text|)
                  && Sorted(t[1..], t[0].offset, |text|)
  {
  }

  // ----- the meaning of the merged document -----

  /** What the DOM guarantees of names: no blank or `>` in them, no leading slash. */
  predicate PlainElement(el: Element) {
    && el.name != "" && el.name[0] != '/' && ' ' !in el.name && '>' !in el.name
    && forall a <- el.attributes :: '>' !in a.name
  }

  ghost predicate PlainEvents(events: seq<Event>) {
    forall ev <- events :: PlainElement(ev.el)
  }

  ghost predicate NoVoid(events: seq<Event>) {
    forall ev <- events :: !IsVoid(ev.el.name) && !LooksVoid(ev.el.name)
  }

  function Bodies(open: seq<Element>): seq<string> {
    seq(|open|, k requires 0 <= k < |open| => OpenBody(open[k]))
  }

  lemma BodyName(el: Element)
    requires PlainElement(el)
    ensures NameOf(OpenBody(el)) == el.name && !IsClose(OpenBody(el))
  {
    if el.attributes == [] {
      assert OpenBody(el) == el.name;
    } else {
      assert OpenBody(el)[..|el.name|] == el.name;
      FindFirst(OpenBody(el), |el.name|, ' ');
    }
  }

  lemma OpenOne(el: Element, stack: seq<string>)
    requires PlainElement(el)
    ensures Nest([OpenTag(el)], stack) == Some(if IsVoid(el.name) then stack else stack + [OpenBody(el)])
  {
    BodyName(el);
    hide IsVoid, NameOf, OpenBody;
    assert [OpenTag(el)][1..] == [];
  }

  lemma CloseOne(el: Element, last: Element, stack: seq<string>)
    requires PlainElement(last) && last.name == el.name
    ensures Nest([CloseTag(el)], stack + [OpenBody(last)]) == Some(stack)
  {
    BodyName(last);
    hide IsVoid, NameOf, OpenBody;
    var s := stack + [OpenBody(last)];
    assert s[..|s| - 1] == stack && s[|s| - 1] == OpenBody(last);
    assert ("/" + el.name)[1..] == el.name;
    assert [CloseTag(el)][1..] == [];
  }

  lemma BodiesSnoc(base: seq<string>, open: seq<Element>, el: Element)
    ensures base + Bodies(open) + [OpenBody(el)] == base + Bodies(open + [el])
  {
  }

  lemma BodiesCons(base: seq<string>, el: Element, open: seq<Element>)
    ensures base + [OpenBody(el)] + Bodies(open) == base + Bodies([el] + open)
  {
  }

  lemma NoBodies(base: seq<string>)
    ensures base + Bodies([]) == base
  {
  }

  /** One event moves the stack of open bodies as it moves the stack of open elements. */
  lemma EventNest(ev: Event, base: seq<string>, open: seq<Element>)
    requires PlainElement(ev.el) && forall el <- open :: PlainElement(el)
    requires WellNested([ev], open)
    ensures Nest([EventTag(ev)], base + Bodies(open)) == Some(base + Bodies(Apply(ev, open)))
  {
    hide Nest, IsVoid, OpenBody, PlainElement, Bodies;
    if ev.start {
      OpenOne(ev.el, base + Bodies(open));
      BodiesSnoc(base, open, ev.el);
    } else {
      var outer, last := open[..|open| - 1], open[|open| - 1];
      assert open == outer + [last];
      BodiesSnoc(base, outer, last);
      CloseOne(ev.el, last, base + Bodies(outer));
    }
  }

  lemma {:induction false} EventsNest(e: seq<Event>, open: seq<Element>)
    requires PlainEvents(e) && WellNested(e, open) && forall el <- open :: PlainElement(el)
    ensures Nest(Doc(Originals(e)), Bodies(open)) == Some(Bodies(After(e, open)))
    ensures forall el <- After(e, open) :: PlainElement(el)
    decreases |e|
  {
    if e != [] {
      hide Nest, IsVoid, PlainElement, Bodies;
      var open' := Apply(e[0], open);
      assert Originals(e)[1..] == Originals(e[1..]);
      assert WellNested([e[0]], open);
      EventNest(e[0], [], open);
      assert [] + Bodies(open) == Bodies(open) && [] + Bodies(open') == Bodies(open');
      EventsNest(e[1..], open');
      NestThen([EventTag(e[0])], Doc(Originals(e[1..])), Bodies(open), Bodies(open'), Bodies(After(e, open)));
    }
  }

  lemma {:induction false} CloseAllNest(base: seq<string>, open: seq<Element>)
    requires forall el <- open :: PlainElement(el)
    ensures Nest(Doc(CloseAll(open)), base + Bodies(open)) == Some(base)
  {
    if open == [] {
      NoBodies(base);
    } else {
      hide Nest, IsVoid, PlainElement, Bodies, OpenBody;
      var outer := open[..|open| - 1];
      var last := open[|open| - 1];
      assert open == outer + [last];
      assert CloseAll(open)[1..] == CloseAll(outer);
      BodiesSnoc(base, outer, last);
      CloseOne(last, last, base + Bodies(outer));
      CloseAllNest(base, outer);
      NestThen([CloseTag(last)], Doc(CloseAll(outer)), base + Bodies(open), base + Bodies(outer), base);
    }
  }

  lemma {:induction false} OpenAllNest(base: seq<string>, open: seq<Element>)
    requires forall el <- open :: PlainElement(el) && !IsVoid(el.name)
    ensures Nest(Doc(OpenAll(open)), base) == Some(base + Bodies(open))
    decreases |open|
  {
    if open == [] {
      NoBodies(base);
    } else {
      hide Nest, IsVoid, PlainElement, Bodies, OpenBody;
      var base' := base + [OpenBody(open[0])];
      assert OpenAll(open)[1..] == OpenAll(open[1..]) && open == [open[0]] + open[1..];
      OpenOne(open[0], base);
      OpenAllNest(base', open[1..]);
      BodiesCons(base, open[0], open[1..]);
      NestThen([OpenTag(open[0])], Doc(OpenAll(open[1..])), base, base', base + Bodies(open));
    }
  }

  // ----- contexts -----

  predicate TagsOnly(doc: seq<Token>) {
    forall k | 0 <= k < |doc| :: doc[k].Tag?
  }

  lemma {:induction false} ContextsAfter(a: seq<Token>, b: seq<Token>, open: seq<string>)
    requires Nest(a, open).Some?
    ensures Contexts(a + b, open) == Contexts(a, open) + Contexts(b, Nest(a, open).value)
    ensures TagsOnly(a) ==> Contexts(a + b, open) == Contexts(b, Nest(a, open).value)
    decreases |a|
  {
    if a == [] {
      assert a + b == b;
    } else {
      assert (a + b)[1..] == a[1..] + b;
      assert TagsOnly(a) ==> TagsOnly(a[1..]);
      match a[0]
      case Chr(c) =>
        ContextsAfter(a[1..], b, open);
        Associates([(c, open)], Contexts(a[1..], open), Contexts(b, Nest(a, open).value));
      case Tag(body) =>
        ContextsAfter(a[1..], b,
                      if IsClose(body) then open[..|open| - 1]
                      else if IsVoid(NameOf(body)) then open else open + [body]);
    }
  }

  function Same(text: string, open: seq<string>): seq<(char, seq<string>)> {
    seq(|text|, k requires 0 <= k < |text| => (text[k], open))
  }

  lemma {:induction false} ContextsChars(s: string, open: seq<string>)
    ensures Contexts(Chars(s), open) == Same(s, open)
  {
    if s != "" {
      assert Chars(s)[1..] == Chars(s[1..]);
      ContextsChars(s[1..], open);
    }
  }

  lemma {:induction false} ReopenTags(pieces: seq<Piece>)
    requires NoGap(pieces)
    ensures TagsOnly(Doc(pieces))
  {
    if pieces != [] {
      ReopenTags(pieces[1..]);
    }
  }

  /** What a character lies under: the original elements open there, then the highlighted ones. */
  function StackAt(e: seq<Event>, t: seq<Event>, p: nat, outer: seq<Element>, open: seq<Element>): seq<string> {
    Bodies(Under(e, p, outer)) + Bodies(Under(t, p, open))
  }

  ghost predicate ContextsFrom(shown: seq<(char, seq<string>)>, e: seq<Event>, t: seq<Event>, at: nat,
                               outer: seq<Element>, open: seq<Element>, text: string) {
    && at + |shown| == |text|
    && forall p | at <= p < |text| :: shown[p - at] == (text[p], StackAt(e, t, p, outer, open))
  }

  lemma StackBefore(e: seq<Event>, t: seq<Event>, p: nat, outer: seq<Element>, open: seq<Element>, off: nat, end: nat)
    requires Sorted(e, off, end) && Sorted(t, off, end) && p < off
    ensures StackAt(e, t, p, outer, open) == Bodies(outer) + Bodies(open)
  {
  }

  lemma StackAfter(e: seq<Event>, t: seq<Event>, p: nat, outer: seq<Element>, open: seq<Element>, n: nat, m: nat)
    requires n <= |e| && (forall k | 0 <= k < n :: e[k].offset <= p)
    requires m <= |t| && (forall k | 0 <= k < m :: t[k].offset <= p)
    ensures StackAt(e, t, p, outer, open) == StackAt(e[n..], t[m..], p, After(e[..n], outer), After(t[..m], open))
  {
    assert e[..n] + e[n..] == e && t[..m] + t[m..] == t;
    UnderConcat(e[..n], e[n..], p, outer);
    UnderConcat(t[..m], t[m..], p, open);
  }

  /** The gap before the next event lies under what is open now; after it the events have happened. */
  lemma ContextsSplit(rest: seq<(char, seq<string>)>, e: seq<Event>, t: seq<Event>, at: nat, outer: seq<Element>,
                      open: seq<Element>, text: string, off: nat, n: nat, m: nat)
    requires Sorted(e, off, |text|) && Sorted(t, off, |text|) && at <= off <= |text|
    requires n <= |e| && (forall k | 0 <= k < n :: e[k].offset == off)
    requires m <= |t| && (forall k | 0 <= k < m :: t[k].offset == off)
    requires ContextsFrom(rest, e[n..], t[m..], off, After(e[..n], outer), After(t[..m], open), text)
    ensures ContextsFrom(Same(text[at..off], Bodies(outer) + Bodies(open)) + rest, e, t, at, outer, open, text)
  {
    hide StackAt, Sorted, Bodies, After, Under;
    var first := Same(text[at..off], Bodies(outer) + Bodies(open));
    forall p | at <= p < |text|
      ensures (first + rest)[p - at] == (text[p], StackAt(e, t, p, outer, open))
    {
      if p < off {
        StackBefore(e, t, p, outer, open, off, |text|);
        assert (first + rest)[p - at] == first[p - at];
      } else {
        StackAfter(e, t, p, outer, open, n, m);
        assert (first + rest)[p - at] == rest[p - off];
      }
    }
  }

  ghost predicate Mergeable(e: seq<Event>, t: seq<Event>, at: nat, outer: seq<Element>, open: seq<Element>,
                            text: string) {
    && Sorted(e, at, |text|) && Sorted(t, at, |text|)
    && WellNested(e, outer) && WellNested(t, open)
    && PlainEvents(e) && PlainEvents(t) && NoVoid(t)
    && (forall el <- outer :: PlainElement(el))
    && (forall el <- open :: PlainElement(el) && !IsVoid(el.name))
  }

  /** The merged document from one state on: the stack it ends with and the context of every character. */
  ghost predicate Merged(doc: seq<Token>, e: seq<Event>, t: seq<Event>, at: nat, outer: seq<Element>,
                         open: seq<Element>, text: string)
    requires at <= |text|
  {
    var stack := Bodies(outer) + Bodies(open);
    && Nest(doc, stack) == Some(Bodies(After(e, outer)) + Bodies(After(t, open)))
    && ContextsFrom(Contexts(doc, stack), e, t, at, outer, open, text)
  }

  lemma {:induction false} MergeContexts(e: seq<Event>, t: seq<Event>, at: nat, outer: seq<Element>,
                                         open: seq<Element>, text: string)
    requires at <= |text| && Mergeable(e, t, at, outer, open, text)
    ensures Merged(Doc(Merge(e, t, at, open, text)), e, t, at, outer, open, text)
    decreases |e| + |t|
  {
    if e == [] && t == [] {
      EndContexts(at, outer, open, text);
    } else {
      TurnIsEarliest(e, t, at, text);
      if OriginalTurn(e, t) {
        var off := e[0].offset;
        var n := BatchSize(e, t, off);
        OriginalKeepsMergeable(e, t, at, outer, open, text, n);
        MergeContexts(e[n..], t, off, After(e[..n], outer), open, text);
        OriginalContexts(e, t, at, outer, open, text, n, Merge(e[n..], t, off, open, text));
      } else {
        HighlightedKeepsMergeable(e, t, at, outer, open, text);
        MergeContexts(e, t[1..], t[0].offset, outer, Step(t[0], open), text);
        HighlightedContexts(e, t, at, outer, open, text, Merge(e, t[1..], t[0].offset, Step(t[0], open), text));
      }
    }
  }

  lemma EndContexts(at: nat, outer: seq<Element>, open: seq<Element>, text: string)
    requires at <= |text|
    ensures Merged(Doc([Gap(Rest(text, at))]), [], [], at, outer, open, text)
  {
    hide Nest, Contexts, Bodies;
    var stack := Bodies(outer) + Bodies(open);
    assert [Gap(Rest(text, at))][1..] == [];
    assert Doc([Gap(Rest(text, at))]) == Chars(text[at..]) + [] == Chars(text[at..]);
    NestChars(text[at..], stack);
    ContextsChars(text[at..], stack);
  }

  lemma OriginalKeepsMergeable(e: seq<Event>, t: seq<Event>, at: nat, outer: seq<Element>, open: seq<Element>,
                               text: string, n: nat)
    requires Mergeable(e, t, at, outer, open, text) && OriginalTurn(e, t) && n == BatchSize(e, t, e[0].offset)
    requires Sorted(e[n..], e[0].offset, |text|) && Sorted(t, e[0].offset, |text|)
    ensures Mergeable(e[n..], t, e[0].offset, After(e[..n], outer), open, text)
    ensures WellNested(e[..n], outer) && PlainEvents(e[..n])
    ensures After(e, outer) == After(e[n..], After(e[..n], outer))
  {
    assert e[..n] + e[n..] == e;
    AfterConcat(e[..n], e[n..], outer);
    EventsNest(e[..n], outer);
  }

  lemma HighlightedKeepsMergeable(e: seq<Event>, t: seq<Event>, at: nat, outer: seq<Element>, open: seq<Element>,
                                  text: string)
    requires Mergeable(e, t, at, outer, open, text) && t != []
    requires Sorted(e, t[0].offset, |text|) && Sorted(t[1..], t[0].offset, |text|)
    ensures Step(t[0], open) == Apply(t[0], open)
    ensures Mergeable(e, t[1..], t[0].offset, outer, Step(t[0], open), text)
  {
  }

  lemma OriginalContexts(e: seq<Event>, t: seq<Event>, at: nat, outer: seq<Element>, open: seq<Element>, text: string,
                         n: nat, rest: seq<Piece>)
    requires Mergeable(e, t, at, outer, open, text) && 1 <= n <= |e| && at <= e[0].offset <= |text|
    requires forall k | 0 <= k < n :: e[k].offset == e[0].offset
    requires Sorted(t, e[0].offset, |text|)
    requires WellNested(e[..n], outer) && PlainEvents(e[..n])
    requires After(e, outer) == After(e[n..], After(e[..n], outer))
    requires Merged(Doc(rest), e[n..], t, e[0].offset, After(e[..n], outer), open, text)
    ensures Merged(Doc([Gap(Substring(text, at, e[0].offset))] + (Batch(e[..n], open) + rest)), e, t, at, outer,
                   open, text)
  {
    hide Nest, Contexts, IsVoid, PlainElement, StackAt, Batch, Bodies;
    var off := e[0].offset;
    var stack := Bodies(outer) + Bodies(open);
    var outer' := After(e[..n], outer);
    BatchNest(e[..n], outer, open);
    GapThen(text[at..off], Doc(Batch(e[..n], open)), Doc(rest), stack, Bodies(outer') + Bodies(open));
    DocConcat(Batch(e[..n], open), rest);
    GapDoc(text, at, off, Batch(e[..n], open) + rest);
    Associates(Chars(text[at..off]), Doc(Batch(e[..n], open)), Doc(rest));
    assert t[0..] == t && After(t[..0], open) == open;
    ContextsSplit(Contexts(Doc(rest), Bodies(outer') + Bodies(open)), e, t, at, outer, open, text, off, n, 0);
  }

  lemma BatchNest(events: seq<Event>, outer: seq<Element>, open: seq<Element>)
    requires WellNested(events, outer) && PlainEvents(events)
    requires forall el <- outer :: PlainElement(el)
    requires forall el <- open :: PlainElement(el) && !IsVoid(el.name)
    ensures Nest(Doc(Batch(events, open)), Bodies(outer) + Bodies(open))
            == Some(Bodies(After(events, outer)) + Bodies(open))
    ensures TagsOnly(Doc(Batch(events, open)))
  {
    var outer' := After(events, outer);
    var a, b, c := Doc(CloseAll(open)), Doc(Originals(events)), Doc(OpenAll(open));
    CloseAllNest(Bodies(outer), open);
    EventsNest(events, outer);
    OpenAllNest(Bodies(outer'), open);
    assert NoGap(Batch(events, open));
    ReopenTags(Batch(events, open));
    hide Nest, IsVoid, PlainElement, Bodies, Doc;
    NestThen(a, b, Bodies(outer) + Bodies(open), Bodies(outer), Bodies(outer'));
    NestThen(a + b, c, Bodies(outer) + Bodies(open), Bodies(outer'), Bodies(outer') + Bodies(open));
    DocConcat(CloseAll(open), Originals(events));
    DocConcat(CloseAll(open) + Originals(events), OpenAll(open));
  }

  lemma GapDoc(text: string, at: nat, off: nat, rest: seq<Piece>)
    requires at <= off <= |text|
    ensures Doc([Gap(Substring(text, at, off))] + rest) == Chars(text[at..off]) + Doc(rest)
  {
    assert ([Gap(Substring(text, at, off))] + rest)[1..] == rest;
  }

  lemma HighlightedContexts(e: seq<Event>, t: seq<Event>, at: nat, outer: seq<Element>, open: seq<Element>,
                            text: string, rest: seq<Piece>)
    requires Mergeable(e, t, at, outer, open, text) && t != [] && at <= t[0].offset <= |text|
    requires Sorted(e, t[0].offset, |text|)
    requires Step(t[0], open) == Apply(t[0], open)
    requires Merged(Doc(rest), e, t[1..], t[0].offset, outer, Step(t[0], open), text)
    ensures Merged(Doc([Gap(Substring(text, at, t[0].offset))] + ([Highlighted(t[0])] + rest)), e, t, at, outer,
                   open, text)
  {
    hide Nest, Contexts, IsVoid, PlainElement, StackAt, Bodies;
    var off := t[0].offset;
    var stack := Bodies(outer) + Bodies(open);
    assert WellNested([t[0]], open);
    EventNest(t[0], Bodies(outer), open);
    GapThen(text[at..off], [EventTag(t[0])], Doc(rest), stack, Bodies(outer) + Bodies(Apply(t[0], open)));
    assert ([Highlighted(t[0])] + rest)[1..] == rest;
    GapDoc(text, at, off, [Highlighted(t[0])] + rest);
    Associates(Chars(text[at..off]), [EventTag(t[0])], Doc(rest));
    assert e[0..] == e && After(e[..0], outer) == outer;
    assert After(t[..1], open) == Apply(t[0], open) by {
      assert t[..1][1..] == [];
    }
    ContextsSplit(Contexts(Doc(rest), Bodies(outer) + Bodies(Apply(t[0], open))), e, t, at, outer, open, text,
                  off, 0, 1);
  }

  lemma GapThen(gap: string, tags: seq<Token>, rest: seq<Token>, stack: seq<string>, stack': seq<string>)
    requires Nest(tags, stack) == Some(stack') && TagsOnly(tags)
    ensures Nest(Chars(gap) + tags + rest, stack) == Nest(rest, stack')
    ensures Contexts(Chars(gap) + tags + rest, stack) == Same(gap, stack) + Contexts(rest, stack')
  {
    NestChars(gap, stack);
    NestConcat(Chars(gap), tags + rest, stack);
    NestConcat(tags, rest, stack);
    Associates(Chars(gap), tags, rest);
    ContextsAfter(Chars(gap), tags + rest, stack);
    ContextsAfter(tags, rest, stack);
    ContextsChars(gap, stack);
  }

  // ----- the loops of the source -----

  function Written(pieces: seq<Piece>): string {
    Render(Doc(pieces))
  }

  lemma WrittenConcat(a: seq<Piece>, b: seq<Piece>)
    ensures Written(a + b) == Written(a) + Written(b)
  {
    DocConcat(a, b);
    RenderConcat(Doc(a), Doc(b));
  }

  /** `c`: an opening tag, written attribute by attribute. */
  method OpenText(el: Element) returns (n: string)
    ensures n == "<" + OpenBody(el) + ">"
  {
    var attributes := "";
    var k := |el.attributes|;
    while k > 0
      invariant 0 <= k <= |el.attributes|
      invariant attributes == AttributeText(el.attributes[k..])
    {
      k := k - 1;
      assert el.attributes[k..][1..] == el.attributes[k + 1..];
      attributes := " " + el.attributes[k].name + "=\"" + QuoteFirst(Escape(el.attributes[k].value)) + "\""
          + attributes;
    }
    n := "<" + el.name + attributes + ">";
  }

  /** The merge loop: two queues that are consumed from the front, a stack of open elements. */
  method MergeText(original: seq<Event>, highlighted: seq<Event>, text: string) returns (n: string)
    ensures n == Written(Merge(original, highlighted, 0, [], text))
  {
    hide Merge, Written, Batch, OriginalTurn, BatchSize;
    var e, t := original, highlighted;
    var at: nat := 0;
    var open: seq<Element> := [];
    n := "";
    ghost var whole := Written(Merge(original, highlighted, 0, [], text));
    assert "" + whole == whole;
    while e != [] || t != []
      invariant whole == n + Written(Merge(e, t, at, open, text))
      decreases |e| + |t|
    {
      MergeUnfolds(e, t, at, open, text, n);
      if OriginalTurn(e, t) {
        assert e != [] by { TurnNonempty(e, t); }
        n := n + Escape(Substring(text, at, e[0].offset));
        at := e[0].offset;
        ghost var size := BatchSize(e, t, at);
        n := WriteCloses(n, open);
        n, e := WriteBatch(n, e, t, at);
        n := WriteOpens(n, open);
      } else {
        assert t != [] by { TurnNonempty(e, t); }
        var ev := t[0];
        n := n + Escape(Substring(text, at, ev.offset));
        at := ev.offset;
        if ev.start {
          open := open + [ev.el];
        } else if open != [] {
          open := open[..|open| - 1];
        }
        var tag := EventText(ev);
        n := n + tag;
        t := t[1..];
      }
    }
    MergeFinishes(at, open, text);
    n := n + Escape(Rest(text, at));
  }

  lemma TurnNonempty(e: seq<Event>, t: seq<Event>)
    requires e != [] || t != []
    ensures OriginalTurn(e, t) ==> e != []
    ensures !OriginalTurn(e, t) ==> t != []
  {
  }

  /** `l`: one event's tag. */
  method EventText(ev: Event) returns (s: string)
    ensures s == RenderToken(EventTag(ev))
  {
    if ev.start {
      s := OpenText(ev.el);
    } else {
      s := "</" + ev.el.name + ">";
    }
  }

  method WriteCloses(before: string, open: seq<Element>) returns (n: string)
    ensures n == before + Written(CloseAll(open))
  {
    hide Written;
    n := before;
    var k := 0;
    NothingWritten(before);
    assert CloseAll(open)[..0] == [];
    while k < |open|
      invariant 0 <= k <= |open|
      invariant n == before + Written(CloseAll(open)[..k])
    {
      var el := open[|open| - 1 - k];
      assert CloseAll(open)[..k + 1] == CloseAll(open)[..k] + [CloseAgain(el)];
      WrittenSnoc(before, CloseAll(open)[..k], CloseAgain(el), CloseTag(el));
      n := n + ("</" + el.name + ">");
      k := k + 1;
    }
    assert CloseAll(open)[..|open|] == CloseAll(open);
  }

  method WriteOpens(before: string, open: seq<Element>) returns (n: string)
    ensures n == before + Written(OpenAll(open))
  {
    hide Written;
    n := before;
    var k := 0;
    NothingWritten(before);
    assert OpenAll(open)[..0] == [];
    while k < |open|
      invariant 0 <= k <= |open|
      invariant n == before + Written(OpenAll(open)[..k])
    {
      assert OpenAll(open)[..k + 1] == OpenAll(open)[..k] + [OpenAgain(open[k])];
      WrittenSnoc(before, OpenAll(open)[..k], OpenAgain(open[k]), OpenTag(open[k]));
      var tag := OpenText(open[k]);
      n := n + tag;
      k := k + 1;
    }
    assert OpenAll(open)[..|open|] == OpenAll(open);
  }

  /** The do-while loop over the original events at one offset. */
  method WriteBatch(before: string, events: seq<Event>, t: seq<Event>, at: nat) returns (n: string, e: seq<Event>)
    requires OriginalTurn(events, t) && events[0].offset == at
    ensures e == events[BatchSize(events, t, at)..]
    ensures n == before + Written(Originals(events[..BatchSize(events, t, at)]))
  {
    hide Written;
    ghost var size := BatchSize(events, t, at);
    n, e := before, events;
    var again := true;
    ghost var k := 0;
    NothingWritten(before);
    assert Originals(events[..0]) == [];
    while again
      invariant k <= size && e == events[k..]
      invariant again ==> OriginalTurn(e, t) && e[0].offset == at && k + BatchSize(e, t, at) == size
      invariant !again ==> k == size
      invariant n == before + Written(Originals(events[..k]))
      decreases |e|, again
    {
      var tag := EventText(e[0]);
      assert Originals(events[..k + 1]) == Originals(events[..k]) + [Original(events[k])];
      WrittenSnoc(before, Originals(events[..k]), Original(events[k]), EventTag(events[k]));
      n := n + tag;
      assert events[k..][1..] == events[k + 1..];
      e := e[1..];
      k := k + 1;
      again := OriginalTurn(e, t) && e[0].offset == at;
    }
  }

  lemma NothingWritten(before: string)
    ensures before + Written([]) == before
  {
  }

  lemma OneWritten(p: Piece, tag: Token)
    requires PieceDoc(p) == [tag]
    ensures Written([p]) == RenderToken(tag)
  {
    assert [p][1..] == [] && [tag][1..] == [];
    assert Doc([p]) == [tag] + [] == [tag];
    assert Render([tag]) == RenderToken(tag) + Render([]) && Render([]) == "";
    assert Written([p]) == RenderToken(tag) + "" == RenderToken(tag);
  }

  lemma WrittenSnoc(before: string, pieces: seq<Piece>, p: Piece, tag: Token)
    requires PieceDoc(p) == [tag]
    ensures before + Written(pieces + [p]) == before + Written(pieces) + RenderToken(tag)
  {
    OneWritten(p, tag);
    WrittenConcat(pieces, [p]);
    Associates(before, Written(pieces), RenderToken(tag));
  }

  lemma GapWritten(gap: string, rest: seq<Piece>)
    ensures Written([Gap(gap)] + rest) == Escape(gap) + Written(rest)
  {
    WrittenConcat([Gap(gap)], rest);
    assert [Gap(gap)][1..] == [];
    assert Doc([Gap(gap)]) == Chars(gap) + [] == Chars(gap);
    RenderChars(gap);
  }

  lemma MergeFinishes(at: nat, open: seq<Element>, text: string)
    ensures Written(Merge([], [], at, open, text)) == Escape(Rest(text, at))
  {
    GapWritten(Rest(text, at), []);
    assert [Gap(Rest(text, at))] + [] == [Gap(Rest(text, at))];
    assert Escape(Rest(text, at)) + "" == Escape(Rest(text, at));
  }

  /** One turn of the loop, as text after `n`. */
  lemma MergeUnfolds(e: seq<Event>, t: seq<Event>, at: nat, open: seq<Element>, text: string, n: string)
    requires e != [] || t != []
    ensures OriginalTurn(e, t) ==>
              var off := e[0].offset;
              var k := BatchSize(e, t, off);
              n + Written(Merge(e, t, at, open, text))
              == n + Escape(Substring(text, at, off)) + Written(CloseAll(open)) + Written(Originals(e[..k]))
                  + Written(OpenAll(open))
                 + Written(Merge(e[k..], t, off, open, text))
    ensures !OriginalTurn(e, t) ==>
              var off := t[0].offset;
              n + Written(Merge(e, t, at, open, text))
              == n + Escape(Substring(text, at, off)) + RenderToken(EventTag(t[0]))
                 + Written(Merge(e, t[1..], off, Step(t[0], open), text))
  {
    hide Written, Escape, Substring, Merge, Batch, BatchSize;
    if OriginalTurn(e, t) {
      var off := e[0].offset;
      var k := BatchSize(e, t, off);
      var rest := Merge(e[k..], t, off, open, text);
      MergeTakesOriginal(e, t, at, open, text);
      GapWritten(Substring(text, at, off), Batch(e[..k], open) + rest);
      BatchWritten(e[..k], open, rest);
      Regroup(n, Escape(Substring(text, at, off)), Written(CloseAll(open)), Written(Originals(e[..k])),
              Written(OpenAll(open)), Written(rest));
    } else {
      var off := t[0].offset;
      var rest := Merge(e, t[1..], off, Step(t[0], open), text);
      MergeTakesHighlighted(e, t, at, open, text);
      GapWritten(Substring(text, at, off), [Highlighted(t[0])] + rest);
      OneWritten(Highlighted(t[0]), EventTag(t[0]));
      WrittenConcat([Highlighted(t[0])], rest);
      Regroup(n, Escape(Substring(text, at, off)), RenderToken(EventTag(t[0])), "", "", Written(rest));
    }
  }

  lemma Regroup(n: string, a: string, b: string, c: string, d: string, r: string)
    ensures n + (a + (b + c + d + r)) == n + a + b + c + d + r
    ensures c == d == "" ==> n + (a + (b + r)) == n + a + b + r
  {
  }

  lemma BatchWritten(events: seq<Event>, open: seq<Element>, rest: seq<Piece>)
    ensures Written(Batch(events, open) + rest)
         == Written(CloseAll(open)) + Written(Originals(events)) + Written(OpenAll(open)) + Written(rest)
  {
    hide Written;
    WrittenConcat(Batch(events, open), rest);
    WrittenConcat(CloseAll(open) + Originals(events), OpenAll(open));
    WrittenConcat(CloseAll(open), Originals(events));
  }
}

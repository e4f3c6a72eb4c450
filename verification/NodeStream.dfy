/** The flat event stream of a DOM tree, and what it says about each character. */
module NodeStream {
  import opened Wrappers
  import opened Markup

  datatype Attribute = Attribute(name: string, value: string)

  datatype Element = Element(name: string, attributes: seq<Attribute>)

  /** Sibling lists, linked as in the DOM: a node, its first child, its next sibling. */
  datatype Forest =
    | Leaf
    | TextNode(text: string, next: Forest)
    | ElementNode(el: Element, children: Forest, next: Forest)
    | OtherNode(next: Forest)

  datatype Event = Event(start: bool, offset: nat, el: Element)

  function Content(f: Forest): string {
    match f
    case Leaf => ""
    case TextNode(text, next) => text + Content(next)
    case ElementNode(_, children, next) => Content(children) + Content(next)
    case OtherNode(next) => Content(next)
  }

  /** Every character of a forest with the elements it lies under. Void elements are transparent. */
  function Ancestors(f: Forest, open: seq<Element>): seq<(char, seq<Element>)> {
    match f
    case Leaf => []
    case TextNode(text, next) => seq(|text|, i requires 0 <= i < |text| => (text[i], open)) + Ancestors(next, open)
    case ElementNode(el, children, next) =>
      Ancestors(children, if IsVoid(el.name) then open else open + [el]) + Ancestors(next, open)
    case OtherNode(next) => Ancestors(next, open)
  }

  /** The source's test is right about every element. */
  predicate JudgedForest(f: Forest) {
    match f
    case Leaf => true
    case TextNode(_, next) => JudgedForest(next)
    case ElementNode(el, children, next) => Judged(el.name) && JudgedForest(children) && JudgedForest(next)
    case OtherNode(next) => JudgedForest(next)
  }

  // ----- the stream -----

  function Stream(f: Forest, at: nat): seq<Event> {
    match f
    case Leaf => []
    case TextNode(text, next) => Stream(next, at + |text|)
    case ElementNode(el, children, next) =>
      var after := at + |Content(children)|;
      Bracket(el, at, Stream(children, at), after) + Stream(next, after)
    case OtherNode(next) => Stream(next, at)
  }

  /** The stream of one element around the stream of its children. */
  function Bracket(el: Element, at: nat, inner: seq<Event>, after: nat): seq<Event> {
    [Event(true, at, el)] + inner + if LooksVoid(el.name) then [] else [Event(false, after, el)]
  }

  /** `_`: the recursive walk that pushes events and returns the offset it reached. */
  method Walk(f: Forest, at: nat, events: seq<Event>) returns (out: seq<Event>, end: nat)
    ensures out == events + Stream(f, at)
    ensures end == at + |Content(f)|
    decreases f
  {
    hide IsVoid, LooksVoid;
    var node := f;
    out, end := events, at;
    assert Stream(f, at) == [] + Stream(node, end);
    ghost var pushed: seq<Event> := [];
    while node != Leaf
      invariant node == f || node < f
      invariant Stream(f, at) == pushed + Stream(node, end)
      invariant out == events + pushed
      invariant end + |Content(node)| == at + |Content(f)|
      decreases node
    {
      match node
      case TextNode(text, next) =>
        end := end + |text|;
        node := next;
      case ElementNode(el, children, next) =>
        ghost var begun := end;
        ghost var before := out;
        out := out + [Event(true, end, el)];
        out, end := Walk(children, end, out);
        if !LooksVoid(el.name) {
          out := out + [Event(false, end, el)];
        }
        ghost var bracket := Bracket(el, begun, Stream(children, begun), end);
        assert out == before + bracket;
        Associates(events, pushed, bracket);
        Associates(pushed, bracket, Stream(next, end));
        pushed := pushed + bracket;
        node := next;
      case OtherNode(next) =>
        node := next;
    }
  }

  // ----- reading a stream -----

  function Apply(ev: Event, open: seq<Element>): seq<Element> {
    if ev.start then (if IsVoid(ev.el.name) then open else open + [ev.el])
    else if open == [] then open
    else open[..|open| - 1]
  }

  function After(events: seq<Event>, open: seq<Element>): seq<Element> {
    if events == [] then open else After(events[1..], Apply(events[0], open))
  }

  /** The elements open at character `k`: those of the events at or before it. */
  function Under(events: seq<Event>, k: nat, open: seq<Element>): seq<Element> {
    if events == [] || events[0].offset > k then open else Under(events[1..], k, Apply(events[0], open))
  }

  /** Every stop event names the innermost open element. */
  predicate WellNested(events: seq<Event>, open: seq<Element>) {
    events == [] ||
    ((!events[0].start ==> open != [] && open[|open| - 1].name == events[0].el.name)
     && WellNested(events[1..], Apply(events[0], open)))
  }

  ghost predicate Sorted(events: seq<Event>, lo: nat, hi: nat) {
    && lo <= hi
    && (forall i | 0 <= i < |events| :: lo <= events[i].offset <= hi)
    && (forall i, j | 0 <= i < j < |events| :: events[i].offset <= events[j].offset)
  }

  // ----- properties of the stream of a forest -----

  lemma SortedConcat(a: seq<Event>, b: seq<Event>, lo: nat, mid: nat, hi: nat)
    requires Sorted(a, lo, mid) && Sorted(b, mid, hi)
    ensures Sorted(a + b, lo, hi)
  {
  }

  lemma SortedFrom(events: seq<Event>, lo: nat, mid: nat, hi: nat)
    requires lo <= mid && Sorted(events, mid, hi)
    ensures Sorted(events, lo, hi)
  {
  }

  /** Offsets never decrease and stay between the start offset and the end of the text. */
  lemma {:induction false} StreamSorted(f: Forest, at: nat)
    ensures Sorted(Stream(f, at), at, at + |Content(f)|)
  {
    if f.Leaf? {
    } else {
      hide Sorted, Bracket, IsVoid, LooksVoid;
      match f
      case TextNode(text, next) =>
        StreamSorted(next, at + |text|);
        SortedFrom(Stream(next, at + |text|), at, at + |text|, at + |Content(f)|);
      case OtherNode(next) => StreamSorted(next, at);
      case ElementNode(el, children, next) =>
        var after := at + |Content(children)|;
        StreamSorted(children, at);
        StreamSorted(next, after);
        BracketSorted(el, at, Stream(children, at), after);
        SortedConcat(Bracket(el, at, Stream(children, at), after), Stream(next, after), at, after, at + |Content(f)|);
    }
  }

  lemma BracketSorted(el: Element, at: nat, inner: seq<Event>, after: nat)
    requires Sorted(inner, at, after)
    ensures Sorted(Bracket(el, at, inner, after), at, after)
  {
    hide LooksVoid;
    var stop := if LooksVoid(el.name) then [] else [Event(false, after, el)];
    SortedConcat([Event(true, at, el)], inner, at, at, after);
    SortedConcat([Event(true, at, el)] + inner, stop, at, after, after);
  }

  lemma {:induction false} AfterConcat(a: seq<Event>, b: seq<Event>, open: seq<Element>)
    ensures After(a + b, open) == After(b, After(a, open))
    ensures WellNested(a + b, open) <==> WellNested(a, open) && WellNested(b, After(a, open))
    decreases |a|
  {
    if a == [] {
      assert a + b == b;
    } else {
      assert (a + b)[1..] == a[1..] + b;
      AfterConcat(a[1..], b, Apply(a[0], open));
    }
  }

  /** The stream of a rightly judged forest closes what it opens, in order. */
  lemma {:induction false} StreamWellNested(f: Forest, at: nat, open: seq<Element>)
    requires JudgedForest(f)
    ensures WellNested(Stream(f, at), open)
    ensures After(Stream(f, at), open) == open
    decreases f
  {
    match f
    case Leaf =>
    case TextNode(text, next) => StreamWellNested(next, at + |text|, open);
    case OtherNode(next) => StreamWellNested(next, at, open);
    case ElementNode(el, children, next) =>
      var after := at + |Content(children)|;
      StreamWellNested(children, at, Apply(Event(true, at, el), open));
      StreamWellNested(next, after, open);
      BracketNeutral(el, at, Stream(children, at), after, open);
      AfterConcat(Bracket(el, at, Stream(children, at), after), Stream(next, after), open);
  }

  lemma BracketNeutral(el: Element, at: nat, inner: seq<Event>, after: nat, open: seq<Element>)
    requires Judged(el.name)
    requires var open' := Apply(Event(true, at, el), open);
             WellNested(inner, open') && After(inner, open') == open'
    ensures WellNested(Bracket(el, at, inner, after), open) && After(Bracket(el, at, inner, after), open) == open
  {
    var start := [Event(true, at, el)];
    var stop := if LooksVoid(el.name) then [] else [Event(false, after, el)];
    var open' := Apply(start[0], open);
    assert After(start, open) == After([], open') == open' && WellNested(start, open);
    hide LooksVoid, IsVoid;
    if !IsVoid(el.name) {
      assert open'[..|open'| - 1] == open;
      assert After(stop, open') == After([], open) == open;
    }
    AfterConcat(start, inner, open);
    AfterConcat(start + inner, stop, open);
  }

  lemma {:induction false} UnderConcat(a: seq<Event>, b: seq<Event>, k: nat, open: seq<Element>)
    ensures (forall i | 0 <= i < |a| :: a[i].offset <= k) ==> Under(a + b, k, open) == Under(b, k, After(a, open))
    ensures (forall i | 0 <= i < |b| :: b[i].offset > k) ==> Under(a + b, k, open) == Under(a, k, open)
    decreases |a|
  {
    if a == [] {
      assert a + b == b;
    } else {
      assert (a + b)[1..] == a[1..] + b;
      UnderConcat(a[1..], b, k, Apply(a[0], open));
    }
  }

  lemma AncestorsLength(f: Forest, open: seq<Element>)
    ensures |Ancestors(f, open)| == |Content(f)|
  {
  }

  /** Each character lies, in the stream, under exactly its ancestors in the tree. */
  lemma {:induction false} StreamGivesAncestors(f: Forest, at: nat, open: seq<Element>, k: nat)
    requires k < |Content(f)| && JudgedForest(f)
    ensures |Ancestors(f, open)| == |Content(f)|
    ensures Ancestors(f, open)[k] == (Content(f)[k], Under(Stream(f, at), at + k, open))
    decreases f
  {
    hide Under, Sorted, WellNested, After, Bracket, IsVoid, LooksVoid;
    AncestorsLength(f, open);
    match f
    case TextNode(text, next) =>
      if k < |text| {
        NoneYet(next, at + |text|, at + k, open);
      } else {
        StreamGivesAncestors(next, at + |text|, open, k - |text|);
      }
    case OtherNode(next) => StreamGivesAncestors(next, at, open, k);
    case ElementNode(el, children, next) =>
      var inside := |Content(children)|;
      var after := at + inside;
      var inner := Apply(Event(true, at, el), open);
      AncestorsLength(children, inner);
      StreamSorted(children, at);
      StreamSorted(next, after);
      StreamWellNested(children, at, inner);
      UnderElement(el, at, Stream(children, at), after, Stream(next, after), at + |Content(f)|, at + k, open);
      if k < inside {
        StreamGivesAncestors(children, at, inner, k);
      } else {
        StreamGivesAncestors(next, after, open, k - inside);
      }
  }

  /** Inside an element its children decide, after it the next siblings do. */
  lemma UnderElement(el: Element, at: nat, inner: seq<Event>, after: nat, next: seq<Event>, end: nat, k: nat,
                     open: seq<Element>)
    requires at <= k && at <= after && Judged(el.name)
    requires Sorted(inner, at, after) && Sorted(next, after, end)
    requires var open' := Apply(Event(true, at, el), open);
             WellNested(inner, open') && After(inner, open') == open'
    ensures var all := Bracket(el, at, inner, after) + next;
            && (k < after ==> Under(all, k, open) == Under(inner, k, Apply(Event(true, at, el), open)))
            && (k >= after ==> Under(all, k, open) == Under(next, k, open))
  {
    var start := [Event(true, at, el)];
    var stop := if LooksVoid(el.name) then [] else [Event(false, after, el)];
    var open' := Apply(start[0], open);
    UnderConcat(Bracket(el, at, inner, after), next, k, open);
    if k < after {
      assert After(start, open) == After([], open') == open';
      UnderConcat(start + inner, stop, k, open);
      UnderConcat(start, inner, k, open);
    } else {
      BracketSorted(el, at, inner, after);
      BracketNeutral(el, at, inner, after, open);
    }
  }

  lemma NoneYet(f: Forest, at: nat, k: nat, open: seq<Element>)
    requires k < at
    ensures Under(Stream(f, at), k, open) == open
  {
    StreamSorted(f, at);
  }

  // ----- when the stream closes what it opens -----

  function StuckIn(open: seq<Element>): nat {
    if open == [] then 0 else StuckIn(open[..|open| - 1]) + if Stuck(open[|open| - 1].name) then 1 else 0
  }

  function StuckStarts(events: seq<Event>): nat {
    if events == [] then 0
    else (if events[0].start && Stuck(events[0].el.name) then 1 else 0) + StuckStarts(events[1..])
  }

  /** The stops of a stream only name elements that the source does not take for void. */
  predicate StopsJudged(events: seq<Event>) {
    forall ev <- events :: !ev.start ==> !LooksVoid(ev.el.name)
  }

  /** What is stuck stays open. */
  lemma {:induction false} StuckStays(events: seq<Event>, open: seq<Element>)
    requires StopsJudged(events) && WellNested(events, open)
    ensures StuckIn(After(events, open)) == StuckIn(open) + StuckStarts(events)
    decreases |events|
  {
    hide Stuck, LooksVoid, IsVoid, Apply, StuckIn;
    if events != [] {
      assert events[0] in events;
      assert WellNested(events[1..], Apply(events[0], open));
      StuckStays(events[1..], Apply(events[0], open));
      StuckStep(events[0], open);
    }
  }

  lemma StuckStep(ev: Event, open: seq<Element>)
    requires !ev.start ==> open != [] && open[|open| - 1].name == ev.el.name && !LooksVoid(ev.el.name)
    ensures StuckIn(Apply(ev, open)) == StuckIn(open) + if ev.start && Stuck(ev.el.name) then 1 else 0
  {
    hide LooksVoid, IsVoid;
    assert (open + [ev.el])[..|open|] == open;
  }

  /** A stop that names a void element closes nothing. */
  lemma {:induction false} StrayStop(events: seq<Event>, open: seq<Element>, k: nat)
    requires k < |events| && !events[k].start && IsVoid(events[k].el.name)
    requires forall el <- open :: !IsVoid(el.name)
    ensures !WellNested(events, open)
    decreases |events|
  {
    hide LooksVoid, IsVoid;
    if k > 0 {
      StrayStop(events[1..], Apply(events[0], open), k - 1);
    }
  }

  /** A misjudged element shows in the stream: stuck, or stopped although it is void. */
  ghost predicate Misjudges(events: seq<Event>) {
    StuckStarts(events) > 0 || exists k :: 0 <= k < |events| && !events[k].start && IsVoid(events[k].el.name)
  }

  lemma {:induction false} StuckStartsConcat(a: seq<Event>, b: seq<Event>)
    ensures StuckStarts(a + b) == StuckStarts(a) + StuckStarts(b)
  {
    hide Stuck;
    if a == [] {
      assert a + b == b;
    } else {
      assert (a + b)[1..] == a[1..] + b;
      StuckStartsConcat(a[1..], b);
    }
  }

  lemma MisjudgesConcat(a: seq<Event>, b: seq<Event>)
    ensures Misjudges(a + b) <==> Misjudges(a) || Misjudges(b)
  {
    hide StuckStarts, IsVoid;
    StuckStartsConcat(a, b);
    forall k | 0 <= k < |a| ensures (a + b)[k] == a[k] {}
    forall k | 0 <= k < |b| ensures (a + b)[|a| + k] == b[k] {}
  }

  lemma {:induction false} StreamMisjudges(f: Forest, at: nat)
    ensures StopsJudged(Stream(f, at))
    ensures Misjudges(Stream(f, at)) <==> !JudgedForest(f)
  {
    hide Misjudges, LooksVoid, IsVoid;
    match f
    case Leaf => NoneMisjudged();
    case TextNode(text, next) => StreamMisjudges(next, at + |text|);
    case OtherNode(next) => StreamMisjudges(next, at);
    case ElementNode(el, children, next) =>
      var after := at + |Content(children)|;
      StreamMisjudges(children, at);
      StreamMisjudges(next, after);
      BracketMisjudges(el, at, Stream(children, at), after);
      MisjudgesConcat(Bracket(el, at, Stream(children, at), after), Stream(next, after));
  }

  lemma NoneMisjudged()
    ensures !Misjudges([])
  {
  }

  lemma BracketMisjudges(el: Element, at: nat, inner: seq<Event>, after: nat)
    requires StopsJudged(inner)
    ensures StopsJudged(Bracket(el, at, inner, after))
    ensures Misjudges(Bracket(el, at, inner, after)) <==> !Judged(el.name) || Misjudges(inner)
  {
    var start, stop := Event(true, at, el), Event(false, after, el);
    OneMisjudged(start);
    OneMisjudged(stop);
    NoneMisjudged();
    hide Misjudges, LooksVoid, IsVoid;
    MisjudgesConcat([start], inner);
    MisjudgesConcat([start] + inner, if LooksVoid(el.name) then [] else [stop]);
  }

  lemma OneMisjudged(ev: Event)
    ensures Misjudges([ev]) <==> if ev.start then Stuck(ev.el.name) else IsVoid(ev.el.name)
  {
    hide Stuck, IsVoid;
    assert [ev][1..] == [] && StuckStarts([ev][1..]) == 0;
    assert [ev][0] == ev;
  }

  /** The stream of a forest closes, in order, exactly what it opens if and only if the source's
      test is right about every element's name. */
  lemma StreamClosesIff(f: Forest, at: nat)
    ensures WellNested(Stream(f, at), []) && After(Stream(f, at), []) == [] <==> JudgedForest(f)
  {
    hide Stuck, IsVoid, LooksVoid;
    var events := Stream(f, at);
    StreamMisjudges(f, at);
    if JudgedForest(f) {
      StreamWellNested(f, at, []);
    } else if StuckStarts(events) > 0 {
      if WellNested(events, []) {
        StuckStays(events, []);
      }
    } else {
      var k :| 0 <= k < |events| && !events[k].start && IsVoid(events[k].el.name);
      StrayStop(events, [], k);
    }
  }
}

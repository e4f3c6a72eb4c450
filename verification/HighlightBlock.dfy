/** Highlighting a block of a page: the highlighter's value, parsed by the browser, is merged
    with the markup that the block already had. */
module HighlightBlock {
  import opened Wrappers
  import opened Markup
  import opened NodeStream
  import opened MergeStreams
  import H = Highlight
  import P = HighlightProofs
  import L = HighlightLosses

  // ----- forests as documents -----

  /** The document a forest is written as. */
  function ForestDoc(f: Forest): seq<Token> {
    match f
    case Leaf => []
    case TextNode(text, next) => Chars(text) + ForestDoc(next)
    case ElementNode(el, children, next) => [OpenTag(el)] + (ForestDoc(children) + ([CloseTag(el)] + ForestDoc(next)))
    case OtherNode(next) => ForestDoc(next)
  }

  predicate PlainForest(f: Forest) {
    match f
    case Leaf => true
    case TextNode(_, next) => PlainForest(next)
    case ElementNode(el, children, next) => PlainElement(el) && PlainForest(children) && PlainForest(next)
    case OtherNode(next) => PlainForest(next)
  }

  predicate NoVoidForest(f: Forest) {
    match f
    case Leaf => true
    case TextNode(_, next) => NoVoidForest(next)
    case ElementNode(el, children, next) =>
      !IsVoid(el.name) && !LooksVoid(el.name) && NoVoidForest(children) && NoVoidForest(next)
    case OtherNode(next) => NoVoidForest(next)
  }

  lemma {:induction false} StreamPlain(f: Forest, at: nat)
    ensures PlainForest(f) ==> PlainEvents(Stream(f, at))
    ensures NoVoidForest(f) ==> NoVoid(Stream(f, at))
  {
    match f
    case Leaf =>
    case TextNode(text, next) => StreamPlain(next, at + |text|);
    case OtherNode(next) => StreamPlain(next, at);
    case ElementNode(el, children, next) =>
      StreamPlain(children, at);
      StreamPlain(next, at + |Content(children)|);
  }

  /** The contexts of a forest's document are its ancestors, as tag bodies. */
  lemma {:induction false} ForestContexts(f: Forest, open: seq<Element>)
    requires PlainForest(f) && NoVoidForest(f)
    ensures Nest(ForestDoc(f), Bodies(open)) == Some(Bodies(open))
    ensures Contexts(ForestDoc(f), Bodies(open)) == BodyContexts(Ancestors(f, open))
    ensures TextOf(ForestDoc(f)) == Content(f)
    decreases f
  {
    match f
    case Leaf =>
    case TextNode(text, next) =>
      ForestContexts(next, open);
      NestThen(Chars(text), ForestDoc(next), Bodies(open), Bodies(open), Bodies(open)) by {
        NestChars(text, Bodies(open));
      }
      ContextsAfter(Chars(text), ForestDoc(next), Bodies(open)) by { NestChars(text, Bodies(open)); }
      NestChars(text, Bodies(open));
      ContextsChars(text, Bodies(open));
      TextConcat(Chars(text), ForestDoc(next));
      TextOfChars(text);
    case OtherNode(next) => ForestContexts(next, open);
    case ElementNode(el, children, next) =>
      var open' := open + [el];
      ForestContexts(children, open');
      ForestContexts(next, open);
      ElementDoc(el, ForestDoc(children), ForestDoc(next), open);
      BodyContextsConcat(Ancestors(children, open'), Ancestors(next, open));
  }

  function BodyContexts(s: seq<(char, seq<Element>)>): seq<(char, seq<string>)> {
    seq(|s|, k requires 0 <= k < |s| => (s[k].0, Bodies(s[k].1)))
  }

  lemma BodyContextsConcat(a: seq<(char, seq<Element>)>, b: seq<(char, seq<Element>)>)
    ensures BodyContexts(a + b) == BodyContexts(a) + BodyContexts(b)
  {
  }

  lemma ElementDoc(el: Element, inner: seq<Token>, rest: seq<Token>, open: seq<Element>)
    requires PlainElement(el) && !IsVoid(el.name)
    requires Nest(inner, Bodies(open + [el])) == Some(Bodies(open + [el]))
    requires Nest(rest, Bodies(open)) == Some(Bodies(open))
    ensures var doc := [OpenTag(el)] + (inner + ([CloseTag(el)] + rest));
            && Nest(doc, Bodies(open)) == Some(Bodies(open))
            && Contexts(doc, Bodies(open)) == Contexts(inner, Bodies(open + [el])) + Contexts(rest, Bodies(open))
            && TextOf(doc) == TextOf(inner) + TextOf(rest)
  {
    var stack, stack' := Bodies(open), Bodies(open + [el]);
    assert stack' == stack + [OpenBody(el)];
    OpenOne(el, stack);
    CloseOne(el, el, stack);
    ElementText(OpenBody(el), "/" + el.name, inner, rest);
    hide Nest, Contexts, TextOf, IsVoid, Bodies, OpenBody;
    var closed := [CloseTag(el)] + rest;
    NestThen([CloseTag(el)], rest, stack', stack, stack);
    NestThen(inner, closed, stack', stack', stack);
    NestThen([OpenTag(el)], inner + closed, stack, stack', stack);
    ContextsAfter([OpenTag(el)], inner + closed, stack);
    ContextsAfter(inner, closed, stack');
    ContextsAfter([CloseTag(el)], rest, stack');
  }

  lemma ElementText(opening: string, closing: string, inner: seq<Token>, rest: seq<Token>)
    ensures TextOf([Tag(opening)] + (inner + ([Tag(closing)] + rest))) == TextOf(inner) + TextOf(rest)
  {
    assert ([Tag(opening)] + (inner + ([Tag(closing)] + rest)))[1..] == inner + ([Tag(closing)] + rest);
    assert ([Tag(closing)] + rest)[1..] == rest;
    TextConcat(inner, [Tag(closing)] + rest);
  }

  // ----- the written tags are read back whole -----

  lemma {:induction false} EscapeHidesAngles(s: string)
    ensures '>' !in Escape(s)
  {
    if s != "" {
      EscapeStep(s);
      EscapeHidesAngles(s[1..]);
    }
  }

  lemma QuoteHidesAngles(s: string)
    requires '>' !in s
    ensures '>' !in QuoteFirst(s)
  {
  }

  lemma {:induction false} AttributesHideAngles(attributes: seq<Attribute>)
    requires forall a <- attributes :: '>' !in a.name
    ensures '>' !in AttributeText(attributes)
  {
    if attributes != [] {
      EscapeHidesAngles(attributes[0].value);
      QuoteHidesAngles(Escape(attributes[0].value));
      AttributesHideAngles(attributes[1..]);
    }
  }

  predicate PlainPiece(p: Piece) {
    match p
    case Gap(_) => true
    case Original(ev) => PlainElement(ev.el)
    case Highlighted(ev) => PlainElement(ev.el)
    case CloseAgain(el) => PlainElement(el)
    case OpenAgain(el) => PlainElement(el)
  }

  ghost predicate PlainPieces(pieces: seq<Piece>) {
    forall k | 0 <= k < |pieces| :: PlainPiece(pieces[k])
  }

  lemma PieceReadable(p: Piece)
    requires PlainPiece(p)
    ensures Plain(PieceDoc(p))
  {
    match p
    case Gap(text) => PlainChars(text);
    case Original(ev) => AttributesHideAngles(ev.el.attributes);
    case Highlighted(ev) => AttributesHideAngles(ev.el.attributes);
    case CloseAgain(el) =>
    case OpenAgain(el) => AttributesHideAngles(el.attributes);
  }

  lemma {:induction false} PiecesReadable(pieces: seq<Piece>)
    requires PlainPieces(pieces)
    ensures Plain(Doc(pieces))
  {
    if pieces != [] {
      PieceReadable(pieces[0]);
      PiecesReadable(pieces[1..]);
      PlainConcat(PieceDoc(pieces[0]), Doc(pieces[1..]));
    }
  }

  lemma {:induction false} MergePlain(e: seq<Event>, t: seq<Event>, at: nat, open: seq<Element>, text: string)
    requires PlainEvents(e) && PlainEvents(t) && forall el <- open :: PlainElement(el)
    ensures PlainPieces(Merge(e, t, at, open, text))
    decreases |e| + |t|
  {
    if e == [] && t == [] {
    } else if OriginalTurn(e, t) {
      var off := e[0].offset;
      var n := BatchSize(e, t, off);
      MergePlain(e[n..], t, off, open, text);
      assert PlainPieces(Batch(e[..n], open));
    } else {
      MergePlain(e, t[1..], t[0].offset, Step(t[0], open), text);
    }
  }

  // ----- the merged text -----

  /** The text produced for an original tree and a highlighted tree over the same characters,
      read back: it is balanced if and only if the source's void test is right about the original
      elements; and then it has the same characters, each under its original ancestors and then
      its highlighted ones. */
  lemma MergedTextMeaning(original: Forest, highlighted: Forest)
    requires Content(original) == Content(highlighted)
    requires PlainForest(original) && PlainForest(highlighted) && NoVoidForest(highlighted)
    ensures var text := Content(original);
            var merged := Read(Written(Merge(Stream(original, 0), Stream(highlighted, 0), 0, [], text)));
            && merged.Some? && (Balanced(merged.value) <==> JudgedForest(original))
            && (JudgedForest(original) ==> ShowsBoth(Contexts(merged.value, []), original, highlighted))
  {
    hide Read, Nest, Contexts, Merge, Written, Sorted, WellNested, PlainForest, NoVoidForest, JudgedForest,
      PlainElement, Bodies, StackAt, Ancestors;
    var text := Content(original);
    var e, t := Stream(original, 0), Stream(highlighted, 0);
    var pieces := Merge(e, t, 0, [], text);
    StreamPlain(original, 0);
    StreamPlain(highlighted, 0);
    MergePlain(e, t, 0, [], text);
    PiecesReadable(pieces);
    assert Written(pieces) == Render(Doc(pieces)) by { WrittenIs(pieces); }
    ReadRender(Doc(pieces));
    if JudgedForest(original) {
      StreamsMergeable(original, highlighted);
      MergeContexts(e, t, 0, [], [], text);
      NoBodiesAtAll();
      NoVoidIsJudged(highlighted);
      ContextsShowBoth(Contexts(Doc(pieces), []), original, highlighted);
    } else {
      MisjudgedMerge(original, highlighted, text);
    }
  }

  /** The closing tags that a piece writes name no element that the source takes for void. */
  predicate PieceJudged(p: Piece) {
    match p
    case Gap(_) => true
    case Original(ev) => !ev.start ==> !LooksVoid(ev.el.name)
    case Highlighted(ev) => !ev.start ==> !LooksVoid(ev.el.name)
    case CloseAgain(el) => !LooksVoid(el.name)
    case OpenAgain(el) => true
  }

  ghost predicate PiecesJudged(pieces: seq<Piece>) {
    forall k | 0 <= k < |pieces| :: PieceJudged(pieces[k])
  }

  lemma {:induction false} MergeJudged(e: seq<Event>, t: seq<Event>, at: nat, open: seq<Element>, text: string)
    requires StopsJudged(e) && NoVoid(t) && forall el <- open :: !LooksVoid(el.name)
    ensures PiecesJudged(Merge(e, t, at, open, text))
    decreases |e| + |t|
  {
    hide LooksVoid, IsVoid, Batch;
    if e == [] && t == [] {
    } else if OriginalTurn(e, t) {
      var off := e[0].offset;
      var n := BatchSize(e, t, off);
      MergeJudged(e[n..], t, off, open, text);
      BatchJudged(e[..n], open);
    } else {
      MergeJudged(e, t[1..], t[0].offset, Step(t[0], open), text);
    }
  }

  lemma BatchJudged(events: seq<Event>, open: seq<Element>)
    requires StopsJudged(events) && forall el <- open :: !LooksVoid(el.name)
    ensures PiecesJudged(Batch(events, open))
  {
    hide LooksVoid;
  }

  lemma {:induction false} DocJudged(pieces: seq<Piece>)
    requires PiecesJudged(pieces) && PlainPieces(pieces)
    ensures ClosersJudged(Doc(pieces))
  {
    hide LooksVoid, PlainElement, CloserJudged;
    if pieces != [] {
      DocJudged(pieces[1..]);
      PieceDocJudged(pieces[0]);
    }
  }

  lemma PieceDocJudged(p: Piece)
    requires PieceJudged(p) && PlainPiece(p)
    ensures ClosersJudged(PieceDoc(p))
  {
    hide LooksVoid;
    match p
    case Gap(text) =>
    case Original(ev) => TagJudged(ev.el);
    case Highlighted(ev) => TagJudged(ev.el);
    case CloseAgain(el) => TagJudged(el);
    case OpenAgain(el) => TagJudged(el);
  }

  lemma TagJudged(el: Element)
    requires PlainElement(el)
    ensures CloserJudged(OpenTag(el))
    ensures !LooksVoid(el.name) ==> CloserJudged(CloseTag(el))
    ensures IsClose(CloseTag(el).body) && CloseTag(el).body[1..] == el.name
    ensures OpensStuck(OpenTag(el)) <==> Stuck(el.name)
  {
    BodyName(el);
    assert ("/" + el.name)[1..] == el.name;
  }

  lemma {:induction false} OriginalsShow(pieces: seq<Piece>, j: nat) returns (k: nat)
    requires j < |FromOriginal(pieces)|
    ensures k < |Doc(pieces)| && Doc(pieces)[k] == EventTag(FromOriginal(pieces)[j])
  {
    hide EventTag, Doc, FromOriginal, PieceDoc;
    FirstPiece(pieces, j);
    var here := if pieces[0].Original? then 1 else 0;
    if j < here {
      k := 0;
    } else {
      k := OriginalsShow(pieces[1..], j - here);
      LaterPiece(pieces, k);
      k := |PieceDoc(pieces[0])| + k;
    }
  }

  lemma FirstPiece(pieces: seq<Piece>, j: nat)
    requires j < |FromOriginal(pieces)|
    ensures pieces != []
    ensures var here := if pieces[0].Original? then 1 else 0;
            && (j < here ==> Doc(pieces) != [] && Doc(pieces)[0] == EventTag(FromOriginal(pieces)[j]))
            && (j >= here ==>
                  && j - here < |FromOriginal(pieces[1..])|
                  && FromOriginal(pieces[1..])[j - here] == FromOriginal(pieces)[j])
  {
    hide FromOriginal, Doc, EventTag, PieceDoc;
    SomePiece(pieces);
    Unfolded(pieces);
    OriginalDoc(pieces[0]);
  }

  lemma SomePiece(pieces: seq<Piece>)
    requires FromOriginal(pieces) != []
    ensures pieces != []
  {
    hide Doc, EventTag, PieceDoc;
  }

  lemma Unfolded(pieces: seq<Piece>)
    requires pieces != []
    ensures FromOriginal(pieces) == (if pieces[0].Original? then [pieces[0].ev] else []) + FromOriginal(pieces[1..])
    ensures Doc(pieces) == PieceDoc(pieces[0]) + Doc(pieces[1..])
  {
    hide PieceDoc;
  }

  lemma OriginalDoc(p: Piece)
    ensures p.Original? ==> PieceDoc(p) == [EventTag(p.ev)]
  {
  }

  lemma LaterPiece(pieces: seq<Piece>, k: nat)
    requires pieces != [] && k < |Doc(pieces[1..])|
    ensures var at := |PieceDoc(pieces[0])| + k; at < |Doc(pieces)| && Doc(pieces)[at] == Doc(pieces[1..])[k]
  {
    hide PieceDoc;
  }

  lemma {:induction false} StuckStart(events: seq<Event>) returns (j: nat)
    requires StuckStarts(events) > 0
    ensures j < |events| && events[j].start && Stuck(events[j].el.name)
  {
    hide Stuck;
    if events[0].start && Stuck(events[0].el.name) {
      j := 0;
    } else {
      j := StuckStart(events[1..]);
      j := j + 1;
    }
  }

  lemma MisjudgedMerge(original: Forest, highlighted: Forest, text: string)
    requires PlainForest(original) && PlainForest(highlighted) && NoVoidForest(highlighted) && !JudgedForest(original)
    ensures !Balanced(Doc(Merge(Stream(original, 0), Stream(highlighted, 0), 0, [], text)))
  {
    hide Merge, PlainForest, NoVoidForest, JudgedForest, Stuck, LooksVoid, IsVoid, Balanced, OpensStuck, IsClose,
      PlainElement;
    var e, t := Stream(original, 0), Stream(highlighted, 0);
    var pieces := Merge(e, t, 0, [], text);
    StreamPlain(original, 0);
    StreamPlain(highlighted, 0);
    StreamMisjudges(original, 0);
    MergeJudged(e, t, 0, [], text);
    MergePlain(e, t, 0, [], text);
    DocJudged(pieces);
    MergeKeepsEvents(e, t, 0, [], text);
    var j: nat;
    if StuckStarts(e) > 0 {
      j := StuckStart(e);
    } else {
      j :| j < |e| && !e[j].start && IsVoid(e[j].el.name);
    }
    assert e[j] in e;
    var k := OriginalsShow(pieces, j);
    TagJudged(e[j].el);
    MisjudgedNotBalanced(Doc(pieces), k);
  }

  lemma WrittenIs(pieces: seq<Piece>)
    ensures Written(pieces) == Render(Doc(pieces))
  {
  }

  lemma NoBodiesAtAll()
    ensures Bodies([]) == [] && Bodies([]) + Bodies([]) == []
  {
  }

  lemma StreamsMergeable(original: Forest, highlighted: Forest)
    requires Content(original) == Content(highlighted)
    requires PlainForest(original) && PlainForest(highlighted) && NoVoidForest(highlighted) && JudgedForest(original)
    ensures Mergeable(Stream(original, 0), Stream(highlighted, 0), 0, [], [], Content(original))
    ensures After(Stream(original, 0), []) == [] && After(Stream(highlighted, 0), []) == []
  {
    hide Sorted, WellNested, PlainForest, NoVoidForest, JudgedForest;
    NoVoidIsJudged(highlighted);
    StreamSorted(original, 0);
    StreamSorted(highlighted, 0);
    StreamWellNested(original, 0, []);
    StreamWellNested(highlighted, 0, []);
    StreamPlain(original, 0);
    StreamPlain(highlighted, 0);
  }

  lemma {:induction false} NoVoidIsJudged(f: Forest)
    requires NoVoidForest(f)
    ensures JudgedForest(f)
  {
    hide LooksVoid, IsVoid;
    match f
    case Leaf =>
    case TextNode(_, next) => NoVoidIsJudged(next);
    case OtherNode(next) => NoVoidIsJudged(next);
    case ElementNode(el, children, next) =>
      NoVoidIsJudged(children);
      NoVoidIsJudged(next);
  }

  lemma ContextsShowBoth(shown: seq<(char, seq<string>)>, original: Forest, highlighted: Forest)
    requires Content(original) == Content(highlighted)
    requires JudgedForest(original) && JudgedForest(highlighted)
    requires ContextsFrom(shown, Stream(original, 0), Stream(highlighted, 0), 0, [], [], Content(original))
    ensures ShowsBoth(shown, original, highlighted)
  {
    hide Bodies, Ancestors, Under, JudgedForest;
    var text := Content(original);
    AncestorsLength(original, []);
    AncestorsLength(highlighted, []);
    forall k | 0 <= k < |text|
      ensures shown[k] == (text[k], Bodies(Ancestors(original, [])[k].1) + Bodies(Ancestors(highlighted, [])[k].1))
    {
      StreamGivesAncestors(original, 0, [], k);
      StreamGivesAncestors(highlighted, 0, [], k);
      assert shown[k - 0] == (text[k], StackAt(Stream(original, 0), Stream(highlighted, 0), k, [], []));
    }
  }

  ghost predicate ShowsBoth(shown: seq<(char, seq<string>)>, original: Forest, highlighted: Forest) {
    var text := Content(original);
    var outer, inner := Ancestors(original, []), Ancestors(highlighted, []);
    && |shown| == |text| == |outer| == |inner|
    && forall k | 0 <= k < |text| :: shown[k] == (text[k], Bodies(outer[k].1) + Bodies(inner[k].1))
  }

  /** What the page shows after a block was highlighted: the block's text, its own elements around
      the same characters, and inside them the spans of the highlighter's document. The text it is
      made of is balanced if and only if the void test is right about the block's own elements. */
  ghost predicate BlockShown(original: Forest, parsed: Forest) {
    var text := Content(original);
    var spans := Contexts(ForestDoc(parsed), []);
    var merged := Read(Written(Merge(Stream(original, 0), Stream(parsed, 0), 0, [], text)));
    && merged.Some? && (Balanced(merged.value) <==> JudgedForest(original))
    && (JudgedForest(original) ==>
          var shown := Contexts(merged.value, []);
          && |shown| == |text| == |spans| == |Ancestors(original, [])|
          && forall k | 0 <= k < |text| ::
               shown[k] == (text[k], Bodies(Ancestors(original, [])[k].1) + spans[k].1))
  }

  /** A highlighted document over the block's text, once parsed, is merged into the block. */
  lemma ParsedIsShown(original: Forest, parsed: Forest)
    requires PlainForest(original) && PlainForest(parsed) && NoVoidForest(parsed)
    requires TextOf(ForestDoc(parsed)) == Content(original)
    ensures BlockShown(original, parsed)
  {
    hide Read, Nest, Contexts, Merge, Written, PlainForest, NoVoidForest, JudgedForest, Ancestors, ForestDoc,
      Balanced, TextOf;
    NoBodiesAtAll();
    ForestContexts(parsed, []);
    MergedTextMeaning(original, parsed);
    AncestorsLength(original, []);
    AncestorsLength(parsed, []);
  }

  /** For a named language: `parsed` is what the browser makes of the highlighter's value. Whatever
      the grammar matched, if every character is shown once, the block is shown as it should be. */
  lemma BlockKeepsTextAndMarkup(reg: H.Registry, name: string, script: H.Script, original: Forest, parsed: Forest)
    requires L.RunKeeps(reg, name, Content(original), script, true, None)
    requires PlainForest(original) && PlainForest(parsed) && NoVoidForest(parsed)
    requires var r := H.Highlighted(reg, name, Content(original), script, true, None);
             r.Ok? && ForestDoc(parsed) == r.value.doc
    ensures BlockShown(original, parsed)
  {
    hide H.Highlighted, L.RunAvoids, BlockShown, ForestDoc;
    L.TextIsKeptIff(reg, name, Content(original), script, true, None);
    ParsedIsShown(original, parsed);
  }

  /** The same when the language is detected. */
  lemma DetectedBlockKeepsTextAndMarkup(reg: H.Registry, candidates: H.Candidates, original: Forest, parsed: Forest)
    requires L.BestKeeps(reg, Content(original), candidates)
    requires PlainForest(original) && PlainForest(parsed) && NoVoidForest(parsed)
    requires var r := H.BestOf(reg, Content(original), candidates, H.NoneYet(Content(original)));
             r.Ok? && ForestDoc(parsed) == r.value.best.doc
    ensures BlockShown(original, parsed)
  {
    hide H.BestOf, L.BestAvoids, BlockShown, ForestDoc;
    L.DetectedTextIsKeptIff(reg, Content(original), candidates);
    ParsedIsShown(original, parsed);
  }

  /** The block method of the source, after the browser has parsed the highlighted value. */
  method MergeBlock(original: Forest, highlighted: Forest) returns (n: string)
    ensures n == Written(Merge(Stream(original, 0), Stream(highlighted, 0), 0, [], Content(original)))
    ensures Content(original) == Content(highlighted) && PlainForest(original) && PlainForest(highlighted)
            && NoVoidForest(highlighted) ==>
              && Read(n).Some? && (Balanced(Read(n).value) <==> JudgedForest(original))
              && (JudgedForest(original) ==> ShowsBoth(Contexts(Read(n).value, []), original, highlighted))
  {
    var e, _ := Walk(original, 0, []);
    var t, _ := Walk(highlighted, 0, []);
    assert [] + Stream(original, 0) == Stream(original, 0) && [] + Stream(highlighted, 0) == Stream(highlighted, 0);
    n := MergeText(e, t, Content(original));
    if Content(original) == Content(highlighted) && PlainForest(original) && PlainForest(highlighted)
        && NoVoidForest(highlighted) {
      MergedTextMeaning(original, highlighted);
    }
  }

  // ----- two limits of the source -----

  /** The void-element test finds `br` inside `abbr`, so an abbreviation is opened and never closed. */
  lemma AbbreviationIsNeverClosed(text: string)
    ensures var f := ElementNode(Element("abbr", []), TextNode(text, Leaf), Leaf);
            !JudgedForest(f) && forall ev <- Stream(f, 0) :: ev.start
  {
    assert "br" <= "abbr"[2..];
    var el := Element("abbr", []);
    assert LooksVoid(el.name);
    assert Stream(Leaf, |text|) == [] && Stream(TextNode(text, Leaf), 0) == [];
    assert Content(TextNode(text, Leaf)) == text;
    assert Stream(ElementNode(el, TextNode(text, Leaf), Leaf), 0) == [Event(true, 0, el)];
  }

  /** And it finds none of its four strings in `link`, which is void: such an element is closed. */
  lemma LinkIsClosed(at: nat)
    ensures var f := ElementNode(Element("link", []), Leaf, Leaf);
            !JudgedForest(f) && exists ev <- Stream(f, at) :: !ev.start
  {
    var el := Element("link", []);
    LinkIsNotFound();
    var closing := Event(false, at, el);
    assert Stream(Leaf, at) == [];
    assert Stream(ElementNode(el, Leaf, Leaf), at) == [Event(true, at, el), closing];
    assert closing in [Event(true, at, el), closing];
  }

  lemma LinkIsNotFound()
    ensures IsVoid("link") && !LooksVoid("link")
  {
    var s := "link";
    forall k | 0 <= k <= |s|
      ensures !("br" <= s[k..]) && !("hr" <= s[k..]) && !("img" <= s[k..]) && !("input" <= s[k..])
    {
      assert k < |s| ==> s[k..][0] == s[k];
      assert k + 1 < |s| ==> s[k..][1] == s[k + 1];
    }
  }

  function Count(s: string, c: char): nat {
    if s == "" then 0 else (if s[0] == c then 1 else 0) + Count(s[1..], c)
  }

  lemma {:induction false} CountConcat(a: string, b: string, c: char)
    ensures Count(a + b, c) == Count(a, c) + Count(b, c)
  {
    if a == "" {
      assert a + b == b;
    } else {
      assert (a + b)[1..] == a[1..] + b;
      CountConcat(a[1..], b, c);
    }
  }

  lemma {:induction false} CountZero(s: string, c: char)
    ensures Count(s, c) == 0 <==> c !in s
  {
    if s != "" {
      CountZero(s[1..], c);
    }
  }

  lemma {:induction false} EscapeKeepsQuotes(s: string)
    ensures Count(Escape(s), '"') == Count(s, '"')
  {
    if s != "" {
      EscapeStep(s);
      EscapeKeepsQuotes(s[1..]);
      CountConcat(EscapeChar(s[0]), Escape(s[1..]), '"');
      CountZero("&amp;", '"');
      CountZero("&lt;", '"');
      CountZero("&gt;", '"');
    }
  }

  /** Only the first quote of an attribute value is replaced: the written attribute is closed
      early exactly when the value has two quotes or more. */
  lemma AttributeIsWholeIffOneQuote(value: string)
    ensures '"' !in QuoteFirst(Escape(value)) <==> Count(value, '"') <= 1
  {
    EscapeKeepsQuotes(value);
    QuoteFirstCount(Escape(value));
    CountZero(QuoteFirst(Escape(value)), '"');
  }

  /** A value of two quotes is cut short. */
  lemma TwoQuotesAreCutShort(value: string)
    requires value == "\"\""
    ensures '"' in QuoteFirst(Escape(value))
  {
    CountConcat(['"'], ['"'], '"');
    assert ['"'][1..] == "" && Count(['"'], '"') == 1;
    assert value == ['"'] + ['"'];
    AttributeIsWholeIffOneQuote(value);
  }

  lemma QuoteFirstCount(s: string)
    ensures Count(QuoteFirst(s), '"') == if Count(s, '"') == 0 then 0 else Count(s, '"') - 1
  {
    match FindChar(s, '"')
    case None =>
      FindNone(s, '"');
      CountZero(s, '"');
    case Some(k) =>
      var a, b := s[..k], s[k + 1..];
      assert s == a + ['"'] + b;
      CountConcat(a + ['"'], b, '"');
      CountConcat(a, ['"'], '"');
      CountConcat(a + "&quot;", b, '"');
      CountConcat(a, "&quot;", '"');
      CountZero(a, '"');
      CountZero("&quot;", '"');
      assert ['"'][1..] == "" && Count(['"'], '"') == 1;
  }

  lemma FindNone(s: string, c: char)
    requires FindChar(s, c) == None
    ensures c !in s
  {
  }
}

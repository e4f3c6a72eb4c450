/** In which order the merged document writes events of the same offset, and that it closes and reopens
    the highlighter's elements no more often than it has to. */
module MergeOrder {
  import opened Wrappers
  import opened Markup
  import opened NodeStream
  import opened MergeStreams

  /** The original events that come before the next highlighted one. */
  function Ahead(pieces: seq<Piece>): seq<Event> {
    if pieces == [] || pieces[0].Highlighted? then []
    else (if pieces[0].Original? then [pieces[0].ev] else []) + Ahead(pieces[1..])
  }

  ghost predicate Ordered(events: seq<Event>) {
    forall j, k | 0 <= j < k < |events| :: events[j].offset <= events[k].offset
  }

  ghost predicate AllAt(events: seq<Event>, offset: nat) {
    forall k | 0 <= k < |events| :: events[k].offset == offset
  }

  ghost predicate AllFrom(events: seq<Event>, offset: nat) {
    forall k | 0 <= k < |events| :: offset <= events[k].offset
  }

  ghost predicate NoneAt(events: seq<Event>, offset: nat) {
    forall ev <- events :: ev.offset != offset
  }

  /** What may follow a piece. At one offset highlighted elements end, then original events are written,
      then highlighted elements start; and original events with no highlighted one between them are
      written in one go. */
  ghost predicate WellPlaced(p: Piece, rest: seq<Piece>) {
    match p
    case Highlighted(h) => h.start ==> NoneAt(FromOriginal(rest), h.offset)
    case Original(o) =>
      var next := FromHighlighted(rest);
      && (next != [] && next[0].offset == o.offset ==> next[0].start)
      && ((rest == [] || !rest[0].Original?) ==> NoneAt(Ahead(rest), o.offset))
    case _ => true
  }

  ghost predicate Tidy(pieces: seq<Piece>) {
    pieces == [] || (WellPlaced(pieces[0], pieces[1..]) && Tidy(pieces[1..]))
  }

  lemma TidyFirst(p: Piece, rest: seq<Piece>)
    requires WellPlaced(p, rest) && Tidy(rest)
    ensures Tidy([p] + rest)
  {
    assert ([p] + rest)[1..] == rest;
  }

  predicate Reopening(pieces: seq<Piece>) {
    forall k | 0 <= k < |pieces| :: pieces[k].CloseAgain? || pieces[k].OpenAgain?
  }

  lemma {:induction false} TidyReopening(a: seq<Piece>, rest: seq<Piece>)
    requires Reopening(a) && Tidy(rest)
    ensures Tidy(a + rest) && Ahead(a + rest) == Ahead(rest)
    ensures FromHighlighted(a + rest) == FromHighlighted(rest)
  {
    if a == [] {
      assert a + rest == rest;
    } else {
      assert a + rest == [a[0]] + (a[1..] + rest);
      assert (a + rest)[1..] == a[1..] + rest;
      TidyReopening(a[1..], rest);
    }
  }

  lemma {:induction false} AheadComesFirst(pieces: seq<Piece>)
    ensures Ahead(pieces) <= FromOriginal(pieces)
  {
    if pieces != [] {
      AheadComesFirst(pieces[1..]);
    }
  }

  /** Events of one offset in one go, before pieces that do not begin with an original event. */
  lemma {:induction false} TidyOriginals(events: seq<Event>, rest: seq<Piece>, off: nat)
    requires forall k | 0 <= k < |events| :: events[k].offset == off
    requires Tidy(rest) && (rest == [] || !rest[0].Original?) && NoneAt(Ahead(rest), off)
    requires FromHighlighted(rest) != [] && FromHighlighted(rest)[0].offset == off ==> FromHighlighted(rest)[0].start
    ensures Tidy(Originals(events) + rest) && FromHighlighted(Originals(events) + rest) == FromHighlighted(rest)
  {
    hide FromOriginal, NoneAt;
    if events == [] {
      assert Originals(events) + rest == rest;
    } else {
      var later := Originals(events[1..]) + rest;
      assert Originals(events) + rest == [Original(events[0])] + later;
      assert ([Original(events[0])] + later)[1..] == later;
      TidyOriginals(events[1..], rest, off);
      assert events[1..] != [] ==> later[0] == Original(events[1]);
      assert events[1..] == [] ==> later == rest;
    }
  }

  /** A batch is as long as it can be. */
  lemma {:induction false} BatchIsFull(e: seq<Event>, t: seq<Event>, at: nat)
    requires OriginalTurn(e, t) && e[0].offset == at
    ensures var n := BatchSize(e, t, at);
            && OriginalTurn(e[n - 1..], t)
            && (OriginalTurn(e[n..], t) ==> e[n].offset != at)
    decreases |e|
  {
    if OriginalTurn(e[1..], t) && e[1].offset == at {
      BatchIsFull(e[1..], t, at);
      var n := BatchSize(e[1..], t, at);
      assert e[1..][n - 1..] == e[n..] && e[1..][n..] == e[n + 1..];
    }
  }

  /** The merged document is tidy. */
  lemma {:induction false} MergeIsTidy(e: seq<Event>, t: seq<Event>, at: nat, open: seq<Element>, text: string)
    requires Ordered(e)
    ensures Tidy(Merge(e, t, at, open, text))
    decreases |e| + |t|
  {
    hide Batch, BatchSize, OriginalTurn, Tidy;
    if e == [] && t == [] {
      assert Merge(e, t, at, open, text) == [Gap(Rest(text, at))];
      TidyNothing();
      TidyFirst(Gap(Rest(text, at)), []);
      assert [Gap(Rest(text, at))] + [] == [Gap(Rest(text, at))];
    } else if OriginalTurn(e, t) {
      MergeTakesOriginal(e, t, at, open, text);
      OriginalsTidy(e, t, at, open, text);
    } else {
      OneIsThere(e, t);
      MergeTakesHighlighted(e, t, at, open, text);
      var off := t[0].offset;
      var rest := Merge(e, t[1..], off, Step(t[0], open), text);
      MergeIsTidy(e, t[1..], off, Step(t[0], open), text);
      MergeKeepsEvents(e, t[1..], off, Step(t[0], open), text);
      HighlightedTurn(e, t);
      assert t[0].start ==> NoneAt(e, off);
      TidyFirst(Highlighted(t[0]), rest);
      TidyFirst(Gap(Substring(text, at, off)), [Highlighted(t[0])] + rest);
    }
  }

  lemma TidyNothing()
    ensures Tidy([])
  {
  }

  lemma OneIsThere(e: seq<Event>, t: seq<Event>)
    requires (e != [] || t != []) && !OriginalTurn(e, t)
    ensures t != []
  {
  }

  lemma HighlightedTurn(e: seq<Event>, t: seq<Event>)
    requires t != [] && !OriginalTurn(e, t)
    ensures e != [] ==> t[0].offset < e[0].offset || (t[0].offset == e[0].offset && !t[0].start)
  {
  }

  lemma OriginalsTurn(e: seq<Event>, t: seq<Event>)
    requires OriginalTurn(e, t)
    ensures e != [] && (t != [] && t[0].offset == e[0].offset ==> t[0].start)
  {
  }

  lemma {:induction false} OriginalsTidy(e: seq<Event>, t: seq<Event>, at: nat, open: seq<Element>, text: string)
    requires Ordered(e)
    requires OriginalTurn(e, t)
    ensures e != []
    ensures var off := e[0].offset;
            var n := BatchSize(e, t, off);
            Tidy([Gap(Substring(text, at, off))] + (Batch(e[..n], open) + Merge(e[n..], t, off, open, text)))
    decreases |e| + |t|, 0
  {
    OriginalsTurn(e, t);
    hide Substring, BatchSize, OriginalTurn, Tidy, Batch, NoneAt, Ahead, Merge, FromOriginal, FromHighlighted;
    hide WellPlaced, Ordered, AllFrom, AllAt;
    var off := e[0].offset;
    var n := BatchSize(e, t, off);
    var rest := Merge(e[n..], t, off, open, text);
    TailReady(e, t, n);
    MergeIsTidy(e[n..], t, off, open, text);
    MergeKeepsEvents(e[n..], t, off, open, text);
    BeginsWithGap(e[n..], t, off, open, text);
    NoneAhead(e[n..], t, off, open, text);
    BatchTidy(e[..n], open, rest, off);
    TidyFirst(Gap(Substring(text, at, off)), Batch(e[..n], open) + rest);
  }

  /** What is left after a batch. */
  lemma TailReady(e: seq<Event>, t: seq<Event>, n: nat)
    requires Ordered(e) && OriginalTurn(e, t) && e != [] && n == BatchSize(e, t, e[0].offset)
    ensures n <= |e| && Ordered(e[n..]) && AllFrom(e[n..], e[0].offset) && AllAt(e[..n], e[0].offset)
    ensures OriginalTurn(e[n..], t) ==> e[n..] != [] && e[n..][0].offset != e[0].offset
    ensures t != [] && t[0].offset == e[0].offset ==> t[0].start
  {
    OriginalsTurn(e, t);
    BatchIsFull(e, t, e[0].offset);
    hide OriginalTurn, BatchSize;
    if OriginalTurn(e[n..], t) {
      OriginalsTurn(e[n..], t);
      assert e[n..][0] == e[n];
    }
    TailOrdered(e, n);
  }

  lemma TailOrdered(e: seq<Event>, n: nat)
    requires Ordered(e) && n <= |e|
    ensures Ordered(e[n..]) && (e != [] ==> AllFrom(e[n..], e[0].offset))
  {
  }

  lemma BatchTidy(events: seq<Event>, open: seq<Element>, rest: seq<Piece>, off: nat)
    requires AllAt(events, off)
    requires Tidy(rest) && rest != [] && rest[0].Gap? && NoneAt(Ahead(rest), off)
    requires FromHighlighted(rest) != [] && FromHighlighted(rest)[0].offset == off ==> FromHighlighted(rest)[0].start
    ensures Tidy(Batch(events, open) + rest)
  {
    hide Tidy, CloseAll, OpenAll, NoneAt, Ahead, FromHighlighted, Originals;
    Reopened(open);
    TidyReopening(OpenAll(open), rest);
    NotOriginal(OpenAll(open), rest);
    TidyOriginals(events, OpenAll(open) + rest, off);
    TidyReopening(CloseAll(open), Originals(events) + (OpenAll(open) + rest));
    assert Batch(events, open) + rest == CloseAll(open) + (Originals(events) + (OpenAll(open) + rest));
  }

  lemma NotOriginal(a: seq<Piece>, rest: seq<Piece>)
    requires Reopening(a) && rest != [] && rest[0].Gap?
    ensures a + rest != [] && !(a + rest)[0].Original?
  {
  }

  lemma Reopened(open: seq<Element>)
    ensures Reopening(OpenAll(open)) && Reopening(CloseAll(open))
  {
  }

  lemma BeginsWithGap(e: seq<Event>, t: seq<Event>, at: nat, open: seq<Element>, text: string)
    ensures Merge(e, t, at, open, text) != [] && Merge(e, t, at, open, text)[0].Gap?
  {
  }

  /** Where the next original event is not at `off`, none before the next highlighted one is. */
  lemma NoneAhead(e: seq<Event>, t: seq<Event>, off: nat, open: seq<Element>, text: string)
    requires Ordered(e)
    requires AllFrom(e, off)
    requires OriginalTurn(e, t) ==> e != [] && e[0].offset != off
    ensures NoneAt(Ahead(Merge(e, t, off, open, text)), off)
  {
    hide BatchSize, OriginalTurn, Batch, FromHighlighted;
    var pieces := Merge(e, t, off, open, text);
    MergeKeepsEvents(e, t, off, open, text);
    AheadComesFirst(pieces);
    if e == [] && t == [] {
    } else if OriginalTurn(e, t) {
    } else {
      OneIsThere(e, t);
      MergeTakesHighlighted(e, t, off, open, text);
      assert pieces[1] == Highlighted(t[0]) && Ahead(pieces[1..]) == [];
    }
  }
}

/** The playback position of one animation: `advanceTime` and the segment queue it consults. */
module Playback {

  /** `loop`: absent or zero, endless, or a count. */
  datatype Loop = Once | Forever | Times(n: int)

  datatype Event = LoopComplete | Complete | SegmentStart

  datatype Player = Player(
    paused: bool,
    loaded: bool,
    frame: real,
    total: real,
    first: real,
    mult: real,
    speed: real,
    direction: real,
    modifier: real,
    loop: Loop,
    count: int,
    completedLoop: bool,
    segments: seq<(real, real)>)

  /** How often `n` fits whole into `m`. */
  function Whole(m: real, n: real): int
    requires n > 0.0
  {
    (m / n).Floor
  }

  /** The remainder that takes the sign of its first operand. */
  function Rem(e: real, n: real): real
    requires n > 0.0
  {
    if e >= 0.0 then e - n * Whole(e, n) as real else e + n * Whole(-e, n) as real
  }

  lemma RemRange(e: real, n: real)
    requires n > 0.0
    ensures e >= 0.0 ==> 0.0 <= Rem(e, n) < n
    ensures e < 0.0 ==> -n < Rem(e, n) <= 0.0
    ensures 0.0 <= e < n ==> Rem(e, n) == e
    ensures n <= e < 2.0 * n ==> Rem(e, n) == e - n
  {
    hide Whole;
    WholeFits(if e >= 0.0 then e else -e, n);
  }

  lemma WholeFits(m: real, n: real)
    requires n > 0.0 && m >= 0.0
    ensures Whole(m, n) >= 0 && n * Whole(m, n) as real <= m < n * Whole(m, n) as real + n
    ensures m < n ==> Whole(m, n) == 0
    ensures n <= m < 2.0 * n ==> Whole(m, n) == 1
  {
    var x := Ratio(m, n);
    assert Whole(m, n) == x.Floor;
    hide Whole;
    Bracket(m, n, x, Whole(m, n) as real);
    SmallQuotients(m, n, x);
  }

  function Ratio(m: real, n: real): (x: real)
    requires n > 0.0
    ensures x == m / n && x * n == m
  {
    m / n
  }

  lemma Bracket(m: real, n: real, x: real, q: real)
    requires n > 0.0 && x * n == m && q <= x < q + 1.0
    ensures n * q <= m < n * q + n
  {
    var d := q + 1.0 - x;
    assert d * n > 0.0;
    Expand(q, x, n);
  }

  lemma Expand(q: real, x: real, n: real)
    ensures (q + 1.0 - x) * n == n * q + n - x * n && (x - q) * n == x * n - n * q
  {
  }

  lemma SmallQuotients(m: real, n: real, x: real)
    requires n > 0.0 && x * n == m >= 0.0
    ensures x >= 0.0 && (m < n ==> x < 1.0) && (n <= m < 2.0 * n ==> 1.0 <= x < 2.0)
  {
    assert x >= 2.0 ==> (x - 2.0) * n >= 0.0;
  }

  // ----- the steps -----

  function Modified(p: Player): Player {
    p.(modifier := p.mult * p.speed * p.direction)
  }

  function WithSpeed(p: Player, speed: real): Player {
    Modified(p.(speed := speed))
  }

  function WithDirection(p: Player, d: real): Player {
    Modified(p.(direction := if d < 0.0 then -1.0 else 1.0))
  }

  /** `adjustSegment`. */
  function Adjusted(p: Player, from: real, to: real, offset: real): Player {
    var p := p.(count := 0);
    if to < from then
      var p := if p.modifier > 0.0
               then (if p.speed < 0.0 then WithSpeed(p, -p.speed) else WithDirection(p, -1.0)) else p;
      p.(total := from - to, first := to, frame := from - to - 0.001 - offset)
    else if to > from then
      var p := if p.modifier < 0.0
               then (if p.speed < 0.0 then WithSpeed(p, -p.speed) else WithDirection(p, 1.0)) else p;
      p.(total := to - from, first := from, frame := 0.001 + offset)
    else p
  }

  /** `checkSegments` when the queue is not empty. */
  function NextSegment(p: Player, offset: real): Player
    requires p.segments != []
  {
    Adjusted(p.(segments := p.segments[1..]), p.segments[0].0, p.segments[0].1, offset)
  }

  /** Stop at frame `e`. */
  function Ended(p: Player, e: real): Player {
    p.(frame := e, paused := true)
  }

  predicate Loops(loop: Loop) {
    loop.Forever? || (loop.Times? && loop.n != 0)
  }

  predicate MayLoop(p: Player) {
    LoopsLeft(p.loop, p.count)
  }

  predicate LoopsLeft(loop: Loop, count: int) {
    Loops(loop) && loop != Times(count)
  }

  /** Where the position would be with nothing in its way. */
  function Target(p: Player, t: real): real {
    p.frame + Moved(t, p.modifier)
  }

  /** How far one tick moves the position. */
  function Moved(t: real, modifier: real): real {
    t * modifier
  }

  predicate Running(p: Player) {
    !p.paused && p.loaded
  }

  /** `advanceTime`: the new state and the events it triggers. */
  function Advanced(p: Player, t: real): (Player, seq<Event>)
    requires p.total > 0.0
  {
    if !Running(p) then (p, [])
    else
      var e := Target(p, t);
      if e >= p.total - 1.0 && p.modifier > 0.0 then
        if MayLoop(p) then
          if e >= p.total then Wrapped(p, e) else (p.(frame := e), [])
        else if p.segments != [] then (NextSegment(p, if e > p.total then Rem(e, p.total) else 0.0), [SegmentStart])
        else (Ended(p, p.total - 1.0), [Complete])
      else if e < 0.0 then
        if p.segments != [] then (NextSegment(p, Rem(e, p.total)), [SegmentStart])
        else WrappedBack(p, e)
      else (p.(frame := e), [])
  }

  /** Past the end with a loop to go. */
  function Wrapped(p: Player, e: real): (Player, seq<Event>)
    requires p.total > 0.0
  {
    var q := p.(count := p.count + 1);
    if q.segments != [] then (NextSegment(q, Rem(e, p.total)), [SegmentStart])
    else (q.(frame := Rem(e, p.total), completedLoop := true), [LoopComplete])
  }

  /** Before the start with no segment waiting. */
  function WrappedBack(p: Player, e: real): (Player, seq<Event>)
    requires p.total > 0.0
  {
    if !Loops(p.loop) then (Ended(p, 0.0), [Complete])
    else
      var q := p.(count := p.count - 1);
      if p.count <= 0 && !p.loop.Forever? then (Ended(q, 0.0), [Complete])
      else
        var r := q.(frame := p.total + Rem(e, p.total), completedLoop := true);
        (r, if p.completedLoop then [LoopComplete] else [])
  }

  // ----- what every step keeps -----

  /** At least one frame. */
  predicate Framed(p: Player) {
    p.total >= 1.0
  }

  predicate InRange(p: Player) {
    0.0 <= p.frame <= p.total
  }

  /** The step stops the animation at its end. */
  predicate EndsForward(p: Player, t: real) {
    && Running(p) && p.modifier > 0.0 && Target(p, t) >= p.total - 1.0
    && !MayLoop(p) && p.segments == []
  }

  /** The step takes the next segment from the queue. */
  predicate Switches(p: Player, t: real) {
    && Running(p) && p.segments != []
    && if Target(p, t) >= p.total - 1.0 && p.modifier > 0.0
       then !MayLoop(p) || Target(p, t) >= p.total
       else Target(p, t) < 0.0
  }

  /** With no segment waiting the position stays within the animation, whichever way it runs,
      unless an animation shorter than a frame stops at its end. */
  lemma StepStaysInRange(p: Player, t: real)
    requires p.total > 0.0 && InRange(p) && p.segments == [] && t >= 0.0
    ensures InRange(Advanced(p, t).0) <==> Framed(p) || !EndsForward(p, t)
  {
    hide Rem;
    RemRange(Target(p, t), p.total);
    SignOfProduct(t, p.modifier);
  }

  /** A step that stops the animation leaves it on its last frame when it ran forward and on its first one
      when it ran backward, and says so. */
  lemma StopsAtAnEnd(p: Player, t: real)
    requires p.total > 0.0 && Running(p)
    ensures var (q, events) := Advanced(p, t);
            q.paused ==>
              && events == [Complete]
              && q.frame == if p.modifier > 0.0 && p.frame + t * p.modifier >= p.total - 1.0 then p.total - 1.0 else 0.0
  {
    assert Target(p, t) == p.frame + t * p.modifier;
    hide Target, Rem;
  }

  /** A step that goes on moves the position by its time times the rate and then by whole passes, into
      the animation: from its start on when it runs forward, from its end back when it runs backward. */
  lemma MovesByWholePasses(p: Player, t: real) returns (passes: int)
    requires p.total > 0.0 && InRange(p) && p.segments == [] && Running(p) && t >= 0.0
    ensures var q, target := Advanced(p, t).0, p.frame + t * p.modifier;
            !q.paused ==>
              && q.frame == target + LoopLength(passes, p.total)
              && (0.0 <= target < p.total ==> passes == 0)
              && (target >= p.total && p.modifier > 0.0 ==> passes < 0 && 0.0 <= q.frame < p.total)
              && (target < 0.0 ==> passes > 0 && 0.0 < q.frame <= p.total)
              && (p.total <= target < 2.0 * p.total && p.modifier > 0.0 ==> passes == -1)
              && (-p.total < target < 0.0 ==> passes == 1)
  {
    var e := Target(p, t);
    SignOfProduct(t, p.modifier);
    assert e == p.frame + t * p.modifier;
    hide Target, Rem, LoopLength;
    NoPass(p.total);
    passes := 0;
    if e < 0.0 || e >= p.total {
      passes := WholePasses(e, p.total);
      if e >= p.total && p.modifier <= 0.0 {
        passes := 0;
      }
    }
  }

  lemma NoPass(n: real)
    ensures LoopLength(0, n) == 0.0
  {
  }

  lemma WholePasses(e: real, n: real) returns (passes: int)
    requires n > 0.0 && (e < 0.0 || e >= n)
    ensures e >= n ==> Rem(e, n) == e + LoopLength(passes, n) && passes < 0 && 0.0 <= Rem(e, n) < n
    ensures e < 0.0 ==> n + Rem(e, n) == e + LoopLength(passes, n) && passes > 0 && 0.0 < n + Rem(e, n) <= n
    ensures n <= e < 2.0 * n ==> passes == -1
    ensures -n < e < 0.0 ==> passes == 1
  {
    RemRange(e, n);
    WholeFits(if e >= 0.0 then e else -e, n);
    if e < 0.0 {
      passes := 1 + Whole(-e, n);
      Scaled(Whole(-e, n), n);
    } else {
      passes := -Whole(e, n);
      Scaled(Whole(e, n), n);
      if Whole(e, n) == 0 {
        assert false;
      }
    }
  }

  lemma Scaled(k: int, n: real)
    ensures LoopLength(-k, n) == -(n * k as real) && LoopLength(1 + k, n) == n + n * k as real
  {
  }

  lemma SignOfProduct(t: real, m: real)
    requires t >= 0.0
    ensures m >= 0.0 ==> Moved(t, m) >= 0.0
    ensures m <= 0.0 ==> Moved(t, m) <= 0.0
  {
  }

  /** The offset carried into a segment. */
  function Carried(p: Player, t: real): real
    requires p.total > 0.0
  {
    var e := Target(p, t);
    if p.modifier > 0.0 && e >= p.total - 1.0 && !MayLoop(p) && e <= p.total then 0.0 else Rem(e, p.total)
  }

  /** Switching to a segment turns the playback towards it, at the same pace, and lands as far behind its
      first frame as the offset carried says; that is inside it exactly when the offset fits. */
  lemma SwitchLandsInside(p: Player, t: real)
    requires p.total > 0.0 && Switches(p, t) && p.mult > 0.0 && p.modifier == p.mult * p.speed * p.direction
    requires p.segments[0].0 != p.segments[0].1
    ensures var q, (from, to) := Advanced(p, t).0, p.segments[0];
            && q.segments == p.segments[1..] && q.count == 0
            && q.total == (if from < to then to - from else from - to) > 0.0
            && (p.modifier != 0.0 ==> (q.modifier > 0.0 <==> from < to))
            && (p.direction == 1.0 || p.direction == -1.0 ==> q.modifier == p.modifier || q.modifier == -p.modifier)
            && q.first == (if from < to then from else to)
            && q.first + q.frame == (if from < to then from + 0.001 + Carried(p, t) else from - 0.001 - Carried(p, t))
            && (InRange(q) <==> 0.0 <= 0.001 + Carried(p, t) <= q.total)
  {
    hide Rem, Adjusted;
    assert Advanced(p, t).0 == NextSegment(if MayLoop(p) && p.modifier > 0.0 && Target(p, t) >= p.total
                                           then p.(count := p.count + 1) else p, Carried(p, t));
    var rest := p.(segments := p.segments[1..]);
    AdjustedLands(rest, p.segments[0].0, p.segments[0].1, Carried(p, t));
    AdjustedLands(rest.(count := p.count + 1), p.segments[0].0, p.segments[0].1, Carried(p, t));
  }

  lemma AdjustedLands(p: Player, from: real, to: real, offset: real)
    requires p.mult > 0.0 && p.modifier == p.mult * p.speed * p.direction && from != to
    ensures var q := Adjusted(p, from, to, offset);
            && q.segments == p.segments && q.count == 0
            && q.total == (if from < to then to - from else from - to) > 0.0
            && (p.modifier != 0.0 ==> (q.modifier > 0.0 <==> from < to))
            && (p.direction == 1.0 || p.direction == -1.0 ==> q.modifier == p.modifier || q.modifier == -p.modifier)
            && q.first == (if from < to then from else to)
            && q.first + q.frame == (if from < to then from + 0.001 + offset else from - 0.001 - offset)
            && (InRange(q) <==> 0.0 <= 0.001 + offset <= q.total)
  {
    Turned(p.mult, p.speed, p.direction);
  }

  /** A loop that ends twenty frames into its next pass enters a ten-frame segment behind its end. */
  lemma SegmentEnteredOutside(p: Player, t: real)
    requires p.total == 100.0 && p.frame == 0.0 && p.mult == p.speed == p.direction == p.modifier == 1.0
    requires Running(p) && p.loop == Forever && p.segments == [(0.0, 10.0)] && t == 120.0
    ensures !InRange(Advanced(p, t).0)
  {
    hide Rem;
    RemRange(Target(p, t), p.total);
    SwitchLandsInside(p, t);
  }

  lemma Turned(mult: real, speed: real, d: real)
    requires mult > 0.0
    ensures mult * -speed * d == -(mult * speed * d)
    ensures mult * speed * -1.0 == -(mult * speed * 1.0)
    ensures mult * speed * d > 0.0 && speed < 0.0 ==> mult * -speed * d < 0.0
    ensures mult * speed * d > 0.0 && speed >= 0.0 ==> mult * speed * -1.0 < 0.0
    ensures mult * speed * d < 0.0 && speed < 0.0 ==> mult * -speed * d > 0.0
    ensures mult * speed * d < 0.0 && speed >= 0.0 ==> mult * speed * 1.0 > 0.0
  {
    var x := mult * speed;
    assert mult * -speed == -x;
    assert -x * d == -(x * d);
    assert x == 0.0 ==> x * d == 0.0;
    assert speed == 0.0 ==> x == 0.0;
    assert speed > 0.0 ==> x > 0.0;
  }

  // ----- whole runs -----

  datatype Command = Tick(t: real) | NewSpeed(s: real) | NewDirection(d: real) | Play | Pause | Stop

  function Do(p: Player, c: Command): (r: (Player, seq<Event>))
    requires p.total > 0.0
    ensures r.0.total > 0.0
  {
    match c
    case Tick(t) => Advanced(p, t)
    case NewSpeed(s) => (WithSpeed(p, s), [])
    case NewDirection(d) => (WithDirection(p, d), [])
    case Play => (p.(paused := false), [])
    case Pause => (p.(paused := true), [])
    case Stop => (p.(paused := true, count := 0, completedLoop := false, frame := 0.0), [])
  }

  function Ran(p: Player, cs: seq<Command>): (r: (Player, seq<Event>))
    requires p.total > 0.0
    ensures r.0.total > 0.0
  {
    if cs == [] then (p, [])
    else
      var (q, before) := Ran(p, cs[..|cs| - 1]);
      var (r, now) := Do(q, cs[|cs| - 1]);
      (r, before + now)
  }

  /** Forwards, backwards, at changing speeds: the position never leaves the animation. */
  lemma {:induction false} RunsStayInRange(p: Player, cs: seq<Command>)
    requires Framed(p) && InRange(p) && p.segments == []
    requires forall k | 0 <= k < |cs| :: cs[k].Tick? ==> cs[k].t >= 0.0
    ensures var q := Ran(p, cs).0; InRange(q) && q.total == p.total && q.segments == []
  {
    if cs != [] {
      RunsStayInRange(p, cs[..|cs| - 1]);
      var q := Ran(p, cs[..|cs| - 1]).0;
      var c := cs[|cs| - 1];
      if c.Tick? {
        StepStaysInRange(q, c.t);
      }
    }
  }

  function Ticks(ts: seq<real>): seq<Command> {
    seq(|ts|, k requires 0 <= k < |ts| => Tick(ts[k]))
  }

  lemma LastTick(p: Player, ts: seq<real>)
    requires p.total > 0.0 && ts != []
    ensures var (q, before) := Ran(p, Ticks(ts[..|ts| - 1]));
            var (r, now) := Advanced(q, ts[|ts| - 1]);
            Ran(p, Ticks(ts)) == (r, before + now)
  {
    hide Advanced;
    assert Ticks(ts)[..|ts| - 1] == Ticks(ts[..|ts| - 1]);
  }

  function Repeat(e: Event, n: nat): seq<Event> {
    seq(n, _ => e)
  }

  /** What a forward run from `p` has reached: one `loopComplete` per loop, and the end only when
      the loops are used up. */
  ghost predicate Reached(p: Player, q: Player, events: seq<Event>) {
    && p.loop.Times?
    && q == p.(frame := q.frame, count := q.count, paused := q.paused, completedLoop := q.completedLoop)
    && q.count >= p.count
    && events == Repeat(LoopComplete, q.count - p.count) + (if q.paused then [Complete] else [])
    && (p.count <= p.loop.n ==> q.count <= p.loop.n)
    && if q.paused then q.count == p.loop.n && q.frame == p.total - 1.0 else InRange(q)
  }

  predicate Forward(p: Player) {
    Framed(p) && InRange(p) && p.segments == [] && Running(p) && p.modifier > 0.0 && p.loop.Times? && p.loop.n > 0
  }

  /** Playing forward: loops are counted up to the loop count and never beyond, and the animation
      completes once, on its last frame, after the last loop. */
  lemma {:induction false} ForwardRun(p: Player, ts: seq<real>)
    requires Forward(p) && forall k | 0 <= k < |ts| :: ts[k] >= 0.0
    ensures var (q, events) := Ran(p, Ticks(ts)); Reached(p, q, events)
  {
    if ts == [] {
    } else {
      var before := ts[..|ts| - 1];
      ForwardRun(p, before);
      LastTick(p, ts);
      var (q, events) := Ran(p, Ticks(before));
      ForwardStep(p, q, events, ts[|ts| - 1]);
    }
  }

  lemma ForwardStep(p: Player, q: Player, events: seq<Event>, t: real)
    requires Forward(p) && Reached(p, q, events) && t >= 0.0
    ensures var (r, now) := Advanced(q, t); Reached(p, r, events + now)
  {
    hide Rem;
    if !q.paused {
      RemRange(Target(q, t), q.total);
      SignOfProduct(t, q.modifier);
      assert Repeat(LoopComplete, q.count - p.count) + [LoopComplete] == Repeat(LoopComplete, q.count + 1 - p.count);
    }
  }

  /** How far the ticks move the position, loops included. */
  function Distance(ts: seq<real>, modifier: real): real {
    if ts == [] then 0.0 else Distance(ts[..|ts| - 1], modifier) + Moved(ts[|ts| - 1], modifier)
  }

  function LoopLength(k: int, total: real): real {
    k as real * total
  }

  /** Loops done and position add up to the distance played. */
  ghost predicate OnCourse(p: Player, q: Player, distance: real) {
    var loops := LoopLength(q.count - p.count, p.total);
    if q.paused then p.frame + distance >= loops + p.total - 1.0
    else q.frame + loops == p.frame + distance
  }

  /** The tick moves past two ends at once while a loop is left: it would be counted as one. */
  predicate SkipsLoop(q: Player, t: real) {
    !q.paused && MayLoop(q) && Target(q, t) >= 2.0 * q.total
  }

  /** A tick keeps the count of distance and loops exact if and only if it skips no loop. */
  lemma TickKeepsCourseIff(p: Player, q: Player, events: seq<Event>, t: real, distance: real)
    requires Forward(p) && Reached(p, q, events) && OnCourse(p, q, distance) && t >= 0.0
    ensures OnCourse(p, Advanced(q, t).0, distance + Moved(t, p.modifier)) <==> !SkipsLoop(q, t)
  {
    hide Rem, LoopLength, Moved;
    SignOfProduct(t, p.modifier);
    if !q.paused {
      RemRange(Target(q, t), q.total);
      OneMore(q.count - p.count, p.total);
    }
  }

  /** No tick of the run skips a loop. */
  ghost predicate NoneSkips(p: Player, ts: seq<real>)
    requires p.total > 0.0
  {
    forall k | 0 <= k < |ts| :: !SkipsLoop(Ran(p, Ticks(ts[..k])).0, ts[k])
  }

  /** No distance is lost or played twice at any moment of a run if and only if no tick skips a loop. */
  lemma {:induction false} DistanceIsKeptIff(p: Player, ts: seq<real>)
    requires Forward(p) && forall k | 0 <= k < |ts| :: ts[k] >= 0.0
    ensures (forall k | 0 <= k <= |ts| :: OnCourse(p, Ran(p, Ticks(ts[..k])).0, Distance(ts[..k], p.modifier)))
       <==> NoneSkips(p, ts)
  {
    hide Ran, Ticks, OnCourse, Distance, SkipsLoop;
    if NoneSkips(p, ts) {
      forall k | 0 <= k <= |ts| ensures OnCourse(p, Ran(p, Ticks(ts[..k])).0, Distance(ts[..k], p.modifier)) {
        assert NoneSkips(p, ts[..k]) by {
          forall j | 0 <= j < k ensures !SkipsLoop(Ran(p, Ticks(ts[..k][..j])).0, ts[..k][j]) {
            assert ts[..k][..j] == ts[..j];
          }
        }
        DistanceIsKept(p, ts[..k]);
      }
    } else {
      var k :| 0 <= k < |ts| && SkipsLoop(Ran(p, Ticks(ts[..k])).0, ts[k]);
      OneTick(p, ts[..k + 1]);
      assert ts[..k + 1][..k] == ts[..k];
    }
  }

  /** The last tick of a run, when what came before was on course. */
  lemma OneTick(p: Player, ts: seq<real>)
    requires Forward(p) && ts != [] && forall k | 0 <= k < |ts| :: ts[k] >= 0.0
    ensures var before, t := ts[..|ts| - 1], ts[|ts| - 1];
            var q := Ran(p, Ticks(before)).0;
            OnCourse(p, q, Distance(before, p.modifier)) ==>
              (OnCourse(p, Ran(p, Ticks(ts)).0, Distance(ts, p.modifier)) <==> !SkipsLoop(q, t))
  {
    hide LoopLength, Moved, OnCourse, Reached, Advanced, SkipsLoop;
    var before := ts[..|ts| - 1];
    var (q, events) := Ran(p, Ticks(before));
    ForwardRun(p, before);
    LastTick(p, ts);
    hide Ran, Ticks;
    if OnCourse(p, q, Distance(before, p.modifier)) {
      TickKeepsCourseIff(p, q, events, ts[|ts| - 1], Distance(before, p.modifier));
    }
  }

  /** Loops done and position add up to the distance played. */
  lemma {:induction false} DistanceIsKept(p: Player, ts: seq<real>)
    requires Forward(p) && (forall k | 0 <= k < |ts| :: ts[k] >= 0.0) && NoneSkips(p, ts)
    ensures var q := Ran(p, Ticks(ts)).0; OnCourse(p, q, Distance(ts, p.modifier))
  {
    if ts == [] {
    } else {
      hide Ran, Ticks, OnCourse, Distance, SkipsLoop;
      var before := ts[..|ts| - 1];
      forall k | 0 <= k < |before| ensures !SkipsLoop(Ran(p, Ticks(before[..k])).0, before[k]) {
        assert before[..k] == ts[..k];
      }
      DistanceIsKept(p, before);
      OneTick(p, ts);
    }
  }

  lemma OneMore(k: int, total: real)
    ensures LoopLength(k + 1, total) == LoopLength(k, total) + total
  {
  }

  // ----- backward runs -----

  predicate Backward(p: Player) {
    p.total > 0.0 && InRange(p) && p.segments == [] && Running(p) && p.modifier < 0.0 && Loops(p.loop)
  }

  /** How many passes a backward run from `p` has made; the step that stops it makes none. */
  function PassesBack(p: Player, q: Player): int {
    p.count - q.count - if q.paused then 1 else 0
  }

  /** What a backward run from `p` has reached: one `loopComplete` for each pass, except for the first that
      the animation ever makes, and the end on its first frame when no loop is left. */
  ghost predicate ReachedBack(p: Player, q: Player, events: seq<Event>) {
    var passes := PassesBack(p, q);
    && q == p.(frame := q.frame, count := q.count, paused := q.paused, completedLoop := q.completedLoop)
    && passes >= 0 && InRange(q)
    && (q.completedLoop <==> p.completedLoop || passes > 0)
    && events == Repeat(LoopComplete, if p.completedLoop || passes == 0 then passes else passes - 1)
                 + (if q.paused then [Complete] else [])
    && (q.paused ==> !p.loop.Forever? && q.frame == 0.0 && passes == if p.count > 0 then p.count else 0)
    && (!p.loop.Forever? && p.count > 0 ==> passes <= p.count)
    && (!p.loop.Forever? && p.count <= 0 ==> passes == 0)
  }

  /** Playing backward: the counter is played down, and the animation completes once, on its first frame. */
  lemma {:induction false} BackwardRun(p: Player, ts: seq<real>)
    requires Backward(p) && forall k | 0 <= k < |ts| :: ts[k] >= 0.0
    ensures var (q, events) := Ran(p, Ticks(ts)); ReachedBack(p, q, events)
  {
    if ts != [] {
      var before := ts[..|ts| - 1];
      BackwardRun(p, before);
      LastTick(p, ts);
      var (q, events) := Ran(p, Ticks(before));
      hide Ran, Ticks;
      BackwardStep(p, q, events, ts[|ts| - 1]);
    }
  }

  lemma BackwardStep(p: Player, q: Player, events: seq<Event>, t: real)
    requires Backward(p) && ReachedBack(p, q, events) && t >= 0.0
    ensures var (r, now) := Advanced(q, t); ReachedBack(p, r, events + now)
  {
    hide Rem, Target;
    if !q.paused {
      TargetFalls(q, t);
      RemRange(Target(q, t), q.total);
      var n := |events|;
      assert Repeat(LoopComplete, n) + [LoopComplete] == Repeat(LoopComplete, n + 1);
      assert events + [] == events;
    }
  }

  lemma TargetFalls(q: Player, t: real)
    requires q.modifier < 0.0 && t >= 0.0
    ensures Target(q, t) <= q.frame
  {
    SignOfProduct(t, q.modifier);
  }

  /** Passes made and position add up to the distance played, which is negative. */
  ghost predicate OnCourseBack(p: Player, q: Player, distance: real) {
    var passes := LoopLength(PassesBack(p, q), p.total);
    if q.paused then p.frame + distance + passes < 0.0 else q.frame == p.frame + distance + passes
  }

  /** The tick moves past two starts at once while a loop is left. */
  predicate SkipsBack(q: Player, t: real) {
    !q.paused && (q.count > 0 || q.loop.Forever?) && Target(q, t) <= -q.total
  }

  /** A tick keeps the count of distance and passes exact if and only if it skips no pass. */
  lemma TickKeepsCourseBackIff(p: Player, q: Player, events: seq<Event>, t: real, distance: real)
    requires Backward(p) && ReachedBack(p, q, events) && OnCourseBack(p, q, distance) && t >= 0.0
    ensures OnCourseBack(p, Advanced(q, t).0, distance + Moved(t, p.modifier)) <==> !SkipsBack(q, t)
  {
    hide Rem, LoopLength, Moved;
    SignOfProduct(t, p.modifier);
    if !q.paused {
      RemRange(Target(q, t), q.total);
      if Target(q, t) < 0.0 {
        ShortRemainder(Target(q, t), q.total);
      }
      OneMore(p.count - q.count, p.total);
    }
  }

  /** Going back less than one pass the remainder is the number itself, and only then. */
  lemma ShortRemainder(e: real, n: real)
    requires n > 0.0 && e < 0.0
    ensures Rem(e, n) == e <==> -n < e
  {
    hide Whole;
    WholeFits(-e, n);
    RemRange(e, n);
  }

  ghost predicate NoneSkipsBack(p: Player, ts: seq<real>)
    requires p.total > 0.0
  {
    forall k | 0 <= k < |ts| :: !SkipsBack(Ran(p, Ticks(ts[..k])).0, ts[k])
  }

  /** Playing backward, no distance is lost or played twice at any moment if and only if no tick skips a
      pass. */
  lemma {:induction false} DistanceIsKeptBackIff(p: Player, ts: seq<real>)
    requires Backward(p) && forall k | 0 <= k < |ts| :: ts[k] >= 0.0
    ensures (forall k | 0 <= k <= |ts| :: OnCourseBack(p, Ran(p, Ticks(ts[..k])).0, Distance(ts[..k], p.modifier)))
       <==> NoneSkipsBack(p, ts)
  {
    hide Ran, Ticks, OnCourseBack, Distance, SkipsBack;
    if NoneSkipsBack(p, ts) {
      forall k | 0 <= k <= |ts| ensures OnCourseBack(p, Ran(p, Ticks(ts[..k])).0, Distance(ts[..k], p.modifier)) {
        assert NoneSkipsBack(p, ts[..k]) by {
          forall j | 0 <= j < k ensures !SkipsBack(Ran(p, Ticks(ts[..k][..j])).0, ts[..k][j]) {
            assert ts[..k][..j] == ts[..j];
          }
        }
        DistanceIsKeptBack(p, ts[..k]);
      }
    } else {
      var k :| 0 <= k < |ts| && SkipsBack(Ran(p, Ticks(ts[..k])).0, ts[k]);
      OneTickBack(p, ts[..k + 1]);
      assert ts[..k + 1][..k] == ts[..k];
    }
  }

  lemma OneTickBack(p: Player, ts: seq<real>)
    requires Backward(p) && ts != [] && forall k | 0 <= k < |ts| :: ts[k] >= 0.0
    ensures var before, t := ts[..|ts| - 1], ts[|ts| - 1];
            var q := Ran(p, Ticks(before)).0;
            OnCourseBack(p, q, Distance(before, p.modifier)) ==>
              (OnCourseBack(p, Ran(p, Ticks(ts)).0, Distance(ts, p.modifier)) <==> !SkipsBack(q, t))
  {
    hide LoopLength, Moved, OnCourseBack, ReachedBack, Advanced, SkipsBack;
    var before := ts[..|ts| - 1];
    var (q, events) := Ran(p, Ticks(before));
    BackwardRun(p, before);
    LastTick(p, ts);
    hide Ran, Ticks;
    if OnCourseBack(p, q, Distance(before, p.modifier)) {
      TickKeepsCourseBackIff(p, q, events, ts[|ts| - 1], Distance(before, p.modifier));
    }
  }

  lemma {:induction false} DistanceIsKeptBack(p: Player, ts: seq<real>)
    requires Backward(p) && (forall k | 0 <= k < |ts| :: ts[k] >= 0.0) && NoneSkipsBack(p, ts)
    ensures var q := Ran(p, Ticks(ts)).0; OnCourseBack(p, q, Distance(ts, p.modifier))
  {
    if ts == [] {
      NoPass(p.total);
    } else {
      hide Ran, Ticks, OnCourseBack, Distance, SkipsBack;
      var before := ts[..|ts| - 1];
      forall k | 0 <= k < |before| ensures !SkipsBack(Ran(p, Ticks(before[..k])).0, before[k]) {
        assert before[..k] == ts[..k];
      }
      DistanceIsKeptBack(p, before);
      OneTickBack(p, ts);
    }
  }

  /** The distance is the time played, at the rate of the run. */
  lemma {:induction false} DistanceIsTime(ts: seq<real>, modifier: real)
    ensures Distance(ts, modifier) == Time(ts) * modifier
  {
    if ts != [] {
      DistanceIsTime(ts[..|ts| - 1], modifier);
      assert Time(ts) * modifier == Time(ts[..|ts| - 1]) * modifier + ts[|ts| - 1] * modifier;
    }
  }

  function Time(ts: seq<real>): real {
    if ts == [] then 0.0 else Time(ts[..|ts| - 1]) + ts[|ts| - 1]
  }

  /** The animation is over only when its loops and its last pass have been played, and at the latest
      once more than that has been. */
  lemma CompletesInTime(p: Player, ts: seq<real>)
    requires Forward(p) && p.count <= p.loop.n
    requires (forall k | 0 <= k < |ts| :: ts[k] >= 0.0) && NoneSkips(p, ts)
    ensures var q, played := Ran(p, Ticks(ts)).0, p.frame + Distance(ts, p.modifier);
            && (q.paused ==> played >= LoopLength(p.loop.n - p.count, p.total) + p.total - 1.0)
            && (played > LoopLength(p.loop.n - p.count, p.total) + p.total ==> q.paused)
  {
    hide Ran, LoopLength, Moved, Distance, NoneSkips, SkipsLoop, Ticks, Repeat;
    DistanceIsKept(p, ts);
    ForwardRun(p, ts);
    var q := Ran(p, Ticks(ts)).0;
    if !q.paused {
      Fewer(q.count - p.count, p.loop.n - p.count, p.total);
    }
  }

  lemma Fewer(k: int, n: int, total: real)
    requires k <= n && total > 0.0
    ensures LoopLength(k, total) <= LoopLength(n, total)
  {
  }

  /** The step runs out before the start with no loop done and no segment waiting. */
  predicate CostsLoop(p: Player, t: real) {
    && Running(p) && Target(p, t) < 0.0 && !(Target(p, t) >= p.total - 1.0 && p.modifier > 0.0)
    && p.segments == [] && Loops(p.loop) && p.count == 0
  }

  /** A step leaves the loop counter below zero, one loop short, if and only if it runs out so. */
  lemma StepCostsLoopIff(p: Player, t: real)
    requires p.total > 0.0 && p.count >= 0
    ensures Advanced(p, t).0.count < 0 <==> CostsLoop(p, t)
  {
    hide Rem, Target;
  }

  /** Over any run of commands, from any queue of segments: the counter never falls below zero if and
      only if no tick runs out backwards with no loop done. */
  lemma CountStaysIff(p: Player, cs: seq<Command>)
    requires p.total > 0.0 && p.count >= 0
    ensures (forall k | 0 <= k <= |cs| :: Ran(p, cs[..k]).0.count >= 0)
       <==> (forall k | 0 <= k < |cs| && cs[k].Tick? :: !CostsLoop(Ran(p, cs[..k]).0, cs[k].t))
  {
    hide Ran, CostsLoop, Advanced;
    if forall k | 0 <= k <= |cs| :: Ran(p, cs[..k]).0.count >= 0 {
      forall k | 0 <= k < |cs| && cs[k].Tick? ensures !CostsLoop(Ran(p, cs[..k]).0, cs[k].t) {
        LastCommand(p, cs, k);
        StepCostsLoopIff(Ran(p, cs[..k]).0, cs[k].t);
        assert Ran(p, cs[..k + 1]).0.count >= 0;
      }
    }
    if forall k | 0 <= k < |cs| && cs[k].Tick? :: !CostsLoop(Ran(p, cs[..k]).0, cs[k].t) {
      forall k | 0 <= k <= |cs| ensures Ran(p, cs[..k]).0.count >= 0 {
        CountStays(p, cs, k);
      }
    }
  }

  lemma {:induction false} CountStays(p: Player, cs: seq<Command>, k: nat)
    requires p.total > 0.0 && p.count >= 0 && k <= |cs|
    requires forall j | 0 <= j < |cs| && cs[j].Tick? :: !CostsLoop(Ran(p, cs[..j]).0, cs[j].t)
    ensures Ran(p, cs[..k]).0.count >= 0
  {
    hide CostsLoop, Advanced;
    if k > 0 {
      CountStays(p, cs, k - 1);
      LastCommand(p, cs, k - 1);
      if cs[k - 1].Tick? {
        StepCostsLoopIff(Ran(p, cs[..k - 1]).0, cs[k - 1].t);
      }
    }
  }

  lemma LastCommand(p: Player, cs: seq<Command>, k: nat)
    requires p.total > 0.0 && k < |cs|
    ensures Ran(p, cs[..k + 1]).0 == Do(Ran(p, cs[..k]).0, cs[k]).0
  {
    hide Do;
    assert cs[..k + 1][..k] == cs[..k];
  }

  /** A forward run that completes triggers as many `loopComplete` as the loop count says if and only if
      it started with a counter of zero. */
  lemma CompletedLoopsIff(p: Player, ts: seq<real>)
    requires Forward(p) && forall k | 0 <= k < |ts| :: ts[k] >= 0.0
    ensures var (q, events) := Ran(p, Ticks(ts));
            q.paused ==> (events == Repeat(LoopComplete, p.loop.n) + [Complete] <==> p.count == 0)
  {
    hide Ran, Ticks;
    ForwardRun(p, ts);
    var (q, events) := Ran(p, Ticks(ts));
    if q.paused {
      assert |events| == p.loop.n - p.count + 1;
    }
  }

  /** Both together: running out backwards with no loop done makes a later forward run loop once more
      than the loop count says. */
  lemma BackwardEndCostsALoop(p: Player, t: real, ts: seq<real>)
    requires Framed(p) && Running(p) && p.segments == [] && p.loop.Times? && p.loop.n > 0 && p.count == 0
    requires p.modifier > 0.0 && Target(p.(modifier := -p.modifier), t) < 0.0
    requires forall k | 0 <= k < |ts| :: ts[k] >= 0.0
    ensures var (q, events) := Advanced(p.(modifier := -p.modifier), t);
            && events == [Complete] && q.paused && q.count == -1
            && var (r, later) := Ran(q.(paused := false, modifier := p.modifier), Ticks(ts));
               r.paused ==> later == Repeat(LoopComplete, p.loop.n + 1) + [Complete]
  {
    var q := Advanced(p.(modifier := -p.modifier), t).0;
    ForwardRun(q.(paused := false, modifier := p.modifier), ts);
  }

  /** A negative loop count is never reached: a forward run goes on for ever. */
  lemma {:induction false} NegativeLoopNeverEnds(p: Player, ts: seq<real>)
    requires Framed(p) && InRange(p) && p.segments == [] && Running(p) && p.modifier > 0.0
    requires p.loop.Times? && p.loop.n < 0 <= p.count && forall k | 0 <= k < |ts| :: ts[k] >= 0.0
    ensures var (q, events) := Ran(p, Ticks(ts));
            && Running(q) && q.count >= 0 && Complete !in events
            && q == p.(frame := q.frame, count := q.count, completedLoop := q.completedLoop) && InRange(q)
  {
    if ts != [] {
      NegativeLoopNeverEnds(p, ts[..|ts| - 1]);
      LastTick(p, ts);
      var q := Ran(p, Ticks(ts[..|ts| - 1])).0;
      hide Ran, Ticks, Rem;
      SignOfProduct(ts[|ts| - 1], q.modifier);
      RemRange(Target(q, ts[|ts| - 1]), q.total);
    }
  }

  /** An endless loop never ends, in either direction. */
  lemma {:induction false} EndlessLoopNeverEnds(p: Player, ts: seq<real>)
    requires p.total > 0.0 && p.loop == Forever && p.segments == [] && Running(p)
    ensures var (q, events) := Ran(p, Ticks(ts));
            Running(q) && q.loop == Forever && q.segments == [] && Complete !in events
  {
    if ts != [] {
      EndlessLoopNeverEnds(p, ts[..|ts| - 1]);
      LastTick(p, ts);
    }
  }

  // ----- the object -----

  class AnimationItem {
    var isPaused: bool
    var isLoaded: bool
    var currentRawFrame: real
    var totalFrames: real
    var firstFrame: real
    var frameMult: real
    var playSpeed: real
    var playDirection: real
    var frameModifier: real
    var loop: Loop
    var playCount: int
    var completedLoop: bool
    var segments: seq<(real, real)>
    /** The events triggered so far. */
    var events: seq<Event>

    ghost function Now(): Player
      reads this
    {
      Player(isPaused, isLoaded, currentRawFrame, totalFrames, firstFrame, frameMult, playSpeed,
             playDirection, frameModifier, loop, playCount, completedLoop, segments)
    }

    method UpdateFrameModifier()
      modifies `frameModifier
      ensures Now() == Modified(old(Now()))
    {
      frameModifier := frameMult * playSpeed * playDirection;
    }

    method SetSpeed(s: real)
      modifies `playSpeed, `frameModifier
      ensures Now() == WithSpeed(old(Now()), s)
    {
      playSpeed := s;
      UpdateFrameModifier();
    }

    method SetDirection(d: real)
      modifies `playDirection, `frameModifier
      ensures Now() == WithDirection(old(Now()), d)
    {
      playDirection := if d < 0.0 then -1.0 else 1.0;
      UpdateFrameModifier();
    }

    method AdjustSegment(from: real, to: real, offset: real)
      modifies this
      ensures Now() == Adjusted(old(Now()), from, to, offset)
      ensures events == old(events) + [SegmentStart]
    {
      playCount := 0;
      if to < from {
        if frameModifier > 0.0 {
          if playSpeed < 0.0 {
            SetSpeed(-playSpeed);
          } else {
            SetDirection(-1.0);
          }
        }
        totalFrames := from - to;
        firstFrame := to;
        currentRawFrame := totalFrames - 0.001 - offset;
      } else if to > from {
        if frameModifier < 0.0 {
          if playSpeed < 0.0 {
            SetSpeed(-playSpeed);
          } else {
            SetDirection(1.0);
          }
        }
        totalFrames := to - from;
        firstFrame := from;
        currentRawFrame := 0.001 + offset;
      }
      events := events + [SegmentStart];
    }

    method CheckSegments(offset: real) returns (taken: bool)
      modifies this
      ensures taken == (old(segments) != [])
      ensures !taken ==> Now() == old(Now()) && events == old(events)
      ensures taken ==> Now() == NextSegment(old(Now()), offset) && events == old(events) + [SegmentStart]
    {
      taken := segments != [];
      if taken {
        var s := segments[0];
        segments := segments[1..];
        AdjustSegment(s.0, s.1, offset);
      }
    }

    method AdvanceTime(t: real)
      requires totalFrames > 0.0
      modifies this
      ensures Now() == Advanced(old(Now()), t).0 && events == old(events) + Advanced(old(Now()), t).1
    {
      hide Adjusted, Rem;
      if isPaused || !isLoaded {
        return;
      }
      var e := currentRawFrame + t * frameModifier;
      var ended := false;
      if e >= totalFrames - 1.0 && frameModifier > 0.0 {
        if LoopsLeft(loop, playCount) {
          if e >= totalFrames {
            playCount := playCount + 1;
            var taken := CheckSegments(Rem(e, totalFrames));
            if !taken {
              currentRawFrame, completedLoop := Rem(e, totalFrames), true;
              events := events + [LoopComplete];
            }
          } else {
            currentRawFrame := e;
          }
        } else {
          var taken := CheckSegments(if e > totalFrames then Rem(e, totalFrames) else 0.0);
          if !taken {
            ended, e := true, totalFrames - 1.0;
          }
        }
      } else if e < 0.0 {
        var taken := CheckSegments(Rem(e, totalFrames));
        if !taken {
          var stop := !Loops(loop);
          if !stop {
            stop := playCount <= 0 && !loop.Forever?;
            playCount := playCount - 1;
          }
          if stop {
            ended, e := true, 0.0;
          } else {
            currentRawFrame := totalFrames + Rem(e, totalFrames);
            if completedLoop {
              events := events + [LoopComplete];
            } else {
              completedLoop := true;
            }
          }
        }
      } else {
        currentRawFrame := e;
      }
      if ended {
        currentRawFrame, isPaused := e, true;
        events := events + [Complete];
      }
    }
  }
}

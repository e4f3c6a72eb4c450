/** Finding the curve parameter at a fraction of a curve's length. */
module ArcLength {

  /** `|lengths|` samples at evenly spaced parameters, with the length up to each of them. */
  datatype Table = Table(percents: seq<real>, lengths: seq<real>, added: real)

  ghost predicate Sorted(lengths: seq<real>) {
    forall j, k | 0 <= j <= k < |lengths| :: lengths[j] <= lengths[k]
  }

  ghost predicate Valid(c: Table) {
    && |c.percents| == |c.lengths| >= 2 && c.added >= 0.0
    && c.lengths[0] == 0.0 && Sorted(c.lengths)
    && forall k | 0 <= k < |c.percents| :: c.percents[k] == Even(k, |c.percents| - 1)
  }

  function Even(k: nat, last: nat): real
    requires last > 0
  {
    k as real / last as real
  }

  /** Sample `k` starts the segment in which length `n` is reached. */
  predicate Holds(lengths: seq<real>, k: int, n: real) {
    0 <= k < |lengths| - 1 && lengths[k] <= n < lengths[k + 1]
  }

  /** A full scan for that segment, from sample `k` on; the last sample if there is none. */
  function Scan(lengths: seq<real>, k: nat, n: real): (r: nat)
    requires k < |lengths|
    ensures k <= r < |lengths|
    ensures r < |lengths| - 1 ==> Holds(lengths, r, n)
    ensures forall j | k <= j < r :: !Holds(lengths, j, n)
    decreases |lengths| - k
  {
    if k == |lengths| - 1 || Holds(lengths, k, n) then k else Scan(lengths, k + 1, n)
  }

  lemma OneSegment(lengths: seq<real>, j: int, k: int, n: real)
    requires Sorted(lengths) && Holds(lengths, j, n) && Holds(lengths, k, n)
    ensures j == k
  {
  }

  /** How much of segment `k` lies before length `n`. */
  function Share(lengths: seq<real>, k: nat, n: real): real
    requires Holds(lengths, k, n)
  {
    (n - lengths[k]) / (lengths[k + 1] - lengths[k])
  }

  /** The parameter that far into segment `k`. */
  function Within(percents: seq<real>, k: nat, o: real): real
    requires k + 1 < |percents|
  {
    percents[k] + (percents[k + 1] - percents[k]) * o
  }

  /** The length at fraction `t`. */
  function Asked(c: Table, t: real): real {
    t * c.added
  }

  lemma AskedRange(c: Table, t: real)
    requires c.added >= 0.0 && 0.0 <= t <= 1.0
    ensures 0.0 <= Asked(c, t) <= c.added
    ensures t == 1.0 ==> Asked(c, t) == c.added
    ensures t < 1.0 && c.added > 0.0 ==> Asked(c, t) < c.added
    ensures c.added == 0.0 ==> Asked(c, t) == 0.0
  {
    Times(c.added, t, Asked(c, t));
  }

  lemma Times(a: real, t: real, x: real)
    requires a >= 0.0 && 0.0 <= t <= 1.0 && x == t * a
    ensures 0.0 <= x <= a && (t < 1.0 && a > 0.0 ==> x < a) && (t == 1.0 ==> x == a) && (a == 0.0 ==> x == 0.0)
  {
    var rest := (1.0 - t) * a;
    assert rest == a - x;
    Product(1.0 - t, a);
    Product(t, a);
  }

  function Guess(c: Table, t: real): (a: int)
    requires Valid(c) && 0.0 <= t <= 1.0
    ensures 0 <= a < |c.lengths| && (a == |c.lengths| - 1 <==> t == 1.0)
  {
    GuessRange(|c.lengths| - 1, t);
    ((|c.lengths| - 1) as real * t).Floor
  }

  lemma GuessRange(m: nat, t: real)
    requires m > 0 && 0.0 <= t <= 1.0
    ensures 0.0 <= m as real * t <= m as real
    ensures m as real * t == m as real <==> t == 1.0
  {
  }

  /** The parameter found: the guessed sample where that answers at once, otherwise a point of the
      segment that a full scan finds. */
  function Found(c: Table, t: real): real
    requires Valid(c) && 0.0 <= t <= 1.0
  {
    var a, n := Guess(c, t), Asked(c, t);
    var k := Scan(c.lengths, 0, n);
    if a == |c.lengths| - 1 || a == 0 || n == c.lengths[a] then c.percents[a]
    else if k == |c.lengths| - 1 then c.percents[k]
    else Within(c.percents, k, Share(c.lengths, k, n))
  }

  /** The search loop, from a guess towards the segment, in either direction. */
  method Hunt(lengths: seq<real>, start: nat, n: real) returns (a: nat, o: real)
    requires Sorted(lengths) && start < |lengths| - 1 && lengths[0] <= n
    ensures a == Scan(lengths, 0, n)
    ensures a < |lengths| - 1 ==> o == Share(lengths, a, n)
  {
    hide Scan, Share;
    var s := |lengths|;
    var h := if lengths[start] > n then -1 else 1;
    a, o := start, 0.0;
    while !(lengths[a] <= n < lengths[a + 1])
      invariant 0 <= a < s - 1 && (h == 1 || h == -1)
      invariant if h == 1 then lengths[a] <= n else lengths[a] > n || Holds(lengths, a, n)
      decreases if h == 1 then s - a else a
    {
      a := a + h;
      if s - 1 <= a {
        NoneHolds(lengths, n);
        return;
      }
    }
    o := Share(lengths, a, n);
    OneSegment(lengths, a, Scan(lengths, 0, n), n);
  }

  lemma NoneHolds(lengths: seq<real>, n: real)
    requires Sorted(lengths) && lengths != [] && lengths[|lengths| - 1] <= n
    ensures Scan(lengths, 0, n) == |lengths| - 1
  {
  }

  /** The parameter at fraction `t` of the length. */
  method Search(c: Table, t: real) returns (x: real)
    requires Valid(c) && 0.0 <= t <= 1.0
    ensures x == Found(c, t)
  {
    hide Even, Scan, Share, Within, Guess, Asked;
    var a := Guess(c, t);
    var n := Asked(c, t);
    if a == |c.percents| - 1 || a == 0 || n == c.lengths[a] {
      return c.percents[a];
    }
    AskedRange(c, t);
    var o;
    a, o := Hunt(c.lengths, a, n);
    x := if a == |c.percents| - 1 then c.percents[a] else Within(c.percents, a, o);
  }

  // ----- what is found -----

  function Position(last: nat, x: real): real {
    last as real * x
  }

  function Mix(p: real, q: real, o: real): real {
    p + o * (q - p)
  }

  /** The length at parameter `x`: linear between the samples. */
  function LengthAt(c: Table, x: real): real
    requires Valid(c) && 0.0 <= x <= 1.0
  {
    var last := |c.lengths| - 1;
    GuessRange(last, x);
    var k := Position(last, x).Floor;
    if k == last then c.lengths[k] else Mix(c.lengths[k], c.lengths[k + 1], Position(last, x) - k as real)
  }

  lemma Product(a: real, b: real)
    requires a >= 0.0 && b >= 0.0
    ensures a * b >= 0.0 && (a > 0.0 && b > 0.0 ==> a * b > 0.0)
  {
  }

  lemma MixBetween(p: real, q: real, o: real)
    requires p <= q && 0.0 <= o <= 1.0
    ensures p <= Mix(p, q, o) <= q
  {
    Product(o, q - p);
    Product(1.0 - o, q - p);
    assert (1.0 - o) * (q - p) == (q - p) - o * (q - p);
  }

  lemma MixGrows(p: real, q: real, o: real, u: real)
    requires p <= q && o <= u
    ensures Mix(p, q, o) <= Mix(p, q, u)
  {
    Product(u - o, q - p);
    assert (u - o) * (q - p) == u * (q - p) - o * (q - p);
  }

  lemma MixEnds(p: real, q: real)
    ensures Mix(p, q, 0.0) == p
  {
  }

  lemma ShareMixes(lengths: seq<real>, k: nat, n: real)
    requires Holds(lengths, k, n)
    ensures 0.0 <= Share(lengths, k, n) < 1.0
    ensures Mix(lengths[k], lengths[k + 1], Share(lengths, k, n)) == n
  {
    DivisionBack(n - lengths[k], lengths[k + 1] - lengths[k], Share(lengths, k, n));
  }

  lemma DivisionBack(a: real, b: real, o: real)
    requires 0.0 <= a < b && o == a / b
    ensures 0.0 <= o < 1.0 && o * b == a
  {
  }

  /** A point between two evenly spaced samples is where it should be. */
  lemma EvenPoint(last: nat, k: nat, o: real)
    requires k <= last && last > 0 && 0.0 <= o < 1.0 && (k == last ==> o == 0.0)
    ensures var x := Mix(Even(k, last), Even(k + 1, last), o);
            0.0 <= x <= 1.0 && Position(last, x) == k as real + o
  {
    var m, e, e' := last as real, Even(k, last), Even(k + 1, last);
    assert e * m == k as real && e' * m == k as real + 1.0;
    var x := e + o * (e' - e);
    assert (e' - e) * m == 1.0;
    assert m * x == e * m + o * ((e' - e) * m);
    Bounded(m, x, k as real + o);
  }

  lemma Bounded(m: real, x: real, y: real)
    requires m > 0.0 && m * x == y && 0.0 <= y <= m
    ensures 0.0 <= x <= 1.0
  {
  }

  /** The parameter found lies on the curve, even when the total disagrees with the table. */
  lemma FoundOnCurve(c: Table, t: real)
    requires Valid(c) && 0.0 <= t <= 1.0
    ensures 0.0 <= Found(c, t) <= 1.0
  {
    hide Even, Scan, Share, Guess, Asked, LengthAt, Within;
    var a, n := Guess(c, t), Asked(c, t);
    var k := Scan(c.lengths, 0, n);
    if a == |c.lengths| - 1 || a == 0 || n == c.lengths[a] {
      AtSample(c, a);
    } else if k == |c.lengths| - 1 {
      AtSample(c, k);
    } else {
      InSegment(c, k, n);
    }
  }

  /** The parameter found is where the curve has the length asked for, except that the fractions below
      that of one stretch are answered with the start. */
  lemma SearchInverts(c: Table, t: real)
    requires Valid(c) && c.added == c.lengths[|c.lengths| - 1] && 0.0 <= t <= 1.0
    ensures 0.0 <= Found(c, t) <= 1.0
    ensures LengthAt(c, Found(c, t)) == t * c.added
       <==> (|c.lengths| - 1) as real * t >= 1.0 || t * c.added == 0.0
  {
    hide Found, Guess, LengthAt, Valid;
    GuessIsFirstIff(c, t);
    FoundInverts(c, t);
  }

  lemma FoundInverts(c: Table, t: real)
    requires Valid(c) && c.added == c.lengths[|c.lengths| - 1] && 0.0 <= t <= 1.0
    ensures 0.0 <= Found(c, t) <= 1.0
    ensures LengthAt(c, Found(c, t)) == Asked(c, t) <==> Guess(c, t) != 0 || Asked(c, t) == 0.0
  {
    hide Even, Scan, Share, Position, Mix, Guess, Asked, LengthAt, Within;
    var last, a, n := |c.lengths| - 1, Guess(c, t), Asked(c, t);
    AskedRange(c, t);
    if a == last || a == 0 || n == c.lengths[a] {
      AtSample(c, a);
    } else {
      BeforeTheEnd(c, t, a);
      InSegment(c, Scan(c.lengths, 0, n), n);
    }
  }

  lemma GuessIsFirstIff(c: Table, t: real)
    requires Valid(c) && 0.0 <= t <= 1.0
    ensures Guess(c, t) == 0 <==> (|c.lengths| - 1) as real * t < 1.0
  {
    hide Even, Sorted;
    var x := Position(|c.lengths| - 1, t);
    GuessRange(|c.lengths| - 1, t);
    FloorIsZeroIff(x);
    assert Guess(c, t) == x.Floor;
  }

  lemma FloorIsZeroIff(x: real)
    requires x >= 0.0
    ensures x.Floor == 0 <==> x < 1.0
  {
  }

  lemma InSegment(c: Table, k: nat, n: real)
    requires Valid(c) && Holds(c.lengths, k, n)
    ensures var x := Within(c.percents, k, Share(c.lengths, k, n)); 0.0 <= x <= 1.0 && LengthAt(c, x) == n
  {
    hide Even, Share, Position, Mix;
    var last, o := |c.lengths| - 1, Share(c.lengths, k, n);
    ShareMixes(c.lengths, k, n);
    EvenPoint(last, k, o);
    WithinMixes(c.percents, k, o);
  }

  /** A quarter of the way along three samples is answered with the start. */
  lemma FirstStretchIsLost(c: Table)
    requires c == Table([0.0, 0.5, 1.0], [0.0, 1.0, 2.0], 2.0)
    ensures Valid(c) && Found(c, 0.25) == 0.0 && LengthAt(c, 0.0) != Asked(c, 0.25)
  {
    assert Even(0, 2) == 0.0 && Even(1, 2) == 0.5 && Even(2, 2) == 1.0;
    assert Valid(c);
    assert Guess(c, 0.25) == 0;
  }

  lemma WithinMixes(percents: seq<real>, k: nat, o: real)
    requires k + 1 < |percents|
    ensures Within(percents, k, o) == Mix(percents[k], percents[k + 1], o)
  {
  }

  lemma AtSample(c: Table, a: nat)
    requires Valid(c) && a < |c.lengths|
    ensures 0.0 <= c.percents[a] <= 1.0 && LengthAt(c, c.percents[a]) == c.lengths[a]
  {
    hide Even, Mix, Position;
    var last := |c.lengths| - 1;
    EvenPoint(last, a, 0.0);
    MixEnds(Even(a, last), Even(a + 1, last));
    if a < last {
      MixEnds(c.lengths[a], c.lengths[a + 1]);
    }
  }

  lemma BeforeTheEnd(c: Table, t: real, a: nat)
    requires Valid(c) && c.added == c.lengths[|c.lengths| - 1] && 0.0 <= t < 1.0
    requires a < |c.lengths| && Asked(c, t) != c.lengths[a]
    ensures Scan(c.lengths, 0, Asked(c, t)) < |c.lengths| - 1
  {
    hide Asked, Scan, Even;
    AskedRange(c, t);
    assert c.lengths[0] <= c.lengths[a] <= c.lengths[|c.lengths| - 1];
    SomeHolds(c.lengths, Asked(c, t), |c.lengths| - 1);
  }

  /** Some segment before sample `k` holds every length from the first up to that sample. */
  lemma {:induction false} SomeHolds(lengths: seq<real>, n: real, k: nat)
    requires k < |lengths| && lengths[0] <= n < lengths[k]
    ensures Scan(lengths, 0, n) < k
  {
    if lengths[k - 1] > n {
      SomeHolds(lengths, n, k - 1);
    } else {
      assert Holds(lengths, k - 1, n);
    }
  }

  lemma PositionGrows(last: nat, x: real, y: real)
    requires last > 0 && 0.0 <= x <= y <= 1.0
    ensures 0.0 <= Position(last, x) <= Position(last, y) <= last as real
  {
    Product(y - x, last as real);
    assert (y - x) * last as real == Position(last, y) - Position(last, x);
    GuessRange(last, x);
    GuessRange(last, y);
  }

  lemma LengthAtGrows(c: Table, x: real, y: real)
    requires Valid(c) && 0.0 <= x <= y <= 1.0
    ensures LengthAt(c, x) <= LengthAt(c, y)
  {
    var last := |c.lengths| - 1;
    PositionGrows(last, x, y);
    var p, q := Position(last, x), Position(last, y);
    LengthAtSample(c, x, p.Floor);
    LengthAtSample(c, y, q.Floor);
    hide Position, LengthAt, Mix, Even;
    var i, j := p.Floor, q.Floor;
    if i == j {
      if i < last {
        MixGrows(c.lengths[i], c.lengths[i + 1], p - i as real, q - i as real);
      }
    } else {
      assert c.lengths[i + 1] <= c.lengths[j];
    }
  }

  lemma LengthAtSample(c: Table, x: real, k: int)
    requires Valid(c) && 0.0 <= x <= 1.0 && k == Position(|c.lengths| - 1, x).Floor
    requires 0 <= k < |c.lengths|
    ensures c.lengths[k] <= LengthAt(c, x)
    ensures k == |c.lengths| - 1 ==> LengthAt(c, x) == c.lengths[k]
    ensures k < |c.lengths| - 1 ==>
              LengthAt(c, x) == Mix(c.lengths[k], c.lengths[k + 1],
                                    Position(|c.lengths| - 1, x) - k as real) <= c.lengths[k + 1]
  {
    hide Mix, Even, Position;
    if k < |c.lengths| - 1 {
      MixBetween(c.lengths[k], c.lengths[k + 1], Position(|c.lengths| - 1, x) - k as real);
    }
  }

  /** A larger fraction of the length never lands earlier on the curve. */
  lemma SearchIsMonotone(c: Table, t: real, u: real)
    requires Valid(c) && c.added == c.lengths[|c.lengths| - 1] && 0.0 <= t <= u <= 1.0
    ensures Found(c, t) <= Found(c, u)
  {
    hide Found, LengthAt, Even, Guess, Asked;
    SearchInverts(c, t);
    SearchInverts(c, u);
    FoundInverts(c, t);
    FoundInverts(c, u);
    GuessGrows(c, t, u);
    AskedGrows(c, t, u);
    if Guess(c, t) == 0 {
      StartIsFirst(c, t);
    } else if c.added == 0.0 {
      FlatCurve(c, t);
      FlatCurve(c, u);
      EvenGrows(|c.lengths| - 1, Guess(c, t), Guess(c, u));
    } else if t < u && Found(c, u) < Found(c, t) {
      LengthAtGrows(c, Found(c, u), Found(c, t));
      assert false;
    }
  }

  lemma GuessGrows(c: Table, t: real, u: real)
    requires Valid(c) && 0.0 <= t <= u <= 1.0
    ensures Guess(c, t) <= Guess(c, u)
  {
    PositionGrows(|c.lengths| - 1, t, u);
  }

  lemma AskedGrows(c: Table, t: real, u: real)
    requires c.added >= 0.0 && 0.0 <= t <= u <= 1.0
    ensures Asked(c, t) <= Asked(c, u) && (t < u && c.added > 0.0 ==> Asked(c, t) < Asked(c, u))
  {
    Product(u - t, c.added);
    assert (u - t) * c.added == Asked(c, u) - Asked(c, t);
  }

  lemma StartIsFirst(c: Table, t: real)
    requires Valid(c) && 0.0 <= t <= 1.0 && Guess(c, t) == 0
    ensures Found(c, t) == 0.0
  {
  }

  lemma FlatCurve(c: Table, t: real)
    requires Valid(c) && c.added == c.lengths[|c.lengths| - 1] == 0.0 && 0.0 <= t <= 1.0
    ensures Found(c, t) == Even(Guess(c, t), |c.lengths| - 1)
  {
    var a := Guess(c, t);
    AskedRange(c, t);
    assert c.lengths[0] <= c.lengths[a] <= c.lengths[|c.lengths| - 1];
  }

  lemma EvenGrows(last: nat, a: nat, b: nat)
    requires last > 0 && a <= b
    ensures Even(a, last) <= Even(b, last)
  {
  }
}

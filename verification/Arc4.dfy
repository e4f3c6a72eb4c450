/** The seeded generator: ARC4 keystream, and fractions of 53 significant bits built from it. */
module Arc4 {
  import opened Wrappers

  // ----- the state machine on values -----

  /** The permutation and the two running indices. */
  datatype State = State(s: seq<nat>, i: nat, j: nat)

  function Identity(n: nat): seq<nat> {
    seq(n, k => k)
  }

  ghost predicate Permutation(s: seq<nat>) {
    multiset(s) == multiset(Identity(256))
  }

  lemma PermutationRange(s: seq<nat>)
    requires Permutation(s)
    ensures |s| == 256 && forall k | 0 <= k < 256 :: s[k] < 256
  {
    assert |s| == |multiset(s)| == 256;
    forall k | 0 <= k < |s| ensures s[k] < 256 {
      assert s[k] in multiset(Identity(256));
    }
  }

  function Swap(s: seq<nat>, i: nat, j: nat): (r: seq<nat>)
    requires i < |s| && j < |s|
    ensures multiset(r) == multiset(s)
  {
    s[i := s[j]][j := s[i]]
  }

  lemma SwapPermutes(s: seq<nat>, i: nat, j: nat)
    requires i < |s| && j < |s| && Permutation(s)
    ensures |Swap(s, i, j)| == |s| && Permutation(Swap(s, i, j))
  {
  }

  ghost predicate Proper(st: State) {
    |st.s| == 256 && Permutation(st.s) && st.i < 256 && st.j < 256
  }

  /** The first `n` rounds of key scheduling: the permutation and the running index. */
  function Mixed(key: seq<nat>, n: nat): (r: (seq<nat>, nat))
    requires key != [] && n <= 256
    ensures |r.0| == 256 && Permutation(r.0) && r.1 < 256
  {
    if n == 0 then (Identity(256), 0)
    else
      var (s, j) := Mixed(key, n - 1);
      var j' := (j + key[(n - 1) % |key|] + s[n - 1]) % 256;
      (Swap(s, n - 1, j'), j')
  }

  lemma MixedStep(key: seq<nat>, n: nat)
    requires key != [] && n < 256
    ensures var (s, j) := Mixed(key, n);
            var j' := (j + key[n % |key|] + s[n]) % 256;
            Mixed(key, n + 1) == (Swap(s, n, j'), j')
  {
    hide Permutation, Swap, Identity;
  }

  lemma MixedStart(key: seq<nat>)
    requires key != []
    ensures Mixed(key, 0) == (Identity(256), 0)
  {
    hide Permutation, Swap, Identity;
  }

  /** The state after key scheduling; an empty key counts as a single zero. */
  function Scheduled(key: seq<nat>): (st: State)
    ensures Proper(st)
  {
    State(Mixed(if key == [] then [0] else key, 256).0, 0, 0)
  }

  /** One draw: the next state and the byte. */
  function Next(st: State): (r: (State, nat))
    requires Proper(st)
    ensures Proper(r.0) && r.1 < 256
  {
    var i := (st.i + 1) % 256;
    var e := st.s[i];
    var j := (st.j + e) % 256;
    var s := Swap(st.s, i, j);
    PermutationRange(s);
    (State(s, i, j), s[(s[i] + s[j]) % 256])
  }

  /** One exchange, place by place. */
  ghost predicate Exchanged(before: seq<nat>, after: seq<nat>, i: nat, j: nat) {
    && |after| == |before| && i < |before| && j < |before|
    && after[i] == before[j] && after[j] == before[i]
    && forall k | 0 <= k < |before| && k != i && k != j :: after[k] == before[k]
  }

  /** A draw, place by place: the first index steps on, the second moves by the entry found there, the two
      entries change places, and the byte is what then stands at the place that is their sum. */
  lemma DrawByPlace(st: State)
    requires Proper(st)
    ensures var (next, b) := Next(st);
            && next.i == (if st.i == 255 then 0 else st.i + 1)
            && (next.j - st.j - st.s[next.i]) % 256 == 0
            && Exchanged(st.s, next.s, next.i, next.j)
            && b == next.s[(st.s[next.i] + st.s[next.j]) % 256]
  {
    PermutationRange(st.s);
    hide Permutation, Swap, Next;
    var i := (st.i + 1) % 256;
    var e := st.s[i];
    var j := (st.j + e) % 256;
    var s := Swap(st.s, i, j);
    StepsOn(st.i, st.j, e);
    SwapExchanges(st.s, i, j);
    NextIs(st, i, j, s);
    hide Exchanged;
    ExchangedSum(st.s, s, i, j);
  }

  lemma NextIs(st: State, i: nat, j: nat, s: seq<nat>)
    requires Proper(st) && i == (st.i + 1) % 256 && j == (st.j + st.s[i]) % 256 && s == Swap(st.s, i, j)
    ensures |s| == 256 && Next(st) == (State(s, i, j), s[(s[i] + s[j]) % 256])
  {
    SwapExchanges(st.s, i, j);
    hide Permutation, Swap;
  }

  lemma StepsOn(i: nat, j: nat, e: nat)
    requires i < 256
    ensures (i + 1) % 256 == (if i == 255 then 0 else i + 1) && ((j + e) % 256 - j - e) % 256 == 0
  {
  }

  lemma ExchangedSum(before: seq<nat>, after: seq<nat>, i: nat, j: nat)
    requires Exchanged(before, after, i, j)
    ensures i < |before| == |after| && j < |before| && after[i] + after[j] == before[i] + before[j]
  {
  }

  /** One round of key scheduling, place by place: the second index moves by the entry and the key's. */
  lemma RoundByPlace(key: seq<nat>, n: nat)
    requires key != [] && n < 256
    ensures var (s, j), (s', j') := Mixed(key, n), Mixed(key, n + 1);
            && j' < 256 && (j' - j - s[n] - key[n % |key|]) % 256 == 0
            && Exchanged(s, s', n, j')
  {
    hide Mixed, Permutation, Swap;
    var (s, j) := Mixed(key, n);
    var j' := (j + key[n % |key|] + s[n]) % 256;
    MixedStep(key, n);
    SwapExchanges(s, n, j');
    SumModulo(j, s[n], key[n % |key|]);
  }

  lemma SwapExchanges(s: seq<nat>, i: nat, j: nat)
    requires i < |s| && j < |s|
    ensures Exchanged(s, Swap(s, i, j), i, j)
  {
  }

  lemma SumModulo(j: nat, e: nat, k: nat)
    ensures ((j + k + e) % 256 - j - e - k) % 256 == 0
    ensures k < 256 ==> k == ((j + k + e) % 256 - j - e) % 256
  {
  }

  /** Every key byte shows in its round: from the states before and after, it can be recovered. */
  lemma KeyShows(key: seq<nat>, n: nat)
    requires key != [] && n < 256 && key[n % |key|] < 256
    ensures var (s, j), (_, j') := Mixed(key, n), Mixed(key, n + 1); key[n % |key|] == (j' - j - s[n]) % 256
  {
    hide Mixed, Permutation, Swap;
    var (s, j) := Mixed(key, n);
    MixedStep(key, n);
    SumModulo(j, s[n], key[n % |key|]);
  }

  /** The state a draw came from. */
  function Previous(st: State): State
    requires Proper(st)
  {
    PermutationRange(st.s);
    var e := st.s[st.j];
    State(Swap(st.s, st.i, st.j), (st.i + 255) % 256, (st.j + 256 - e) % 256)
  }

  lemma SwapTwice(s: seq<nat>, i: nat, j: nat)
    requires i < |s| && j < |s|
    ensures |Swap(s, i, j)| == |s| && Swap(s, i, j)[j] == s[i]
    ensures Swap(Swap(s, i, j), i, j) == s
  {
  }

  lemma StepBack(j: nat, e: nat)
    requires j < 256 && e < 256
    ensures ((j + e) % 256 + 256 - e) % 256 == j
  {
  }

  /** No draw loses information: the state before it can be recovered. */
  lemma DrawsAreReversible(st: State)
    requires Proper(st)
    ensures Previous(Next(st).0) == st
  {
    hide Permutation, Swap;
    PermutationRange(st.s);
    var i := (st.i + 1) % 256;
    var e := st.s[i];
    var j := (st.j + e) % 256;
    SwapTwice(st.s, i, j);
    StepBack(st.j, e);
    StepBack(st.i, 1);
  }

  /** Any two different states stay different for ever. */
  lemma {:induction false} DrawsNeverCollide(a: State, b: State, n: nat)
    requires Proper(a) && Proper(b) && a != b
    ensures Drawn(a, n).0 != Drawn(b, n).0
  {
    if n > 0 {
      DrawsNeverCollide(a, b, n - 1);
      DrawsAreReversible(Drawn(a, n - 1).0);
      DrawsAreReversible(Drawn(b, n - 1).0);
    }
  }

  /** The first `n` draws. */
  function Drawn(st: State, n: nat): (r: (State, seq<nat>))
    requires Proper(st)
    ensures Proper(r.0) && |r.1| == n && forall k | 0 <= k < n :: r.1[k] < 256
  {
    if n == 0 then (st, [])
    else
      var (before, bytes) := Drawn(st, n - 1);
      var (after, b) := Next(before);
      (after, bytes + [b])
  }

  /** Two to the power of 52. */
  const ENOUGH: nat := 0x10_0000_0000_0000

  function Pow(base: nat, n: nat): nat {
    if n == 0 then 1 else base * Pow(base, n - 1)
  }

  function BigEndian(bytes: seq<nat>): nat {
    if bytes == [] then 0 else 256 * BigEndian(bytes[..|bytes| - 1]) + bytes[|bytes| - 1]
  }

  /** The digits of the number are the bytes, the first byte in the highest place. */
  lemma {:induction false} DigitsAreBytes(bytes: seq<nat>, k: nat)
    requires k < |bytes| && forall n | 0 <= n < |bytes| :: bytes[n] < 256
    ensures Pow(256, |bytes| - 1 - k) > 0 && BigEndian(bytes) / Pow(256, |bytes| - 1 - k) % 256 == bytes[k]
  {
    var last := |bytes| - 1;
    var rest := BigEndian(bytes[..last]);
    if k < last {
      DigitsAreBytes(bytes[..last], k);
      assert BigEndian(bytes) / 256 == rest;
      PowStep(last - 1 - k);
      TwoQuotients(BigEndian(bytes), 256, Pow(256, last - 1 - k));
    }
  }

  lemma TwoQuotients(x: nat, a: nat, b: nat)
    requires a > 0 && b > 0
    ensures a * b > 0 && x / a / b == x / (a * b)
  {
    var q := x / a / b;
    var r := x / a % b;
    assert x / a == q * b + r;
    assert x == (q * b + r) * a + x % a;
    assert (q * b + r) * a == q * (a * b) + r * a;
    Below(r, a, b, x % a);
    SameQuotient(x, a * b, q, r * a + x % a);
  }

  lemma Below(r: nat, a: nat, b: nat, m: nat)
    requires r < b && m < a
    ensures r * a + m < a * b
  {
    assert (r + 1) * a <= b * a;
  }

  lemma SameQuotient(x: int, n: int, q: int, r: int)
    requires n > 0 && x == q * n + r && 0 <= r < n
    ensures x / n == q
  {
    var d := x / n - q;
    assert x == x / n * n + x % n;
    assert d * n == r - x % n;
    assert d > 0 ==> d * n >= n;
    assert d < 0 ==> d * n <= -n;
  }

  lemma BigEndianSnoc(bytes: seq<nat>, b: nat)
    ensures BigEndian(bytes + [b]) == 256 * BigEndian(bytes) + b
  {
    assert (bytes + [b])[..|bytes|] == bytes;
  }

  lemma {:induction false} BigEndianBound(bytes: seq<nat>)
    requires forall k | 0 <= k < |bytes| :: bytes[k] < 256
    ensures BigEndian(bytes) < Pow(256, |bytes|)
  {
    if bytes == [] {
    } else {
      var rest := bytes[..|bytes| - 1];
      BigEndianBound(rest);
      assert BigEndian(bytes) == 256 * BigEndian(rest) + bytes[|bytes| - 1];
    }
  }

  // ----- cutting to 53 bits -----

  /** `n` without its `h` low bits. */
  function Cut(n: nat, h: nat): nat {
    if h == 0 then n else Cut(n, h - 1) / 2
  }

  lemma {:induction false} CutIsQuotient(n: nat, h: nat)
    ensures Cut(n, h) * Pow(2, h) <= n < (Cut(n, h) + 1) * Pow(2, h)
  {
    if h > 0 {
      CutIsQuotient(n, h - 1);
      HalfAndDouble(Cut(n, h - 1), Pow(2, h - 1));
    }
  }

  lemma HalfAndDouble(c: nat, p: nat)
    ensures c / 2 * (2 * p) <= c * p && (c + 1) * p <= (c / 2 + 1) * (2 * p)
  {
    var q := c / 2;
    assert q * (2 * p) == (2 * q) * p && (q + 1) * (2 * p) == (2 * q + 2) * p;
    assert (2 * q) * p <= c * p && (c + 1) * p <= (2 * q + 2) * p;
  }

  lemma {:induction false} PowAdds(base: nat, a: nat, b: nat)
    ensures Pow(base, a) * Pow(base, b) == Pow(base, a + b)
  {
    if a > 0 {
      PowAdds(base, a - 1, b);
      assert base * Pow(base, a - 1) * Pow(base, b) == base * (Pow(base, a - 1) * Pow(base, b));
    }
  }

  lemma PowStep(n: nat)
    ensures Pow(256, n + 1) == 256 * Pow(256, n)
  {
  }

  lemma HalfOfEven(p: nat, q: nat)
    ensures 2 * p * q / 2 == p * q && 2 * p * q % 2 == 0
  {
    assert 2 * p * q == 2 * (p * q);
  }

  lemma FiftyThree()
    ensures Pow(2, 53) == 2 * ENOUGH
  {
    PowAdds(2, 13, 13);
    PowAdds(2, 26, 27);
    PowAdds(2, 13, 14);
    assert Pow(2, 13) == 8192 && Pow(2, 14) == 16384;
  }

  /** A multiple of a power of two below `2^53` leaves room for everything below that power. */
  lemma RoomBelow(h: nat, q: nat, r: nat)
    requires h <= 8 && Pow(2, 8 - h) * q < 2 * ENOUGH && r < Pow(2, 8 - h)
    ensures Pow(2, 8 - h) * q + r < 2 * ENOUGH
  {
    hide Pow;
    PowAdds(2, 8 - h, 45 + h);
    FiftyThree();
    Multiples(Pow(2, 8 - h), Pow(2, 45 + h), q);
  }

  lemma Multiples(p: nat, m: nat, q: nat)
    requires p * q < p * m
    ensures p * q + p <= p * m
  {
    Smaller(p, m, q);
    Distribute(p, q + 1, m - q - 1);
    Distribute(p, q, 1);
  }

  lemma Smaller(p: nat, m: nat, q: nat)
    requires p * q < p * m
    ensures q < m
  {
  }

  lemma Distribute(p: nat, a: nat, b: nat)
    ensures p * (a + b) == p * a + p * b
  {
  }

  /** `q` with `8 - h` zero bits behind it. */
  function Padded(q: nat, h: nat): nat
    requires h <= 8
  {
    Pow(2, 8 - h) * q
  }

  lemma PaddedHalves(q: nat, h: nat)
    requires h < 8
    ensures Padded(q, h) == 2 * Padded(q, h + 1)
  {
    HalfOfEven(Pow(2, 7 - h), q);
  }

  lemma PaddedEnds(q: nat)
    ensures Padded(q, 8) == q && Padded(q, 0) == 256 * q
  {
    assert Pow(2, 8) == 256;
  }

  lemma PaddedFits(q: nat, h: nat, r: nat)
    requires h <= 8 && Padded(q, h) < 2 * ENOUGH && r < Padded(1, h)
    ensures Padded(q, h) + r < 2 * ENOUGH
  {
    RoomBelow(h, q, r);
  }

  /** The second loop: halves until 53 bits are left. */
  method Halve(t0: nat, e0: nat, r0: nat, ghost q: nat, ghost p: nat) returns (t: nat, e: nat, r: nat, ghost h: nat)
    requires ENOUGH <= t0 && t0 == 256 * q && q < ENOUGH + 256 && r0 < 256
    requires e0 == 256 * p && t0 + r0 < e0
    ensures h <= 8 && ENOUGH <= t + r == Cut(t0 + r0, h) < 2 * ENOUGH
    ensures e == Padded(p, h) && t + r < e
  {
    hide Padded;
    t, e, r, h := t0, e0, r0, 0;
    PaddedEnds(q);
    PaddedEnds(p);
    PaddedEnds(1);
    while 2 * ENOUGH <= t
      invariant h <= 8 && ENOUGH <= t && t + r == Cut(t0 + r0, h) && t + r < e
      invariant t == Padded(q, h) && e == Padded(p, h) && r < Padded(1, h)
      decreases 8 - h
    {
      assert h < 8;
      PaddedHalves(q, h);
      PaddedHalves(p, h);
      PaddedHalves(1, h);
      t, e, r := t / 2, e / 2, r / 2;
      h := h + 1;
    }
    PaddedFits(q, h, r);
  }

  lemma Scaled(h: nat, p: nat, e: nat, e0: nat)
    requires h <= 8 && e == Padded(p, h) && e0 == 256 * p
    ensures e * Pow(2, h) == e0
  {
    hide Pow;
    PowAdds(2, 8 - h, h);
    PaddedEnds(1);
    Regroup(Pow(2, 8 - h), p, Pow(2, h));
  }

  lemma Regroup(a: nat, p: nat, b: nat)
    ensures a * p * b == a * b * p
  {
  }

  lemma Fraction(n: nat, e: nat, d: nat, f: real)
    requires 0 < n < e && f == n as real / e as real
    ensures 0.0 < f < 1.0 && f * (e * d) as real == (n * d) as real
  {
    assert f * e as real == n as real;
    assert (e * d) as real == e as real * d as real;
    assert f * (e as real * d as real) == f * e as real * d as real;
  }

  // ----- the generator object -----

  method Exchange(a: array<nat>, i: nat, j: nat)
    requires i < a.Length && j < a.Length
    modifies a
    ensures a[..] == Swap(old(a[..]), i, j)
  {
    var e := a[i];
    a[i] := a[j];
    a[j] := e;
  }

  /** Key scheduling, in place. */
  method Schedule(a: array<nat>, key: seq<nat>)
    requires key != [] && a.Length == 256
    modifies a
    ensures a[..] == Mixed(key, 256).0
  {
    hide Permutation, Swap, Mixed;
    var i := 0;
    while i < 256
      invariant i <= 256 && a[..i] == Identity(i)
    {
      a[i] := i;
      i := i + 1;
    }
    assert a[..] == Identity(256);
    hide Identity;
    MixedStart(key);
    var at, k := 0, 0;
    while k < 256
      invariant k <= 256 && at < 256
      invariant a[..] == Mixed(key, k).0 && at == Mixed(key, k).1
    {
      MixedStep(key, k);
      at := (at + key[k % |key|] + a[k]) % 256;
      Exchange(a, k, at);
      k := k + 1;
    }
  }

  lemma SixBytes()
    ensures Pow(256, 6) < ENOUGH
  {
  }

  /** One more byte appended to what was drawn. */
  lemma NextByte(st: State, n: nat)
    requires Proper(st)
    ensures var (now, bytes) := Drawn(st, n);
            && Drawn(st, n + 1).0 == Drawn(now, 1).0
            && BigEndian(Drawn(st, n + 1).1) == 256 * BigEndian(bytes) + BigEndian(Drawn(now, 1).1)
    ensures BigEndian(Drawn(Drawn(st, n).0, 1).1) < 256 && Pow(256, n + 1) == 256 * Pow(256, n)
  {
    hide Permutation, Next;
    var (now, bytes) := Drawn(st, n);
    var b := Next(now).1;
    assert Drawn(now, 0) == (now, []);
    assert Drawn(now, 1) == (Next(now).0, [] + [b]);
    BigEndianSnoc(bytes, b);
    BigEndianSnoc([], b);
  }

  /** A non-zero byte makes the number as large as the places behind it. */
  lemma {:induction false} NonzeroByteWeighs(bytes: seq<nat>, f: nat)
    requires f < |bytes| && bytes[f] != 0
    ensures BigEndian(bytes) >= Pow(256, |bytes| - 1 - f)
  {
    var last := |bytes| - 1;
    if f < last {
      NonzeroByteWeighs(bytes[..last], f);
      PowStep(last - 1 - f);
    }
  }

  lemma {:induction false} PowGrows(a: nat, b: nat)
    requires a <= b
    ensures Pow(256, a) <= Pow(256, b)
  {
    if a < b {
      PowGrows(a, b - 1);
      PowStep(b - 1);
    }
  }

  lemma SevenBytes()
    ensures Pow(256, 7) >= ENOUGH + 256
  {
  }

  predicate NonzeroBefore(bytes: seq<nat>, n: int) {
    exists f :: 0 <= f < |bytes| && f < n && bytes[f] != 0
  }

  /** Two bytes behind the first non-zero one are enough for 53 significant bits. */
  lemma NonzeroByteIsEnough(st: State, limit: nat)
    requires Proper(st) && NonzeroBefore(Drawn(st, 6 + limit).1, limit - 1)
    ensures BigEndian(Drawn(st, 6 + limit).1) >= ENOUGH + 256
  {
    hide Drawn, Proper, BigEndian, Pow;
    var bytes := Drawn(st, 6 + limit).1;
    var f :| 0 <= f < |bytes| && f < limit - 1 && bytes[f] != 0;
    NonzeroByteWeighs(bytes, f);
    SevenBytes();
    PowGrows(7, 5 + limit - f);
  }

  class Generator {
    var i: nat
    var j: nat
    const s: array<nat>

    ghost function Now(): State
      reads this, s
    {
      State(s[..], i, j)
    }

    ghost predicate Valid()
      reads this, s
    {
      Proper(Now())
    }

    constructor (key: seq<nat>)
      ensures Valid() && Now() == Scheduled(key) && fresh(s) && i == j == 0
    {
      hide Permutation, Mixed, Identity;
      i, j := 0, 0;
      s := new nat[256];
      new;
      Schedule(s, if key == [] then [0] else key);
    }

    /** One round of the loop in `g`. */
    method Byte() returns (b: nat)
      requires Valid()
      modifies this, s
      ensures Valid() && Now() == Next(old(Now())).0 && b == Next(old(Now())).1 < 256
      ensures i == (old(i) + 1) % 256 && j == (old(j) + old(s[..])[i]) % 256 && Exchanged(old(s[..]), s[..], i, j)
      ensures b == s[(old(s[..])[i] + old(s[..])[j]) % 256]
    {
      hide Permutation, Swap;
      PermutationRange(s[..]);
      i := (i + 1) % 256;
      var e := s[i];
      j := (j + e) % 256;
      SwapPermutes(s[..], i, j);
      SwapExchanges(s[..], i, j);
      Exchange(s, i, j);
      PermutationRange(s[..]);
      b := s[(s[i] + s[j]) % 256];
    }

    /** `g(count)`: the next `count` bytes as one number. */
    method Generate(count: nat) returns (r: nat)
      requires Valid()
      modifies this, s
      ensures Valid() && Now() == Drawn(old(Now()), count).0
      ensures r == BigEndian(Drawn(old(Now()), count).1) < Pow(256, count)
    {
      hide Permutation, Next;
      r := 0;
      var n := 0;
      while n < count
        invariant n <= count && Valid()
        invariant Now() == Drawn(old(Now()), n).0 && r == BigEndian(Drawn(old(Now()), n).1)
      {
        var b := Byte();
        BigEndianSnoc(Drawn(old(Now()), n).1, b);
        r := r * 256 + b;
        n := n + 1;
      }
      BigEndianBound(Drawn(old(Now()), count).1);
    }

    /** A fraction in (0, 1): the bytes drawn, cut to 53 significant bits. Nothing comes back when
        `limit` bytes beyond the first six were not enough; with a byte other than zero among the first
        `limit - 1` they are. */
    method Random(limit: nat) returns (value: Option<real>, n: nat, ghost h: nat)
      requires Valid()
      modifies this, s
      ensures Valid() && n <= limit && Now() == Drawn(old(Now()), 6 + n).0
      ensures var drawn := BigEndian(Drawn(old(Now()), 6 + n).1);
              if value.None? then n == limit && drawn < ENOUGH + 256
              else
                && h <= 8 && ENOUGH <= Cut(drawn, h) < 2 * ENOUGH
                && value.value * Pow(256, 6 + n) as real == (Cut(drawn, h) * Pow(2, h)) as real
                && 0.0 < value.value < 1.0
      ensures NonzeroBefore(Drawn(old(Now()), 6 + limit).1, limit - 1) ==> value.Some?
    {
      hide Permutation, Next, Drawn, BigEndian, Cut, Pow, Padded;
      var t: nat := Generate(6);
      var e: nat, r: nat := Pow(256, 6), 0;
      n, h := 0, 0;
      SixBytes();
      while t < ENOUGH
        invariant Valid() && n <= limit && Now() == Drawn(old(Now()), 6 + n).0
        invariant t + r == BigEndian(Drawn(old(Now()), 6 + n).1) && e == Pow(256, 6 + n)
        invariant r < 256 && t < 256 * (ENOUGH + 256)
        invariant if n == 0 then r == 0 && t < ENOUGH else t % 256 == 0
        decreases limit - n
      {
        if n == limit {
          if NonzeroBefore(Drawn(old(Now()), 6 + limit).1, limit - 1) {
            NonzeroByteIsEnough(old(Now()), limit);
            assert false;
          }
          return None, n, h;
        }
        NextByte(old(Now()), 6 + n);
        t, e := (t + r) * 256, e * 256;
        r := Generate(1);
        n := n + 1;
      }
      BigEndianBound(Drawn(old(Now()), 6 + n).1);
      PowStep(5 + n);
      t, e, r, h := Halve(t, e, r, t / 256, Pow(256, 5 + n));
      Scaled(h, Pow(256, 5 + n), e, Pow(256, 6 + n));
      var fraction := (t + r) as real / e as real;
      Fraction(t + r, e, Pow(2, h), fraction);
      value := Some(fraction);
    }
  }
}

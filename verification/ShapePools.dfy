/** The object pools behind animated paths: points, paths and collections of paths. */
module ShapePools {
  import opened Wrappers

  // ----- one pool -----

  ghost function Values<T>(s: seq<Option<T>>): (r: seq<T>)
    requires forall k | 0 <= k < |s| :: s[k].Some?
    ensures |r| == |s| && forall k | 0 <= k < |s| :: r[k] == s[k].value
  {
    seq(|s|, k requires 0 <= k < |s| => s[k].value)
  }

  ghost predicate Distinct<T>(s: seq<T>) {
    forall j, k | 0 <= j < k < |s| :: s[j] != s[k]
  }

  function Popped<T>(s: seq<T>): seq<T> {
    if s == [] then [] else s[..|s| - 1]
  }

  /** The slots at and above `free` hold leftovers or nothing. */
  class Pool<T> {
    var slots: seq<Option<T>>
    var free: nat

    ghost predicate Valid()
      reads this
    {
      |slots| > 0 && free <= |slots| && forall k | 0 <= k < free :: slots[k].Some?
    }

    /** The free elements, the last one to be handed out first. */
    ghost function Contents(): seq<T>
      requires Valid()
      reads this
    {
      Values(slots[..free])
    }

    constructor (size: nat)
      requires size > 0
      ensures Valid() && Contents() == [] && |slots| == size
    {
      slots := seq(size, _ => None);
      free := 0;
    }

    /** The first half of `newElement`: a free element if there is one. */
    method Take() returns (t: Option<T>)
      requires Valid()
      modifies this
      ensures Valid() && slots == old(slots)
      ensures Contents() == Popped(old(Contents()))
      ensures t == if old(Contents()) == [] then None else Some(old(Contents())[|old(Contents())| - 1])
    {
      if free > 0 {
        free := free - 1;
        t := slots[free];
      } else {
        t := None;
      }
    }

    method Release(t: T)
      requires Valid()
      modifies this
      ensures Valid() && Contents() == old(Contents()) + [t]
      ensures |slots| == if old(|Contents()| == |slots|) then 2 * old(|slots|) else old(|slots|)
    {
      ghost var was := Contents();
      if free == |slots| {
        slots := slots + seq(|slots|, _ => None);
      }
      slots := slots[free := Some(t)];
      free := free + 1;
      assert Contents() == was + [t];
    }
  }

  /** An element released twice is handed out twice: what the single-release rule is for. */
  method TwiceReleased<T>(pool: Pool<T>, t: T) returns (a: Option<T>, b: Option<T>)
    requires pool.Valid()
    modifies pool
    ensures a == b == Some(t)
    ensures pool.Valid() && pool.Contents() == old(pool.Contents())
  {
    pool.Release(t);
    pool.Release(t);
    a := pool.Take();
    b := pool.Take();
  }

  // ----- paths -----

  class Point {
    var x: real
    var y: real

    constructor ()
      ensures x == 0.0 && y == 0.0
    {
      x, y := 0.0, 0.0;
    }
  }

  datatype Spot = Spot(x: real, y: real)

  datatype Side = V | I | O

  /** A position of a growing array; what was never written there is null. */
  function Read(a: seq<Point?>, k: nat): Point? {
    if k < |a| then a[k] else null
  }

  function Put(a: seq<Point?>, k: nat, p: Point?): (r: seq<Point?>)
    ensures forall j: nat :: Read(r, j) == if j == k then p else Read(a, j)
  {
    if k < |a| then a[k := p] else a + seq(k - |a|, _ => null) + [p]
  }

  class ShapePath {
    var closed: bool
    var length: nat
    var maxLength: nat
    var v: seq<Point?>
    var i: seq<Point?>
    var o: seq<Point?>

    constructor ()
      ensures !closed && length == 0 && maxLength == 8
      ensures forall side, k: nat :: At(side, k) == null
    {
      closed, length, maxLength := false, 0, 8;
      v, i, o := seq(8, _ => null), seq(8, _ => null), seq(8, _ => null);
    }

    function At(side: Side, k: nat): Point?
      reads `v, `i, `o
    {
      match side case V => Read(v, k) case I => Read(i, k) case O => Read(o, k)
    }

    /** The point at a position has these coordinates. */
    ghost predicate Shows(side: Side, k: nat, at: Spot)
      reads this, At(side, k)
    {
      At(side, k) != null && At(side, k).x == at.x && At(side, k).y == at.y
    }

    /** Every vertex below the length has its three points. */
    ghost predicate Complete()
      reads this
    {
      forall side, k: nat | k < length :: At(side, k) != null
    }

    method Write(side: Side, k: nat, p: Point?)
      modifies this
      ensures closed == old(closed) && length == old(length) && maxLength == old(maxLength)
      ensures forall d, j: nat :: At(d, j) == if d == side && j == k then p else old(At(d, j))
    {
      match side {
        case V => v := Put(v, k, p);
        case I => i := Put(i, k, p);
        case O => o := Put(o, k, p);
      }
    }

    method DoubleArrayLength()
      requires maxLength > 0
      modifies this
      ensures closed == old(closed) && length == old(length) && maxLength == 2 * old(maxLength)
      ensures forall d, j: nat :: At(d, j) == old(At(d, j))
    {
      v := v + seq(maxLength, _ => null);
      i := i + seq(maxLength, _ => null);
      o := o + seq(maxLength, _ => null);
      maxLength := 2 * maxLength;
    }

    method SetLength(n: nat)
      requires maxLength > 0
      modifies this
      ensures closed == old(closed) && length == n
      ensures maxLength >= old(maxLength) && maxLength >= n
      ensures forall d, j: nat :: At(d, j) == old(At(d, j))
    {
      while maxLength < n
        invariant maxLength >= old(maxLength) && closed == old(closed)
        invariant forall d, j: nat :: At(d, j) == old(At(d, j))
      {
        DoubleArrayLength();
      }
      length := n;
    }
  }

  /** The paths of one layer: a growing array of them. */
  class ShapeCollection {
    var length: nat
    var maxLength: nat
    var shapes: seq<ShapePath?>

    predicate Fits()
      reads this
    {
      length <= maxLength == |shapes| && maxLength > 0
    }

    constructor ()
      ensures Fits() && length == 0
    {
      length, maxLength := 0, 4;
      shapes := seq(4, _ => null);
    }

    method AddShape(s: ShapePath)
      requires Fits()
      modifies this
      ensures Fits() && length == old(length) + 1
      ensures shapes[..length] == old(shapes[..length]) + [s]
    {
      if length == maxLength {
        shapes := shapes + seq(maxLength, _ => null);
        maxLength := 2 * maxLength;
      }
      shapes := shapes[length := s];
      length := length + 1;
    }
  }

  // ----- the pools together -----

  /** Where a point is held. */
  datatype Place = Place(shape: ShapePath, side: Side, k: nat)

  class Pools {
    const points: Pool<Point>
    const shapes: Pool<ShapePath>
    /** Every path these pools ever handed out. */
    ghost var all: set<ShapePath>
    /** Every point they ever handed out. */
    ghost var minted: set<Point>
    /** The one place that may hold a point. */
    ghost var home: map<Point, Place>

    ghost predicate PointsFit()
      requires points.Valid()
      reads this, points
    {
      && Distinct(points.Contents())
      && (forall p <- points.Contents() :: p !in home && p in minted)
      && home.Keys <= minted
    }

    ghost predicate ShapesFit()
      requires shapes.Valid()
      reads this, shapes, all
    {
      && Distinct(shapes.Contents())
      && forall s <- shapes.Contents() :: s in all && s.length == 0 && !s.closed
    }

    /** Each point a path holds has that position as its home. */
    ghost predicate Homed(s: ShapePath)
      reads `home, s`v, s`i, s`o, s`maxLength
    {
      s.maxLength > 0 && forall side, k: nat | s.At(side, k) != null ::
        s.At(side, k) in home && home[s.At(side, k)] == Place(s, side, k)
    }

    ghost predicate AtHome()
      reads `all, `home, all
    {
      forall s <- all :: Homed(s)
    }

    ghost predicate Valid()
      reads this, points, shapes, all
    {
      && points as object != shapes && points.Valid() && shapes.Valid()
      && PointsFit() && ShapesFit() && AtHome()
    }

    ghost function Live(): set<ShapePath>
      requires shapes.Valid()
      reads this, shapes
    {
      set s | s in all && s !in shapes.Contents()
    }

    constructor ()
      ensures Valid() && fresh(points) && fresh(shapes) && Live() == {} && all == {} && minted == {}
      ensures points.Contents() == [] && shapes.Contents() == []
    {
      points := new Pool(8);
      shapes := new Pool(4);
      all := {};
      minted := {};
      home := map[];
    }

    /** No point is held twice, held and free, or free twice; no path is live and free, or free twice. */
    lemma NothingAliased(s: ShapePath, side: Side, k: nat, t: ShapePath, other: Side, j: nat)
      requires Valid() && s in all && t in all
      ensures s.At(side, k) != null && s.At(side, k) == t.At(other, j) ==> s == t && side == other && k == j
      ensures s.At(side, k) != null ==> s.At(side, k) !in points.Contents()
      ensures Distinct(points.Contents()) && Distinct(shapes.Contents())
      ensures |points.Contents()| <= |points.slots| && |shapes.Contents()| <= |shapes.slots|
    {
    }

    lemma AllMinted()
      requires Valid()
      ensures Live() <= all && Free() <= minted
      ensures forall s <- all, d, k: nat | s.At(d, k) != null :: s.At(d, k) in minted
    {
      forall s <- all, d, k: nat | s.At(d, k) != null ensures s.At(d, k) in minted {
        assert Homed(s);
      }
    }

    method NewPoint() returns (p: Point)
      requires Valid()
      modifies `minted, points
      ensures (forall q <- minted :: q in old(minted) || fresh(q)) && minted >= old(minted) && p in minted
      ensures Valid() && p !in home && p !in points.Contents()
      ensures fresh(p) || p in old(points.Contents())
      ensures points.Contents() == Popped(old(points.Contents()))
    {
      var t := points.Take();
      match t {
        case Some(q) => p := q;
        case None =>
          p := new Point();
          minted := minted + {p};
      }
    }

    method NewShape() returns (s: ShapePath)
      requires Valid()
      modifies this, shapes
      ensures Valid() && Live() == old(Live()) + {s} && s !in old(Live())
      ensures (fresh(s) || s in old(all)) && all == old(all) + {s} && minted == old(minted)
      ensures home == old(home) && s.length == 0 && !s.closed
      ensures forall t <- old(all), d, j: nat, other: Spot :: t.Shows(d, j, other) == old(t.Shows(d, j, other))
    {
      var t := shapes.Take();
      match t {
        case Some(q) => s := q;
        case None =>
          s := new ShapePath();
          all := all + {s};
      }
    }

    ghost function Free(): set<Point>
      requires points.Valid()
      reads this, points
    {
      set p | p in points.Contents()
    }

    /** The points `SetXYAt` may write to: the free ones and, unless it replaces it, the one in place. */
    ghost function Writable(s: ShapePath, side: Side, k: nat, keep: bool): set<Point>
      requires points.Valid()
      reads this, points, s
    {
      Free() + if keep && s.At(side, k) != null then {s.At(side, k)} else {}
    }

    /** Changing only the bookkeeping of a live path keeps everything. */
    method MakeRoom(s: ShapePath, k: nat)
      requires Valid() && s in Live()
      modifies s
      ensures Valid() && Live() == old(Live())
      ensures s.closed == old(s.closed) && s.length == if old(s.length) > k then old(s.length) else k + 1
      ensures forall d, j: nat :: s.At(d, j) == old(s.At(d, j))
      ensures forall t <- all, d, j: nat, other: Spot :: t.Shows(d, j, other) == old(t.Shows(d, j, other))
    {
      if s.length <= k {
        s.length := k + 1;
      }
      if s.length >= s.maxLength {
        s.DoubleArrayLength();
      }
      assert forall t <- all | t != s :: old(Homed(t)) && Homed(t);
      assert Homed(s);
    }

    /** A new point for one position of a live path. */
    method Settle(s: ShapePath, side: Side, k: nat) returns (p: Point)
      requires Valid() && s in Live()
      modifies `home, `minted, points, s
      ensures (forall q <- minted :: q in old(minted) || fresh(q)) && minted >= old(minted)
      ensures Valid() && Live() == old(Live())
      ensures s.closed == old(s.closed) && s.length == old(s.length) && s.maxLength == old(s.maxLength)
      ensures forall d, j: nat :: s.At(d, j) == if d == side && j == k then p else old(s.At(d, j))
      ensures p !in old(home) && home == old(home)[p := Place(s, side, k)]
      ensures fresh(p) || p in old(points.Contents())
      ensures points.Contents() == Popped(old(points.Contents()))
      ensures forall t <- all, d, j: nat, other: Spot | t != s || d != side || j != k ::
                t.Shows(d, j, other) == old(t.Shows(d, j, other))
    {
      p := NewPoint();
      assert AtHome();
      s.Write(side, k, p);
      home := home[p := Place(s, side, k)];
      assert forall t <- all | t != s :: old(Homed(t)) && Homed(t);
      assert Homed(s);
    }

    /** Writing to a path's point shows at its own position and nowhere else. */
    method WritePoint(s: ShapePath, side: Side, k: nat, p: Point, at: Spot)
      requires Valid() && s in all && s.At(side, k) == p
      modifies p
      ensures Valid() && s.Shows(side, k, at)
      ensures forall t <- all, d, j: nat, other: Spot | t != s || d != side || j != k ::
                t.Shows(d, j, other) == old(t.Shows(d, j, other))
    {
      hide PointsFit, ShapesFit, AtHome, Homed, Distinct, Values;
      hide Pool.Contents;
      p.x, p.y := at.x, at.y;
      forall t, d, j: nat | t in all && (t != s || d != side || j != k)
        ensures t.At(d, j) != p
      {
        NothingAliased(s, side, k, t, d, j);
      }
    }

    /** Writes one coordinate pair; a point already in place is kept only if `keep` is set. */
    method SetXYAt(s: ShapePath, at: Spot, side: Side, k: nat, keep: bool)
      requires Valid() && s in Live()
      modifies `home, `minted, points, s, Writable(s, side, k, keep)
      ensures (forall q <- minted :: q in old(minted) || fresh(q)) && minted >= old(minted)
      ensures Valid() && Live() == old(Live()) && Free() <= old(Free()) && home.Keys >= old(home.Keys)
      ensures s.closed == old(s.closed) && s.length == if old(s.length) > k then old(s.length) else k + 1
      ensures forall d, j: nat | d != side || j != k :: s.At(d, j) == old(s.At(d, j))
      ensures s.Shows(side, k, at)
      ensures forall t <- all, d, j: nat, other: Spot | t != s || d != side || j != k ::
                t.Shows(d, j, other) == old(t.Shows(d, j, other))
      ensures keep && old(s.At(side, k)) != null ==> s.At(side, k) == old(s.At(side, k))
      ensures !keep ==> s.At(side, k) !in old(home)
    {
      hide PointsFit, ShapesFit, AtHome, Homed, Distinct, Values;
      hide Pool.Contents, ShapePath.Shows;
      MakeRoom(s, k);
      var p := s.At(side, k);
      if p == null || !keep {
        p := Settle(s, side, k);
      }
      WritePoint(s, side, k, p, at);
    }

    method SetTripleAt(s: ShapePath, v: Spot, o: Spot, i: Spot, k: nat, keep: bool)
      requires Valid() && s in Live()
      modifies `home, `minted, points, s, Writable(s, V, k, keep), Writable(s, O, k, keep), Writable(s, I, k, keep)
      ensures (forall q <- minted :: q in old(minted) || fresh(q)) && minted >= old(minted)
      ensures Valid() && Live() == old(Live()) && Free() <= old(Free()) && home.Keys >= old(home.Keys)
      ensures s.closed == old(s.closed) && s.length == if old(s.length) > k then old(s.length) else k + 1
      ensures forall d, j: nat | j != k :: s.At(d, j) == old(s.At(d, j))
      ensures s.Shows(V, k, v) && s.Shows(O, k, o) && s.Shows(I, k, i)
      ensures forall t <- all, d, j: nat, other: Spot | t != s || j != k ::
                t.Shows(d, j, other) == old(t.Shows(d, j, other))
      ensures keep ==> forall d | old(s.At(d, k)) != null :: s.At(d, k) == old(s.At(d, k))
      ensures !keep ==> forall d :: s.At(d, k) !in old(home)
    {
      hide PointsFit, ShapesFit, AtHome, Homed, Distinct, Values;
      hide Pool.Contents;
      SetXYAt(s, v, V, k, keep);
      SetXYAt(s, o, O, k, keep);
      SetXYAt(s, i, I, k, keep);
    }

    /** Setting the length and the flag of a live path. */
    method Resize(s: ShapePath, n: nat, closed: bool)
      requires Valid() && s in Live()
      modifies s
      ensures Valid() && Live() == old(Live()) && s.length == n && s.closed == closed
      ensures forall d, j: nat :: s.At(d, j) == old(s.At(d, j))
      ensures forall t <- all, d, j: nat, other: Spot :: t.Shows(d, j, other) == old(t.Shows(d, j, other))
    {
      s.SetLength(n);
      s.closed := closed;
      assert forall t <- all | t != s :: old(Homed(t)) && Homed(t);
      assert Homed(s);
    }

    /** One round of the copying loop. */
    method CopyVertex(r: ShapePath, t: ShapePath, e: nat)
      requires Valid() && r in Live() && t in Live() && r != t && e < r.length == t.length && t.Complete()
      modifies `home, `minted, points, r, Free()
      ensures (forall q <- minted :: q in old(minted) || fresh(q)) && minted >= old(minted)
      ensures Valid() && Live() == old(Live()) && Free() <= old(Free()) && home.Keys >= old(home.Keys)
      ensures r.closed == old(r.closed) && r.length == old(r.length)
      ensures forall d, j: nat | j != e :: r.At(d, j) == old(r.At(d, j))
      ensures forall d, at: Spot | old(t.Shows(d, e, at)) :: r.Shows(d, e, at)
      ensures forall s <- all, d, j: nat, other: Spot | s != r || j != e ::
                s.Shows(d, j, other) == old(s.Shows(d, j, other))
      ensures forall d :: r.At(d, e) != null && r.At(d, e) !in old(home)
    {
      var v, o, i := t.At(V, e), t.At(O, e), t.At(I, e);
      SetTripleAt(r, Spot(v.x, v.y), Spot(o.x, o.y), Spot(i.x, i.y), e, false);
    }

    /** `shapePool.clone`: the copy shows what the original shows, and shares no point with it. */
    method Clone(t: ShapePath) returns (r: ShapePath)
      requires Valid() && t in Live() && t.Complete()
      modifies this, points, shapes, all - Live(), Free()
      ensures (forall q <- minted :: q in old(minted) || fresh(q)) && minted >= old(minted) && fresh(all - old(all))
              && all >= old(all)
      ensures Valid() && Live() == old(Live()) + {r} && r !in old(Live())
      ensures r.closed == t.closed && r.length == t.length && r.Complete()
      ensures forall d, k: nat, at: Spot | k < t.length && t.Shows(d, k, at) :: r.Shows(d, k, at)
      ensures forall s <- old(Live()), d, j: nat, other: Spot :: s.Shows(d, j, other) == old(s.Shows(d, j, other))
      ensures forall d, k: nat, e, j: nat | r.At(d, k) != null :: r.At(d, k) != t.At(e, j)
    {
      hide PointsFit, ShapesFit, AtHome, Homed, Distinct, Values;
      hide Pool.Contents, ShapePath.Shows;
      r := NewShape();
      Resize(r, t.length, t.closed);
      var e := 0;
      while e < t.length
        invariant e <= t.length == r.length && r.closed == t.closed
        invariant (forall q <- minted :: q in old(minted) || fresh(q)) && minted >= old(minted) && all == old(all) + {r}
        invariant Valid() && Live() == old(Live()) + {r} && Free() <= old(Free())
        invariant forall d, k: nat | k < e :: r.At(d, k) != null
        invariant forall d, k: nat, at: Spot | k < e && t.Shows(d, k, at) :: r.Shows(d, k, at)
        invariant forall s <- old(Live()), d, j: nat, other: Spot :: s.Shows(d, j, other) == old(s.Shows(d, j, other))
      {
        CopyVertex(r, t, e);
        e := e + 1;
      }
      forall d, k: nat, e, j: nat | r.At(d, k) != null
        ensures r.At(d, k) != t.At(e, j)
      {
        NothingAliased(r, d, k, t, e, j);
      }
    }

    /** Hands one point of a live path back to the pool. */
    method GiveBack(s: ShapePath, side: Side, k: nat)
      requires Valid() && s in Live() && s.At(side, k) != null
      modifies `home, points, s
      ensures Valid() && Live() == old(Live())
      ensures s.closed == old(s.closed) && s.length == old(s.length)
      ensures points.Contents() == old(points.Contents()) + [old(s.At(side, k))]
      ensures forall d, j: nat :: s.At(d, j) == if d == side && j == k then null else old(s.At(d, j))
    {
      var p := s.At(side, k);
      assert AtHome();
      points.Release(p);
      s.Write(side, k, null);
      home := home - {p};
      assert forall t <- all, d, j: nat | t != s :: t.At(d, j) == old(t.At(d, j));
      assert forall t <- all | t != s :: old(Homed(t)) && Homed(t);
      assert Homed(s);
    }

    /** One round of the release hook. */
    method ReleaseVertex(s: ShapePath, k: nat)
      requires Valid() && s in Live() && forall d :: s.At(d, k) != null
      modifies `home, points, s
      ensures Valid() && Live() == old(Live())
      ensures s.closed == old(s.closed) && s.length == old(s.length)
      ensures points.Contents() == old(points.Contents() + [s.At(V, k), s.At(I, k), s.At(O, k)])
      ensures forall d, j: nat :: s.At(d, j) == if j == k then null else old(s.At(d, j))
    {
      hide PointsFit, ShapesFit, AtHome, Homed, Distinct, Values;
      hide Pool.Contents;
      GiveBack(s, V, k);
      GiveBack(s, I, k);
      GiveBack(s, O, k);
    }

    /** The points of the first `n` vertices, in the order in which they are released. */
    ghost function Corners(s: ShapePath, n: nat): seq<Point?>
      reads s
    {
      if n == 0 then [] else Corners(s, n - 1) + [s.At(V, n - 1), s.At(I, n - 1), s.At(O, n - 1)]
    }

    /** The pool's own part of a release: an emptied path goes into the next slot. */
    method Retire(s: ShapePath)
      requires Valid() && s in Live() && s.length == 0 && !s.closed
      modifies shapes
      ensures Valid() && Live() == old(Live()) - {s}
      ensures shapes.Contents() == old(shapes.Contents()) + [s]
    {
      hide PointsFit, AtHome, Homed, Values, Pool.Contents;
      shapes.Release(s);
    }

    /** `shapePool.release`: the path and all its points are free again, and nothing else changes. */
    method ReleaseShape(s: ShapePath)
      requires Valid() && s in Live() && s.Complete()
      modifies `home, points, shapes, s
      ensures Valid() && Live() == old(Live()) - {s}
      ensures shapes.Contents() == old(shapes.Contents()) + [s]
      ensures points.Contents() == old(points.Contents() + Corners(s, s.length))
      ensures forall t <- all, d, j: nat, other: Spot | t != s :: t.Shows(d, j, other) == old(t.Shows(d, j, other))
    {
      hide PointsFit, ShapesFit, AtHome, Homed, Distinct, Values;
      hide Pool.Contents;
      var e := 0;
      while e < s.length
        invariant e <= s.length == old(s.length)
        invariant Valid() && Live() == old(Live()) && shapes.Contents() == old(shapes.Contents())
        invariant points.Contents() == old(points.Contents() + Corners(s, e))
        invariant forall d, j: nat :: s.At(d, j) == if j < e then null else old(s.At(d, j))
      {
        ReleaseVertex(s, e);
        e := e + 1;
      }
      Resize(s, 0, false);
      Retire(s);
    }

    /** `setPathData`: `n` vertices, all of them on points of their own. */
    method SetPathData(s: ShapePath, closed: bool, n: nat)
      requires Valid() && s in Live()
      modifies `home, `minted, points, s
      ensures (forall q <- minted :: q in old(minted) || fresh(q)) && minted >= old(minted)
      ensures Valid() && Live() == old(Live()) && s.closed == closed && s.length == n && s.Complete()
      ensures forall d, k: nat | k < n :: s.At(d, k) !in old(home)
      ensures forall t <- all, d, j: nat, other: Spot | t != s || j >= n ::
                t.Shows(d, j, other) == old(t.Shows(d, j, other))
    {
      hide PointsFit, ShapesFit, AtHome, Homed, Distinct, Values;
      hide Pool.Contents, ShapePath.Shows;
      Resize(s, n, closed);
      var r := 0;
      while r < n
        invariant r <= n == s.length && s.closed == closed
        invariant (forall q <- minted :: q in old(minted) || fresh(q)) && minted >= old(minted)
        invariant Valid() && Live() == old(Live()) && home.Keys >= old(home.Keys)
        invariant forall d, k: nat | k < r :: s.At(d, k) != null && s.At(d, k) !in old(home)
        invariant forall t <- all, d, j: nat, other: Spot | t != s || j >= n ::
                    t.Shows(d, j, other) == old(t.Shows(d, j, other))
      {
        var v := Settle(s, V, r);
        var o := Settle(s, O, r);
        var i := Settle(s, I, r);
        r := r + 1;
      }
    }

    /** `releaseShapes`: the collection is emptied, its paths and their points are free again. */
    method ReleaseShapes(c: ShapeCollection)
      requires Valid() && c.Fits() && Distinct(c.shapes[..c.length])
      requires forall k | 0 <= k < c.length :: c.shapes[k] != null && c.shapes[k] in Live() && c.shapes[k].Complete()
      modifies `home, points, shapes, c, set s | s in c.shapes[..c.length]
      ensures Valid() && c.length == 0
      ensures shapes.Contents() == old(shapes.Contents() + c.shapes[..c.length])
      ensures Live() == old(Live() - set s | s in c.shapes[..c.length])
    {
      hide PointsFit, ShapesFit, AtHome, Homed, Values;
      hide Pool.Contents, ShapePath.Shows;
      ghost var given := c.shapes[..c.length];
      var t := 0;
      while t < c.length
        invariant t <= c.length && c.Fits() && c.shapes[..c.length] == given
        invariant Valid() && shapes.Contents() == old(shapes.Contents()) + given[..t]
        invariant Live() == old(Live()) - set s | s in given[..t]
        invariant forall k | t <= k < |given| :: given[k] != null && given[k] in Live() && given[k].Complete()
      {
        ReleaseShape(c.shapes[t]);
        assert given[..t + 1] == given[..t] + [given[t]];
        t := t + 1;
      }
      assert given[..t] == given;
      c.length := 0;
    }
  }

  // ----- clients -----

  /** What the runtime asks for, with paths named by the order in which they are held. */
  datatype Call =
    | NewPath(closed: bool, vertices: nat)
    | SetVertex(path: nat, v: Spot, o: Spot, i: Spot, k: nat, keep: bool)
    | Copy(path: nat)
    | Return(path: nat)

  /** The client holds exactly the live paths, and has given every vertex its points. */
  ghost predicate Held(pools: Pools, held: seq<ShapePath>)
    requires pools.shapes.Valid()
    reads pools, pools.shapes, pools.all, set s | s in held
  {
    && Distinct(held) && (forall s <- held :: s in pools.Live()) && (forall s <- pools.Live() :: s in held)
    && forall s <- held :: s.Complete()
  }

  method PutVertex(pools: Pools, ghost held: seq<ShapePath>, s: ShapePath, v: Spot, o: Spot, i: Spot, k: nat,
                   keep: bool)
    requires pools.Valid() && Held(pools, held) && s in held && k <= s.length
    modifies pools`home, pools`minted, pools.points, s, pools.minted
    ensures pools.Valid() && Held(pools, held)
    ensures forall p <- pools.minted :: p in old(pools.minted) || fresh(p)
  {
    hide Pools.PointsFit, Pools.ShapesFit, Pools.AtHome, Pools.Homed, Distinct, Values, Pool.Contents;
    pools.AllMinted();
    pools.SetTripleAt(s, v, o, i, k, keep);
    assert forall d :: s.At(d, k) != null by {
      assert s.At(V, k) != null && s.At(O, k) != null && s.At(I, k) != null;
    }
  }

  /** A call; one that names no held path, or skips a vertex, is not made. */
  method Serve(pools: Pools, held: seq<ShapePath>, call: Call) returns (now: seq<ShapePath>)
    requires pools.Valid() && Held(pools, held)
    modifies pools, pools.points, pools.shapes, pools.all, pools.minted
    ensures pools.Valid() && Held(pools, now)
    ensures forall s <- pools.all :: s in old(pools.all) || fresh(s)
    ensures forall p <- pools.minted :: p in old(pools.minted) || fresh(p)
  {
    hide Pools.PointsFit, Pools.ShapesFit, Pools.AtHome, Pools.Homed, Distinct, Values;
    hide Pool.Contents, ShapePath.Shows, ShapePath.At;
    now := held;
    pools.AllMinted();
    assert forall s <- held :: s in pools.Live();
    match call {
      case NewPath(closed, n) =>
        var s := pools.NewShape();
        pools.SetPathData(s, closed, n);
        now := held + [s];
        DistinctSnoc(held, s);
      case SetVertex(path, v, o, i, k, keep) =>
        if path < |held| && k <= held[path].length {
          PutVertex(pools, held, held[path], v, o, i, k, keep);
        }
      case Copy(path) =>
        if path < |held| {
          var r := pools.Clone(held[path]);
          now := held + [r];
          DistinctSnoc(held, r);
        }
      case Return(path) =>
        if path < |held| {
          pools.ReleaseShape(held[path]);
          now := held[..path] + held[path + 1..];
          DistinctCut(held, path);
        }
    }
  }

  lemma DistinctSnoc<T>(s: seq<T>, x: T)
    requires Distinct(s) && x !in s
    ensures Distinct(s + [x]) && forall y :: y in s + [x] <==> y in s || y == x
  {
  }

  lemma DistinctCut<T>(s: seq<T>, k: nat)
    requires Distinct(s) && k < |s|
    ensures Distinct(s[..k] + s[k + 1..]) && forall y :: y in s[..k] + s[k + 1..] <==> y in s && y != s[k]
  {
    forall y | y in s && y != s[k] ensures y in s[..k] + s[k + 1..] {
      var j :| 0 <= j < |s| && s[j] == y;
      assert j < k ==> s[..k][j] == y;
      assert j > k ==> s[k + 1..][j - k - 1] == y;
    }
  }

  /** Whatever a client asks for, as long as it returns each path once, the pools never alias. */
  method AnyClient(calls: seq<Call>) returns (pools: Pools, held: seq<ShapePath>)
    ensures pools.Valid() && Held(pools, held)
  {
    pools := new Pools();
    held := [];
    var k := 0;
    while k < |calls|
      invariant 0 <= k <= |calls| && pools.Valid() && Held(pools, held)
      invariant fresh(pools) && fresh(pools.points) && fresh(pools.shapes)
      invariant (forall s <- pools.all :: fresh(s)) && forall p <- pools.minted :: fresh(p)
    {
      held := Serve(pools, held, calls[k]);
      k := k + 1;
    }
  }
}

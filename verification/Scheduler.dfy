/** The animation manager: the list of registered animations, the count of running ones, and the
    requests for frame callbacks. */
module Scheduler {

  // ----- counting -----

  function Count(flags: seq<bool>): nat {
    if flags == [] then 0 else (if flags[0] then 1 else 0) + Count(flags[1..])
  }

  lemma {:induction false} CountConcat(a: seq<bool>, b: seq<bool>)
    ensures Count(a + b) == Count(a) + Count(b)
  {
    if a == [] {
      assert a + b == b;
    } else {
      assert (a + b)[1..] == a[1..] + b;
      CountConcat(a[1..], b);
    }
  }

  lemma CountAround(flags: seq<bool>, k: nat)
    requires k < |flags|
    ensures Count(flags) == Count(flags[..k]) + (if flags[k] then 1 else 0) + Count(flags[k + 1..])
    ensures Count(flags[..k] + flags[k + 1..]) == Count(flags[..k]) + Count(flags[k + 1..])
  {
    assert flags == flags[..k] + flags[k..];
    assert flags[k..][1..] == flags[k + 1..];
    CountConcat(flags[..k], flags[k..]);
    CountConcat(flags[..k], flags[k + 1..]);
  }

  /** Setting one flag changes the count by at most that flag. */
  lemma CountUpdate(flags: seq<bool>, k: nat, b: bool)
    requires k < |flags|
    ensures Count(flags[k := b]) + (if flags[k] then 1 else 0) == Count(flags) + if b then 1 else 0
  {
    CountAround(flags, k);
    CountAround(flags[k := b], k);
    assert flags[k := b][..k] == flags[..k] && flags[k := b][k + 1..] == flags[k + 1..];
  }

  /** The list without an element, order kept. */
  function Without<T(==)>(s: seq<T>, x: T): seq<T> {
    if s == [] then [] else (if s[0] == x then [] else [s[0]]) + Without(s[1..], x)
  }

  lemma WithoutNone<T>(x: T)
    ensures Without([], x) == []
  {
  }

  lemma {:induction false} WithoutSnoc<T>(s: seq<T>, y: T, x: T)
    ensures Without(s + [y], x) == Without(s, x) + if y == x then [] else [y]
  {
    if s == [] {
      assert [y][1..] == [] && s + [y] == [y];
    } else {
      var first, last := if s[0] == x then [] else [s[0]], if y == x then [] else [y];
      assert (s + [y])[1..] == s[1..] + [y];
      WithoutSnoc(s[1..], y, x);
      assert first + (Without(s[1..], x) + last) == first + Without(s[1..], x) + last;
    }
  }

  lemma {:induction false} WithoutKeeps<T>(s: seq<T>, x: T)
    ensures forall y :: y in Without(s, x) <==> y in s && y != x
    ensures x !in s ==> Without(s, x) == s
  {
    if s != [] {
      WithoutKeeps(s[1..], x);
    }
  }

  ghost predicate Distinct<T>(s: seq<T>) {
    forall i, j | 0 <= i < j < |s| :: s[i] != s[j]
  }

  lemma {:induction false} WithoutOne<T>(s: seq<T>, k: nat)
    requires k < |s| && Distinct(s)
    ensures Without(s, s[k]) == s[..k] + s[k + 1..]
  {
    if k == 0 {
      WithoutKeeps(s[1..], s[0]);
      assert s[..0] + s[1..] == s[1..];
    } else {
      assert s[k] == s[1..][k - 1];
      WithoutOne(s[1..], k - 1);
      assert s[..k] + s[k + 1..] == [s[0]] + (s[1..][..k - 1] + s[1..][k..]);
    }
  }

  lemma {:induction false} WithoutDistinct<T>(s: seq<T>, x: T)
    requires Distinct(s)
    ensures Distinct(Without(s, x))
  {
    if s != [] {
      WithoutDistinct(s[1..], x);
      WithoutKeeps(s[1..], x);
      var rest := Without(s[1..], x);
      assert s[0] !in s[1..];
      assert s[0] !in rest;
      DistinctCons(s[0], rest);
    }
  }

  lemma DistinctCons<T>(x: T, s: seq<T>)
    requires Distinct(s) && x !in s
    ensures Distinct([x] + s)
  {
  }

  lemma DistinctSnoc<T>(s: seq<T>, x: T)
    requires Distinct(s) && x !in s
    ensures Distinct(s + [x])
  {
  }

  /** Cutting the first element of `rest` out of `kept + rest`. */
  lemma Splice<T>(kept: seq<T>, rest: seq<T>)
    requires rest != []
    ensures (kept + rest)[|kept|] == rest[0]
    ensures (kept + rest)[..|kept|] + (kept + rest)[|kept| + 1..] == kept + rest[1..]
    ensures kept + rest == kept + [rest[0]] + rest[1..]
  {
  }

  // ----- animations -----

  /** What the manager sees of an animation: is it paused, did it announce that it is idle, does it
      still have a renderer, is the manager still among its listeners. */
  class AnimationItem {
    var isPaused: bool
    var idle: bool
    var alive: bool
    var listening: bool

    constructor ()
      ensures isPaused && idle && alive && !listening
    {
      isPaused, idle, alive, listening := true, true, true, false;
    }
  }

  /** Which animations of a list are running. */
  ghost function Flags(items: seq<AnimationItem>): (r: seq<bool>)
    reads items`isPaused
    ensures |r| == |items| && forall k | 0 <= k < |items| :: r[k] == !items[k].isPaused
  {
    if items == [] then [] else [!items[0].isPaused] + Flags(items[1..])
  }

  /** The two functions passed to requestAnimationFrame. */
  datatype Callback = First | Every

  /** What a page, or a listener running inside a frame, can call. Animations are named by the
      order in which they were loaded. */
  datatype Call = Load | Play(k: nat) | Pause(k: nat) | Destroy(k: nat) | Freeze | Unfreeze

  /** A call from outside, or the next frame: for each animation that the frame advances, the
      calls made while it is advanced. */
  datatype Event = Outside(call: Call) | Frame(during: seq<seq<Call>>)

  /** Whether animation `k` is paused after a call. */
  function PausedAfter(call: Call, k: nat, paused: bool): bool {
    match call
    case Play(j) => if j == k then false else paused
    case Pause(j) => if j == k then true else paused
    case _ => paused
  }

  class AnimationManager {
    var created: seq<AnimationItem>  // every animation the page holds
    var items: seq<AnimationItem>  // those registered
    var len: int
    var playing: int
    var stopped: bool
    var frozen: bool
    var pending: seq<Callback>  // requests the browser has not yet answered
    ghost var advanced: seq<AnimationItem>  // the animations advanced so far, in order

    /** The counters tell the truth about the registered animations. */
    ghost predicate Counted()
      reads `len, `items, `created, `playing, items, created
    {
      && len == |items| && Distinct(items) && Distinct(created)
      && (forall x <- items :: x in created)
      && (forall x <- created :: (x.listening <==> x in items) && (x in items ==> x.alive) && x.idle == x.isPaused)
      && playing == Count(Flags(items))
    }

    /** At most one callback is requested; outside a frame one is requested exactly when the
        manager does not consider itself stopped, and always while something runs unfrozen. */
    ghost predicate Scheduled(inFrame: bool)
      reads this
    {
      if inFrame then !stopped && pending == []
      else
        && |pending| <= 1
        && (stopped <==> pending == [])
        && (playing > 0 && !frozen ==> pending != [])
    }

    ghost predicate Valid(inFrame: bool)
      reads this, items, created
    {
      Counted() && Scheduled(inFrame)
    }

    constructor ()
      ensures Valid(false) && created == [] && items == [] && pending == []
    {
      created, items, len, playing := [], [], 0, 0;
      stopped, frozen, pending, advanced := true, false, [], [];
    }

    /** `d`: asks for the first frame if something runs and none was asked for. */
    method Activate(ghost inFrame: bool)
      requires Counted()
      requires inFrame ==> !stopped && pending == []
      requires !inFrame ==> |pending| <= 1 && (stopped <==> pending == [])
      modifies this`pending, this`stopped
      ensures Valid(inFrame)
      ensures pending == old(pending) + if old(stopped) && !frozen && playing > 0 then [First] else []
    {
      if !frozen && playing > 0 && stopped {
        pending := pending + [First];
        stopped := false;
      }
    }

    /** `loadAnimation` and `f`: a new animation, registered and listened to. */
    method LoadAnimation(ghost inFrame: bool)
      requires Valid(inFrame)
      modifies this`created, this`items, this`len
      ensures Valid(inFrame)
      ensures |created| == |old(created)| + 1 && created[..|old(created)|] == old(created)
              && fresh(created[|old(created)|])
      ensures items == old(items) + [created[|old(created)|]] && created[|old(created)|].isPaused
      ensures playing == old(playing)
    {
      hide Distinct, Flags;
      var x := new AnimationItem();
      x.listening := true;
      ghost var before := Flags(items);
      DistinctSnoc(items, x);
      DistinctSnoc(created, x);
      items := items + [x];
      len := len + 1;
      created := created + [x];
      assert Flags(items) == before + [false];
      CountConcat(before, [false]);
      assert Count([false]) == 0;
    }

    /** `play` of an animation, with the `_active` listener. */
    method PlayItem(x: AnimationItem, ghost inFrame: bool)
      requires Valid(inFrame) && x in created
      modifies x`isPaused, x`idle, this`playing, this`pending, this`stopped
      ensures Valid(inFrame) && !x.isPaused
      ensures playing == old(playing) + if old(x.isPaused) && x in items then 1 else 0
      ensures pending == old(pending) + if old(stopped) && !frozen && playing > 0 then [First] else []
    {
      hide Distinct, Count;
      if x.isPaused {
        ghost var before := Flags(items);
        x.isPaused := false;
        if x.idle {
          x.idle := false;
          if x.listening {
            playing := playing + 1;
            ItemFlagged(before, x, true);
            Activate(inFrame);
          } else {
            assert Flags(items) == before;
          }
        }
      }
    }

    /** `pause` of an animation, with the `_idle` listener. */
    method PauseItem(x: AnimationItem, ghost inFrame: bool)
      requires Valid(inFrame) && x in created
      modifies x`isPaused, x`idle, this`playing
      ensures Valid(inFrame) && x.isPaused
      ensures playing == old(playing) - if !old(x.isPaused) && x in items then 1 else 0
    {
      if !x.isPaused {
        ghost var before := Flags(items);
        x.isPaused := true;
        x.idle := true;
        if x.listening {
          playing := playing - 1;
          ItemFlagged(before, x, false);
        } else {
          assert Flags(items) == before;
        }
      }
    }

    /** One registered animation changed its flag: the flags differ in that one place. */
    lemma ItemFlagged(before: seq<bool>, x: AnimationItem, b: bool)
      requires Distinct(items) && x in items && !x.isPaused == b
      requires |before| == |items|
      requires forall k | 0 <= k < |items| :: items[k] != x ==> before[k] == !items[k].isPaused
      requires forall k | 0 <= k < |items| :: items[k] == x ==> before[k] != b
      ensures Count(Flags(items)) == Count(before) + if b then 1 else -1
    {
      var k :| 0 <= k < |items| && items[k] == x;
      assert Flags(items) == before[k := b];
      CountUpdate(before, k, b);
    }

    /** The destroy listener: removes every entry of `x` while walking the list. */
    method Unregister(x: AnimationItem)
      requires len == |items|
      modifies this`items, this`len, this`playing
      ensures items == Without(old(items), x) && len == |items|
      ensures playing == old(playing) - if x.isPaused then 0 else |old(items)| - |items|
    {
      hide Distinct, Count, Flags, Without;
      ghost var all := items;
      ghost var done := 0;
      ghost var kept: seq<AnimationItem> := [];
      WithoutNone(x);
      assert [] + all == all && all[..0] == [];
      var e := 0;
      while e < len
        invariant 0 <= done <= |all| && kept == Without(all[..done], x) && e == |kept|
        invariant items == kept + all[done..] && len == |items|
        invariant playing == old(playing) - if x.isPaused then 0 else |all| - |items|
        decreases |all| - done
      {
        UnregisterStep(all, done, x);
        kept := Without(all[..done + 1], x);
        if items[e] == x {
          items := items[..e] + items[e + 1..];
          e := e - 1;
          len := len - 1;
          if !x.isPaused {
            playing := playing - 1;
          }
        }
        e := e + 1;
        done := done + 1;
      }
      assert all[..done] == all;
    }

    /** What one turn of the loop does to the list `kept + all[done..]`. */
    lemma UnregisterStep(all: seq<AnimationItem>, done: nat, x: AnimationItem)
      requires done < |all|
      ensures var kept, kept' := Without(all[..done], x), Without(all[..done + 1], x);
              var list := kept + all[done..];
              && list[|kept|] == all[done]
              && (all[done] == x ==> kept' == kept && list[..|kept|] + list[|kept| + 1..] == kept' + all[done + 1..])
              && (all[done] != x ==> |kept'| == |kept| + 1 && list == kept' + all[done + 1..])
    {
      assert all[..done + 1] == all[..done] + [all[done]];
      assert all[done..][1..] == all[done + 1..];
      WithoutSnoc(all[..done], all[done], x);
      Splice(Without(all[..done], x), all[done..]);
    }

    /** `destroy` of an animation: the listener runs, then the listeners are dropped. */
    method DestroyItem(x: AnimationItem, ghost inFrame: bool)
      requires Valid(inFrame) && x in created
      modifies x`alive, x`listening, this`items, this`len, this`playing
      ensures Valid(inFrame) && x !in items
      ensures items == if old(x.alive) then Without(old(items), x) else old(items)
      ensures forall y <- old(items) :: y != x ==> y in items
    {
      hide Without, Distinct, Count, Flags;
      WithoutKeeps(items, x);
      WithoutDistinct(items, x);
      if x.alive {
        if x.listening {
          ghost var rest := Without(items, x);
          ghost var flags := Flags(rest);
          FlagsWithout(items, x);
          Unregister(x);
          assert items == rest && Flags(rest) == flags;
          assert forall y <- rest :: y in created;
        }
        x.listening := false;
        x.alive := false;
      }
    }

    /** Removing one registered animation removes its flag from the count. */
    lemma FlagsWithout(items: seq<AnimationItem>, x: AnimationItem)
      requires Distinct(items) && x in items
      ensures |Without(items, x)| == |items| - 1
      ensures Count(Flags(Without(items, x))) == Count(Flags(items)) - if x.isPaused then 0 else 1
    {
      hide Distinct, Count, Without;
      var k :| 0 <= k < |items| && items[k] == x;
      var rest := items[..k] + items[k + 1..];
      WithoutOne(items, k);
      CountAround(Flags(items), k);
      FlagsCut(items, k);
    }

    lemma FlagsCut(items: seq<AnimationItem>, k: nat)
      requires k < |items|
      ensures Flags(items[..k] + items[k + 1..]) == Flags(items)[..k] + Flags(items)[k + 1..]
    {
      hide Flags;
      FlagsConcat(items[..k], items[k + 1..]);
      assert Flags(items[..k]) == Flags(items)[..k];
      assert Flags(items[k + 1..]) == Flags(items)[k + 1..];
    }

    lemma FlagsConcat(a: seq<AnimationItem>, b: seq<AnimationItem>)
      ensures Flags(a + b) == Flags(a) + Flags(b)
    {
      hide Flags;
      assert forall j | 0 <= j < |a| :: (a + b)[j] == a[j];
      assert forall j | 0 <= j < |b| :: (a + b)[|a| + j] == b[j];
    }

    method Do(call: Call, ghost inFrame: bool)
      requires Valid(inFrame)
      modifies this, created
      ensures Valid(inFrame)
      ensures old(created) <= created && forall k | |old(created)| <= k < |created| :: fresh(created[k])
      ensures advanced == old(advanced)
      ensures frozen == (call == Freeze || (call != Unfreeze && old(frozen)))
      ensures pending == old(pending) + if old(stopped) && !frozen && playing > 0 then [First] else []
      ensures |created| == |old(created)| + if call == Load then 1 else 0
      ensures call == Load ==> items == old(items) + [created[|old(created)|]] && created[|old(created)|].isPaused
      ensures call.Destroy? && call.k < |old(created)| ==> items == Without(old(items), created[call.k])
      ensures call != Load && !(call.Destroy? && call.k < |old(created)|) ==> items == old(items)
      ensures forall k | 0 <= k < |old(created)| ::
                created[k].isPaused == PausedAfter(call, k, old(created[k].isPaused))
    {
      hide Distinct, Count, Flags, Counted, Without;
      NoRequestNow(inFrame);
      CreatedOnce();
      match call
      case Load => LoadAnimation(inFrame);
      case Play(k) => if k < |created| { PlayItem(created[k], inFrame); }
      case Pause(k) => if k < |created| { PauseItem(created[k], inFrame); }
      case Destroy(k) =>
        if k < |created| {
          WithoutKeeps(items, created[k]);
          DestroyItem(created[k], inFrame);
        }
      case Freeze => frozen := true;
      case Unfreeze =>
        frozen := false;
        Activate(inFrame);
    }

    lemma NoRequestNow(inFrame: bool)
      requires Valid(inFrame)
      ensures stopped && !frozen ==> playing <= 0
    {
    }

    lemma CreatedOnce()
      requires Counted()
      ensures Distinct(created) && forall x <- items :: x in created && x.alive
    {
    }

    method DoAll(calls: seq<Call>, ghost inFrame: bool)
      requires Valid(inFrame)
      modifies this, created
      ensures Valid(inFrame)
      ensures old(created) <= created && forall k | |old(created)| <= k < |created| :: fresh(created[k])
      ensures advanced == old(advanced) && (calls == [] ==> items == old(items) && len == old(len))
    {
      hide Counted;
      var k := 0;
      while k < |calls|
        invariant 0 <= k <= |calls| && Valid(inFrame)
        invariant advanced == old(advanced) && (k == 0 ==> items == old(items) && len == old(len))
        invariant old(created) <= created && forall j | |old(created)| <= j < |created| :: fresh(created[j])
      {
        Do(calls[k], inFrame);
        k := k + 1;
      }
    }

    /** The browser answers the pending request: `e` for the first frame, `c` for every other. */
    method AnswerFrame(during: seq<seq<Call>>)
      requires Valid(false) && pending != []
      modifies this, created
      ensures Valid(false)
      ensures old(created) <= created && forall k | |old(created)| <= k < |created| :: fresh(created[k])
      ensures old(pending[0]) == First ==> pending == [Every]
      ensures old(pending[0]) == Every
              ==> (pending == [Every] <==> playing > 0 && !frozen) && (pending == [] <==> stopped)
      ensures old(pending[0]) == First ==> advanced == old(advanced) && items == old(items)
      ensures old(pending[0]) == Every && (forall k | 0 <= k < |during| :: during[k] == []) ==>
                advanced == old(advanced + items)
    {
      hide Distinct, Count, Flags, Counted;
      var callback := pending[0];
      pending := pending[1..];
      if callback == First {
        pending := pending + [Every];
      } else {
        AdvanceAll(during);
        if playing > 0 && !frozen {
          pending := pending + [Every];
        } else {
          stopped := true;
        }
      }
    }

    /** The loop of `c`: the list may shrink and grow while it is walked. When nothing is called meanwhile,
        every registered animation is advanced once, in order. */
    method AdvanceAll(during: seq<seq<Call>>)
      requires Valid(true)
      modifies this, created
      ensures Valid(true)
      ensures old(created) <= created && forall k | |old(created)| <= k < |created| :: fresh(created[k])
      ensures (forall k | 0 <= k < |during| :: during[k] == [])
              ==> advanced == old(advanced + items) && items == old(items)
    {
      hide Distinct, Count, Flags, Counted;
      LengthTrue();
      assert items[..0] == [];
      var e := 0;
      var k := 0;
      while e < len
        invariant 0 <= e && 0 <= k <= |during| && Valid(true)
        invariant old(created) <= created && forall j | |old(created)| <= j < |created| :: fresh(created[j])
        invariant len == |items|
        invariant (forall j | 0 <= j < |during| :: during[j] == []) ==>
                    items == old(items) && e <= |items| && advanced == old(advanced) + items[..e]
        decreases |during| - k, len - e
      {
        advanced := advanced + [items[e]];
        if k < |during| {
          DoAll(during[k], true);
          k := k + 1;
        }
        e := e + 1;
        LengthTrue();
      }
    }

    lemma LengthTrue()
      requires Counted()
      ensures len == |items|
    {
    }

    lemma CountersTrue()
      requires Counted()
      ensures len == |items| && playing == Count(Flags(items)) && forall x <- created :: x.idle == x.isPaused
    {
    }

    /** Every run, whatever is called from outside or from inside frames, keeps the counters
        true and the requests consistent. */
    method Run(events: seq<Event>)
      requires Valid(false)
      modifies this, created
      ensures Valid(false)
      ensures |pending| <= 1 && (stopped <==> pending == []) && (playing > 0 && !frozen ==> |pending| == 1)
      ensures len == |items| && playing == Count(Flags(items)) && forall x <- created :: x.idle == x.isPaused
    {
      hide Distinct, Count, Flags, Counted;
      var k := 0;
      while k < |events|
        invariant 0 <= k <= |events| && Valid(false)
        invariant old(created) <= created && forall j | |old(created)| <= j < |created| :: fresh(created[j])
      {
        match events[k] {
          case Outside(call) => Do(call, false);
          case Frame(during) =>
            if pending != [] {
              AnswerFrame(during);
            }
        }
        k := k + 1;
      }
      CountersTrue();
    }

    /** `destroy` of the manager: from the last animation to the first. */
    method DestroyAll()
      requires Valid(false)
      modifies this, created
      ensures Valid(false) && items == [] && playing == 0 && created == old(created)
    {
      var e := len - 1;
      while e >= 0
        invariant -1 <= e < |items| && len == e + 1 && Valid(false) && created == old(created)
      {
        ghost var before := items;
        assert before[e] in created;
        WithoutOne(before, e);
        DestroyItem(items[e], false);
        e := e - 1;
      }
      assert Flags(items) == [];
    }
  }
}

/**
 harness/scripts/sleep-overlap.ts: building the list of sleeps from the power log,
 and placing monotonic durations on a wall clock that runs on while the host
 sleeps. Times are whole milliseconds; a wall millisecond `t` is asleep when some
 sleep covers `[t, t + 1)`.
 */
module SleepOverlap {
  import opened Wrappers

  datatype Kind = SleepEvent | WakeEvent
  datatype PowerEvent = PowerEvent(t: int, kind: Kind)
  datatype Sleep = Sleep(s: int, e: int, i: nat, j: nat)

  ghost predicate Logged(ev: seq<PowerEvent>) {
    forall i, j :: 0 <= i < j < |ev| ==> ev[i].t <= ev[j].t
  }

  // ----- the list of sleeps -----

  /** `j` is the first event after `i` that is not a sleep. */
  ghost predicate WakesAt(ev: seq<PowerEvent>, i: nat, j: nat) {
    i < j < |ev| && ev[j].kind.WakeEvent? && forall k :: i < k < j ==> ev[k].kind.SleepEvent?
  }

  /** One entry per sleep event that some later event ends, in log order. */
  ghost predicate SleepsOf(ev: seq<PowerEvent>, n: nat, sleeps: seq<Sleep>)
    requires n <= |ev|
  {
    && (forall q :: 0 <= q < |sleeps| ==>
          && sleeps[q].i < n && WakesAt(ev, sleeps[q].i, sleeps[q].j) && ev[sleeps[q].i].kind.SleepEvent?
          && sleeps[q].s == ev[sleeps[q].i].t && sleeps[q].e == ev[sleeps[q].j].t)
    && (forall p, q :: 0 <= p < q < |sleeps| ==> sleeps[p].i < sleeps[q].i)
    && (forall i, j :: 0 <= i < n && ev[i].kind.SleepEvent? && WakesAt(ev, i, j) ==>
          exists q :: 0 <= q < |sleeps| && sleeps[q].i == i)
  }

  method FindWake(ev: seq<PowerEvent>, i: nat) returns (j: Option<nat>)
    requires i < |ev|
    ensures j.Some? ==> WakesAt(ev, i, j.value)
    ensures j.None? ==> forall k :: i < k < |ev| ==> ev[k].kind.SleepEvent?
  {
    var k := i + 1;
    while k < |ev|
      invariant i < k <= |ev|
      invariant forall q :: i < q < k ==> ev[q].kind.SleepEvent?
    {
      if ev[k].kind.WakeEvent? { return Some(k); }
      k := k + 1;
    }
    return None;
  }

  method BuildSleeps(ev: seq<PowerEvent>) returns (sleeps: seq<Sleep>)
    ensures SleepsOf(ev, |ev|, sleeps)
  {
    sleeps := [];
    for i := 0 to |ev|
      invariant SleepsOf(ev, i, sleeps)
    {
      if ev[i].kind.SleepEvent? {
        var j := FindWake(ev, i);
        ghost var before := sleeps;
        if j.Some? { sleeps := sleeps + [Sleep(ev[i].t, ev[j.value].t, i, j.value)]; }
        SleepsGrow(ev, i, before, j, sleeps);
      } else {
        SleepsSkip(ev, i, sleeps);
      }
    }
  }

  lemma {:induction false} SleepsSkip(ev: seq<PowerEvent>, i: nat, sleeps: seq<Sleep>)
    requires i < |ev| && ev[i].kind.WakeEvent? && SleepsOf(ev, i, sleeps)
    ensures SleepsOf(ev, i + 1, sleeps)
  {
  }

  lemma {:induction false} SleepsGrow(ev: seq<PowerEvent>, i: nat, before: seq<Sleep>, j: Option<nat>,
                                      after: seq<Sleep>)
    requires i < |ev| && ev[i].kind.SleepEvent? && SleepsOf(ev, i, before)
    requires j.Some? ==> WakesAt(ev, i, j.value) && after == before + [Sleep(ev[i].t, ev[j.value].t, i, j.value)]
    requires j.None? ==> after == before && forall k :: i < k < |ev| ==> ev[k].kind.SleepEvent?
    ensures SleepsOf(ev, i + 1, after)
  {
    forall a, b | 0 <= a < i + 1 && ev[a].kind.SleepEvent? && WakesAt(ev, a, b)
      ensures exists q :: 0 <= q < |after| && after[q].i == a
    {
      if a < i {
        var q :| 0 <= q < |before| && before[q].i == a;
        assert after[q].i == a;
      } else {
        assert after[|after| - 1].i == a;
      }
    }
  }

  /** What placement needs: sleeps in order of their start, none ending before it starts. */
  ghost predicate Wellformed(sleeps: seq<Sleep>) {
    && (forall q :: 0 <= q < |sleeps| ==> sleeps[q].s <= sleeps[q].e)
    && (forall p, q :: 0 <= p < q < |sleeps| ==> sleeps[p].s <= sleeps[q].s)
  }

  /** Any time-ordered log gives such sleeps, repeated sleep events with one wake included. */
  lemma {:induction false} LogIsWellformed(ev: seq<PowerEvent>, sleeps: seq<Sleep>)
    requires Logged(ev) && SleepsOf(ev, |ev|, sleeps)
    ensures Wellformed(sleeps)
  {
  }

  // ----- awake time -----

  ghost predicate Asleep(sleeps: seq<Sleep>, t: int) {
    exists q :: 0 <= q < |sleeps| && sleeps[q].s <= t < sleeps[q].e
  }

  /** Milliseconds of `[a, b)` in which the host was awake: how far the monotonic clock moves. */
  ghost function Awake(sleeps: seq<Sleep>, a: int, b: int): (n: nat)
    ensures n <= if a < b then b - a else 0
    decreases b - a
  {
    if b <= a then 0 else Awake(sleeps, a, b - 1) + (if Asleep(sleeps, b - 1) then 0 else 1)
  }

  lemma {:induction false} AwakeSplits(sleeps: seq<Sleep>, a: int, b: int, c: int)
    requires a <= b <= c
    ensures Awake(sleeps, a, c) == Awake(sleeps, a, b) + Awake(sleeps, b, c)
    decreases c - b
  {
    if b < c { AwakeSplits(sleeps, a, b, c - 1); }
  }

  lemma {:induction false} AwakeThroughout(sleeps: seq<Sleep>, a: int, b: int)
    requires a <= b && forall t :: a <= t < b ==> !Asleep(sleeps, t)
    ensures Awake(sleeps, a, b) == b - a
    decreases b - a
  {
    if a < b { AwakeThroughout(sleeps, a, b - 1); }
  }

  lemma {:induction false} AsleepThroughout(sleeps: seq<Sleep>, a: int, b: int)
    requires a <= b && forall t :: a <= t < b ==> Asleep(sleeps, t)
    ensures Awake(sleeps, a, b) == 0
    decreases b - a
  {
    if a < b { AsleepThroughout(sleeps, a, b - 1); }
  }

  /** `w` is the least wall time from `start` on at which the host has been awake for `dur`. */
  ghost predicate Inverts(sleeps: seq<Sleep>, start: int, dur: int, w: int) {
    && start <= w
    && Awake(sleeps, start, w) == (if dur > 0 then dur else 0)
    && forall v :: start <= v < w ==> Awake(sleeps, start, v) < dur
  }

  lemma {:induction false} AwakeGrows(sleeps: seq<Sleep>, a: int, b: int, c: int)
    requires b <= c
    ensures Awake(sleeps, a, b) <= Awake(sleeps, a, c)
    decreases c - b
  {
    if b < c { AwakeGrows(sleeps, a, b, c - 1); }
  }

  // ----- the sleep inside a run -----

  function Within(x: Sleep, a: int, b: int): int {
    (if x.e < b then x.e else b) - (if x.s > a then x.s else a)
  }

  /** The sleeps that overlap `[a, b)`, and the time the summary line adds up for them. */
  function SleptInside(sleeps: seq<Sleep>, a: int, b: int): int {
    if sleeps == [] then 0 else
    var x := sleeps[|sleeps| - 1];
    SleptInside(sleeps[..|sleeps| - 1], a, b) + (if x.e > a && x.s < b then Within(x, a, b) else 0)
  }

  predicate Covers(x: Sleep, t: int) { x.s <= t < x.e }

  /** How many sleeps cover `t`. */
  ghost function Depth(sleeps: seq<Sleep>, t: int): nat {
    if sleeps == [] then 0 else Depth(sleeps[..|sleeps| - 1], t) + (if Covers(sleeps[|sleeps| - 1], t) then 1 else 0)
  }

  ghost function SumDepth(sleeps: seq<Sleep>, a: int, b: int): nat
    decreases b - a
  {
    if b <= a then 0 else SumDepth(sleeps, a, b - 1) + Depth(sleeps, b - 1)
  }

  ghost function CoveredBy(x: Sleep, a: int, b: int): nat
    decreases b - a
  {
    if b <= a then 0 else CoveredBy(x, a, b - 1) + (if Covers(x, b - 1) then 1 else 0)
  }

  lemma {:induction false} CoveredIsWithin(x: Sleep, a: int, b: int)
    requires a <= b && x.s <= x.e
    ensures CoveredBy(x, a, b) == if x.e > a && x.s < b then Within(x, a, b) else 0
    decreases b - a
  {
    if a < b { CoveredIsWithin(x, a, b - 1); }
  }

  lemma {:induction false} SumDepthSplits(sleeps: seq<Sleep>, a: int, b: int)
    requires sleeps != []
    ensures SumDepth(sleeps, a, b) == SumDepth(sleeps[..|sleeps| - 1], a, b) + CoveredBy(sleeps[|sleeps| - 1], a, b)
    decreases b - a
  {
    if a < b { SumDepthSplits(sleeps, a, b - 1); }
  }

  lemma {:induction false} SumDepthNothing(a: int, b: int)
    ensures SumDepth([], a, b) == 0
    decreases b - a
  {
    if a < b { SumDepthNothing(a, b - 1); }
  }

  /** Adding up sleep by sleep is adding up depth millisecond by millisecond. */
  lemma {:induction false} SleptIsDepth(sleeps: seq<Sleep>, a: int, b: int)
    requires a <= b && forall q :: 0 <= q < |sleeps| ==> sleeps[q].s <= sleeps[q].e
    ensures SleptInside(sleeps, a, b) == SumDepth(sleeps, a, b)
  {
    if sleeps == [] {
      SumDepthNothing(a, b);
    } else {
      SleptIsDepth(sleeps[..|sleeps| - 1], a, b);
      SumDepthSplits(sleeps, a, b);
      CoveredIsWithin(sleeps[|sleeps| - 1], a, b);
    }
  }

  /** Two sleeps cover `t`. */
  ghost predicate Doubled(sleeps: seq<Sleep>, t: int) {
    exists p, q :: 0 <= p < q < |sleeps| && Covers(sleeps[p], t) && Covers(sleeps[q], t)
  }

  lemma {:induction false} DepthIs(sleeps: seq<Sleep>, t: int)
    ensures Asleep(sleeps, t) <==> Depth(sleeps, t) > 0
    ensures Doubled(sleeps, t) <==> Depth(sleeps, t) > 1
  {
    if sleeps != [] {
      var n := |sleeps| - 1;
      var front := sleeps[..n];
      DepthIs(front, t);
      if Asleep(front, t) {
        var p :| 0 <= p < n && front[p].s <= t < front[p].e;
        assert sleeps[p].s <= t < sleeps[p].e;
        if Covers(sleeps[n], t) { assert Covers(sleeps[p], t); }
      }
      if Doubled(front, t) {
        var p, q :| 0 <= p < q < n && Covers(front[p], t) && Covers(front[q], t);
        assert Covers(sleeps[p], t) && Covers(sleeps[q], t);
      }
      DepthFrom(sleeps, t);
    }
  }

  /** What covers `t` is the last sleep or one of the earlier ones. */
  lemma {:induction false} DepthFrom(sleeps: seq<Sleep>, t: int)
    requires sleeps != []
    ensures var front, x := sleeps[..|sleeps| - 1], sleeps[|sleeps| - 1];
      && (Asleep(sleeps, t) ==> Asleep(front, t) || Covers(x, t))
      && (Doubled(sleeps, t) ==> Doubled(front, t) || (Asleep(front, t) && Covers(x, t)))
      && (Covers(x, t) ==> Asleep(sleeps, t))
  {
    var n := |sleeps| - 1;
    var front := sleeps[..n];
    if Asleep(sleeps, t) {
      var p :| 0 <= p < |sleeps| && sleeps[p].s <= t < sleeps[p].e;
      if p < n { assert front[p].s <= t < front[p].e; }
    }
    if Doubled(sleeps, t) {
      var p, q :| 0 <= p < q < |sleeps| && Covers(sleeps[p], t) && Covers(sleeps[q], t);
      assert front[p].s <= t < front[p].e;
      if q < n { assert Covers(front[p], t) && Covers(front[q], t); }
    }
  }

  lemma {:induction false} SleepTimeIff(sleeps: seq<Sleep>, a: int, b: int)
    requires a <= b
    ensures SumDepth(sleeps, a, b) >= b - a - Awake(sleeps, a, b)
    ensures SumDepth(sleeps, a, b) == b - a - Awake(sleeps, a, b) <==> forall t :: a <= t < b ==> !Doubled(sleeps, t)
    decreases b - a
  {
    if a < b {
      SleepTimeIff(sleeps, a, b - 1);
      DepthIs(sleeps, b - 1);
    }
  }

  /**
   The summary's sleep inside a run is the time slept, wall span less awake time,
   exactly when no millisecond of the run is covered by two of the sleeps.
   */
  lemma {:induction false} SleptInsideIff(sleeps: seq<Sleep>, a: int, b: int)
    requires Wellformed(sleeps) && a <= b
    ensures SleptInside(sleeps, a, b) == (b - a) - Awake(sleeps, a, b) <==> forall t :: a <= t < b ==> !Doubled(sleeps, t)
  {
    SleptIsDepth(sleeps, a, b);
    SleepTimeIff(sleeps, a, b);
  }

  lemma {:induction false} SleepsOfTwo(ev: seq<PowerEvent>, sleeps: seq<Sleep>)
    requires ev == [PowerEvent(0, SleepEvent), PowerEvent(10, SleepEvent), PowerEvent(100, WakeEvent)]
    requires sleeps == [Sleep(0, 100, 0, 2), Sleep(10, 100, 1, 2)]
    ensures Logged(ev) && SleepsOf(ev, 3, sleeps)
  {
    assert WakesAt(ev, 0, 2) && WakesAt(ev, 1, 2);
    assert sleeps[0].i == 0 && sleeps[1].i == 1;
  }

  lemma {:induction false} SleptInsideTwo(x: Sleep, y: Sleep, a: int, b: int)
    requires x.e > a && x.s < b && y.e > a && y.s < b
    ensures SleptInside([x, y], a, b) == Within(x, a, b) + Within(y, a, b)
  {
    var two, one: seq<Sleep> := [x, y], [x];
    assert two[..1] == one && one[..0] == [];
    assert SleptInside(one, a, b) == Within(x, a, b);
  }

  /** Two sleep events before one wake are counted twice: 190 ms of sleep in a run of 100. */
  lemma {:induction false} SleptTwice()
    ensures var ev := [PowerEvent(0, SleepEvent), PowerEvent(10, SleepEvent), PowerEvent(100, WakeEvent)];
      var sleeps := [Sleep(0, 100, 0, 2), Sleep(10, 100, 1, 2)];
      && Logged(ev) && SleepsOf(ev, 3, sleeps)
      && SleptInside(sleeps, 0, 100) == 190 && Awake(sleeps, 0, 100) == 0
  {
    var x, y := Sleep(0, 100, 0, 2), Sleep(10, 100, 1, 2);
    SleepsOfTwo([PowerEvent(0, SleepEvent), PowerEvent(10, SleepEvent), PowerEvent(100, WakeEvent)], [x, y]);
    SleptInsideTwo(x, y, 0, 100);
    forall t | 0 <= t < 100 ensures Asleep([x, y], t) { assert [x, y][0].s <= t < [x, y][0].e; }
    AsleepThroughout([x, y], 0, 100);
  }

  // ----- placing one module -----

  predicate InTheWay(x: Sleep, w: int, rem: int) { x.e > w && x.s < w + rem }

  method FindSleep(sleeps: seq<Sleep>, w: int, rem: int) returns (q: Option<nat>)
    ensures q.Some? ==> q.value < |sleeps| && InTheWay(sleeps[q.value], w, rem)
                        && forall p :: 0 <= p < q.value ==> !InTheWay(sleeps[p], w, rem)
    ensures q.None? ==> forall p :: 0 <= p < |sleeps| ==> !InTheWay(sleeps[p], w, rem)
  {
    for i := 0 to |sleeps|
      invariant forall p :: 0 <= p < i ==> !InTheWay(sleeps[p], w, rem)
    {
      if InTheWay(sleeps[i], w, rem) { return Some(i); }
    }
    return None;
  }

  /** Sleeps that end after `w`: the loop's measure. */
  ghost function EndingAfter(sleeps: seq<Sleep>, w: int): nat {
    if sleeps == [] then 0 else EndingAfter(sleeps[1..], w) + (if sleeps[0].e > w then 1 else 0)
  }

  lemma {:induction false} EndingAfterShrinks(sleeps: seq<Sleep>, w: int, w': int, q: nat)
    requires w <= w' && (q < |sleeps| ==> w < sleeps[q].e <= w')
    ensures EndingAfter(sleeps, w') <= EndingAfter(sleeps, w)
    ensures q < |sleeps| ==> EndingAfter(sleeps, w') < EndingAfter(sleeps, w)
  {
    if sleeps != [] { EndingAfterShrinks(sleeps[1..], w, w', if q > 0 then q - 1 else |sleeps|); }
  }

  lemma {:induction false} StretchIsAwake(sleeps: seq<Sleep>, w: int, rem: int)
    requires forall p :: 0 <= p < |sleeps| ==> !InTheWay(sleeps[p], w, rem)
    ensures forall t :: w <= t < w + rem ==> !Asleep(sleeps, t)
  {
    forall t | w <= t < w + rem ensures !Asleep(sleeps, t) {
      forall p | 0 <= p < |sleeps| ensures !(sleeps[p].s <= t < sleeps[p].e) { assert !InTheWay(sleeps[p], w, rem); }
    }
  }

  lemma {:induction false} AwakeBeforeSleep(sleeps: seq<Sleep>, w: int, rem: int, q: nat, t: int)
    requires Wellformed(sleeps) && q < |sleeps| && InTheWay(sleeps[q], w, rem)
    requires forall p :: 0 <= p < q ==> !InTheWay(sleeps[p], w, rem)
    requires w <= t < sleeps[q].s
    ensures !Asleep(sleeps, t)
  {
    forall p | 0 <= p < |sleeps| ensures !(sleeps[p].s <= t < sleeps[p].e) {
      if p > q { assert sleeps[q].s <= sleeps[p].s; }
    }
  }

  /** The sleeps jumped so far and the next one cover every sleeping millisecond up to its end. */
  lemma {:induction false} HitCovers(sleeps: seq<Sleep>, hits: seq<Sleep>, start: int, w: int, rem: int, q: nat)
    requires Wellformed(sleeps) && q < |sleeps| && InTheWay(sleeps[q], w, rem)
    requires forall p :: 0 <= p < q ==> !InTheWay(sleeps[p], w, rem)
    requires forall t :: start <= t < w && Asleep(sleeps, t) ==> Asleep(hits, t)
    ensures forall t :: start <= t < sleeps[q].e && Asleep(sleeps, t) ==> Asleep(hits + [sleeps[q]], t)
  {
    var more := hits + [sleeps[q]];
    forall t | start <= t < sleeps[q].e && Asleep(sleeps, t) ensures Asleep(more, t) {
      if t < w {
        var p :| 0 <= p < |hits| && hits[p].s <= t < hits[p].e;
        assert more[p].s <= t < more[p].e;
      } else {
        if t < sleeps[q].s { AwakeBeforeSleep(sleeps, w, rem, q, t); }
        assert more[|hits|].s <= t < more[|hits|].e;
      }
    }
  }

  /** Up to the first sleep in the way the host is awake; through it, asleep. */
  lemma {:induction false} JumpSleep(sleeps: seq<Sleep>, w: int, rem: int, q: nat)
    requires Wellformed(sleeps) && q < |sleeps| && InTheWay(sleeps[q], w, rem)
    requires forall p :: 0 <= p < q ==> !InTheWay(sleeps[p], w, rem)
    ensures Awake(sleeps, w, sleeps[q].e) == if sleeps[q].s > w then sleeps[q].s - w else 0
  {
    var x := sleeps[q];
    var mid := if x.s > w then x.s else w;
    forall t | w <= t < mid ensures !Asleep(sleeps, t) { AwakeBeforeSleep(sleeps, w, rem, q, t); }
    AwakeThroughout(sleeps, w, mid);
    forall t | mid <= t < x.e ensures Asleep(sleeps, t) { assert sleeps[q].s <= t < sleeps[q].e; }
    AsleepThroughout(sleeps, mid, x.e);
    AwakeSplits(sleeps, w, mid, x.e);
  }

  /** With no sleep in the way the rest of the duration is awake time. */
  lemma {:induction false} LastStretch(sleeps: seq<Sleep>, start: int, w: int, rem: int)
    requires start <= w && rem > 0 && forall p :: 0 <= p < |sleeps| ==> !InTheWay(sleeps[p], w, rem)
    ensures Inverts(sleeps, start, Awake(sleeps, start, w) + rem, w + rem)
  {
    StretchIsAwake(sleeps, w, rem);
    AwakeThroughout(sleeps, w, w + rem);
    AwakeSplits(sleeps, start, w, w + rem);
    forall v | start <= v < w + rem ensures Awake(sleeps, start, v) < Awake(sleeps, start, w) + rem {
      if v <= w {
        AwakeGrows(sleeps, start, v, w);
      } else {
        AwakeThroughout(sleeps, w, v);
        AwakeSplits(sleeps, start, w, v);
      }
    }
  }

  /**
   The placement loop: it ends, lands on the inverse of the monotonic clock, and lists sleeps that
   cover all the time slept.
   */
  method Place(sleeps: seq<Sleep>, start: int, dur: int) returns (w: int, hits: seq<Sleep>)
    requires Wellformed(sleeps)
    ensures Inverts(sleeps, start, dur, w)
    ensures forall h :: h in hits ==> h in sleeps && start < h.e <= w
    ensures forall t :: start <= t < w && Asleep(sleeps, t) ==> Asleep(hits, t)
  {
    w, hits := start, [];
    var rem := dur;
    while rem > 0
      invariant start <= w
      invariant rem > 0 ==> Awake(sleeps, start, w) + rem == dur
      invariant rem <= 0 ==> Inverts(sleeps, start, dur, w)
      invariant forall h :: h in hits ==> h in sleeps && start < h.e <= w
      invariant forall t :: start <= t < w && Asleep(sleeps, t) ==> Asleep(hits, t)
      decreases rem > 0, EndingAfter(sleeps, w)
    {
      var q := FindSleep(sleeps, w, rem);
      if q.None? {
        LastStretch(sleeps, start, w, rem);
        StretchIsAwake(sleeps, w, rem);
        w, rem := w + rem, 0;
      } else {
        var x := sleeps[q.value];
        JumpSleep(sleeps, w, rem, q.value);
        AwakeSplits(sleeps, start, w, x.e);
        EndingAfterShrinks(sleeps, w, x.e, q.value);
        HitCovers(sleeps, hits, start, w, rem, q.value);
        if x.s > w { rem := rem - (x.s - w); }
        hits := hits + [x];
        w := x.e;
      }
    }
  }

  // ----- placing modules one after another -----

  ghost function Positive(d: int): nat { if d > 0 then d else 0 }

  ghost function SumOf(durs: seq<int>): nat {
    if durs == [] then 0 else SumOf(durs[..|durs| - 1]) + Positive(durs[|durs| - 1])
  }

  lemma {:induction false} InvertsCompose(sleeps: seq<Sleep>, a: int, d: nat, b: int, e: int, c: int)
    requires Inverts(sleeps, a, d, b) && Inverts(sleeps, b, e, c)
    ensures Inverts(sleeps, a, d + Positive(e), c)
  {
    AwakeSplits(sleeps, a, b, c);
    forall v | a <= v < c ensures Awake(sleeps, a, v) < d + Positive(e) {
      if v >= b { AwakeSplits(sleeps, a, b, v); }
    }
  }

  /** Over consecutive modules the reconstructed end inverts the clock for the summed durations. */
  method PlaceAll(sleeps: seq<Sleep>, start: int, durs: seq<int>) returns (w: int)
    requires Wellformed(sleeps)
    ensures Inverts(sleeps, start, SumOf(durs), w)
    ensures Awake(sleeps, start, w) == SumOf(durs)
  {
    w := start;
    for k := 0 to |durs|
      invariant Inverts(sleeps, start, SumOf(durs[..k]), w)
    {
      var next, hits := Place(sleeps, w, durs[k]);
      assert durs[..k + 1][..k] == durs[..k];
      InvertsCompose(sleeps, start, SumOf(durs[..k]), w, durs[k], next);
      w := next;
    }
    assert durs[..|durs|] == durs;
  }

  /** The inverse is unique, so any reconstruction that inverts the clock is this one. */
  lemma {:induction false} InverseIsUnique(sleeps: seq<Sleep>, start: int, dur: int, v: int, w: int)
    requires Inverts(sleeps, start, dur, v) && Inverts(sleeps, start, dur, w)
    ensures v == w
  {
  }

  // ----- grouping results into modules -----

  predicate SameModule(a: Option<int>, b: Option<int>) {
    a.Some? && b.Some? && -5 <= a.value - b.value <= 5
  }

  function OrZero(d: Option<int>): int { if d.Some? then d.value else 0 }

  datatype Acc = Acc(n: int, last: Option<int>)

  /** The running sum of the summary line. */
  function Summed(rs: seq<Option<int>>): Acc {
    if rs == [] then Acc(0, None) else
    var acc, r := Summed(rs[..|rs| - 1]), rs[|rs| - 1];
    if SameModule(r, acc.last) then acc else Acc(acc.n + OrZero(r), r)
  }

  function RunDurations(rs: seq<Option<int>>): seq<int> {
    if rs == [] then [] else
    var runs, r := RunDurations(rs[..|rs| - 1]), rs[|rs| - 1];
    if runs != [] && SameModule(Some(runs[|runs| - 1]), r) then runs else runs + [OrZero(r)]
  }

  /** The result after module `b`. */
  ghost function BlockEnd(n: nat, heads: seq<nat>, b: nat): nat {
    if b + 1 < |heads| then heads[b + 1] else n
  }

  /** Result `i` belongs to module `b`: it is its head, or has a duration within 5 ms of the head's (0 if missing). */
  ghost predicate InBlock(rs: seq<Option<int>>, heads: seq<nat>, runs: seq<int>, b: nat, i: nat)
    requires b < |heads| == |runs| && i < |rs|
  {
    i == heads[b] || SameModule(Some(runs[b]), rs[i])
  }

  /**
   Block `b` of consecutive results: its head gives the duration, every member is within 5 ms of it,
   and the previous head is not.
   */
  ghost predicate IsBlock(rs: seq<Option<int>>, heads: seq<nat>, runs: seq<int>, b: nat)
    requires b < |heads| == |runs|
  {
    var end := BlockEnd(|rs|, heads, b);
    && heads[b] < end <= |rs|
    && runs[b] == OrZero(rs[heads[b]])
    && (forall i: nat :: heads[b] <= i < end ==> InBlock(rs, heads, runs, b, i))
    && (b > 0 ==> !SameModule(Some(runs[b - 1]), rs[heads[b]]))
  }

  /** The results fall into consecutive blocks, the modules, with these heads and durations. */
  ghost predicate Grouping(rs: seq<Option<int>>, heads: seq<nat>, runs: seq<int>) {
    && |heads| == |runs|
    && (rs != [] ==> heads != [] && heads[0] == 0)
    && (rs == [] ==> heads == [])
    && (forall b: nat :: b < |heads| ==> IsBlock(rs, heads, runs, b))
  }

  lemma {:induction false} BlockStays(rs: seq<Option<int>>, r: Option<int>, heads: seq<nat>, runs: seq<int>, b: nat,
                                      heads': seq<nat>, runs': seq<int>)
    requires b < |heads| == |runs| && IsBlock(rs, heads, runs, b)
    requires |heads'| == |runs'| && heads <= heads' && runs <= runs'
    requires heads' == heads || heads' == heads + [|rs|]
    requires heads' == heads && b == |heads| - 1 ==> SameModule(Some(runs[b]), r)
    ensures IsBlock(rs + [r], heads', runs', b)
  {
    var more := rs + [r];
    var end, end' := BlockEnd(|rs|, heads, b), BlockEnd(|more|, heads', b);
    forall i: nat | heads'[b] <= i < end' ensures InBlock(more, heads', runs', b, i) {
      if i < |rs| { assert InBlock(rs, heads, runs, b, i); }
    }
  }

  lemma {:induction false} GroupingGrows(rs: seq<Option<int>>, r: Option<int>, heads: seq<nat>, runs: seq<int>)
    requires Grouping(rs, heads, runs)
    ensures runs != [] && SameModule(Some(runs[|runs| - 1]), r) ==> Grouping(rs + [r], heads, runs)
    ensures !(runs != [] && SameModule(Some(runs[|runs| - 1]), r)) ==> Grouping(rs + [r], heads + [|rs|], runs + [OrZero(r)])
  {
    var joins := runs != [] && SameModule(Some(runs[|runs| - 1]), r);
    var heads', runs' := if joins then heads else heads + [|rs|], if joins then runs else runs + [OrZero(r)];
    forall b: nat | b < |heads'| ensures IsBlock(rs + [r], heads', runs', b) {
      if b < |heads| {
        BlockStays(rs, r, heads, runs, b, heads', runs');
      } else {
        forall i: nat | heads'[b] <= i < |rs| + 1 ensures InBlock(rs + [r], heads', runs', b, i) {}
      }
    }
  }

  /** Consecutive results of one module are grouped: the runs are the durations of the blocks' heads. */
  method GroupRuns(rs: seq<Option<int>>) returns (runs: seq<int>, heads: seq<nat>)
    ensures Grouping(rs, heads, runs)
    ensures runs == RunDurations(rs)
  {
    runs, heads := [], [];
    for k := 0 to |rs|
      invariant Grouping(rs[..k], heads, runs)
      invariant runs == RunDurations(rs[..k])
    {
      GroupingGrows(rs[..k], rs[k], heads, runs);
      assert rs[..k + 1] == rs[..k] + [rs[k]] && rs[..k + 1][..k] == rs[..k];
      if !(runs != [] && SameModule(Some(runs[|runs| - 1]), rs[k])) {
        runs, heads := runs + [OrZero(rs[k])], heads + [k];
      }
    }
    assert rs[..|rs|] == rs;
  }

  function Total(runs: seq<int>): int {
    if runs == [] then 0 else Total(runs[..|runs| - 1]) + runs[|runs| - 1]
  }

  /** A result without a duration is directly followed by one of 1 to 5 ms (or its negative). */
  predicate Clash(rs: seq<Option<int>>, i: nat)
    requires i + 1 < |rs|
  {
    rs[i].None? && rs[i + 1].Some? && rs[i + 1].value != 0 && -5 <= rs[i + 1].value <= 5
  }

  /** The two groupings agree on the sum and on the module they compare the next result with. */
  ghost predicate InStep(rs: seq<Option<int>>) {
    var acc, runs := Summed(rs), RunDurations(rs);
    && acc.n == Total(runs)
    && (rs != [] ==> runs != [] && runs[|runs| - 1] == OrZero(acc.last) && (acc.last.None? <==> rs[|rs| - 1].None?))
  }

  lemma {:induction false} InStepStep(rs: seq<Option<int>>, r: Option<int>)
    requires InStep(rs)
    ensures rs != [] && Clash(rs + [r], |rs| - 1) ==> Summed(rs + [r]).n != Total(RunDurations(rs + [r]))
    ensures !(rs != [] && Clash(rs + [r], |rs| - 1)) ==> InStep(rs + [r])
  {
    assert (rs + [r])[..|rs|] == rs;
    var runs := RunDurations(rs);
    assert (runs + [OrZero(r)])[..|runs|] == runs;
  }

  /** No clash among the first `k` results. */
  ghost predicate NoClash(rs: seq<Option<int>>, k: nat)
    requires k <= |rs|
  {
    forall i: nat :: i + 1 < k ==> !Clash(rs, i)
  }

  lemma {:induction false} InStepUpTo(rs: seq<Option<int>>, k: nat)
    requires k <= |rs| && NoClash(rs, k)
    ensures InStep(rs[..k])
  {
    if k == 0 {
      assert rs[..0] == [];
    } else {
      var front := rs[..k - 1];
      InStepUpTo(rs, k - 1);
      assert rs[..k] == front + [rs[k - 1]];
      if k > 1 { assert Clash(front + [rs[k - 1]], |front| - 1) == Clash(rs, k - 2); }
      InStepStep(front, rs[k - 1]);
    }
  }

  /**
   Result by result: the running sum and the modules' total agree after every result
   exactly when no result without a duration is followed by one of 1 to 5 ms.
   */
  lemma {:induction false} TotalsAgreeIff(rs: seq<Option<int>>)
    ensures (forall k :: 0 <= k <= |rs| ==> Summed(rs[..k]).n == Total(RunDurations(rs[..k])))
       <==> NoClash(rs, |rs|)
  {
    if NoClash(rs, |rs|) {
      forall k | 0 <= k <= |rs| ensures Summed(rs[..k]).n == Total(RunDurations(rs[..k])) { InStepUpTo(rs, k); }
    } else {
      var i := FirstClash(rs);
      InStepUpTo(rs, i + 1);
      var front := rs[..i + 1];
      assert rs[..i + 2] == front + [rs[i + 1]];
      assert Clash(front + [rs[i + 1]], |front| - 1) == Clash(rs, i);
      InStepStep(front, rs[i + 1]);
    }
  }

  /** The totals the script prints agree when no missing duration is directly followed by one of 1 to 5 ms. */
  lemma {:induction false} TotalsAgree(rs: seq<Option<int>>)
    requires NoClash(rs, |rs|)
    ensures Summed(rs).n == Total(RunDurations(rs))
  {
    InStepUpTo(rs, |rs|);
    assert rs[..|rs|] == rs;
  }

  lemma {:induction false} SummedMore(rs: seq<Option<int>>, r: Option<int>)
    ensures Summed(rs + [r]) == (if SameModule(r, Summed(rs).last) then Summed(rs) else Acc(Summed(rs).n + OrZero(r), r))
    ensures var runs := RunDurations(rs);
      RunDurations(rs + [r]) == if runs != [] && SameModule(Some(runs[|runs| - 1]), r) then runs else runs + [OrZero(r)]
  {
    assert (rs + [r])[..|rs|] == rs;
  }

  /** One such pair makes them differ. */
  lemma {:induction false} TotalsDiffer()
    ensures var rs := [None, Some(3)]; Clash(rs, 0) && Summed(rs).n == 3 && Total(RunDurations(rs)) == 0
  {
    SummedMore([], None);
    SummedMore([None], Some(3));
    assert [None] + [Some(3)] == [None, Some(3)];
  }

  /** One more result, from known values to known values. */
  lemma {:induction false} OneMore(rs: seq<Option<int>>, r: Option<int>, acc: Acc, runs: seq<int>, total: int)
    requires Summed(rs) == acc && RunDurations(rs) == runs && Total(runs) == total
    ensures SameModule(r, acc.last) ==> Summed(rs + [r]) == acc
    ensures !SameModule(r, acc.last) ==> Summed(rs + [r]) == Acc(acc.n + OrZero(r), r)
    ensures runs != [] && SameModule(Some(runs[|runs| - 1]), r) ==> RunDurations(rs + [r]) == runs
    ensures runs == [] || !SameModule(Some(runs[|runs| - 1]), r) ==>
      RunDurations(rs + [r]) == runs + [OrZero(r)] && Total(runs + [OrZero(r)]) == total + OrZero(r)
  {
    SummedMore(rs, r);
    assert (runs + [OrZero(r)])[..|runs|] == runs;
  }

  lemma {:induction false} FirstClashCounts(rs: seq<Option<int>>)
    requires rs == [None] + [Some(3)] + [Some(6)] + [Some(100)]
    ensures Summed(rs) == Acc(103, Some(100)) && RunDurations(rs) == [0, 6, 100] && Total([0, 6, 100]) == 106
  {
    var none: seq<Option<int>> := [];
    OneMore(none, None, Acc(0, None), [], 0);
    assert none + [None] == [None];
    OneMore([None], Some(3), Acc(0, None), [0], 0);
    OneMore([None] + [Some(3)], Some(6), Acc(3, Some(3)), [0], 0);
    assert [0] + [6] == [0, 6];
    OneMore([None] + [Some(3)] + [Some(6)], Some(100), Acc(3, Some(3)), [0, 6], 6);
    assert [0, 6] + [100] == [0, 6, 100];
  }

  /** Two can cancel out in the final total, so the condition is not necessary for it. */
  lemma {:induction false} ClashesCanCancel()
    ensures var rs := [None, Some(3), Some(6), Some(100), None, Some(3)];
      Clash(rs, 0) && Summed(rs).n == 106 == Total(RunDurations(rs))
  {
    var front := [None] + [Some(3)] + [Some(6)] + [Some(100)];
    FirstClashCounts(front);
    OneMore(front, None, Acc(103, Some(100)), [0, 6, 100], 106);
    OneMore(front + [None], Some(3), Acc(103, None), [0, 6, 100, 0], 106);
    assert front + [None] + [Some(3)] == [None, Some(3), Some(6), Some(100), None, Some(3)];
  }

  lemma {:induction false} FirstClash(rs: seq<Option<int>>) returns (i: nat)
    requires !NoClash(rs, |rs|)
    ensures i + 1 < |rs| && Clash(rs, i) && NoClash(rs, i + 1)
  {
    i := 0;
    while !Clash(rs, i)
      invariant i + 1 < |rs| && NoClash(rs, i + 1)
      decreases |rs| - i
    {
      i := i + 1;
    }
  }
}

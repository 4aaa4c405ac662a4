/**
 `maxOkGapMs` of experiments/compute-disk/lib/disk-change.ts: the longest time
 between consecutive successes whose later one lies in a window, and how it bounds
 the outages of the same samples.
 */
module DiskChange {
  import opened Outages
  import opened Wrappers

  /** Time of the last success among the first `k` samples. */
  function LastOk(s: seq<Sample>, k: nat): Option<int>
    requires k <= |s|
  {
    if k == 0 then None else if s[k - 1].ok then Some(s[k - 1].at) else LastOk(s, k - 1)
  }

  /** It is the latest: a success with none between it and sample `k`. */
  lemma {:induction false} LastOkIsLatest(s: seq<Sample>, k: nat, t: int)
    requires k <= |s|
    ensures LastOk(s, k) == Some(t) <==> exists j :: 0 <= j < k && s[j].at == t && IsLatestOk(s, j, k)
    ensures LastOk(s, k) == None <==> forall j :: 0 <= j < k ==> !s[j].ok
  {
    if k > 0 {
      LastOkIsLatest(s, k - 1, t);
      if s[k - 1].ok {
        assert IsLatestOk(s, k - 1, k);
      } else {
        forall j | 0 <= j < k - 1 ensures IsLatestOk(s, j, k) <==> IsLatestOk(s, j, k - 1) {}
      }
    }
  }

  ghost predicate IsLatestOk(s: seq<Sample>, j: int, k: nat)
    requires 0 <= j < k <= |s|
  {
    s[j].ok && forall i :: j < i < k ==> !s[i].ok
  }

  function OrElse(o: Option<int>, d: int): int { if o.Some? then o.value else d }

  predicate InWindow(s: seq<Sample>, k: nat, from: int, to: int)
    requires k < |s|
  {
    s[k].ok && from <= s[k].at < to
  }

  /** From the success before `k`, or the window's start if there is none, to sample `k`. */
  function Gap(s: seq<Sample>, k: nat, from: int): int
    requires k < |s|
  {
    s[k].at - OrElse(LastOk(s, k), from)
  }

  /** The number of samples before the window; they are a prefix of samples in time order. */
  ghost predicate StartsAt(s: seq<Sample>, from: int, k: nat) {
    k <= |s| && (forall i :: 0 <= i < k ==> s[i].at < from) && (forall i :: k <= i < |s| ==> from <= s[i].at)
  }

  /** The declared meaning of the longest gap. */
  ghost predicate IsMaxOkGap(s: seq<Sample>, from: int, to: int, m: int) {
    if exists k: nat :: k < |s| && InWindow(s, k, from, to) then
      && (exists k: nat :: k < |s| && InWindow(s, k, from, to) && Gap(s, k, from) == m)
      && (forall k: nat :: k < |s| && InWindow(s, k, from, to) ==> Gap(s, k, from) <= m)
    else
      exists k: nat :: StartsAt(s, from, k) && m == to - OrElse(LastOk(s, k), from)
  }

  /** Successes `j` and `k` are consecutive ones, and the later lies in the window. */
  ghost predicate IsOkGap(s: seq<Sample>, from: int, to: int, j: int, k: int) {
    0 <= j < k < |s| && s[k].ok && from <= s[k].at < to && IsLatestOk(s, j, k)
  }

  /** Success `k` lies in the window and is the first of all. */
  ghost predicate IsFirstOk(s: seq<Sample>, from: int, to: int, k: int) {
    0 <= k < |s| && s[k].ok && from <= s[k].at < to && forall j :: 0 <= j < k ==> !s[j].ok
  }

  /**
   The longest gap told from pairs of samples: no consecutive successes with the later one in
   the window are further apart, nor is the first of all successes further from the window's
   start; and one of these is exactly that far.
   */
  lemma {:induction false} MaxOkGapTold(s: seq<Sample>, from: int, to: int, m: int)
    requires IsMaxOkGap(s, from, to, m) && exists k :: 0 <= k < |s| && s[k].ok && from <= s[k].at < to
    ensures forall j, k :: IsOkGap(s, from, to, j, k) ==> s[k].at - s[j].at <= m
    ensures forall k :: IsFirstOk(s, from, to, k) ==> s[k].at - from <= m
    ensures (exists j, k :: IsOkGap(s, from, to, j, k) && s[k].at - s[j].at == m)
         || (exists k :: IsFirstOk(s, from, to, k) && s[k].at - from == m)
  {
    var w :| 0 <= w < |s| && s[w].ok && from <= s[w].at < to;
    assert InWindow(s, w, from, to);
    forall j, k | IsOkGap(s, from, to, j, k) ensures s[k].at - s[j].at <= m {
      LastOkIsLatest(s, k, s[j].at);
      assert InWindow(s, k, from, to);
    }
    forall k | IsFirstOk(s, from, to, k) ensures s[k].at - from <= m {
      LastOkIsLatest(s, k, 0);
      assert InWindow(s, k, from, to);
    }
    var k: nat :| k < |s| && InWindow(s, k, from, to) && Gap(s, k, from) == m;
    GapIsReached(s, from, to, k);
  }

  lemma {:induction false} GapIsReached(s: seq<Sample>, from: int, to: int, k: nat)
    requires k < |s| && InWindow(s, k, from, to)
    ensures (exists j :: IsOkGap(s, from, to, j, k) && s[k].at - s[j].at == Gap(s, k, from))
         || (IsFirstOk(s, from, to, k) && s[k].at - from == Gap(s, k, from))
  {
    LastOkIsLatest(s, k, OrElse(LastOk(s, k), from));
    if LastOk(s, k).Some? {
      var j :| 0 <= j < k && s[j].at == LastOk(s, k).value && IsLatestOk(s, j, k);
      assert IsOkGap(s, from, to, j, k);
    }
  }

  /** With no success in the window: the time from the last success before it, or from its start, to its end. */
  lemma {:induction false} NoOkGapTold(s: seq<Sample>, from: int, to: int, m: int)
    requires IsMaxOkGap(s, from, to, m) && forall k :: 0 <= k < |s| && s[k].ok ==> !(from <= s[k].at < to)
    ensures (exists j, k :: 0 <= j < k <= |s| && StartsAt(s, from, k) && IsLatestOk(s, j, k) && m == to - s[j].at)
         || (m == to - from && forall j :: 0 <= j < |s| && s[j].ok ==> s[j].at >= from)
  {
    var k: nat :| StartsAt(s, from, k) && m == to - OrElse(LastOk(s, k), from);
    LastOkIsLatest(s, k, OrElse(LastOk(s, k), from));
  }

  lemma {:induction false} LastOkIsEarlier(s: seq<Sample>, k: nat)
    requires TimeOrdered(s) && k < |s|
    ensures LastOk(s, k).Some? ==> LastOk(s, k).value <= s[k].at
  {
    if k > 0 {
      assert AtLe(s[k - 1], s[k]);
      LastOkIsEarlier(s, k - 1);
    }
  }

  /** After `k` samples, `start` of them before the window: `best` is the in-window success with the longest gap. */
  ghost predicate Scanned(s: seq<Sample>, from: int, to: int, k: nat, start: nat, max: int, any: bool, best: nat) {
    && start <= k <= |s|
    && (forall i :: 0 <= i < start ==> s[i].at < from)
    && (forall i :: start <= i < k ==> from <= s[i].at)
    && (any ==> best < k && InWindow(s, best, from, to) && Gap(s, best, from) == max)
    && (!any ==> max == 0 && LastOk(s, k) == LastOk(s, start))
    && (forall i: nat :: i < k && InWindow(s, i, from, to) ==> any && Gap(s, i, from) <= max)
  }

  lemma {:induction false} NoEarlier(s: seq<Sample>, i: nat, j: nat)
    requires TimeOrdered(s) && i < j < |s|
    ensures s[i].at <= s[j].at
  {
    assert AtLe(s[i], s[j]);
  }

  lemma {:induction false} ScannedBefore(s: seq<Sample>, from: int, to: int, k: nat, start: nat, max: int, any: bool,
                                         best: nat)
    requires TimeOrdered(s) && Scanned(s, from, to, k, start, max, any, best) && k < |s| && s[k].at < from
    ensures Scanned(s, from, to, k + 1, start + 1, max, any, best) && start == k
  {
    if start < k { NoEarlier(s, start, k); }
  }

  lemma {:induction false} ScannedInside(s: seq<Sample>, from: int, to: int, k: nat, start: nat, max: int, any: bool,
                                         best: nat)
    requires TimeOrdered(s) && Scanned(s, from, to, k, start, max, any, best) && k < |s| && InWindow(s, k, from, to)
    ensures Scanned(s, from, to, k + 1, start, Max(max, Gap(s, k, from)), true,
                    if any && max >= Gap(s, k, from) then best else k)
  {
    LastOkIsEarlier(s, k);
  }

  lemma {:induction false} ScannedFailure(s: seq<Sample>, from: int, to: int, k: nat, start: nat, max: int, any: bool,
                                          best: nat)
    requires Scanned(s, from, to, k, start, max, any, best) && k < |s| && from <= s[k].at && !s[k].ok
    ensures Scanned(s, from, to, k + 1, start, max, any, best)
  {
  }

  /** One turn of the loop on a sample that does not end it. */
  method TakeSample(s: seq<Sample>, from: int, to: int, k: nat, prev: Option<int>, max: int, any: bool,
                    ghost start: nat, ghost best: nat)
    returns (prev': Option<int>, max': int, any': bool, ghost start': nat, ghost best': nat)
    requires TimeOrdered(s) && Scanned(s, from, to, k, start, max, any, best) && k < |s| && prev == LastOk(s, k)
    requires s[k].ok && from <= s[k].at ==> s[k].at < to
    ensures Scanned(s, from, to, k + 1, start', max', any', best') && prev' == LastOk(s, k + 1)
  {
    prev', max', any', start', best' := prev, max, any, start, best;
    if s[k].at < from {
      ScannedBefore(s, from, to, k, start, max, any, best);
      start' := start + 1;
      if s[k].ok { prev' := Some(s[k].at); }
    } else if s[k].ok {
      ScannedInside(s, from, to, k, start, max, any, best);
      best' := if any && max >= Gap(s, k, from) then best else k;
      max' := Max(max, s[k].at - OrElse(prev, from));
      prev', any' := Some(s[k].at), true;
    } else {
      ScannedFailure(s, from, to, k, start, max, any, best);
    }
  }

  method MaxOkGapMs(s: seq<Sample>, from: int, to: int) returns (m: int)
    requires TimeOrdered(s)
    ensures IsMaxOkGap(s, from, to, m)
  {
    var prev: Option<int> := None;
    var max, any, k := 0, false, 0;
    ghost var start: nat, best: nat := 0, 0;
    while k < |s|
      invariant k <= |s| && prev == LastOk(s, k)
      invariant Scanned(s, from, to, k, start, max, any, best)
    {
      if s[k].ok && s[k].at >= from && s[k].at >= to { break; }
      prev, max, any, start, best := TakeSample(s, from, to, k, prev, max, any, start, best);
      k := k + 1;
    }
    NothingLater(s, from, to, k, start);
    m := if !any then to - OrElse(prev, from) else max;
    ScanMeans(s, from, to, k, start, max, any, best);
  }

  lemma {:induction false} ScanMeans(s: seq<Sample>, from: int, to: int, k: nat, start: nat, max: int, any: bool,
                                     best: nat)
    requires Scanned(s, from, to, k, start, max, any, best) && StartsAt(s, from, start)
    requires forall i: nat :: k <= i < |s| ==> !InWindow(s, i, from, to)
    ensures IsMaxOkGap(s, from, to, if any then max else to - OrElse(LastOk(s, k), from))
  {
  }

  /** Once a success at or past the window's end is met, no later sample is in the window. */
  lemma {:induction false} NothingLater(s: seq<Sample>, from: int, to: int, k: nat, start: nat)
    requires TimeOrdered(s) && start <= k <= |s|
    requires k == |s| || (s[k].at >= to && s[k].at >= from)
    requires forall i :: 0 <= i < start ==> s[i].at < from
    requires forall i :: start <= i < k ==> from <= s[i].at
    ensures forall i: nat :: k <= i < |s| ==> !InWindow(s, i, from, to)
    ensures StartsAt(s, from, start)
  {
    forall i: nat | k < i < |s| ensures s[k].at <= s[i].at { assert AtLe(s[k], s[i]); }
  }

  lemma {:induction false} NoOkInRun(s: seq<Sample>, r: Run, k: nat)
    requires AllFail(s, r) && r.lo <= k <= r.hi
    ensures LastOk(s, k) == LastOk(s, r.lo)
  {
    if k > r.lo { NoOkInRun(s, r, k - 1); }
  }

  /** The longest gap is at least the length of every outage that starts in the window and is closed in it. */
  lemma {:induction false} GapCoversOutages(s: seq<Sample>, phases: seq<PhaseMark>, endMs: int, from: int, to: int,
                                            m: int, i: nat)
    requires TimeOrdered(s) && IsMaxOkGap(s, from, to, m) && i < |OutagesOf(s, phases, endMs)|
    requires var o := OutagesOf(s, phases, endMs)[i]; !o.open && from <= o.startMs && o.endMs < to
    ensures OutagesOf(s, phases, endMs)[i].Length() <= m
  {
    OutagesInOrder(s, phases, endMs);
    var r := RunsOf(s)[i];
    assert AllFail(s, r) && GapOk(s, RunsOf(s), i + 1);
    ClosedRunInWindow(s, r, from, to, m);
  }

  lemma {:induction false} ClosedRunInWindow(s: seq<Sample>, r: Run, from: int, to: int, m: int)
    requires TimeOrdered(s) && IsMaxOkGap(s, from, to, m) && AllFail(s, r) && r.hi < |s|
    requires s[r.hi].ok && from <= s[r.lo].at && s[r.hi].at < to
    ensures s[r.hi].at - s[r.lo].at <= m
  {
    assert AtLe(s[r.lo], s[r.hi]);
    assert InWindow(s, r.hi, from, to);
    NoOkInRun(s, r, r.hi);
    LastOkIsEarlier(s, r.lo);
  }
}

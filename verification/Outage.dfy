/**
 Outage accounting for one sampled path across several phases
 (experiments/compute-disk/lib/outage.ts). Times are whole milliseconds; the
 display rounding to seconds is not modelled.
 */
module Outages {
  import opened Sorting
  import opened Wrappers

  datatype Sample = Sample(at: int, ok: bool)
  datatype PhaseMark = PhaseMark(name: string, startMs: int)
  datatype Outage = Outage(startMs: int, endMs: int, phase: int, open: bool, failures: nat) {
    function Length(): int { endMs - startMs }
  }

  function Max(a: int, b: int): int { if a >= b then a else b }
  function Min(a: int, b: int): int { if a <= b then a else b }

  predicate AtLe(a: Sample, b: Sample) { a.at <= b.at }

  ghost predicate TimeOrdered(s: seq<Sample>) { SortedBy(s, AtLe) }

  // ----- runs of failed samples -----

  /** The samples `lo..hi` of a list. */
  datatype Run = Run(lo: nat, hi: nat)

  ghost predicate AllFail(s: seq<Sample>, r: Run) {
    r.lo < r.hi <= |s| && forall k :: r.lo <= k < r.hi ==> !s[k].ok
  }

  /** Every sample between run `i - 1` and run `i` (or the list's ends) is a success. */
  ghost predicate GapOk(s: seq<Sample>, rs: seq<Run>, i: nat)
    requires i <= |rs|
  {
    var from, to := if i == 0 then 0 else rs[i - 1].hi, if i == |rs| then |s| else rs[i].lo;
    forall k :: from <= k < to && k < |s| ==> s[k].ok
  }

  /** `rs` are the maximal runs of failed samples of `s`, in order, and they hold every failure. */
  ghost predicate IsRuns(s: seq<Sample>, rs: seq<Run>) {
    && (forall i :: 0 <= i < |rs| ==> AllFail(s, rs[i]))
    && (forall i, j :: 0 <= i < j < |rs| ==> rs[i].hi < rs[j].lo)
    && (forall i :: 0 <= i <= |rs| ==> GapOk(s, rs, i))
  }

  function ExtendRuns(rs: seq<Run>, n: nat, ok: bool): seq<Run> {
    if ok then rs
    else if rs != [] && rs[|rs| - 1].hi == n then rs[..|rs| - 1] + [Run(rs[|rs| - 1].lo, n + 1)]
    else rs + [Run(n, n + 1)]
  }

  function RunsOf(s: seq<Sample>): seq<Run> {
    if s == [] then [] else ExtendRuns(RunsOf(s[..|s| - 1]), |s| - 1, s[|s| - 1].ok)
  }

  lemma {:induction false} RunsAreMaximal(s: seq<Sample>)
    ensures IsRuns(s, RunsOf(s))
  {
    if s != [] {
      var front, x := s[..|s| - 1], s[|s| - 1];
      RunsAreMaximal(front);
      RunsExtend(front, x, RunsOf(front));
      assert s == front + [x];
    }
  }

  lemma {:induction false} RunsExtend(s: seq<Sample>, x: Sample, rs: seq<Run>)
    requires IsRuns(s, rs)
    ensures IsRuns(s + [x], ExtendRuns(rs, |s|, x.ok))
  {
    var t, n, m := s + [x], |s|, |rs| - 1;
    var r := ExtendRuns(rs, n, x.ok);
    forall i | 0 <= i < |r| ensures AllFail(t, r[i]) {
      if i < |rs| { assert AllFail(s, rs[i]); }
    }
    forall i, j | 0 <= i < j < |r| ensures r[i].hi < r[j].lo {
      if j < |rs| {
        assert rs[i].hi < rs[j].lo;
      } else {
        assert AllFail(s, rs[i]) && AllFail(s, rs[m]);
        assert i < m ==> rs[i].hi < rs[m].lo;
      }
    }
    forall i | 0 <= i <= |r| ensures GapOk(t, r, i) { ExtendGap(s, x, rs, i); }
  }

  lemma {:induction false} ExtendGap(s: seq<Sample>, x: Sample, rs: seq<Run>, i: nat)
    requires IsRuns(s, rs) && i <= |ExtendRuns(rs, |s|, x.ok)|
    ensures GapOk(s + [x], ExtendRuns(rs, |s|, x.ok), i)
  {
    if i <= |rs| { assert GapOk(s, rs, i); }
  }

  /** The runs without the last sample, which the last run ends in. */
  function CutRun(rs: seq<Run>, n: nat): seq<Run>
    requires rs != []
  {
    var m := |rs| - 1;
    if rs[m].lo == n then rs[..m] else rs[..m] + [Run(rs[m].lo, n)]
  }

  lemma {:induction false} CutRuns(s: seq<Sample>, rs: seq<Run>)
    requires s != [] && rs != [] && IsRuns(s, rs) && rs[|rs| - 1].hi == |s|
    ensures IsRuns(s[..|s| - 1], CutRun(rs, |s| - 1))
  {
    var n, m := |s| - 1, |rs| - 1;
    var cut := CutRun(rs, n);
    assert AllFail(s, rs[m]);
    forall i | 0 <= i < |cut| ensures AllFail(s[..n], cut[i]) {
      assert AllFail(s, rs[i]);
      if i < m { assert rs[i].hi < rs[m].lo; }
    }
    forall i | 0 <= i <= |cut| ensures GapOk(s[..n], cut, i) { assert GapOk(s, rs, i); }
  }

  lemma {:induction false} KeepRuns(s: seq<Sample>, rs: seq<Run>)
    requires s != [] && s[|s| - 1].ok && IsRuns(s, rs)
    ensures IsRuns(s[..|s| - 1], rs)
  {
    var front := s[..|s| - 1];
    forall i | 0 <= i < |rs| ensures AllFail(front, rs[i]) { assert AllFail(s, rs[i]); }
    forall i | 0 <= i <= |rs| ensures GapOk(front, rs, i) { assert GapOk(s, rs, i); }
  }

  lemma {:induction false} LastRunTouches(s: seq<Sample>, rs: seq<Run>)
    requires s != [] && !s[|s| - 1].ok && IsRuns(s, rs)
    ensures rs != [] && rs[|rs| - 1].hi == |s|
  {
    assert GapOk(s, rs, |rs|);
    if rs != [] { assert AllFail(s, rs[|rs| - 1]); }
  }

  lemma {:induction false} RunNeedsSample(s: seq<Sample>, rs: seq<Run>)
    requires rs != [] && IsRuns(s, rs)
    ensures s != []
  {
    assert AllFail(s, rs[0]);
  }

  lemma {:induction false} ExtendCutRun(rs: seq<Run>, n: nat)
    requires rs != [] && rs[|rs| - 1].hi == n + 1
    requires |rs| > 1 && rs[|rs| - 1].lo == n ==> rs[|rs| - 2].hi < n
    ensures ExtendRuns(CutRun(rs, n), n, false) == rs
  {
    var m := |rs| - 1;
    assert rs == rs[..m] + [rs[m]];
    if rs[m].lo == n { ExtendNewRun(rs[..m], n); } else { ExtendOldRun(rs[..m], rs[m].lo, n); }
  }

  lemma {:induction false} ExtendNewRun(rs: seq<Run>, n: nat)
    requires rs != [] ==> rs[|rs| - 1].hi < n
    ensures ExtendRuns(rs, n, false) == rs + [Run(n, n + 1)]
  {
  }

  lemma {:induction false} ExtendOldRun(rs: seq<Run>, lo: nat, n: nat)
    ensures ExtendRuns(rs + [Run(lo, n)], n, false) == rs + [Run(lo, n + 1)]
  {
    assert (rs + [Run(lo, n)])[..|rs|] == rs;
  }

  lemma {:induction false} ExtendCut(s: seq<Sample>, rs: seq<Run>)
    requires s != [] && rs != [] && IsRuns(s, rs) && rs[|rs| - 1].hi == |s|
    ensures ExtendRuns(CutRun(rs, |s| - 1), |s| - 1, false) == rs
  {
    assert |rs| > 1 ==> rs[|rs| - 2].hi < rs[|rs| - 1].lo;
    ExtendCutRun(rs, |s| - 1);
  }

  /** Being the maximal runs of failures determines them. */
  lemma {:induction false} RunsAreUnique(s: seq<Sample>, rs: seq<Run>)
    requires IsRuns(s, rs)
    ensures RunsOf(s) == rs
  {
    if s == [] {
      if rs != [] { RunNeedsSample(s, rs); }
    } else {
      var front, x := s[..|s| - 1], s[|s| - 1];
      var before := if x.ok then rs else (LastRunTouches(s, rs); CutRun(rs, |front|));
      if x.ok {
        KeepRuns(s, rs);
      } else {
        CutRuns(s, rs);
        ExtendCut(s, rs);
      }
      RunsAreUnique(front, before);
      RunsOfLast(s);
    }
  }

  lemma {:induction false} RunsOfLast(s: seq<Sample>)
    requires s != []
    ensures RunsOf(s) == ExtendRuns(RunsOf(s[..|s| - 1]), |s| - 1, s[|s| - 1].ok)
  {
  }

  // ----- phases -----

  /** The last phase that has begun by `at`, or -1. */
  function PhaseOf(at: int, phases: seq<PhaseMark>): (idx: int)
    ensures -1 <= idx < |phases|
  {
    var n := |phases|;
    if n == 0 then -1 else if at >= phases[n - 1].startMs then n - 1 else PhaseOf(at, phases[..n - 1])
  }

  lemma {:induction false} PhaseOfIsLast(at: int, phases: seq<PhaseMark>)
    ensures var idx := PhaseOf(at, phases);
      && (0 <= idx ==> phases[idx].startMs <= at)
      && forall j :: idx < j < |phases| ==> at < phases[j].startMs
  {
    if phases != [] { PhaseOfIsLast(at, phases[..|phases| - 1]); }
  }

  method FindPhase(at: int, phases: seq<PhaseMark>) returns (idx: int)
    ensures idx == PhaseOf(at, phases)
  {
    idx := -1;
    for i := 0 to |phases|
      invariant -1 <= idx < i
      invariant 0 <= idx ==> phases[idx].startMs <= at
      invariant forall j :: idx < j < i ==> at < phases[j].startMs
    {
      if at >= phases[i].startMs { idx := i; }
    }
    PhaseOfIsLast(at, phases);
  }

  ghost predicate PhasesOrdered(phases: seq<PhaseMark>) {
    forall i, j :: 0 <= i < j < |phases| ==> phases[i].startMs <= phases[j].startMs
  }

  // ----- outages -----

  function OutageOf(s: seq<Sample>, r: Run, phases: seq<PhaseMark>, endMs: int): Outage
    requires r.lo < r.hi <= |s|
  {
    var start := s[r.lo].at;
    Outage(start, if r.hi < |s| then s[r.hi].at else Max(endMs, start), PhaseOf(start, phases), r.hi == |s|, r.hi - r.lo)
  }

  ghost predicate RunsWithin(s: seq<Sample>, rs: seq<Run>) {
    forall i :: 0 <= i < |rs| ==> rs[i].lo < rs[i].hi <= |s|
  }

  ghost function OutagesOfRuns(s: seq<Sample>, rs: seq<Run>, phases: seq<PhaseMark>, endMs: int): seq<Outage>
    requires RunsWithin(s, rs)
  {
    seq(|rs|, i requires 0 <= i < |rs| => OutageOf(s, rs[i], phases, endMs))
  }

  /** One outage per maximal run of failures of the samples in time order. */
  ghost function OutagesOf(samples: seq<Sample>, phases: seq<PhaseMark>, endMs: int): seq<Outage> {
    var s := Sort(samples, AtLe);
    RunsAreMaximal(s);
    OutagesOfRuns(s, RunsOf(s), phases, endMs)
  }

  /** On samples already in time order the outages are those of the samples' own runs. */
  lemma {:induction false} OutagesInOrder(s: seq<Sample>, phases: seq<PhaseMark>, endMs: int)
    requires TimeOrdered(s)
    ensures IsRuns(s, RunsOf(s)) && |OutagesOf(s, phases, endMs)| == |RunsOf(s)|
    ensures forall i :: 0 <= i < |RunsOf(s)| ==>
      AllFail(s, RunsOf(s)[i]) && OutagesOf(s, phases, endMs)[i] == OutageOf(s, RunsOf(s)[i], phases, endMs)
  {
    SortIdentity(s, AtLe);
    RunsAreMaximal(s);
  }

  lemma {:induction false} OutagesOfMoreRuns(s: seq<Sample>, rs: seq<Run>, r: Run, phases: seq<PhaseMark>, endMs: int)
    requires RunsWithin(s, rs) && r.lo < r.hi <= |s|
    ensures RunsWithin(s, rs + [r])
    ensures OutagesOfRuns(s, rs + [r], phases, endMs) == OutagesOfRuns(s, rs, phases, endMs) + [OutageOf(s, r, phases, endMs)]
  {
  }

  /** `out` are the outages of the first runs of `rs`. */
  ghost predicate Pushed(s: seq<Sample>, rs: seq<Run>, out: seq<Outage>, phases: seq<PhaseMark>, endMs: int) {
    |out| <= |rs| && forall i :: 0 <= i < |out| ==> rs[i].lo < rs[i].hi <= |s| && out[i] == OutageOf(s, rs[i], phases, endMs)
  }

  lemma {:induction false} PushedMore(s: seq<Sample>, rs: seq<Run>, out: seq<Outage>, o: Outage,
                                      phases: seq<PhaseMark>, endMs: int)
    requires Pushed(s, rs, out, phases, endMs) && |out| < |rs|
    requires rs[|out|].lo < rs[|out|].hi <= |s| && o == OutageOf(s, rs[|out|], phases, endMs)
    ensures Pushed(s, rs, out + [o], phases, endMs)
  {
  }

  /** What the scan has pushed and what it holds open after `k` samples. */
  ghost predicate Holds(s: seq<Sample>, k: nat, cur: Option<Outage>, out: seq<Outage>, phases: seq<PhaseMark>,
                        endMs: int)
    requires k <= |s|
  {
    var rs := RunsOf(s[..k]);
    && Pushed(s, rs, out, phases, endMs)
    && (rs == [] || rs[|rs| - 1].hi <= k)
    && match cur
       case None => |out| == |rs| && (rs == [] || rs[|rs| - 1].hi < k)
       case Some(o) => |out| == |rs| - 1 && rs[|rs| - 1].hi == k && HeldOpen(s, rs[|rs| - 1], o, phases)
  }

  ghost predicate HeldOpen(s: seq<Sample>, r: Run, o: Outage, phases: seq<PhaseMark>) {
    && r.lo < r.hi <= |s|
    && o == Outage(s[r.lo].at, s[r.lo].at, PhaseOf(s[r.lo].at, phases), true, r.hi - r.lo)
  }

  lemma {:induction false} RunsUpTo(s: seq<Sample>, k: nat)
    requires k < |s|
    ensures RunsOf(s[..k + 1]) == ExtendRuns(RunsOf(s[..k]), k, s[k].ok)
  {
    assert s[..k + 1][..k] == s[..k];
  }

  lemma {:induction false} PushedStays(s: seq<Sample>, rs: seq<Run>, next: seq<Run>, out: seq<Outage>,
                                       phases: seq<PhaseMark>, endMs: int)
    requires Pushed(s, rs, out, phases, endMs) && |out| <= |next| && next[..|out|] == rs[..|out|]
    ensures Pushed(s, next, out, phases, endMs)
  {
    forall i | 0 <= i < |out| ensures next[i] == rs[i] { assert next[..|out|][i] == rs[..|out|][i]; }
  }

  lemma {:induction false} HoldsFailure(s: seq<Sample>, k: nat, cur: Option<Outage>, out: seq<Outage>,
                                        phases: seq<PhaseMark>, endMs: int)
    requires k < |s| && !s[k].ok && Holds(s, k, cur, out, phases, endMs)
    ensures var o := if cur.Some? then cur.value else Outage(s[k].at, s[k].at, PhaseOf(s[k].at, phases), true, 0);
      Holds(s, k + 1, Some(o.(failures := o.failures + 1)), out, phases, endMs)
  {
    RunsUpTo(s, k);
    PushedStays(s, RunsOf(s[..k]), RunsOf(s[..k + 1]), out, phases, endMs);
  }

  lemma {:induction false} HoldsSuccess(s: seq<Sample>, k: nat, cur: Option<Outage>, out: seq<Outage>,
                                        phases: seq<PhaseMark>, endMs: int)
    requires k < |s| && s[k].ok && Holds(s, k, cur, out, phases, endMs)
    ensures Holds(s, k + 1, None, if cur.Some? then out + [cur.value.(endMs := s[k].at, open := false)] else out, phases, endMs)
  {
    RunsUpTo(s, k);
    if cur.Some? { PushedMore(s, RunsOf(s[..k]), out, cur.value.(endMs := s[k].at, open := false), phases, endMs); }
  }

  lemma {:induction false} HoldsAll(s: seq<Sample>, cur: Option<Outage>, out: seq<Outage>, phases: seq<PhaseMark>,
                                    endMs: int)
    requires Holds(s, |s|, cur, out, phases, endMs)
    ensures Pushed(s, RunsOf(s), if cur.Some? then out + [cur.value.(endMs := Max(endMs, cur.value.startMs))] else out,
                   phases, endMs)
    ensures |out| + (if cur.Some? then 1 else 0) == |RunsOf(s)|
  {
    assert s[..|s|] == s;
    if cur.Some? { PushedMore(s, RunsOf(s), out, cur.value.(endMs := Max(endMs, cur.value.startMs)), phases, endMs); }
  }

  method ScanOutages(samples: seq<Sample>, phases: seq<PhaseMark>, endMs: int) returns (out: seq<Outage>)
    ensures out == OutagesOf(samples, phases, endMs)
  {
    out := ScanSorted(Sort(samples, AtLe), phases, endMs);
    PushedAll(samples, out, phases, endMs);
  }

  /** The loop body: one sample opens, extends or closes the current outage. */
  method ScanOne(sorted: seq<Sample>, k: nat, cur: Option<Outage>, out: seq<Outage>, phases: seq<PhaseMark>,
                 ghost endMs: int)
    returns (cur': Option<Outage>, out': seq<Outage>)
    requires k < |sorted| && Holds(sorted, k, cur, out, phases, endMs)
    ensures Holds(sorted, k + 1, cur', out', phases, endMs)
  {
    var s := sorted[k];
    cur', out' := cur, out;
    if !s.ok {
      HoldsFailure(sorted, k, cur, out, phases, endMs);
      if cur'.None? {
        var phase := FindPhase(s.at, phases);
        cur' := Some(Outage(s.at, s.at, phase, true, 0));
      }
      cur' := Some(cur'.value.(failures := cur'.value.failures + 1));
    } else {
      HoldsSuccess(sorted, k, cur, out, phases, endMs);
      if cur'.Some? {
        out' := out' + [cur'.value.(endMs := s.at, open := false)];
        cur' := None;
      }
    }
  }

  method ScanSorted(sorted: seq<Sample>, phases: seq<PhaseMark>, endMs: int) returns (out: seq<Outage>)
    ensures Pushed(sorted, RunsOf(sorted), out, phases, endMs) && |out| == |RunsOf(sorted)|
  {
    out := [];
    var cur: Option<Outage> := None;
    for k := 0 to |sorted|
      invariant Holds(sorted, k, cur, out, phases, endMs)
    {
      cur, out := ScanOne(sorted, k, cur, out, phases, endMs);
    }
    HoldsAll(sorted, cur, out, phases, endMs);
    if cur.Some? {
      out := out + [cur.value.(endMs := Max(endMs, cur.value.startMs))];
    }
  }

  lemma {:induction false} PushedAll(samples: seq<Sample>, out: seq<Outage>, phases: seq<PhaseMark>, endMs: int)
    requires var s := Sort(samples, AtLe); Pushed(s, RunsOf(s), out, phases, endMs) && |out| == |RunsOf(s)|
    ensures out == OutagesOf(samples, phases, endMs)
  {
  }

  // ----- attribution to phases -----

  function PhaseEnd(phases: seq<PhaseMark>, i: nat, endMs: int): int
    requires i < |phases|
  {
    if i + 1 < |phases| then phases[i + 1].startMs else endMs
  }

  /** Milliseconds of the outage inside `[from, to)`. */
  function Share(o: Outage, from: int, to: int): int { Max(0, Min(o.endMs, to) - Max(o.startMs, from)) }

  function ShareIn(o: Outage, phases: seq<PhaseMark>, i: nat, endMs: int): int
    requires i < |phases|
  {
    Share(o, phases[i].startMs, PhaseEnd(phases, i, endMs))
  }

  /** What an outage that began in an earlier phase brings into phase `i`. */
  function Carries(o: Outage, phases: seq<PhaseMark>, i: nat, endMs: int): int
    requires i < |phases|
  {
    if 0 <= o.phase < i then ShareIn(o, phases, i, endMs) else 0
  }

  function CarriedIn(os: seq<Outage>, phases: seq<PhaseMark>, i: nat, endMs: int): int
    requires i < |phases|
  {
    if os == [] then 0 else CarriedIn(os[..|os| - 1], phases, i, endMs) + Carries(os[|os| - 1], phases, i, endMs)
  }

  function TotalLength(os: seq<Outage>): int {
    if os == [] then 0 else TotalLength(os[..|os| - 1]) + os[|os| - 1].Length()
  }

  predicate RunningAt(o: Outage, t: int) { o.startMs < t && (o.endMs > t || (o.open && o.endMs >= t)) }

  /** The longest of `os`, the first on a tie. */
  ghost predicate IsLongest(os: seq<Outage>, o: Option<Outage>) {
    match o
    case None => os == []
    case Some(x) =>
      exists i :: 0 <= i < |os| && os[i] == x
        && (forall j :: 0 <= j < |os| ==> os[j].Length() <= x.Length())
        && (forall j :: 0 <= j < i ==> os[j].Length() < x.Length())
  }

  datatype PhaseStats = PhaseStats(
    name: string, samples: nat, ok: nat, failures: nat,
    longest: Option<Outage>, totalOutageMs: int, outages: nat, openAtPhaseEnd: bool,
    carriedInMs: int, firstFailMs: Option<int>, lastRecoveryMs: Option<int>)

  method Longest(own: seq<Outage>) returns (longest: Option<Outage>)
    ensures IsLongest(own, longest)
  {
    longest := None;
    ghost var at := 0;
    for k := 0 to |own|
      invariant longest.None? <==> k == 0
      invariant k > 0 ==> 0 <= at < k && own[at] == longest.value
      invariant k > 0 ==> forall j :: 0 <= j < k ==> own[j].Length() <= longest.value.Length()
      invariant k > 0 ==> forall j :: 0 <= j < at ==> own[j].Length() < longest.value.Length()
    {
      var o := own[k];
      if longest.None? || o.endMs - o.startMs > longest.value.endMs - longest.value.startMs {
        longest, at := Some(o), k;
      }
    }
  }

  method SumCarried(outages: seq<Outage>, phases: seq<PhaseMark>, i: nat, endMs: int) returns (carried: int)
    requires i < |phases|
    ensures carried == CarriedIn(outages, phases, i, endMs)
  {
    carried := 0;
    for k := 0 to |outages|
      invariant carried == CarriedIn(outages[..k], phases, i, endMs)
    {
      var o := outages[k];
      assert outages[..k + 1][..k] == outages[..k];
      if !(o.phase >= i || o.phase < 0) {
        var from, to := Max(o.startMs, phases[i].startMs), Min(o.endMs, PhaseEnd(phases, i, endMs));
        if to > from { carried := carried + (to - from); }
      }
    }
    assert outages[..|outages|] == outages;
  }

  function SamplesOf(samples: seq<Sample>, phases: seq<PhaseMark>, i: int): seq<Sample> {
    Filter(samples, (s: Sample) => PhaseOf(s.at, phases) == i)
  }

  function OwnOutages(os: seq<Outage>, i: int): seq<Outage> { Filter(os, (o: Outage) => o.phase == i) }

  /** Per-phase statistics: every outage counts, at full length, in the phase it started in. */
  method Attribute(samples: seq<Sample>, phases: seq<PhaseMark>, endMs: int) returns (stats: seq<PhaseStats>)
    ensures |stats| == |phases|
    ensures forall i :: 0 <= i < |phases| ==> StatsFor(samples, phases, endMs, i, stats[i])
  {
    var outages := ScanOutages(samples, phases, endMs);
    stats := [];
    for i := 0 to |phases|
      invariant |stats| == i
      invariant forall j :: 0 <= j < i ==> StatsFor(samples, phases, endMs, j, stats[j])
    {
      var st := StatsOfPhase(samples, phases, endMs, outages, i);
      stats := stats + [st];
    }
  }

  method StatsOfPhase(samples: seq<Sample>, phases: seq<PhaseMark>, endMs: int, outages: seq<Outage>, i: nat)
    returns (st: PhaseStats)
    requires i < |phases|
    ensures StatsFrom(samples, phases, endMs, outages, i, st)
  {
    var p := phases[i];
    var phaseEnd := PhaseEnd(phases, i, endMs);
    var mine := SamplesOf(samples, phases, i);
    var own := OwnOutages(outages, i);
    var longest := Longest(own);
    var carried := SumCarried(outages, phases, i, endMs);
    st := PhaseStats(p.name, |mine|,
      |Filter(mine, (s: Sample) => s.ok)|, |Filter(mine, (s: Sample) => !s.ok)|,
      longest, TotalLength(own), |own|,
      exists k :: 0 <= k < |outages| && RunningAt(outages[k], phaseEnd),
      carried,
      if own == [] then None else Some(own[0].startMs - p.startMs),
      if own == [] then None else Some(own[|own| - 1].endMs - p.startMs));
  }

  ghost predicate StatsFor(samples: seq<Sample>, phases: seq<PhaseMark>, endMs: int, i: nat, st: PhaseStats)
    requires i < |phases|
  {
    StatsFrom(samples, phases, endMs, OutagesOf(samples, phases, endMs), i, st)
  }

  ghost predicate StatsFrom(samples: seq<Sample>, phases: seq<PhaseMark>, endMs: int, os: seq<Outage>, i: nat,
                            st: PhaseStats)
    requires i < |phases|
  {
    var mine := SamplesOf(samples, phases, i);
    var own := OwnOutages(os, i);
    && st.name == phases[i].name
    && st.samples == |mine|
    && st.ok == |Filter(mine, (s: Sample) => s.ok)|
    && st.failures == |Filter(mine, (s: Sample) => !s.ok)|
    && IsLongest(own, st.longest)
    && st.totalOutageMs == TotalLength(own) && st.outages == |own|
    && (st.openAtPhaseEnd <==> exists k :: 0 <= k < |os| && RunningAt(os[k], PhaseEnd(phases, i, endMs)))
    && st.carriedInMs == CarriedIn(os, phases, i, endMs)
    && (st.firstFailMs == if own == [] then None else Some(own[0].startMs - phases[i].startMs))
    && (st.lastRecoveryMs == if own == [] then None else Some(own[|own| - 1].endMs - phases[i].startMs))
  }

  // ----- a phase's own outages, by their place in the stream -----

  ghost function IndicesIn(os: seq<Outage>, i: int): set<int> { set k | 0 <= k < |os| && os[k].phase == i }

  ghost predicate IsFirstIn(os: seq<Outage>, i: int, k: int) {
    0 <= k < |os| && os[k].phase == i && forall j :: 0 <= j < k ==> os[j].phase != i
  }

  ghost predicate IsLastIn(os: seq<Outage>, i: int, k: int) {
    0 <= k < |os| && os[k].phase == i && forall j :: k < j < |os| ==> os[j].phase != i
  }

  /** `own` has as many outages as the phase, the first and the last of them at these places. */
  ghost predicate OwnAt(os: seq<Outage>, i: int, own: seq<Outage>, first: int, last: int) {
    && |own| == |IndicesIn(os, i)|
    && (own != [] ==> IsFirstIn(os, i, first) && os[first] == own[0])
    && (own != [] ==> IsLastIn(os, i, last) && os[last] == own[|own| - 1])
  }

  lemma {:induction false} NotOwn(os: seq<Outage>, o: Outage, i: int, own: seq<Outage>, first: int, last: int)
    requires OwnAt(os, i, own, first, last) && o.phase != i
    ensures OwnAt(os + [o], i, own, first, last)
  {
    assert IndicesIn(os + [o], i) == IndicesIn(os, i);
  }

  lemma {:induction false} OneOwn(os: seq<Outage>, o: Outage, i: int, own: seq<Outage>, first: int, last: int)
    requires OwnAt(os, i, own, first, last) && o.phase == i
    ensures OwnAt(os + [o], i, own + [o], if own == [] then |os| else first, |os|)
  {
    assert IndicesIn(os + [o], i) == IndicesIn(os, i) + {|os|};
    if own == [] { NoneIn(os, i); }
  }

  lemma {:induction false} NoneIn(os: seq<Outage>, i: int)
    requires |IndicesIn(os, i)| == 0
    ensures forall j :: 0 <= j < |os| ==> os[j].phase != i
  {
    forall j | 0 <= j < |os| ensures os[j].phase != i { assert j !in IndicesIn(os, i); }
  }

  lemma {:induction false} OwnEnds(os: seq<Outage>, i: int, p: Outage -> bool) returns (first: int, last: int)
    requires forall o :: p(o) <==> o.phase == i
    ensures OwnAt(os, i, Filter(os, p), first, last)
  {
    first, last := 0, 0;
    if os == [] {
      assert IndicesIn(os, i) == {};
    } else {
      var n := |os| - 1;
      var front, o := os[..n], os[n];
      first, last := OwnEnds(front, i, p);
      assert os == front + [o];
      FilterLast(front, o, p);
      if p(o) {
        OneOwn(front, o, i, Filter(front, p), first, last);
        first, last := if Filter(front, p) == [] then n else first, n;
      } else {
        NotOwn(front, o, i, Filter(front, p), first, last);
      }
    }
  }

  /** The counts and times of a phase's record, told from the stream's outages. */
  lemma {:induction false} OwnOutagesTold(samples: seq<Sample>, phases: seq<PhaseMark>, endMs: int, i: nat, st: PhaseStats)
    requires i < |phases| && StatsFor(samples, phases, endMs, i, st)
    ensures var os, start := OutagesOf(samples, phases, endMs), phases[i].startMs;
      && st.outages == |IndicesIn(os, i)|
      && (st.firstFailMs.Some? <==> st.outages > 0) && (st.lastRecoveryMs.Some? <==> st.outages > 0)
      && (st.outages > 0 ==> exists k :: IsFirstIn(os, i, k) && os[k].startMs == start + st.firstFailMs.value)
      && (st.outages > 0 ==> exists k :: IsLastIn(os, i, k) && os[k].endMs == start + st.lastRecoveryMs.value)
  {
    var first, last := OwnEnds(OutagesOf(samples, phases, endMs), i, (o: Outage) => o.phase == i);
  }

  /**
   In time order, some failure before `t` is not followed by a success up to `t`; and if no
   success follows it at all, the stream goes on to `t`.
   */
  ghost predicate FailsAcross(s: seq<Sample>, t: int, endMs: int) {
    exists p :: 0 <= p < |s| && FailsFrom(s, p, t, endMs)
  }

  ghost predicate FailsFrom(s: seq<Sample>, p: int, t: int, endMs: int)
    requires 0 <= p < |s|
  {
    && !s[p].ok && s[p].at < t
    && (forall q :: p < q < |s| && s[q].ok ==> s[q].at > t)
    && (endMs >= t || exists q :: p < q < |s| && s[q].ok)
  }

  lemma {:induction false} RunCovers(s: seq<Sample>, rs: seq<Run>, p: nat) returns (k: nat)
    requires IsRuns(s, rs) && p < |s| && !s[p].ok
    ensures k < |rs| && rs[k].lo <= p < rs[k].hi
  {
    k := |rs|;
    while k > 0 && p < rs[k - 1].lo
      invariant k <= |rs| && (k < |rs| ==> p < rs[k].lo)
    {
      k := k - 1;
    }
    assert GapOk(s, rs, k);
    k := k - 1;
  }

  /** The success that closes a run is the first after any of its failures. */
  lemma {:induction false} RunEnds(s: seq<Sample>, rs: seq<Run>, k: nat)
    requires IsRuns(s, rs) && k < |rs|
    ensures rs[k].lo < rs[k].hi <= |s| && (rs[k].hi < |s| ==> s[rs[k].hi].ok)
    ensures forall q :: rs[k].lo <= q < rs[k].hi ==> !s[q].ok
  {
    assert AllFail(s, rs[k]) && GapOk(s, rs, k + 1);
    if k + 1 < |rs| { assert rs[k].hi < rs[k + 1].lo && AllFail(s, rs[k + 1]); }
  }

  lemma {:induction false} RunningFails(s: seq<Sample>, rs: seq<Run>, k: nat, t: int, phases: seq<PhaseMark>, endMs: int)
    requires TimeOrdered(s) && IsRuns(s, rs) && k < |rs| && rs[k].lo < rs[k].hi <= |s|
    requires RunningAt(OutageOf(s, rs[k], phases, endMs), t)
    ensures FailsAcross(s, t, endMs)
  {
    var r := rs[k];
    RunEnds(s, rs, k);
    forall q | r.lo < q < |s| && s[q].ok ensures s[q].at > t {
      if q > r.hi { assert AtLe(s[r.hi], s[q]); }
    }
    assert FailsFrom(s, r.lo, t, endMs);
  }

  lemma {:induction false} FailingRuns(s: seq<Sample>, rs: seq<Run>, p: nat, t: int, phases: seq<PhaseMark>, endMs: int) returns (k: nat)
    requires TimeOrdered(s) && IsRuns(s, rs) && p < |s| && FailsFrom(s, p, t, endMs)
    ensures k < |rs| && rs[k].lo < rs[k].hi <= |s| && RunningAt(OutageOf(s, rs[k], phases, endMs), t)
  {
    k := RunCovers(s, rs, p);
    RunEnds(s, rs, k);
    if rs[k].lo < p { assert AtLe(s[rs[k].lo], s[p]); }
  }

  /** The flag told from the samples: some failure before the phase's end is still unanswered there. */
  lemma {:induction false} OpenAtEndIff(samples: seq<Sample>, phases: seq<PhaseMark>, endMs: int, i: nat, st: PhaseStats)
    requires i < |phases| && StatsFor(samples, phases, endMs, i, st)
    ensures st.openAtPhaseEnd <==>
      FailsAcross(Sort(samples, AtLe), if i + 1 < |phases| then phases[i + 1].startMs else endMs, endMs)
  {
    var s, t := Sort(samples, AtLe), PhaseEnd(phases, i, endMs);
    var os, rs := OutagesOf(samples, phases, endMs), RunsOf(s);
    SortSorted(samples, AtLe);
    RunsAreMaximal(s);
    if st.openAtPhaseEnd {
      var k :| 0 <= k < |os| && RunningAt(os[k], t);
      RunEnds(s, rs, k);
      RunningFails(s, rs, k, t, phases, endMs);
    }
    if FailsAcross(s, t, endMs) {
      var p :| 0 <= p < |s| && FailsFrom(s, p, t, endMs);
      var k := FailingRuns(s, rs, p, t, phases, endMs);
      assert RunningAt(os[k], t);
    }
  }

  /** Collects samples and phase starts as they happen. */
  class OutageTimeline {
    var samples: seq<Sample>
    var phases: seq<PhaseMark>

    constructor ()
      ensures samples == [] && phases == []
    {
      samples, phases := [], [];
    }

    method BeginPhase(name: string, atMs: int)
      modifies this`phases
      ensures phases == old(phases) + [PhaseMark(name, atMs)]
    {
      phases := phases + [PhaseMark(name, atMs)];
    }

    method Add(ok: bool, atMs: int)
      modifies this`samples
      ensures samples == old(samples) + [Sample(atMs, ok)]
    {
      samples := samples + [Sample(atMs, ok)];
    }

    /** The latest failing sample, whatever order they were added in. */
    method LastFailMs() returns (last: Option<int>)
      ensures last.None? <==> forall i :: 0 <= i < |samples| ==> samples[i].ok
      ensures last.Some? ==> Sample(last.value, false) in samples
      ensures last.Some? ==> forall i :: 0 <= i < |samples| && !samples[i].ok ==> samples[i].at <= last.value
    {
      last := None;
      for k := 0 to |samples|
        invariant last.None? <==> forall i :: 0 <= i < k ==> samples[i].ok
        invariant last.Some? ==> Sample(last.value, false) in samples
        invariant last.Some? ==> forall i :: 0 <= i < k && !samples[i].ok ==> samples[i].at <= last.value
      {
        var s := samples[k];
        if !s.ok && (last.None? || s.at > last.value) {
          assert s == Sample(s.at, false);
          last := Some(s.at);
        }
      }
    }

    method Stats(endMs: int) returns (stats: seq<PhaseStats>)
      ensures |stats| == |phases|
      ensures forall i :: 0 <= i < |phases| ==> StatsFor(samples, phases, endMs, i, stats[i])
    {
      stats := Attribute(samples, phases, endMs);
    }
  }

  // ----- conservation of samples -----

  ghost function SumSamples(stats: seq<PhaseStats>): nat {
    if stats == [] then 0 else SumSamples(stats[..|stats| - 1]) + stats[|stats| - 1].samples
  }

  lemma {:induction false} CountSplits(s: seq<Sample>, p: Sample -> bool, q: Sample -> bool, pq: Sample -> bool)
    requires forall x :: !(p(x) && q(x)) && (pq(x) <==> p(x) || q(x))
    ensures |Filter(s, pq)| == |Filter(s, p)| + |Filter(s, q)|
  {
    if s != [] { CountSplits(s[1..], p, q, pq); }
  }

  lemma {:induction false} SumSamplesUpTo(samples: seq<Sample>, phases: seq<PhaseMark>, endMs: int,
                                          stats: seq<PhaseStats>)
    requires |stats| <= |phases|
    requires forall i :: 0 <= i < |stats| ==> StatsFor(samples, phases, endMs, i, stats[i])
    ensures SumSamples(stats) == |Filter(samples, (s: Sample) => 0 <= PhaseOf(s.at, phases) < |stats|)|
  {
    var n := |stats|;
    if n == 0 {
      FilterNone(samples, (s: Sample) => 0 <= PhaseOf(s.at, phases) < |stats|);
    } else {
      SumSamplesUpTo(samples, phases, endMs, stats[..n - 1]);
      assert StatsFor(samples, phases, endMs, n - 1, stats[n - 1]);
      CountSplits(samples, (s: Sample) => 0 <= PhaseOf(s.at, phases) < |stats[..n - 1]|,
                  (s: Sample) => PhaseOf(s.at, phases) == n - 1, (s: Sample) => 0 <= PhaseOf(s.at, phases) < n);
    }
  }

  lemma {:induction false} SameFilter(s: seq<Sample>, p: Sample -> bool, q: Sample -> bool)
    requires forall x :: p(x) <==> q(x)
    ensures Filter(s, p) == Filter(s, q)
  {
    if s != [] { SameFilter(s[1..], p, q); }
  }

  /** With phases in order, every sample from the first phase start on is counted in exactly one phase. */
  lemma {:induction false} SamplesConserved(samples: seq<Sample>, phases: seq<PhaseMark>, endMs: int,
                                            stats: seq<PhaseStats>)
    requires PhasesOrdered(phases) && phases != [] && |stats| == |phases|
    requires forall i :: 0 <= i < |stats| ==> StatsFor(samples, phases, endMs, i, stats[i])
    ensures SumSamples(stats) == |Filter(samples, (s: Sample) => phases[0].startMs <= s.at)|
    ensures forall i :: 0 <= i < |stats| ==> stats[i].samples == stats[i].ok + stats[i].failures
  {
    SumSamplesUpTo(samples, phases, endMs, stats);
    forall x: Sample ensures phases[0].startMs <= x.at <==> 0 <= PhaseOf(x.at, phases) < |stats| {
      var i := PhaseOf(x.at, phases);
      PhaseOfIsLast(x.at, phases);
      assert i > 0 ==> phases[0].startMs <= phases[i].startMs;
    }
    SameFilter(samples, (s: Sample) => phases[0].startMs <= s.at, (s: Sample) => 0 <= PhaseOf(s.at, phases) < |stats|);
    forall i | 0 <= i < |stats| ensures stats[i].samples == stats[i].ok + stats[i].failures {
      assert StatsFor(samples, phases, endMs, i, stats[i]);
      var mine := SamplesOf(samples, phases, i);
      CountSplits(mine, (s: Sample) => s.ok, (s: Sample) => !s.ok, (s: Sample) => true);
      FilterAll(mine, (s: Sample) => true);
    }
  }

  lemma {:induction false} FilterNone(s: seq<Sample>, p: Sample -> bool)
    requires forall x :: !p(x)
    ensures Filter(s, p) == []
  {
    if s != [] { FilterNone(s[1..], p); }
  }

  lemma {:induction false} FilterAll(s: seq<Sample>, p: Sample -> bool)
    requires forall x :: p(x)
    ensures Filter(s, p) == s
  {
    if s != [] { FilterAll(s[1..], p); }
  }

  function Failures(s: seq<Sample>): nat {
    if s == [] then 0 else Failures(s[..|s| - 1]) + (if s[|s| - 1].ok then 0 else 1)
  }

  function Successes(s: seq<Sample>): nat {
    if s == [] then 0 else Successes(s[..|s| - 1]) + (if s[|s| - 1].ok then 1 else 0)
  }

  function RunSizes(rs: seq<Run>): int {
    if rs == [] then 0 else RunSizes(rs[..|rs| - 1]) + (rs[|rs| - 1].hi - rs[|rs| - 1].lo)
  }

  lemma {:induction false} RunsHoldFailures(s: seq<Sample>)
    ensures RunSizes(RunsOf(s)) == Failures(s)
  {
    if s != [] {
      var rs := RunsOf(s[..|s| - 1]);
      RunsHoldFailures(s[..|s| - 1]);
      var next := RunsOf(s);
      if !s[|s| - 1].ok {
        assert next[..|next| - 1] == if rs != [] && rs[|rs| - 1].hi == |s| - 1 then rs[..|rs| - 1] else rs;
      }
    }
  }

  function OutageFailures(os: seq<Outage>): nat {
    if os == [] then 0 else OutageFailures(os[..|os| - 1]) + os[|os| - 1].failures
  }

  lemma {:induction false} OutageFailuresOfRuns(s: seq<Sample>, rs: seq<Run>, phases: seq<PhaseMark>, endMs: int)
    requires RunsWithin(s, rs)
    ensures OutageFailures(OutagesOfRuns(s, rs, phases, endMs)) == RunSizes(rs)
  {
    if rs != [] {
      var m := |rs| - 1;
      assert rs == rs[..m] + [rs[m]];
      OutagesOfMoreRuns(s, rs[..m], rs[m], phases, endMs);
      OutageFailuresOfRuns(s, rs[..m], phases, endMs);
    }
  }

  lemma {:induction false} FailuresAppend(a: seq<Sample>, b: seq<Sample>)
    ensures Failures(a + b) == Failures(a) + Failures(b) && Successes(a + b) == Successes(a) + Successes(b)
  {
    if b == [] {
      assert a + b == a;
    } else {
      assert (a + b)[..|a + b| - 1] == a + b[..|b| - 1];
      FailuresAppend(a, b[..|b| - 1]);
    }
  }

  lemma {:induction false} FailuresInsert(x: Sample, s: seq<Sample>)
    ensures Failures(Insert(x, s, AtLe)) == Failures([x] + s) && Successes(Insert(x, s, AtLe)) == Successes([x] + s)
  {
    if s != [] && !AtLe(x, s[0]) {
      FailuresInsert(x, s[1..]);
      FailuresAppend([s[0]], Insert(x, s[1..], AtLe));
      FailuresAppend([x], s);
      FailuresAppend([x], s[1..]);
      FailuresAppend([s[0]], s[1..]);
      assert s == [s[0]] + s[1..];
    }
  }

  lemma {:induction false} FailuresSort(s: seq<Sample>)
    ensures Failures(Sort(s, AtLe)) == Failures(s) && Successes(Sort(s, AtLe)) == Successes(s)
  {
    if s != [] {
      FailuresSort(s[1..]);
      FailuresInsert(s[0], Sort(s[1..], AtLe));
      FailuresAppend([s[0]], Sort(s[1..], AtLe));
      FailuresAppend([s[0]], s[1..]);
      assert s == [s[0]] + s[1..];
    }
  }

  /** The outages' failure counts add up to all the failed samples. */
  lemma {:induction false} FailuresConserved(samples: seq<Sample>, phases: seq<PhaseMark>, endMs: int)
    ensures OutageFailures(OutagesOf(samples, phases, endMs)) == Failures(samples)
  {
    var s := Sort(samples, AtLe);
    RunsAreMaximal(s);
    OutageFailuresOfRuns(s, RunsOf(s), phases, endMs);
    RunsHoldFailures(s);
    FailuresSort(samples);
  }

  // ----- conservation of time -----

  /** Shares of `o` in phase `i` and all later ones. */
  ghost function SharesFrom(o: Outage, phases: seq<PhaseMark>, i: nat, endMs: int): int
    requires i <= |phases|
    decreases |phases| - i
  {
    if i == |phases| then 0 else ShareIn(o, phases, i, endMs) + SharesFrom(o, phases, i + 1, endMs)
  }

  /** Where the last phase ends: the end of the stream, or its own start if that is later. */
  ghost function Horizon(phases: seq<PhaseMark>, endMs: int): int
    requires phases != []
  {
    Max(endMs, phases[|phases| - 1].startMs)
  }

  lemma {:induction false} SharesTelescope(o: Outage, phases: seq<PhaseMark>, i: nat, endMs: int)
    requires PhasesOrdered(phases) && i < |phases| && o.startMs <= o.endMs
    ensures SharesFrom(o, phases, i, endMs) == Share(o, phases[i].startMs, Horizon(phases, endMs))
    decreases |phases| - i
  {
    assert i < |phases| - 1 ==> phases[i].startMs <= phases[i + 1].startMs;
    if i + 1 < |phases| {
      SharesTelescope(o, phases, i + 1, endMs);
      assert i + 1 < |phases| - 1 ==> phases[i + 1].startMs <= phases[|phases| - 1].startMs;
    } else {
      assert SharesFrom(o, phases, i + 1, endMs) == 0;
    }
  }

  /**
   An outage's length is its share of its own phase plus the shares it carries into
   later phases, exactly when it ends by the horizon (or has no length).
   */
  lemma {:induction false} OutageTimeConserved(o: Outage, phases: seq<PhaseMark>, endMs: int)
    requires PhasesOrdered(phases) && o.startMs <= o.endMs
    requires o.phase == PhaseOf(o.startMs, phases) && o.phase >= 0
    ensures o.Length() == ShareIn(o, phases, o.phase, endMs) + SharesFrom(o, phases, o.phase + 1, endMs)
            <==> o.endMs <= Horizon(phases, endMs) || o.Length() == 0
  {
    PhaseOfIsLast(o.startMs, phases);
    SharesTelescope(o, phases, o.phase, endMs);
  }

  lemma {:induction false} OneOutage(s: seq<Sample>, at: int, until: int, phases: seq<PhaseMark>, endMs: int)
    requires at <= until && s == [Sample(at, false), Sample(until, true)]
    ensures OutagesOf(s, phases, endMs) == [Outage(at, until, PhaseOf(at, phases), false, 1)]
  {
    assert TimeOrdered(s);
    OneRun(s);
    OutagesInOrder(s, phases, endMs);
  }

  lemma {:induction false} OneRun(s: seq<Sample>)
    requires |s| == 2 && !s[0].ok && s[1].ok
    ensures RunsOf(s) == [Run(0, 1)]
  {
    RunsUpTo(s, 0);
    RunsUpTo(s, 1);
    assert s[..0] == [] && s[..2] == s;
  }

  /** A sample after the end of the stream makes an outage that the phases do not add up to. */
  lemma {:induction false} TimeLostPastHorizon()
    ensures var phases, endMs := [PhaseMark("only", 0)], 5; var o := Outage(0, 9, 0, false, 1);
      && OutagesOf([Sample(0, false), Sample(9, true)], phases, endMs) == [o]
      && Horizon(phases, endMs) < o.endMs && o.Length() == 9
      && ShareIn(o, phases, 0, endMs) + SharesFrom(o, phases, 1, endMs) == 5
  {
    OneOutage([Sample(0, false), Sample(9, true)], 0, 9, [PhaseMark("only", 0)], 5);
  }

  ghost predicate SamplesBy(samples: seq<Sample>, endMs: int) {
    forall i :: 0 <= i < |samples| ==> samples[i].at <= endMs
  }

  /** Outages do not end before they start, and start in the phase they name. */
  lemma {:induction false} OutagesArePlaced(samples: seq<Sample>, phases: seq<PhaseMark>, endMs: int, k: nat)
    requires k < |OutagesOf(samples, phases, endMs)|
    ensures Placed(OutagesOf(samples, phases, endMs)[k], phases)
  {
    var s := Sort(samples, AtLe);
    RunsAreMaximal(s);
    SortSorted(samples, AtLe);
    var r := RunsOf(s)[k];
    assert AllFail(s, r);
    if r.hi < |s| { assert AtLe(s[r.lo], s[r.hi]); }
  }

  /** With no sample after the end of the stream, outages lie in it and start in the phase they name. */
  lemma {:induction false} OutagesFit(samples: seq<Sample>, phases: seq<PhaseMark>, endMs: int, k: nat)
    requires SamplesBy(samples, endMs) && k < |OutagesOf(samples, phases, endMs)|
    ensures var o := OutagesOf(samples, phases, endMs)[k];
      o.startMs <= o.endMs <= endMs && o.phase == PhaseOf(o.startMs, phases) && (o.open ==> o.endMs == endMs)
  {
    var s := Sort(samples, AtLe);
    RunsAreMaximal(s);
    OutagesArePlaced(samples, phases, endMs, k);
    SortPermutes(samples, AtLe);
    var r := RunsOf(s)[k];
    assert AllFail(s, r);
    forall i | 0 <= i < |s| ensures s[i].at <= endMs {
      assert s[i] in multiset(s);
      assert s[i] in samples;
    }
  }

  ghost function OwnShares(os: seq<Outage>, phases: seq<PhaseMark>, endMs: int): int {
    if os == [] then 0 else
    var o := os[|os| - 1];
    OwnShares(os[..|os| - 1], phases, endMs) + (if 0 <= o.phase < |phases| then ShareIn(o, phases, o.phase, endMs) else 0)
  }

  ghost function AttributedLength(os: seq<Outage>): int {
    if os == [] then 0 else AttributedLength(os[..|os| - 1]) + (if os[|os| - 1].phase >= 0 then os[|os| - 1].Length() else 0)
  }

  ghost function SumCarriedIn(os: seq<Outage>, phases: seq<PhaseMark>, n: nat, endMs: int): int
    requires n <= |phases|
  {
    if n == 0 then 0 else SumCarriedIn(os, phases, n - 1, endMs) + CarriedIn(os, phases, n - 1, endMs)
  }

  ghost function CarriesUpTo(o: Outage, phases: seq<PhaseMark>, n: nat, endMs: int): int
    requires n <= |phases|
  {
    if n == 0 then 0 else CarriesUpTo(o, phases, n - 1, endMs) + Carries(o, phases, n - 1, endMs)
  }

  lemma {:induction false} SumsSwap(os: seq<Outage>, phases: seq<PhaseMark>, n: nat, endMs: int)
    requires n <= |phases|
    ensures SumCarriedIn(os, phases, n, endMs)
         == if os == [] then 0
            else SumCarriedIn(os[..|os| - 1], phases, n, endMs) + CarriesUpTo(os[|os| - 1], phases, n, endMs)
  {
    if n > 0 { SumsSwap(os, phases, n - 1, endMs); }
  }

  lemma {:induction false} CarriesAreLaterShares(o: Outage, phases: seq<PhaseMark>, n: nat, endMs: int)
    requires 0 <= o.phase < n <= |phases|
    ensures CarriesUpTo(o, phases, n, endMs)
         == SharesFrom(o, phases, o.phase + 1, endMs) - SharesFrom(o, phases, n, endMs)
    decreases n
  {
    if n == o.phase + 1 {
      CarriesNothingYet(o, phases, n - 1, endMs);
    } else {
      CarriesAreLaterShares(o, phases, n - 1, endMs);
    }
  }

  lemma {:induction false} CarriesNothingYet(o: Outage, phases: seq<PhaseMark>, n: nat, endMs: int)
    requires n <= |phases| && (n <= o.phase || o.phase < 0)
    ensures CarriesUpTo(o, phases, n, endMs) == 0
  {
    if n > 0 { CarriesNothingYet(o, phases, n - 1, endMs); }
  }

  ghost predicate Placed(o: Outage, phases: seq<PhaseMark>) {
    o.startMs <= o.endMs && o.phase == PhaseOf(o.startMs, phases)
  }

  /** The outage is in no phase, has no length, or ends by the horizon. */
  ghost predicate WithinHorizon(o: Outage, phases: seq<PhaseMark>, endMs: int) {
    phases == [] || o.phase < 0 || o.Length() == 0 || o.endMs <= Horizon(phases, endMs)
  }

  ghost predicate AllWithinHorizon(os: seq<Outage>, phases: seq<PhaseMark>, endMs: int) {
    forall k :: 0 <= k < |os| ==> WithinHorizon(os[k], phases, endMs)
  }

  lemma {:induction false} OneOutageConserved(o: Outage, phases: seq<PhaseMark>, endMs: int)
    requires PhasesOrdered(phases) && Placed(o, phases)
    ensures
      var length, shares := AttributedLength([o]), OwnShares([o], phases, endMs) + CarriesUpTo(o, phases, |phases|, endMs);
      shares <= length && (length == shares <==> WithinHorizon(o, phases, endMs))
  {
    assert [o][..0] == [];
    if o.phase >= 0 {
      PhaseOfIsLast(o.startMs, phases);
      SharesTelescope(o, phases, o.phase, endMs);
      OutageTimeConserved(o, phases, endMs);
      CarriesAreLaterShares(o, phases, |phases|, endMs);
    } else {
      CarriesNothingYet(o, phases, |phases|, endMs);
    }
  }

  lemma {:induction false} TimeConservedFor(os: seq<Outage>, phases: seq<PhaseMark>, endMs: int)
    requires PhasesOrdered(phases) && forall k :: 0 <= k < |os| ==> Placed(os[k], phases)
    ensures
      var length, shares := AttributedLength(os), OwnShares(os, phases, endMs) + SumCarriedIn(os, phases, |phases|, endMs);
      shares <= length && (length == shares <==> AllWithinHorizon(os, phases, endMs))
  {
    SumsSwap(os, phases, |phases|, endMs);
    if os != [] {
      var front, o := os[..|os| - 1], os[|os| - 1];
      TimeConservedFor(front, phases, endMs);
      OneOutageConserved(o, phases, endMs);
      LastOutage(os, phases, endMs);
      assert AllWithinHorizon(os, phases, endMs) <==> AllWithinHorizon(front, phases, endMs) && WithinHorizon(o, phases, endMs);
    }
  }

  lemma {:induction false} LastOutage(os: seq<Outage>, phases: seq<PhaseMark>, endMs: int)
    requires os != []
    ensures var front, o := os[..|os| - 1], os[|os| - 1];
      && AttributedLength(os) == AttributedLength(front) + AttributedLength([o])
      && OwnShares(os, phases, endMs) == OwnShares(front, phases, endMs) + OwnShares([o], phases, endMs)
  {
    assert [os[|os| - 1]][..0] == [];
  }

  // ----- time as the statistics report it -----

  function SumTotals(stats: seq<PhaseStats>): int {
    if stats == [] then 0 else SumTotals(stats[..|stats| - 1]) + stats[|stats| - 1].totalOutageMs
  }

  function SumCarriedStats(stats: seq<PhaseStats>): int {
    if stats == [] then 0 else SumCarriedStats(stats[..|stats| - 1]) + stats[|stats| - 1].carriedInMs
  }

  lemma {:induction false} TotalLengthMore(os: seq<Outage>, o: Outage)
    ensures TotalLength(os + [o]) == TotalLength(os) + o.Length()
  {
    assert (os + [o])[..|os|] == os;
  }

  /** Total length of the outages of the first `n` phases. */
  ghost function LengthBelow(os: seq<Outage>, n: int): int {
    if os == [] then 0 else
    LengthBelow(os[..|os| - 1], n) + (if 0 <= os[|os| - 1].phase < n then os[|os| - 1].Length() else 0)
  }

  lemma {:induction false} FilterLast(os: seq<Outage>, o: Outage, p: Outage -> bool)
    ensures Filter(os + [o], p) == if p(o) then Filter(os, p) + [o] else Filter(os, p)
  {
    FilterConcat(os, [o], p);
    assert Filter([o], p) == if p(o) then [o] else [];
  }

  lemma {:induction false} OwnLength(os: seq<Outage>, i: nat, p: Outage -> bool)
    requires forall o :: p(o) <==> o.phase == i
    ensures TotalLength(Filter(os, p)) == LengthBelow(os, i + 1) - LengthBelow(os, i)
  {
    if os != [] {
      var front, o := os[..|os| - 1], os[|os| - 1];
      OwnLength(front, i, p);
      FilterLast(front, o, p);
      assert os == front + [o];
      TotalLengthMore(Filter(front, p), o);
    }
  }

  lemma {:induction false} SumTotalsUpTo(samples: seq<Sample>, phases: seq<PhaseMark>, endMs: int, os: seq<Outage>,
                                         stats: seq<PhaseStats>)
    requires os == OutagesOf(samples, phases, endMs) && |stats| <= |phases|
    requires forall i :: 0 <= i < |stats| ==> StatsFor(samples, phases, endMs, i, stats[i])
    ensures SumTotals(stats) == LengthBelow(os, |stats|)
    ensures SumCarriedStats(stats) == SumCarriedIn(os, phases, |stats|, endMs)
  {
    var n := |stats|;
    if n == 0 {
      NothingBelow(os);
    } else {
      SumTotalsUpTo(samples, phases, endMs, os, stats[..n - 1]);
      assert StatsFor(samples, phases, endMs, n - 1, stats[n - 1]);
      OwnLength(os, n - 1, (o: Outage) => o.phase == n - 1);
    }
  }

  lemma {:induction false} NothingBelow(os: seq<Outage>)
    ensures LengthBelow(os, 0) == 0
  {
    if os != [] { NothingBelow(os[..|os| - 1]); }
  }

  lemma {:induction false} AllBelow(os: seq<Outage>, phases: seq<PhaseMark>)
    requires forall k :: 0 <= k < |os| ==> Placed(os[k], phases)
    ensures LengthBelow(os, |phases|) == AttributedLength(os)
  {
    if os != [] {
      AllBelow(os[..|os| - 1], phases);
      assert Placed(os[|os| - 1], phases);
    }
  }

  /**
   Over a whole stream, as reported: the phases' outage time is the time outages spend
   in the phase they started in plus all the phases' carried-in time, exactly when every
   attributed outage ends by the horizon; never less. With no sample after the end of
   the stream it always is.
   */
  lemma {:induction false} TimeConserved(samples: seq<Sample>, phases: seq<PhaseMark>, endMs: int,
                                         stats: seq<PhaseStats>)
    requires PhasesOrdered(phases) && |stats| == |phases|
    requires forall i :: 0 <= i < |stats| ==> StatsFor(samples, phases, endMs, i, stats[i])
    ensures var os := OutagesOf(samples, phases, endMs);
      var shares := OwnShares(os, phases, endMs) + SumCarriedStats(stats);
      && shares <= SumTotals(stats)
      && (SumTotals(stats) == shares <==> AllWithinHorizon(os, phases, endMs))
      && (SamplesBy(samples, endMs) ==> SumTotals(stats) == shares)
  {
    var os := OutagesOf(samples, phases, endMs);
    forall k | 0 <= k < |os| ensures Placed(os[k], phases) { OutagesArePlaced(samples, phases, endMs, k); }
    TimeConservedFor(os, phases, endMs);
    SumTotalsUpTo(samples, phases, endMs, os, stats);
    AllBelow(os, phases);
    if SamplesBy(samples, endMs) {
      forall k | 0 <= k < |os| ensures WithinHorizon(os[k], phases, endMs) { OutagesFit(samples, phases, endMs, k); }
    }
  }
}

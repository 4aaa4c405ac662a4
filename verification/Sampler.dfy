/**
 One path of the continuous sampler (harness/src/sampler.ts): what the loop keeps
 after each probe, and that the window it reports is the one the offline outage
 accounting finds in the same samples.
 */
module PathSampling {
  import opened Outages
  import opened Wrappers

  datatype Path = Path(
    healthyAtStart: Option<bool>, samples: nat, failures: nat,
    firstFailMs: Option<int>, pendingRecoveryMs: Option<int>, recoveredMs: Option<int>, down: bool)

  const Fresh := Path(None, 0, 0, None, None, None, false)

  /** The loop body after one probe has answered. */
  function Record(p: Path, s: Sample, settleMs: int): Path {
    var q := p.(samples := p.samples + 1, healthyAtStart := if p.healthyAtStart.None? then Some(s.ok) else p.healthyAtStart);
    if !s.ok then
      q.(failures := q.failures + 1, down := true, pendingRecoveryMs := None,
         firstFailMs := if q.firstFailMs.None? then Some(s.at) else q.firstFailMs)
    else if q.firstFailMs.Some? && q.recoveredMs.Some? then q.(down := false)
    else if q.firstFailMs.Some? then
      if q.pendingRecoveryMs.None? then q.(down := false, pendingRecoveryMs := Some(s.at))
      else if s.at - q.pendingRecoveryMs.value >= settleMs then q.(down := false, recoveredMs := q.pendingRecoveryMs)
      else q.(down := false)
    else q
  }

  function Replay(s: seq<Sample>, settleMs: int): Path {
    if s == [] then Fresh else Record(Replay(s[..|s| - 1], settleMs), s[|s| - 1], settleMs)
  }

  /** The state object a loop updates in place. */
  class PathState {
    var healthyAtStart: Option<bool>
    var samples: nat
    var failures: nat
    var firstFailMs: Option<int>
    var pendingRecoveryMs: Option<int>
    var recoveredMs: Option<int>
    var down: bool

    ghost function View(): Path
      reads this
    {
      Path(healthyAtStart, samples, failures, firstFailMs, pendingRecoveryMs, recoveredMs, down)
    }

    constructor ()
      ensures View() == Fresh
    {
      healthyAtStart, samples, failures := None, 0, 0;
      firstFailMs, pendingRecoveryMs, recoveredMs, down := None, None, None, false;
    }

    method OnOutcome(at: int, ok: bool, settleMs: int)
      modifies this
      ensures View() == Record(old(View()), Sample(at, ok), settleMs)
    {
      samples := samples + 1;
      if healthyAtStart.None? { healthyAtStart := Some(ok); }
      if !ok {
        failures := failures + 1;
        down := true;
        pendingRecoveryMs := None;
        if firstFailMs.None? { firstFailMs := Some(at); }
      } else if firstFailMs.Some? && recoveredMs.Some? {
        down := false;
      } else if firstFailMs.Some? && recoveredMs.None? {
        down := false;
        if pendingRecoveryMs.None? {
          pendingRecoveryMs := Some(at);
        } else if at - pendingRecoveryMs.value >= settleMs {
          recoveredMs := pendingRecoveryMs;
        }
      }
    }
  }

  /** The plain counters: samples, failures, health at the first sample, and whether the last one failed. */
  lemma {:induction false} CountersAreExact(s: seq<Sample>, settleMs: int)
    ensures var p := Replay(s, settleMs);
      && p.samples == |s| && p.failures == Failures(s)
      && (p.healthyAtStart == if s == [] then None else Some(s[0].ok))
      && (p.down <==> s != [] && !s[|s| - 1].ok)
      && (p.down ==> p.firstFailMs.Some?)
  {
    if s != [] { CountersAreExact(s[..|s| - 1], settleMs); }
  }

  // ----- sustained recovery, told from the samples alone -----

  /** Index after the successes that follow run `i`: the next run, or the end. */
  function NextRun(n: nat, rs: seq<Run>, i: nat): nat {
    if i + 1 < |rs| then rs[i + 1].lo else n
  }

  /** Run `i` is closed, and a sample at least `settleMs` after the closing success comes before the next failure. */
  ghost predicate Sustained(s: seq<Sample>, rs: seq<Run>, i: nat, settleMs: int)
    requires i < |rs|
  {
    && rs[i].hi < |s|
    && exists j :: rs[i].hi < j < NextRun(|s|, rs, i) && j < |s| && s[j].at - s[rs[i].hi].at >= settleMs
  }

  ghost predicate FirstSustained(s: seq<Sample>, rs: seq<Run>, i: nat, settleMs: int) {
    i < |rs| && Sustained(s, rs, i, settleMs) && forall k :: 0 <= k < i ==> !Sustained(s, rs, k, settleMs)
  }

  ghost predicate NoneSustained(s: seq<Sample>, rs: seq<Run>, settleMs: int) {
    forall k :: 0 <= k < |rs| ==> !Sustained(s, rs, k, settleMs)
  }

  lemma {:induction false} SustainedUnchanged(s: seq<Sample>, x: Sample, rs: seq<Run>, i: nat, settleMs: int)
    requires IsRuns(s, rs) && i + 1 < |rs|
    ensures i + 1 < |ExtendRuns(rs, |s|, x.ok)|
    ensures Sustained(s + [x], ExtendRuns(rs, |s|, x.ok), i, settleMs) <==> Sustained(s, rs, i, settleMs)
  {
    var t, r := s + [x], ExtendRuns(rs, |s|, x.ok);
    assert AllFail(s, rs[i]) && AllFail(s, rs[i + 1]) && rs[i].hi < rs[i + 1].lo;
    assert r[i] == rs[i] && r[i + 1].lo == rs[i + 1].lo;
    assert forall j :: 0 <= j < |s| ==> t[j] == s[j];
  }

  /** What one more success does to the last run. */
  lemma {:induction false} SustainedBySuccess(s: seq<Sample>, x: Sample, rs: seq<Run>, settleMs: int)
    requires IsRuns(s, rs) && rs != [] && x.ok
    ensures var m := |rs| - 1; rs[m].hi <= |s| && (Sustained(s + [x], rs, m, settleMs) <==>
      Sustained(s, rs, m, settleMs) || (rs[m].hi < |s| && x.at - s[rs[m].hi].at >= settleMs))
  {
    var t, m := s + [x], |rs| - 1;
    assert AllFail(s, rs[m]);
    assert forall j :: 0 <= j < |s| ==> t[j] == s[j];
    if rs[m].hi < |s| && x.at - s[rs[m].hi].at >= settleMs { assert t[|s|].at - t[rs[m].hi].at >= settleMs; }
    if Sustained(s, rs, m, settleMs) {
      var j :| rs[m].hi < j < |s| && s[j].at - s[rs[m].hi].at >= settleMs;
      assert t[j].at - t[rs[m].hi].at >= settleMs;
    }
  }

  /** What one more failure does: the last run, if touched, is open again; otherwise it keeps its verdict. */
  lemma {:induction false} SustainedByFailure(s: seq<Sample>, x: Sample, rs: seq<Run>, i: nat, settleMs: int)
    requires IsRuns(s, rs) && !x.ok && i < |ExtendRuns(rs, |s|, false)|
    ensures Sustained(s + [x], ExtendRuns(rs, |s|, false), i, settleMs) <==> i < |rs| && Sustained(s, rs, i, settleMs)
  {
    var t, r, m := s + [x], ExtendRuns(rs, |s|, false), |rs| - 1;
    if i < m {
      SustainedUnchanged(s, x, rs, i, settleMs);
    } else if i == m {
      assert AllFail(s, rs[m]);
      assert forall j :: 0 <= j < |s| ==> t[j] == s[j];
    }
  }

  /** The state a path has after `s`, as the maximal runs of failures of `s` show it. */
  ghost predicate Tells(s: seq<Sample>, rs: seq<Run>, p: Path, settleMs: int) {
    && TellsFirst(s, rs, p)
    && (p.recoveredMs.None? ==>
          && NoneSustained(s, rs, settleMs)
          && p.pendingRecoveryMs ==
               if rs != [] && rs[|rs| - 1].hi < |s| then Some(s[rs[|rs| - 1].hi].at) else None)
    && (p.recoveredMs.Some? ==>
          exists i :: 0 <= i < |rs| && FirstSustained(s, rs, i, settleMs) && p.recoveredMs.value == s[rs[i].hi].at)
  }

  lemma {:induction false} FirstSustainedStays(s: seq<Sample>, x: Sample, rs: seq<Run>, i: nat, settleMs: int)
    requires IsRuns(s, rs) && FirstSustained(s, rs, i, settleMs)
    ensures var r := ExtendRuns(rs, |s|, x.ok);
      FirstSustained(s + [x], r, i, settleMs) && (s + [x])[r[i].hi] == s[rs[i].hi]
  {
    var r := ExtendRuns(rs, |s|, x.ok);
    if x.ok {
      if i == |rs| - 1 { SustainedBySuccess(s, x, rs, settleMs); } else { SustainedUnchanged(s, x, rs, i, settleMs); }
      forall k | 0 <= k < i ensures !Sustained(s + [x], r, k, settleMs) { SustainedUnchanged(s, x, rs, k, settleMs); }
    } else {
      forall k | 0 <= k < |r| ensures Sustained(s + [x], r, k, settleMs) <==> k < |rs| && Sustained(s, rs, k, settleMs) {
        SustainedByFailure(s, x, rs, k, settleMs);
      }
      if i < |rs| - 1 { SustainedUnchanged(s, x, rs, i, settleMs); }
    }
  }

  lemma {:induction false} StillNoneSustained(s: seq<Sample>, x: Sample, rs: seq<Run>, settleMs: int)
    requires IsRuns(s, rs) && NoneSustained(s, rs, settleMs)
    requires x.ok && rs != [] && rs[|rs| - 1].hi < |s| ==> x.at - s[rs[|rs| - 1].hi].at < settleMs
    ensures NoneSustained(s + [x], ExtendRuns(rs, |s|, x.ok), settleMs)
  {
    var r := ExtendRuns(rs, |s|, x.ok);
    forall k | 0 <= k < |r| ensures !Sustained(s + [x], r, k, settleMs) {
      if !x.ok {
        SustainedByFailure(s, x, rs, k, settleMs);
      } else if k == |rs| - 1 {
        SustainedBySuccess(s, x, rs, settleMs);
      } else {
        SustainedUnchanged(s, x, rs, k, settleMs);
      }
    }
  }

  lemma {:induction false} NowSustained(s: seq<Sample>, x: Sample, rs: seq<Run>, settleMs: int)
    requires IsRuns(s, rs) && NoneSustained(s, rs, settleMs) && x.ok && rs != [] && rs[|rs| - 1].hi < |s|
    requires x.at - s[rs[|rs| - 1].hi].at >= settleMs
    ensures FirstSustained(s + [x], rs, |rs| - 1, settleMs)
  {
    SustainedBySuccess(s, x, rs, settleMs);
    forall k | 0 <= k < |rs| - 1 ensures !Sustained(s + [x], rs, k, settleMs) { SustainedUnchanged(s, x, rs, k, settleMs); }
  }

  /** The first failure is where the first run starts. */
  ghost predicate TellsFirst(s: seq<Sample>, rs: seq<Run>, p: Path) {
    p.firstFailMs == if rs == [] then None else if rs[0].lo < |s| then Some(s[rs[0].lo].at) else None
  }

  lemma {:induction false} TellsFirstStep(s: seq<Sample>, x: Sample, rs: seq<Run>, p: Path, settleMs: int)
    requires IsRuns(s, rs) && TellsFirst(s, rs, p)
    ensures TellsFirst(s + [x], ExtendRuns(rs, |s|, x.ok), Record(p, x, settleMs))
  {
    if rs != [] { assert AllFail(s, rs[0]) && ExtendRuns(rs, |s|, x.ok)[0].lo == rs[0].lo; }
  }

  lemma {:induction false} TellsStep(s: seq<Sample>, x: Sample, rs: seq<Run>, p: Path, settleMs: int)
    requires IsRuns(s, rs) && Tells(s, rs, p, settleMs)
    ensures Tells(s + [x], ExtendRuns(rs, |s|, x.ok), Record(p, x, settleMs), settleMs)
  {
    var t, r, q, m := s + [x], ExtendRuns(rs, |s|, x.ok), Record(p, x, settleMs), |rs| - 1;
    TellsFirstStep(s, x, rs, p, settleMs);
    if p.recoveredMs.Some? {
      var i :| 0 <= i < |rs| && FirstSustained(s, rs, i, settleMs) && p.recoveredMs.value == s[rs[i].hi].at;
      FirstSustainedStays(s, x, rs, i, settleMs);
      assert FirstSustained(t, r, i, settleMs) && q.recoveredMs.value == t[r[i].hi].at;
    } else {
      if rs != [] { assert AllFail(s, rs[0]) && AllFail(s, rs[m]); }
      if x.ok && rs != [] && rs[m].hi < |s| && x.at - s[rs[m].hi].at >= settleMs {
        NowSustained(s, x, rs, settleMs);
        assert FirstSustained(t, r, m, settleMs) && q.recoveredMs.value == t[r[m].hi].at;
      } else {
        StillNoneSustained(s, x, rs, settleMs);
      }
    }
  }

  lemma {:induction false} TellsNothing(settleMs: int)
    ensures Tells([], [], Fresh, settleMs)
  {
  }

  lemma {:induction false} ReplayLast(s: seq<Sample>, settleMs: int)
    requires s != []
    ensures Replay(s, settleMs) == Record(Replay(s[..|s| - 1], settleMs), s[|s| - 1], settleMs)
  {
  }

  lemma {:induction false} ReplayTells(s: seq<Sample>, settleMs: int)
    ensures Tells(s, RunsOf(s), Replay(s, settleMs), settleMs)
  {
    if s == [] {
      TellsNothing(settleMs);
    } else {
      var front, x := s[..|s| - 1], s[|s| - 1];
      assert s == front + [x];
      ReplayTells(front, settleMs);
      RunsAreMaximal(front);
      TellsStep(front, x, RunsOf(front), Replay(front, settleMs), settleMs);
      RunsOfLast(s);
      ReplayLast(s, settleMs);
    }
  }

  function WindowMs(p: Path): Option<int> {
    if p.firstFailMs.Some? && p.recoveredMs.Some? then Some(p.recoveredMs.value - p.firstFailMs.value) else None
  }

  /** The reported window ends with outage `i`, covers it, and starts with the first one. */
  ghost predicate WindowOf(p: Path, os: seq<Outage>, i: nat) {
    && i < |os| && !os[i].open
    && p.recoveredMs == Some(os[i].endMs)
    && WindowMs(p) == Some(os[i].endMs - os[0].startMs)
    && 0 <= os[i].Length() <= WindowMs(p).value
  }

  lemma {:induction false} WindowOfSustained(s: seq<Sample>, rs: seq<Run>, os: seq<Outage>, phases: seq<PhaseMark>,
                                             endMs: int,
                                             p: Path, i: nat)
    requires TimeOrdered(s) && IsRuns(s, rs) && |os| == |rs| && i < |rs| && AllFail(s, rs[0]) && AllFail(s, rs[i])
    requires os[0] == OutageOf(s, rs[0], phases, endMs) && os[i] == OutageOf(s, rs[i], phases, endMs)
    requires rs[i].hi < |s| && p.firstFailMs == Some(s[rs[0].lo].at) && p.recoveredMs == Some(s[rs[i].hi].at)
    ensures WindowOf(p, os, i)
  {
    ClosingTimes(s, rs, i);
  }

  lemma {:induction false} ClosingTimes(s: seq<Sample>, rs: seq<Run>, i: nat)
    requires TimeOrdered(s) && IsRuns(s, rs) && i < |rs| && rs[i].hi < |s|
    ensures rs[0].lo < |s| && rs[i].lo < rs[i].hi
    ensures s[rs[0].lo].at <= s[rs[i].lo].at <= s[rs[i].hi].at
  {
    assert AllFail(s, rs[i]) && AllFail(s, rs[0]);
    assert i > 0 ==> rs[0].hi < rs[i].lo;
    assert rs[0].lo < rs[i].lo ==> AtLe(s[rs[0].lo], s[rs[i].lo]);
    assert AtLe(s[rs[i].lo], s[rs[i].hi]);
  }

  /**
   The online state refines the offline accounting: on samples in time order the
   first failure is the start of the first outage; the recovery is the end of the
   first outage whose recovery was sustained, and is absent exactly when none was;
   the window covers that outage and is never negative.
   */
  lemma {:induction false} SamplerRefinesOutages(s: seq<Sample>, settleMs: int, phases: seq<PhaseMark>, endMs: int)
    requires TimeOrdered(s)
    ensures var p, os := Replay(s, settleMs), OutagesOf(s, phases, endMs);
      && (p.firstFailMs == if os == [] then None else Some(os[0].startMs))
      && (p.recoveredMs.None? <==> NoneSustained(s, RunsOf(s), settleMs))
      && (p.recoveredMs.Some? ==> exists i: nat :: FirstSustained(s, RunsOf(s), i, settleMs) && WindowOf(p, os, i))
  {
    var p, rs := Replay(s, settleMs), RunsOf(s);
    OutagesInOrder(s, phases, endMs);
    ReplayTells(s, settleMs);
    if rs != [] { assert AllFail(s, rs[0]); }
    if p.recoveredMs.Some? {
      var i: nat :| i < |rs| && FirstSustained(s, rs, i, settleMs) && p.recoveredMs.value == s[rs[i].hi].at;
      WindowOfSustained(s, rs, OutagesOf(s, phases, endMs), phases, endMs, p, i);
    }
  }

  /** A recovery, once believed, never moves. */
  lemma {:induction false} RecoveryIsFinal(s: seq<Sample>, more: seq<Sample>, settleMs: int)
    requires Replay(s, settleMs).recoveredMs.Some?
    ensures Replay(s + more, settleMs).recoveredMs == Replay(s, settleMs).recoveredMs
    ensures Replay(s + more, settleMs).firstFailMs == Replay(s, settleMs).firstFailMs
  {
    if more == [] {
      assert s + more == s;
    } else {
      var front := more[..|more| - 1];
      assert (s + more)[..|s + more| - 1] == s + front;
      RecoveryIsFinal(s, front, settleMs);
      ReplayTells(s + front, settleMs);
      RunsAreMaximal(s + front);
    }
  }
}

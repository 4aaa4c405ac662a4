/**
 One path of `timeline` (experiments/data-api-reenable/lib/reenable.ts): the list of
 state changes, the first success, and the start of the final unbroken run of
 successes if it lasted. Its "sustained" rule differs from the sampler's; the last
 part says exactly when the two agree on the same samples.
 */
module Timelines {
  import opened Outages
  import opened Wrappers
  import PathSampling

  datatype Obs = Obs(at: int, ok: bool, state: string)
  datatype Change = Change(at: int, state: string)
  datatype Line = Line(transitions: seq<Change>, samples: nat, firstOkMs: Option<int>, sustainedOkMs: Option<int>,
      runStart: Option<int>)

  const Empty := Line([], 0, None, None, None)

  function Record(l: Line, o: Obs, settleMs: int): Line {
    var changed := l.transitions == [] || l.transitions[|l.transitions| - 1].state != o.state;
    var m := l.(samples := l.samples + 1,
                transitions := if changed then l.transitions + [Change(o.at, o.state)] else l.transitions);
    if o.ok then
      var runStart := if m.runStart.None? then o.at else m.runStart.value;
      m.(firstOkMs := if m.firstOkMs.None? then Some(o.at) else m.firstOkMs,
         runStart := Some(runStart),
         sustainedOkMs := if m.sustainedOkMs.None? && o.at - runStart >= settleMs then Some(runStart) else m.sustainedOkMs)
    else m.(runStart := None, sustainedOkMs := None)
  }

  function Replay(s: seq<Obs>, settleMs: int): Line {
    if s == [] then Empty else Record(Replay(s[..|s| - 1], settleMs), s[|s| - 1], settleMs)
  }

  class PathTimeline {
    var transitions: seq<Change>
    var samples: nat
    var firstOkMs: Option<int>
    var sustainedOkMs: Option<int>
    var runStart: Option<int>

    ghost function View(): Line
      reads this
    {
      Line(transitions, samples, firstOkMs, sustainedOkMs, runStart)
    }

    constructor ()
      ensures View() == Empty
    {
      transitions, samples, firstOkMs, sustainedOkMs, runStart := [], 0, None, None, None;
    }

    method OnAnswer(at: int, ok: bool, state: string, settleMs: int)
      modifies this
      ensures View() == Record(old(View()), Obs(at, ok, state), settleMs)
    {
      samples := samples + 1;
      if transitions == [] || transitions[|transitions| - 1].state != state {
        transitions := transitions + [Change(at, state)];
      }
      if ok {
        if firstOkMs.None? { firstOkMs := Some(at); }
        if runStart.None? { runStart := Some(at); }
        if sustainedOkMs.None? && at - runStart.value >= settleMs { sustainedOkMs := runStart; }
      } else {
        runStart := None;
        if sustainedOkMs.Some? { sustainedOkMs := None; }
      }
    }
  }

  ghost predicate Ordered(s: seq<Obs>) {
    forall i, j :: 0 <= i < j < |s| ==> s[i].at <= s[j].at
  }

  // ----- the final run of successes -----

  /** The successes from `f` on are the final unbroken run of `s`. */
  ghost predicate IsFinalRun(s: seq<Obs>, f: nat) {
    && f <= |s|
    && (forall k :: f <= k < |s| ==> s[k].ok)
    && (f > 0 ==> !s[f - 1].ok)
  }

  /** Start of the final run if it has lasted `settleMs`. */
  function SustainedFrom(s: seq<Obs>, f: nat, settleMs: int): Option<int>
    requires f <= |s|
  {
    if f < |s| && s[|s| - 1].at - s[f].at >= settleMs then Some(s[f].at) else None
  }

  /**
   After any answers in time order, the sustained time is the start of the final
   unbroken run of successes exactly when that run spans `settleMs`.
   */
  lemma {:induction false} SustainedIsFinalRun(s: seq<Obs>, settleMs: int, f: nat)
    requires Ordered(s) && IsFinalRun(s, f)
    ensures Replay(s, settleMs).sustainedOkMs == SustainedFrom(s, f, settleMs)
    ensures Replay(s, settleMs).runStart == if f < |s| then Some(s[f].at) else None
  {
    if s != [] {
      var n := |s| - 1;
      if s[n].ok {
        SustainedIsFinalRun(s[..n], settleMs, f);
        assert f < n ==> s[n - 1].at <= s[n].at;
      } else {
        assert f == |s|;
        var g := FinalRunOf(s[..n]);
        SustainedIsFinalRun(s[..n], settleMs, g);
      }
    }
  }

  lemma {:induction false} FinalRunOf(s: seq<Obs>) returns (f: nat)
    ensures IsFinalRun(s, f)
  {
    f := |s|;
    while f > 0 && s[f - 1].ok
      invariant f <= |s| && forall k :: f <= k < |s| ==> s[k].ok
    {
      f := f - 1;
    }
  }

  /** Sample `k` is the earliest success. */
  ghost predicate IsFirstOk(s: seq<Obs>, k: nat) {
    k < |s| && s[k].ok && forall j :: 0 <= j < k ==> !s[j].ok
  }

  /** Every answer is counted, and the first success is the earliest one. */
  lemma {:induction false} FirstOkIsFirst(s: seq<Obs>, settleMs: int)
    ensures Replay(s, settleMs).samples == |s|
    ensures match Replay(s, settleMs).firstOkMs
      case None => forall k :: 0 <= k < |s| ==> !s[k].ok
      case Some(t) => exists k: nat :: IsFirstOk(s, k) && s[k].at == t
  {
    if s != [] {
      var front := s[..|s| - 1];
      FirstOkIsFirst(front, settleMs);
      if Replay(front, settleMs).firstOkMs.Some? {
        var k: nat :| IsFirstOk(front, k) && front[k].at == Replay(front, settleMs).firstOkMs.value;
        assert IsFirstOk(s, k);
      } else if s[|s| - 1].ok {
        assert IsFirstOk(s, |s| - 1);
      }
    }
  }

  // ----- the list of changes -----

  /** Sample `k` is the first, or its state differs from its predecessor's. */
  ghost predicate IsChange(s: seq<Obs>, k: nat)
    requires k < |s|
  {
    k == 0 || s[k - 1].state != s[k].state
  }

  /** How many of the first `k` samples are changes. */
  ghost function Changes(s: seq<Obs>, k: nat): nat
    requires k <= |s|
  {
    if k == 0 then 0 else Changes(s, k - 1) + (if IsChange(s, k - 1) then 1 else 0)
  }

  /** Sample `k` has the state of the transition it falls under, which is stamped with the change it came from. */
  ghost predicate ShownAt(s: seq<Obs>, tr: seq<Change>, k: nat)
    requires k < |s|
  {
    var c := Changes(s, k + 1);
    1 <= c <= |tr| && tr[c - 1].state == s[k].state && (IsChange(s, k) ==> tr[c - 1].at == s[k].at)
  }

  /** `tr` is the run-length compression of the state sequence of `s`. */
  ghost predicate Compresses(s: seq<Obs>, tr: seq<Change>) {
    && |tr| == Changes(s, |s|)
    && (forall k: nat :: k < |s| ==> ShownAt(s, tr, k))
    && (forall i :: 0 < i < |tr| ==> tr[i - 1].state != tr[i].state)
  }

  lemma {:induction false} ChangesOfPrefix(s: seq<Obs>, x: Obs, k: nat)
    requires k <= |s|
    ensures Changes(s + [x], k) == Changes(s, k)
  {
    if k > 0 { ChangesOfPrefix(s, x, k - 1); }
  }

  lemma {:induction false} CompressesMore(s: seq<Obs>, x: Obs, tr: seq<Change>)
    requires Compresses(s, tr)
    ensures Compresses(s + [x], if tr == [] || tr[|tr| - 1].state != x.state then tr + [Change(x.at, x.state)] else tr)
  {
    var t, n := s + [x], |s|;
    var more := if tr == [] || tr[|tr| - 1].state != x.state then tr + [Change(x.at, x.state)] else tr;
    ChangesOfPrefix(s, x, n);
    if n > 0 { assert ShownAt(s, tr, n - 1); }
    forall k: nat | k < |t| ensures ShownAt(t, more, k) {
      if k < n {
        ChangesOfPrefix(s, x, k + 1);
        assert ShownAt(s, tr, k);
      }
    }
  }

  /** The transitions are the run-length compression of the state sequence, with no equal neighbours. */
  lemma {:induction false} TransitionsCompress(s: seq<Obs>, settleMs: int)
    ensures Compresses(s, Replay(s, settleMs).transitions)
  {
    if s != [] {
      var front, x := s[..|s| - 1], s[|s| - 1];
      TransitionsCompress(front, settleMs);
      CompressesMore(front, x, Replay(front, settleMs).transitions);
      assert s == front + [x];
    }
  }

  // ----- agreement with the sampler -----

  function Samples(s: seq<Obs>): seq<Sample> { seq(|s|, i requires 0 <= i < |s| => Sample(s[i].at, s[i].ok)) }

  /** With a failure on record, the final run starts where the last outage ends. */
  lemma {:induction false} FinalRunFollowsLastOutage(s: seq<Obs>)
    requires RunsOf(Samples(s)) != []
    ensures var rs := RunsOf(Samples(s)); IsRuns(Samples(s), rs) && IsFinalRun(s, rs[|rs| - 1].hi)
  {
    var h, rs := Samples(s), RunsOf(Samples(s));
    RunsAreMaximal(h);
    var r := rs[|rs| - 1];
    assert AllFail(h, r) && GapOk(h, rs, |rs|);
    forall k | r.hi <= k < |s| ensures s[k].ok { assert h[k].ok; }
    assert !h[r.hi - 1].ok;
  }

  /** The last outage's recovery is sustained exactly when the final run spans `settleMs`. */
  lemma {:induction false} LastSustainedIff(s: seq<Obs>, rs: seq<Run>, settleMs: int)
    requires Ordered(s) && settleMs > 0 && rs != [] && rs[|rs| - 1].hi <= |s|
    ensures PathSampling.Sustained(Samples(s), rs, |rs| - 1, settleMs) <==> SustainedFrom(s, rs[|rs| - 1].hi, settleMs).Some?
  {
    var h, f := Samples(s), rs[|rs| - 1].hi;
    if PathSampling.Sustained(h, rs, |rs| - 1, settleMs) {
      var j :| f < j < |h| && h[j].at - h[f].at >= settleMs;
      assert s[j].at <= s[|s| - 1].at;
    }
    if SustainedFrom(s, f, settleMs).Some? { assert h[|h| - 1].at - h[f].at >= settleMs; }
  }

  /** The timeline's verdict is the sampler's test applied to the last outage instead of the first. */
  lemma {:induction false} TimelineTestsLastOutage(s: seq<Obs>, settleMs: int)
    requires Ordered(s) && settleMs > 0 && RunsOf(Samples(s)) != []
    ensures var h, rs := Samples(s), RunsOf(Samples(s)); var m := |rs| - 1;
      && (Replay(s, settleMs).sustainedOkMs.Some? <==> PathSampling.Sustained(h, rs, m, settleMs))
      && (Replay(s, settleMs).sustainedOkMs.Some? ==>
            rs[m].hi < |h| && Replay(s, settleMs).sustainedOkMs.value == h[rs[m].hi].at)
  {
    var rs := RunsOf(Samples(s));
    FinalRunFollowsLastOutage(s);
    SustainedIsFinalRun(s, settleMs, rs[|rs| - 1].hi);
    LastSustainedIff(s, rs, settleMs);
  }

  /** The sampler reports the recovery of the first sustained outage. */
  lemma {:induction false} SamplerReports(h: seq<Sample>, settleMs: int, i: nat)
    requires PathSampling.FirstSustained(h, RunsOf(h), i, settleMs)
    ensures PathSampling.Replay(h, settleMs).recoveredMs == Some(h[RunsOf(h)[i].hi].at)
  {
    PathSampling.ReplayTells(h, settleMs);
    var rs, p := RunsOf(h), PathSampling.Replay(h, settleMs);
    assert p.recoveredMs.Some? by { if p.recoveredMs.None? { assert PathSampling.NoneSustained(h, rs, settleMs); } }
    var k: nat :| k < |rs| && PathSampling.FirstSustained(h, rs, k, settleMs) && p.recoveredMs.value == h[rs[k].hi].at;
    OneFirst(h, rs, i, k, settleMs);
  }

  /**
   On the same answers, with a failure on record: the timeline reports a time only
   if the sampler does, and the two report the same exactly when no failure follows
   the sampler's recovery (its outage is the last one).
   */
  lemma {:induction false} TimelineAgreesWithSampler(s: seq<Obs>, settleMs: int, i: nat)
    requires Ordered(s) && settleMs > 0 && RunsOf(Samples(s)) != []
    ensures var h, rs := Samples(s), RunsOf(Samples(s)); var p, l := PathSampling.Replay(h, settleMs), Replay(s, settleMs);
      && (l.sustainedOkMs.Some? ==> p.recoveredMs.Some?)
      && (PathSampling.FirstSustained(h, rs, i, settleMs) ==>
            p.recoveredMs.Some? && (l.sustainedOkMs == p.recoveredMs <==> i == |rs| - 1))
  {
    var h, rs := Samples(s), RunsOf(Samples(s));
    TimelineTestsLastOutage(s, settleMs);
    PathSampling.ReplayTells(h, settleMs);
    if PathSampling.FirstSustained(h, rs, i, settleMs) { TimelineAgreesAt(s, settleMs, i, h, rs); }
  }

  lemma {:induction false} TimelineAgreesAt(s: seq<Obs>, settleMs: int, i: nat, h: seq<Sample>, rs: seq<Run>)
    requires Ordered(s) && settleMs > 0 && h == Samples(s) && rs == RunsOf(h) && PathSampling.FirstSustained(h, rs, i, settleMs)
    ensures var p, l := PathSampling.Replay(h, settleMs), Replay(s, settleMs);
      p.recoveredMs.Some? && (l.sustainedOkMs == p.recoveredMs <==> i == |rs| - 1)
  {
    TimelineTestsLastOutage(s, settleMs);
    SamplerReports(h, settleMs, i);
    if i < |rs| - 1 && rs[|rs| - 1].hi < |s| { LaterRecovery(s, settleMs, i, h, rs); }
  }

  /** A sustained recovery is strictly earlier than that of the last outage. */
  lemma {:induction false} LaterRecovery(s: seq<Obs>, settleMs: int, i: nat, h: seq<Sample>, rs: seq<Run>)
    requires Ordered(s) && settleMs > 0 && h == Samples(s) && rs == RunsOf(h) && i + 1 < |rs|
    requires PathSampling.Sustained(h, rs, i, settleMs) && rs[|rs| - 1].hi < |s|
    ensures s[rs[i].hi].at < s[rs[|rs| - 1].hi].at
  {
    var j :| rs[i].hi < j < PathSampling.NextRun(|h|, rs, i) && j < |h| && h[j].at - h[rs[i].hi].at >= settleMs;
    RunsAreMaximal(h);
    NextRunIsBefore(h, rs, i);
    assert s[j].at <= s[rs[|rs| - 1].hi].at;
  }

  lemma {:induction false} NextRunIsBefore(h: seq<Sample>, rs: seq<Run>, i: nat)
    requires IsRuns(h, rs) && i + 1 < |rs|
    ensures PathSampling.NextRun(|h|, rs, i) <= rs[|rs| - 1].hi
  {
    var m := |rs| - 1;
    assert AllFail(h, rs[i + 1]) && AllFail(h, rs[m]);
    assert i + 1 < m ==> rs[i + 1].hi < rs[m].lo;
  }

  lemma {:induction false} OneFirst(h: seq<Sample>, rs: seq<Run>, i: nat, k: nat, settleMs: int)
    requires PathSampling.FirstSustained(h, rs, i, settleMs) && PathSampling.FirstSustained(h, rs, k, settleMs)
    ensures i == k
  {
  }

  /** Without a settle time the two rules differ: one success is enough for the timeline, not for the sampler. */
  lemma {:induction false} AgreementNeedsSettleTime(settleMs: int)
    requires settleMs <= 0
    ensures var s := [Obs(0, false, "down"), Obs(1, true, "up")];
      && Replay(s, settleMs).sustainedOkMs == Some(1)
      && PathSampling.Replay(Samples(s), settleMs).recoveredMs == None
  {
    var s := [Obs(0, false, "down"), Obs(1, true, "up")];
    assert s[..1] == [s[0]] && s[..1][..0] == [];
    var h := Samples(s);
    assert h == [Sample(0, false), Sample(1, true)];
    assert h[..1] == [h[0]] && h[..1][..0] == [];
    assert Replay(s[..1], settleMs) == Record(Empty, s[0], settleMs);
    assert PathSampling.Replay(h[..1], settleMs) == PathSampling.Record(PathSampling.Fresh, h[0], settleMs);
  }
}

/**
 The offline re-read of the old per-phase aggregates
 (`openTailLowerBound` of experiments/compute-disk/lib/outage.ts): from the number
 of successes, the number of samples and the longest closed outage alone, a lower
 bound on the failures that were still open when the phase ended.
 */
module OpenTail {
  import opened Sorting
  import opened Outages

  datatype Bound = Bound(tailFailures: int, tailMinMs: real)

  function OpenTailLowerBound(ok: nat, tot: nat, maxClosedMs: int, intervalMs: real): Bound
    requires intervalMs > 0.0
  {
    var perClosed := ((maxClosedMs as real + 0.000001) / intervalMs).Floor;
    var closedMax := if maxClosedMs > 0 then ok * perClosed else 0;
    var tail := Max(0, tot - ok - closedMax);
    Bound(tail, if tail > 0 then (tail - 1) as real * intervalMs else 0.0)
  }

  /** Sample starts are at least one interval apart. */
  ghost predicate Spaced(s: seq<Sample>, intervalMs: real) {
    forall i :: 0 <= i < |s| - 1 ==> (s[i + 1].at - s[i].at) as real >= intervalMs
  }

  /** The longest outage of `os` that a success closed, 0 if there is none. */
  function MaxClosed(os: seq<Outage>): int {
    if os == [] then 0 else
    var rest, o := MaxClosed(os[..|os| - 1]), os[|os| - 1];
    if o.open then rest else Max(rest, o.Length())
  }

  /** Failures of the outage still open at the end of the stream, 0 if there is none. */
  function OpenFailures(os: seq<Outage>): nat {
    if os != [] && os[|os| - 1].open then os[|os| - 1].failures else 0
  }

  lemma {:induction false} SpacedApart(s: seq<Sample>, intervalMs: real, i: nat, j: nat)
    requires Spaced(s, intervalMs) && intervalMs > 0.0 && i <= j < |s|
    ensures (s[j].at - s[i].at) as real >= (j - i) as real * intervalMs
  {
    if i < j {
      SpacedApart(s, intervalMs, i, j - 1);
      assert (s[(j - 1) + 1].at - s[j - 1].at) as real >= intervalMs;
      assert (j - i) as real * intervalMs == (j - 1 - i) as real * intervalMs + intervalMs;
    }
  }

  lemma {:induction false} MaxClosedBounds(os: seq<Outage>, k: nat)
    requires k < |os| && !os[k].open
    ensures os[k].Length() <= MaxClosed(os)
  {
    if k < |os| - 1 { MaxClosedBounds(os[..|os| - 1], k); }
  }

  /** Closed runs end on distinct successes. */
  lemma {:induction false} ClosedRunsHaveSuccesses(s: seq<Sample>)
    ensures var rs := RunsOf(s); |rs| <= Successes(s) + (if rs != [] && rs[|rs| - 1].hi == |s| then 1 else 0)
    ensures RunsOf(s) != [] ==> RunsOf(s)[|RunsOf(s)| - 1].hi <= |s|
  {
    if s != [] { ClosedRunsHaveSuccesses(s[..|s| - 1]); }
  }

  lemma {:induction false} FitsInFloor(n: nat, length: int, limit: int, intervalMs: real)
    requires intervalMs > 0.0 && n as real * intervalMs <= length as real && length <= limit
    ensures n <= ((limit as real + 0.000001) / intervalMs).Floor
  {
    Quotient(n as real, limit as real + 0.000001, intervalMs);
  }

  lemma {:induction false} Quotient(x: real, y: real, d: real)
    requires d > 0.0 && x * d <= y
    ensures x <= y / d
  {
    var q := y / d;
    assert q * d == y;
    assert (q - x) * d >= 0.0;
  }

  /** A closed run of failures is no longer than the interval allows. */
  lemma {:induction false} ClosedRunIsBounded(s: seq<Sample>, r: Run, phases: seq<PhaseMark>, endMs: int, limit: int,
                                              intervalMs: real)
    requires Spaced(s, intervalMs) && intervalMs > 0.0 && r.lo < r.hi < |s|
    requires OutageOf(s, r, phases, endMs).Length() <= limit
    ensures limit > 0
    ensures r.hi - r.lo <= ((limit as real + 0.000001) / intervalMs).Floor
  {
    SpacedApart(s, intervalMs, r.lo, r.hi);
    assert (r.hi - r.lo) as real * intervalMs >= intervalMs by {
      assert (r.hi - r.lo - 1) as real * intervalMs >= 0.0;
    }
    FitsInFloor(r.hi - r.lo, s[r.hi].at - s[r.lo].at, limit, intervalMs);
  }

  lemma {:induction false} SizesBounded(rs: seq<Run>, per: int)
    requires forall i :: 0 <= i < |rs| ==> rs[i].hi - rs[i].lo <= per
    ensures RunSizes(rs) <= |rs| * per
  {
    if rs != [] {
      SizesBounded(rs[..|rs| - 1], per);
      assert |rs| * per == (|rs| - 1) * per + per;
    }
  }

  /** The runs that a success closes. */
  ghost function ClosedRuns(s: seq<Sample>): seq<Run> {
    var rs := RunsOf(s);
    if rs != [] && rs[|rs| - 1].hi == |s| then rs[..|rs| - 1] else rs
  }

  lemma {:induction false} ClosedRunsAreClosed(s: seq<Sample>, i: nat)
    requires i < |ClosedRuns(s)|
    ensures var r := ClosedRuns(s)[i]; r == RunsOf(s)[i] && r.lo < r.hi < |s|
  {
    RunsAreMaximal(s);
    var rs := RunsOf(s);
    assert AllFail(s, rs[i]) && AllFail(s, rs[|rs| - 1]);
    assert i < |rs| - 1 ==> rs[i].hi < rs[|rs| - 1].lo;
  }

  lemma {:induction false} ClosedFailures(s: seq<Sample>, phases: seq<PhaseMark>, endMs: int, limit: int,
                                          intervalMs: real)
    requires Spaced(s, intervalMs) && intervalMs > 0.0 && RunsWithin(s, RunsOf(s))
    requires limit == MaxClosed(OutagesOfRuns(s, RunsOf(s), phases, endMs))
    ensures var per := ((limit as real + 0.000001) / intervalMs).Floor;
      && (limit <= 0 ==> ClosedRuns(s) == [])
      && RunSizes(ClosedRuns(s)) <= |ClosedRuns(s)| * per
  {
    var per := ((limit as real + 0.000001) / intervalMs).Floor;
    var os, cs := OutagesOfRuns(s, RunsOf(s), phases, endMs), ClosedRuns(s);
    forall i | 0 <= i < |cs| ensures cs[i].hi - cs[i].lo <= per && limit > 0 {
      ClosedRunsAreClosed(s, i);
      MaxClosedBounds(os, i);
      ClosedRunIsBounded(s, cs[i], phases, endMs, limit, intervalMs);
    }
    SizesBounded(cs, per);
  }

  lemma {:induction false} Scale(a: nat, b: nat, per: int)
    requires a <= b && per >= 0
    ensures a * per <= b * per
  {
  }

  lemma {:induction false} CountsAddUp(s: seq<Sample>)
    ensures Failures(s) + Successes(s) == |s|
  {
    if s != [] { CountsAddUp(s[..|s| - 1]); }
  }

  lemma {:induction false} PerIsNatural(limit: int, intervalMs: real)
    requires limit > 0 && intervalMs > 0.0
    ensures ((limit as real + 0.000001) / intervalMs).Floor >= 0
  {
    assert (limit as real + 0.000001) / intervalMs > 0.0;
  }

  /** The failures of the open run are at least what the closed ones cannot hold. */
  lemma {:induction false} TailHoldsTheRest(s: seq<Sample>, phases: seq<PhaseMark>, endMs: int, intervalMs: real)
    requires Spaced(s, intervalMs) && intervalMs > 0.0 && RunsWithin(s, RunsOf(s))
    ensures var os := OutagesOfRuns(s, RunsOf(s), phases, endMs);
      OpenTailLowerBound(Successes(s), |s|, MaxClosed(os), intervalMs).tailFailures <= OpenFailures(os)
  {
    var rs := RunsOf(s);
    var os := OutagesOfRuns(s, rs, phases, endMs);
    var limit, cs := MaxClosed(os), ClosedRuns(s);
    ClosedFailures(s, phases, endMs, limit, intervalMs);
    ClosedRunsHaveSuccesses(s);
    RunsHoldFailures(s);
    CountsAddUp(s);
    assert Failures(s) == RunSizes(cs) + OpenFailures(os);
    if limit > 0 {
      PerIsNatural(limit, intervalMs);
      Scale(|cs|, Successes(s), ((limit as real + 0.000001) / intervalMs).Floor);
    }
  }

  lemma {:induction false} OpenRunSpan(s: seq<Sample>, phases: seq<PhaseMark>, endMs: int, intervalMs: real, n: int)
    requires Spaced(s, intervalMs) && intervalMs > 0.0 && RunsWithin(s, RunsOf(s))
    requires 0 < n <= OpenFailures(OutagesOfRuns(s, RunsOf(s), phases, endMs))
    ensures var os := OutagesOfRuns(s, RunsOf(s), phases, endMs);
      && os != [] && os[|os| - 1].open && s != [] && !s[|s| - 1].ok
      && (n - 1) as real * intervalMs <= (s[|s| - 1].at - os[|os| - 1].startMs) as real
  {
    LastRunIsOpen(s, phases, endMs);
    var r := RunsOf(s)[|RunsOf(s)| - 1];
    SpanToEnd(s, intervalMs, r.lo, n);
  }

  lemma {:induction false} SpanToEnd(s: seq<Sample>, intervalMs: real, lo: nat, n: int)
    requires Spaced(s, intervalMs) && intervalMs > 0.0 && lo < |s| && n <= |s| - lo
    ensures (n - 1) as real * intervalMs <= (s[|s| - 1].at - s[lo].at) as real
  {
    SpacedApart(s, intervalMs, lo, |s| - 1);
    ScaleReal(n - 1, |s| - 1 - lo, intervalMs, (s[|s| - 1].at - s[lo].at) as real);
  }

  lemma {:induction false} LastRunIsOpen(s: seq<Sample>, phases: seq<PhaseMark>, endMs: int)
    requires RunsWithin(s, RunsOf(s)) && OpenFailures(OutagesOfRuns(s, RunsOf(s), phases, endMs)) > 0
    ensures RunsOf(s) != [] && s != [] && !s[|s| - 1].ok
    ensures var os, r := OutagesOfRuns(s, RunsOf(s), phases, endMs), RunsOf(s)[|RunsOf(s)| - 1];
      && r.lo < r.hi == |s| && OpenFailures(os) == |s| - r.lo
      && os[|os| - 1].open && os[|os| - 1].startMs == s[r.lo].at
  {
    RunsAreMaximal(s);
    var r := RunsOf(s)[|RunsOf(s)| - 1];
    assert AllFail(s, r);
  }

  lemma {:induction false} ScaleReal(a: int, b: int, x: real, span: real)
    requires a <= b && x > 0.0 && b as real * x <= span
    ensures a as real * x <= span
  {
    assert (b as real - a as real) * x >= 0.0;
  }

  ghost predicate Sound(b: Bound, s: seq<Sample>, os: seq<Outage>) {
    && 0 <= b.tailFailures <= OpenFailures(os)
    && (b.tailFailures > 0 ==>
          && s != [] && !s[|s| - 1].ok && os[|os| - 1].open
          && b.tailMinMs <= (s[|s| - 1].at - os[|os| - 1].startMs) as real)
  }

  /** The span is that of the failures, one interval apart. */
  ghost predicate Shaped(b: Bound, intervalMs: real) {
    0 <= b.tailFailures && (b.tailFailures > 0 ==> b.tailMinMs == (b.tailFailures - 1) as real * intervalMs)
  }

  lemma {:induction false} SpanIsSound(s: seq<Sample>, phases: seq<PhaseMark>, endMs: int, intervalMs: real, b: Bound)
    requires Spaced(s, intervalMs) && intervalMs > 0.0 && RunsWithin(s, RunsOf(s))
    requires Shaped(b, intervalMs) && b.tailFailures <= OpenFailures(OutagesOfRuns(s, RunsOf(s), phases, endMs))
    ensures Sound(b, s, OutagesOfRuns(s, RunsOf(s), phases, endMs))
  {
    if b.tailFailures > 0 { OpenRunSpan(s, phases, endMs, intervalMs, b.tailFailures); }
  }

  lemma {:induction false} BoundShape(ok: nat, tot: nat, maxClosedMs: int, intervalMs: real)
    requires intervalMs > 0.0
    ensures Shaped(OpenTailLowerBound(ok, tot, maxClosedMs, intervalMs), intervalMs)
  {
  }

  lemma {:induction false} SoundOnSorted(s: seq<Sample>, phases: seq<PhaseMark>, endMs: int, intervalMs: real,
                                         os: seq<Outage>, b: Bound)
    requires Spaced(s, intervalMs) && intervalMs > 0.0 && RunsWithin(s, RunsOf(s))
    requires os == OutagesOfRuns(s, RunsOf(s), phases, endMs)
    requires b == OpenTailLowerBound(Successes(s), |s|, MaxClosed(os), intervalMs)
    ensures Sound(b, s, os)
  {
    TailHoldsTheRest(s, phases, endMs, intervalMs);
    BoundShape(Successes(s), |s|, MaxClosed(os), intervalMs);
    SpanIsSound(s, phases, endMs, intervalMs, b);
  }

  /**
   The bound is sound: fed the counts and the longest closed outage of any samples
   whose starts are at least one interval apart, it claims no more failures than the
   open final outage holds, and no longer a span than its failures cover.
   */
  lemma {:induction false} OpenTailIsSound(samples: seq<Sample>, phases: seq<PhaseMark>, endMs: int, intervalMs: real)
    requires intervalMs > 0.0 && Spaced(Sort(samples, AtLe), intervalMs)
    ensures var os := OutagesOf(samples, phases, endMs);
      Sound(OpenTailLowerBound(Successes(samples), |samples|, MaxClosed(os), intervalMs), Sort(samples, AtLe), os)
  {
    var s := Sort(samples, AtLe);
    FailuresSort(samples);
    RunsAreMaximal(s);
    forall i | 0 <= i < |RunsOf(s)| ensures RunsOf(s)[i].lo < RunsOf(s)[i].hi <= |s| { assert AllFail(s, RunsOf(s)[i]); }
    var os := OutagesOf(samples, phases, endMs);
    SoundOnSorted(s, phases, endMs, intervalMs, os, OpenTailLowerBound(Successes(s), |s|, MaxClosed(os), intervalMs));
  }
}

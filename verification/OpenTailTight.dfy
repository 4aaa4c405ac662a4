/**
 The bound of `openTailLowerBound` is the greatest one the aggregates allow: for a whole
 number of milliseconds between starts, some spaced samples with the same aggregates
 leave open exactly the failures it claims, over exactly the span it claims.
 */
module OpenTailTight {
  import opened Sorting
  import opened Outages
  import opened OpenTail

  // ----- the bound over whole numbers -----

  ghost function Per(maxClosedMs: int, interval: nat): nat
    requires interval > 0
  {
    if maxClosedMs > 0 then maxClosedMs / interval else 0
  }

  lemma {:induction false} FloorIs(x: real, n: int)
    requires n as real <= x < (n + 1) as real
    ensures x.Floor == n
  {
  }

  lemma {:induction false} BelowQuotient(x: real, y: real, d: real)
    requires d > 0.0 && y < x * d
    ensures y / d < x
  {
    var q := y / d;
    assert q * d == y;
    assert (q - x) * d < 0.0;
    NegativeFactor(q - x, d);
  }

  lemma {:induction false} NegativeFactor(a: real, d: real)
    requires d > 0.0 && a * d < 0.0
    ensures a < 0.0
  {
  }

  lemma {:induction false} PerIs(maxClosedMs: int, interval: nat)
    requires interval > 0 && maxClosedMs > 0
    ensures ((maxClosedMs as real + 0.000001) / interval as real).Floor == Per(maxClosedMs, interval)
  {
    var y, d, q := maxClosedMs as real + 0.000001, interval as real, maxClosedMs / interval;
    assert q * interval <= maxClosedMs <= q * interval + interval - 1;
    assert (q * interval) as real == q as real * d && ((q + 1) * interval) as real == (q + 1) as real * d;
    Quotient(q as real, y, d);
    BelowQuotient((q + 1) as real, y, d);
    FloorIs(y / d, q);
  }

  /** What the bound claims, in whole numbers. */
  ghost function Claim(ok: nat, tot: nat, maxClosedMs: int, interval: nat): nat
    requires interval > 0
  {
    Max(0, tot - ok - ok * Per(maxClosedMs, interval))
  }

  lemma {:induction false} ClaimIs(ok: nat, tot: nat, maxClosedMs: int, interval: nat)
    requires interval > 0
    ensures OpenTailLowerBound(ok, tot, maxClosedMs, interval as real).tailFailures == Claim(ok, tot, maxClosedMs, interval)
  {
    if maxClosedMs > 0 { PerIs(maxClosedMs, interval); }
  }

  // ----- samples made to measure -----

  /** The time after the last sample by one interval. */
  function Next(s: seq<Sample>, interval: nat): int { if s == [] then 0 else s[|s| - 1].at + interval }

  /** `j` intervals after `t`. */
  function Later(t: int, j: nat, interval: nat): int { if j == 0 then t else Later(t, j - 1, interval) + interval }

  lemma {:induction false} LaterIs(t: int, j: nat, interval: nat)
    ensures Later(t, j, interval) == t + j * interval
  {
    if j > 0 {
      LaterIs(t, j - 1, interval);
      Multiply(j, interval);
    }
  }

  ghost predicate Closed(s: seq<Sample>) {
    RunsWithin(s, RunsOf(s)) && forall i :: 0 <= i < |RunsOf(s)| ==> RunsOf(s)[i].hi < |s|
  }

  lemma {:induction false} Multiply(m: nat, d: nat)
    requires m > 0
    ensures m * d == (m - 1) * d + d
  {
  }

  lemma {:induction false} AppendCounts(f: seq<Sample>, x: Sample)
    ensures Successes(f + [x]) == Successes(f) + (if x.ok then 1 else 0)
    ensures RunsOf(f + [x]) == ExtendRuns(RunsOf(f), |f|, x.ok)
  {
    assert (f + [x])[..|f|] == f;
  }

  lemma {:induction false} SpacedMore(s: seq<Sample>, x: Sample, interval: nat)
    requires Spaced(s, interval as real) && (s != [] ==> x.at - s[|s| - 1].at >= interval)
    ensures Spaced(s + [x], interval as real)
  {
  }

  /** The runs `rs` of `n` samples, and one of `m` more failures. */
  ghost function AndRun(rs: seq<Run>, n: nat, m: nat): seq<Run> { if m == 0 then rs else rs + [Run(n, n + m)] }

  lemma {:induction false} OneMoreFailure(rs: seq<Run>, n: nat, m: nat)
    requires rs != [] ==> rs[|rs| - 1].hi < n
    ensures ExtendRuns(AndRun(rs, n, m), n + m, false) == AndRun(rs, n, m + 1)
  {
    assert (rs + [Run(n, n + m)])[..|rs|] == rs;
  }

  /** `f` is `s`, whose runs are `rs`, and then `m` failures one interval apart from time `t` on. */
  ghost predicate Failing(s: seq<Sample>, rs: seq<Run>, t: int, m: nat, interval: nat, f: seq<Sample>) {
    && |f| == |s| + m && s <= f && Successes(f) == Successes(s) && RunsOf(f) == AndRun(rs, |s|, m)
    && Spaced(f, interval as real)
    && (m > 0 ==> f[|s|].at == t && !f[|f| - 1].ok && f[|f| - 1].at == Later(t, m - 1, interval))
  }

  lemma {:induction false} FailingMore(s: seq<Sample>, rs: seq<Run>, t: int, m: nat, interval: nat, f: seq<Sample>, x: Sample)
    requires Failing(s, rs, t, m, interval, f) && (rs != [] ==> rs[|rs| - 1].hi < |s|)
    requires t >= Next(s, interval) && x == Sample(Later(t, m, interval), false)
    ensures Failing(s, rs, t, m + 1, interval, f + [x])
  {
    OneMoreFailure(rs, |s|, m);
    AppendCounts(f, x);
    SpacedMore(f, x, interval);
  }

  lemma {:induction false} MakeFailures(s: seq<Sample>, rs: seq<Run>, t: int, m: nat, interval: nat) returns (f: seq<Sample>)
    requires RunsOf(s) == rs && (rs != [] ==> rs[|rs| - 1].hi < |s|) && Spaced(s, interval as real) && t >= Next(s, interval)
    ensures Failing(s, rs, t, m, interval, f)
  {
    f := s;
    for k := 0 to m
      invariant Failing(s, rs, t, k, interval, f)
    {
      var x := Sample(Later(t, k, interval), false);
      FailingMore(s, rs, t, k, interval, f, x);
      f := f + [x];
    }
  }

  // ----- their outages -----

  /** Closed outages do not change when samples are appended. */
  lemma {:induction false} OutagesStay(s: seq<Sample>, f: seq<Sample>, endMs: int)
    requires Closed(s) && s <= f && RunsWithin(f, RunsOf(s))
    ensures OutagesOfRuns(f, RunsOf(s), [], endMs) == OutagesOfRuns(s, RunsOf(s), [], endMs)
  {
    var rs := RunsOf(s);
    forall i | 0 <= i < |rs| ensures OutageOf(f, rs[i], [], endMs) == OutageOf(s, rs[i], [], endMs) {
      assert rs[i].hi < |s|;
    }
  }

  ghost function LongestClosed(s: seq<Sample>, endMs: int): int
    requires RunsWithin(s, RunsOf(s))
  {
    MaxClosed(OutagesOfRuns(s, RunsOf(s), [], endMs))
  }

  lemma {:induction false} MaxClosedMore(os: seq<Outage>, o: Outage)
    ensures MaxClosed(os + [o]) == if o.open then MaxClosed(os) else Max(MaxClosed(os), o.Length())
  {
    assert (os + [o])[..|os|] == os;
  }

  lemma {:induction false} AddClosed(s: seq<Sample>, rs: seq<Run>, f: seq<Sample>, r: Run, endMs: int)
    requires Closed(s) && RunsOf(s) == rs && s <= f && r.lo < r.hi < |f| && RunsOf(f) == rs + [r] && RunsWithin(f, RunsOf(f))
    ensures LongestClosed(f, endMs) == Max(LongestClosed(s, endMs), f[r.hi].at - f[r.lo].at)
  {
    RunsStayWithin(s, rs, f);
    OutagesStay(s, f, endMs);
    OutagesOfMoreRuns(f, rs, r, [], endMs);
    AddOne(OutagesOfRuns(f, rs, [], endMs), OutageOf(f, r, [], endMs), OutagesOfRuns(f, rs + [r], [], endMs));
  }

  lemma {:induction false} RunsStayWithin(s: seq<Sample>, rs: seq<Run>, f: seq<Sample>)
    requires RunsWithin(s, rs) && |s| <= |f|
    ensures RunsWithin(f, rs)
  {
  }

  lemma {:induction false} AddOne(os: seq<Outage>, o: Outage, more: seq<Outage>)
    requires more == os + [o] && !o.open
    ensures MaxClosed(more) == Max(MaxClosed(os), o.Length())
  {
    MaxClosedMore(os, o);
  }

  lemma {:induction false} StillClosed(s: seq<Sample>, f: seq<Sample>, m: nat)
    requires Closed(s) && |f| > |s| + m && RunsOf(f) == AndRun(RunsOf(s), |s|, m)
    ensures Closed(f)
  {
    forall i | 0 <= i < |RunsOf(f)| ensures RunsOf(f)[i].lo < RunsOf(f)[i].hi < |f| {
      if i < |RunsOf(s)| { assert RunsOf(f)[i] == RunsOf(s)[i] && RunsOf(s)[i].hi < |s|; }
    }
  }

  /** `f` is `s` and then one closed outage of `m` failures and this length, or just a success. */
  ghost predicate Blocked(s: seq<Sample>, m: nat, length: int, interval: nat, f: seq<Sample>) {
    && RunsOf(f) == AndRun(RunsOf(s), |s|, m) && Successes(f) == Successes(s) + 1 && Spaced(f, interval as real)
    && |f| == |s| + m + 1 && s <= f && (m > 0 ==> f[|s| + m].at - f[|s|].at == length)
  }

  lemma {:induction false} RoomLeft(m: nat, length: int, interval: nat, t: int)
    requires m > 0 && length >= m * interval
    ensures t + length - Later(t, m - 1, interval) >= interval
  {
    Multiply(m, interval);
    LaterIs(t, m - 1, interval);
  }

  lemma {:induction false} CloseBlock(s: seq<Sample>, m: nat, length: int, interval: nat, g: seq<Sample>, x: Sample)
    requires Failing(s, RunsOf(s), Next(s, interval), m, interval, g) && x.ok
    requires x.at == if m > 0 then Next(s, interval) + length else Next(s, interval)
    requires m > 0 ==> length >= m * interval
    ensures Blocked(s, m, length, interval, g + [x])
  {
    AppendCounts(g, x);
    if m > 0 { RoomLeft(m, length, interval, Next(s, interval)); } else { assert g == s; }
    SpacedMore(g, x, interval);
  }

  lemma {:induction false} MakeBlock(s: seq<Sample>, m: nat, length: int, interval: nat) returns (f: seq<Sample>)
    requires Closed(s) && Spaced(s, interval as real) && (m > 0 ==> length >= m * interval)
    ensures Blocked(s, m, length, interval, f)
  {
    var t := Next(s, interval);
    var g := MakeFailures(s, RunsOf(s), t, m, interval);
    var x := Sample(if m > 0 then t + length else t, true);
    CloseBlock(s, m, length, interval, g, x);
    f := g + [x];
  }

  /** The block adds one success, and one closed outage of the given length if it has failures. */
  lemma {:induction false} BlockIs(s: seq<Sample>, m: nat, length: int, interval: nat, f: seq<Sample>, endMs: int)
    requires Closed(s) && Blocked(s, m, length, interval, f)
    ensures Closed(f)
    ensures LongestClosed(f, endMs) == if m > 0 then Max(LongestClosed(s, endMs), length) else LongestClosed(s, endMs)
  {
    StillClosed(s, f, m);
    if m > 0 {
      AddClosed(s, RunsOf(s), f, Run(|s|, |s| + m), endMs);
    } else {
      OutagesStay(s, f, endMs);
    }
  }

  function Sum(sizes: seq<nat>): nat {
    if sizes == [] then 0 else Sum(sizes[..|sizes| - 1]) + sizes[|sizes| - 1]
  }

  lemma {:induction false} SumMore(sizes: seq<nat>, m: nat)
    ensures Sum(sizes + [m]) == Sum(sizes) + m
  {
    assert (sizes + [m])[..|sizes|] == sizes;
  }

  /** Closed outages of one length, with these numbers of failures. */
  ghost predicate Blocks(sizes: seq<nat>, length: int, interval: nat, endMs: int, s: seq<Sample>) {
    && Closed(s) && Spaced(s, interval as real) && |s| == |sizes| + Sum(sizes) && Successes(s) == |sizes|
    && LongestClosed(s, endMs) == if Sum(sizes) > 0 then length else 0
  }

  lemma {:induction false} BlocksMore(sizes: seq<nat>, m: nat, length: int, interval: nat, endMs: int, s: seq<Sample>, f: seq<Sample>)
    requires length >= 0 && Blocks(sizes, length, interval, endMs, s) && Blocked(s, m, length, interval, f)
    ensures Blocks(sizes + [m], length, interval, endMs, f)
  {
    SumMore(sizes, m);
    BlockIs(s, m, length, interval, f, endMs);
  }

  lemma {:induction false} MakeBlocks(sizes: seq<nat>, length: int, interval: nat, endMs: int) returns (s: seq<Sample>)
    requires length >= 0 && forall i :: 0 <= i < |sizes| ==> sizes[i] * interval <= length
    ensures Blocks(sizes, length, interval, endMs, s)
  {
    s := [];
    for k := 0 to |sizes|
      invariant Blocks(sizes[..k], length, interval, endMs, s)
    {
      var f := MakeBlock(s, sizes[k], length, interval);
      BlocksMore(sizes[..k], sizes[k], length, interval, endMs, s, f);
      assert sizes[..k + 1] == sizes[..k] + [sizes[k]];
      s := f;
    }
    assert sizes[..|sizes|] == sizes;
  }

  // ----- the open tail -----

  lemma {:induction false} TailOutages(s: seq<Sample>, m: nat, t: int, interval: nat, f: seq<Sample>, endMs: int)
    requires Closed(s) && m > 0 && Failing(s, RunsOf(s), t, m, interval, f)
    ensures RunsWithin(f, RunsOf(f)) && LongestClosed(f, endMs) == LongestClosed(s, endMs)
    ensures var os := OutagesOfRuns(f, RunsOf(f), [], endMs);
      OpenFailures(os) == m && os != [] && f[|f| - 1].at - os[|os| - 1].startMs == (m - 1) * interval
  {
    var rs, r := RunsOf(s), Run(|s|, |s| + m);
    LaterIs(t, m - 1, interval);
    OutagesStay(s, f, endMs);
    OutagesOfMoreRuns(f, rs, r, [], endMs);
    AddOpen(OutagesOfRuns(f, rs, [], endMs), OutageOf(f, r, [], endMs), OutagesOfRuns(f, RunsOf(f), [], endMs));
  }

  lemma {:induction false} AddOpen(os: seq<Outage>, o: Outage, more: seq<Outage>)
    requires more == os + [o] && o.open
    ensures MaxClosed(more) == MaxClosed(os) && more != [] && more[|more| - 1] == o && OpenFailures(more) == o.failures
  {
    MaxClosedMore(os, o);
  }

  lemma {:induction false} LastIsClosed(s: seq<Sample>, endMs: int)
    requires Closed(s)
    ensures OpenFailures(OutagesOfRuns(s, RunsOf(s), [], endMs)) == 0
  {
  }

  // ----- how the failures are shared out -----

  /** What `n` outages hold. */
  ghost function Capacity(n: nat, per: nat): nat { if n == 0 then 0 else Capacity(n - 1, per) + per }

  lemma {:induction false} CapacityIs(n: nat, per: nat)
    ensures Capacity(n, per) == n * per
  {
    if n > 0 {
      CapacityIs(n - 1, per);
      Multiply(n, per);
    }
  }

  /** Sizes of `n` outages that take `f` failures, at most `per` each, as far as they go. */
  lemma {:induction false} Share(n: nat, f: nat, per: nat) returns (sizes: seq<nat>)
    ensures |sizes| == n && (forall i :: 0 <= i < n ==> sizes[i] <= per)
    ensures Sum(sizes) == f - Max(0, f - Capacity(n, per))
  {
    if n == 0 {
      sizes := [];
    } else {
      var m := if f < per then f else per;
      var front := Share(n - 1, f - m, per);
      SumMore(front, m);
      sizes := front + [m];
    }
  }

  // ----- what any spaced samples have -----

  lemma {:induction false} MaxClosedReached(os: seq<Outage>) returns (k: nat)
    requires MaxClosed(os) > 0
    ensures k < |os| && !os[k].open && os[k].Length() == MaxClosed(os)
  {
    k := |os| - 1;
    var rest := MaxClosed(os[..k]);
    if os[k].open || os[k].Length() < rest { k := MaxClosedReached(os[..k]); }
  }

  lemma {:induction false} MaxClosedNotNegative(os: seq<Outage>)
    ensures MaxClosed(os) >= 0
  {
    if os != [] { MaxClosedNotNegative(os[..|os| - 1]); }
  }

  /** A closed outage takes a failure, a success and at least one interval. */
  lemma {:induction false} ClosedOutageNeeds(s: seq<Sample>, phases: seq<PhaseMark>, endMs: int, interval: nat, length: int)
    requires interval > 0 && Spaced(s, interval as real) && RunsWithin(s, RunsOf(s))
    requires length == MaxClosed(OutagesOfRuns(s, RunsOf(s), phases, endMs)) && length > 0
    ensures length >= interval && Successes(s) > 0 && Failures(s) > 0
  {
    var k := MaxClosedReached(OutagesOfRuns(s, RunsOf(s), phases, endMs));
    RunsAreMaximal(s);
    ClosedRunNeeds(s, RunsOf(s), k, interval);
  }

  lemma {:induction false} ClosedRunNeeds(s: seq<Sample>, rs: seq<Run>, k: nat, interval: nat)
    requires interval > 0 && Spaced(s, interval as real) && IsRuns(s, rs) && k < |rs| && rs[k].lo < rs[k].hi < |s|
    ensures s[rs[k].hi].at - s[rs[k].lo].at >= interval && Successes(s) > 0 && Failures(s) > 0
  {
    var r := rs[k];
    assert AllFail(s, r) && !s[r.lo].ok;
    assert s[r.hi].ok by {
      assert GapOk(s, rs, k + 1);
      if k + 1 < |rs| { assert r.hi < rs[k + 1].lo; }
    }
    CountsOne(s, r.lo);
    CountsOne(s, r.hi);
    SpacedApart(s, interval as real, r.lo, r.hi);
    AtLeastOne((r.hi - r.lo) as real, interval as real);
  }

  lemma {:induction false} AtLeastOne(n: real, d: real)
    requires n >= 1.0 && d > 0.0
    ensures n * d >= d
  {
    assert (n - 1.0) * d >= 0.0;
  }

  lemma {:induction false} CountsOne(s: seq<Sample>, k: nat)
    requires k < |s|
    ensures if s[k].ok then Successes(s) > 0 else Failures(s) > 0
  {
    if k < |s| - 1 { CountsOne(s[..|s| - 1], k); }
  }

  // ----- the bound is the greatest -----

  /** `s` has these aggregates, and its open final outage exactly the failures and the span of the bound. */
  ghost predicate Attains(s: seq<Sample>, ok: nat, tot: nat, maxClosedMs: int, interval: nat, endMs: int)
    requires interval > 0
  {
    && Spaced(s, interval as real) && TimeOrdered(s) && Successes(s) == ok && |s| == tot
    && AttainsBound(s, OutagesOf(s, [], endMs), maxClosedMs, OpenTailLowerBound(ok, tot, maxClosedMs, interval as real))
  }

  ghost predicate AttainsBound(s: seq<Sample>, os: seq<Outage>, maxClosedMs: int, b: Bound) {
    && MaxClosed(os) == maxClosedMs && OpenFailures(os) == b.tailFailures
    && (b.tailFailures > 0 ==>
          s != [] && os != [] && (s[|s| - 1].at - os[|os| - 1].startMs) as real == b.tailMinMs)
  }

  lemma {:induction false} SpacedIsOrdered(s: seq<Sample>, interval: nat)
    requires interval > 0 && Spaced(s, interval as real)
    ensures TimeOrdered(s)
  {
    forall i, j | 0 <= i < j < |s| ensures AtLe(s[i], s[j]) {
      SpacedApart(s, interval as real, i, j);
      assert (j - i) as real * interval as real >= 0.0;
    }
  }

  lemma {:induction false} PerFits(m: nat, length: int, interval: nat)
    requires interval > 0 && length >= 0 && m <= Per(length, interval)
    ensures m * interval <= length
  {
    var q := Per(length, interval);
    assert q * interval <= length;
    assert (q - m) * interval >= 0;
  }

  lemma {:induction false} SomeShare(ok: nat, failures: nat, length: int, interval: nat)
    requires interval > 0 && length >= 0
    requires length > 0 ==> length >= interval && ok > 0 && failures > 0
    ensures failures - Max(0, failures - Capacity(ok, Per(length, interval))) > 0 <==> length > 0
  {
    var per := Per(length, interval);
    if length > 0 {
      assert per >= 1;
      assert Capacity(ok, per) >= per;
    } else {
      CapacityIs(ok, per);
    }
  }

  /** The closed part: as many outages as there are successes, filled up as far as the failures go. */
  lemma {:induction false} MakeClosed(ok: nat, failures: nat, length: int, interval: nat, endMs: int) returns (b: seq<Sample>)
    requires interval > 0 && length >= 0 && (length > 0 ==> length >= interval && ok > 0 && failures > 0)
    ensures Closed(b) && Spaced(b, interval as real) && Successes(b) == ok
    ensures |b| == ok + failures - Claim(ok, ok + failures, length, interval)
    ensures LongestClosed(b, endMs) == length
  {
    var per := Per(length, interval);
    var sizes := Share(ok, failures, per);
    CapacityIs(ok, per);
    SomeShare(ok, failures, length, interval);
    forall i | 0 <= i < |sizes| ensures sizes[i] * interval <= length { PerFits(sizes[i], length, interval); }
    b := MakeBlocks(sizes, length, interval, endMs);
  }

  lemma {:induction false} MadeToMeasure(ok: nat, failures: nat, length: int, interval: nat, endMs: int) returns (s: seq<Sample>)
    requires interval > 0 && length >= 0 && (length > 0 ==> length >= interval && ok > 0 && failures > 0)
    ensures Attains(s, ok, ok + failures, length, interval, endMs)
  {
    var tail := Claim(ok, ok + failures, length, interval);
    var b := MakeClosed(ok, failures, length, interval, endMs);
    s := MakeFailures(b, RunsOf(b), Next(b, interval), tail, interval);
    SpacedIsOrdered(s, interval);
    ClaimIs(ok, ok + failures, length, interval);
    BoundShape(ok, ok + failures, length, interval as real);
    TailAttains(b, tail, interval, s, endMs, OpenTailLowerBound(ok, ok + failures, length, interval as real));
  }

  lemma {:induction false} RealProduct(m: int, d: nat)
    ensures (m * d) as real == m as real * d as real
  {
  }

  lemma {:induction false} TailAttains(s: seq<Sample>, m: nat, interval: nat, f: seq<Sample>, endMs: int, b: Bound)
    requires interval > 0 && Closed(s) && Failing(s, RunsOf(s), Next(s, interval), m, interval, f) && TimeOrdered(f)
    requires b.tailFailures == m && Shaped(b, interval as real)
    ensures AttainsBound(f, OutagesOf(f, [], endMs), LongestClosed(s, endMs), b)
  {
    SortIdentity(f, AtLe);
    if m > 0 {
      TailOutages(s, m, Next(s, interval), interval, f, endMs);
      OpenAttains(f, OutagesOf(f, [], endMs), m, interval, b, LongestClosed(s, endMs));
    } else {
      assert f == s;
      LastIsClosed(s, endMs);
    }
  }

  lemma {:induction false} OpenAttains(f: seq<Sample>, os: seq<Outage>, m: nat, interval: nat, b: Bound, maxClosedMs: int)
    requires m > 0 && b.tailFailures == m && Shaped(b, interval as real)
    requires f != [] && os != [] && OpenFailures(os) == m && MaxClosed(os) == maxClosedMs
    requires f[|f| - 1].at - os[|os| - 1].startMs == (m - 1) * interval
    ensures AttainsBound(f, os, maxClosedMs, b)
  {
    RealProduct(m - 1, interval);
  }

  /**
   No greater bound is sound: for any samples spaced by a whole number of milliseconds, some
   spaced samples with as many successes, as many samples and the same longest closed outage
   leave open exactly as many failures as the bound claims, over exactly the span it claims.
   */
  lemma {:induction false} OpenTailIsTight(samples: seq<Sample>, phases: seq<PhaseMark>, endMs: int, interval: nat)
    requires interval > 0 && Spaced(Sort(samples, AtLe), interval as real)
    ensures exists s ::
      Attains(s, Successes(samples), |samples|, MaxClosed(OutagesOf(samples, phases, endMs)), interval, endMs)
  {
    var t, os := Sort(samples, AtLe), OutagesOf(samples, phases, endMs);
    FailuresSort(samples);
    CountsAddUp(samples);
    RunsAreMaximal(t);
    forall i | 0 <= i < |RunsOf(t)| ensures RunsOf(t)[i].lo < RunsOf(t)[i].hi <= |t| { assert AllFail(t, RunsOf(t)[i]); }
    MaxClosedNotNegative(os);
    if MaxClosed(os) > 0 { ClosedOutageNeeds(t, phases, endMs, interval, MaxClosed(os)); }
    var s := MadeToMeasure(Successes(samples), Failures(samples), MaxClosed(os), interval, endMs);
  }

  /** Without a closed outage the bound is the count itself. */
  lemma {:induction false} NoClosedOutageIsExact(samples: seq<Sample>, phases: seq<PhaseMark>, endMs: int, intervalMs: real)
    requires intervalMs > 0.0 && Spaced(Sort(samples, AtLe), intervalMs)
    requires MaxClosed(OutagesOf(samples, phases, endMs)) <= 0
    ensures var os := OutagesOf(samples, phases, endMs);
      OpenTailLowerBound(Successes(samples), |samples|, MaxClosed(os), intervalMs).tailFailures == OpenFailures(os)
  {
    var s := Sort(samples, AtLe);
    FailuresSort(samples);
    CountsAddUp(samples);
    RunsAreMaximal(s);
    forall i | 0 <= i < |RunsOf(s)| ensures RunsOf(s)[i].lo < RunsOf(s)[i].hi <= |s| { assert AllFail(s, RunsOf(s)[i]); }
    ClosedFailures(s, phases, endMs, MaxClosed(OutagesOf(samples, phases, endMs)), intervalMs);
    OpenTailIsSound(samples, phases, endMs, intervalMs);
    FailuresAreOpen(s, phases, endMs);
  }

  lemma {:induction false} FailuresAreOpen(s: seq<Sample>, phases: seq<PhaseMark>, endMs: int)
    requires RunsWithin(s, RunsOf(s))
    ensures Failures(s) == RunSizes(ClosedRuns(s)) + OpenFailures(OutagesOfRuns(s, RunsOf(s), phases, endMs))
  {
    RunsHoldFailures(s);
    ClosedRunsHaveSuccesses(s);
  }
}

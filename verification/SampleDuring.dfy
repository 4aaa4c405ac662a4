/**
 `sampleDuring` of harness/src/sampler.ts: one loop per path, a watchdog, and the
 operation they run beside. A step is the code between two awaits; a run is any
 order of enabled steps with a wall clock that never goes back. Times are wall
 milliseconds since sampling started.
 */
module SampleDuring {
  import opened Outages
  import opened PathSampling
  import opened Wrappers

  const PAUSE_SLACK_MS := 2000

  datatype Opts = Opts(intervalMs: int, maxWaitMs: int, settleMs: int)
  datatype Pause = Pause(fromMs: int, toMs: int)

  datatype LoopPc = LoopTop | Probing(at: int) | LoopAsleep | LoopExited
  /** `history` is what the loop has recorded, for the statements below; no step reads it. */
  datatype Worker = Worker(path: Path, pc: LoopPc, history: seq<Sample>)

  datatype ExitReason = Early | TimedOut | Stopped
  datatype DogPc = DogTop | DogAsleep | DogExited(why: ExitReason)
  datatype MainPc = Operating | AwaitDog | AwaitAll(threw: bool) | Returned(endMs: int) | Rethrown

  datatype World = World(
    now: int, stop: bool, workers: seq<Worker>, dog: DogPc, lastWall: int, pauses: seq<Pause>, main: MainPc)

  datatype Event =
    | Tick(ms: nat)
    | LoopCheck(i: nat) | ProbeAnswers(i: nat, ok: bool) | LoopWakes(i: nat)
    | DogCheck | DogWakes
    | OperationDone | OperationThrows | DogAwaited | AllAwaited

  function Start(n: nat): World {
    World(0, false, seq(n, _ => Worker(Fresh, LoopTop, [])), DogTop, 0, [], Operating)
  }

  predicate AllSettled(ws: seq<Worker>) {
    forall i :: 0 <= i < |ws| ==> ws[i].path.firstFailMs.None? || ws[i].path.recoveredMs.Some?
  }

  predicate SomeFailed(ws: seq<Worker>) { exists i :: 0 <= i < |ws| && ws[i].path.firstFailMs.Some? }

  predicate GoesOn(w: World, o: Opts) { !w.stop && w.now < o.maxWaitMs }

  predicate Enabled(w: World, e: Event) {
    match e
    case Tick(_) => true
    case LoopCheck(i) => i < |w.workers| && w.workers[i].pc.LoopTop?
    case ProbeAnswers(i, _) => i < |w.workers| && w.workers[i].pc.Probing?
    case LoopWakes(i) => i < |w.workers| && w.workers[i].pc.LoopAsleep?
    case DogCheck => w.dog.DogTop?
    case DogWakes => w.dog.DogAsleep?
    case OperationDone => w.main.Operating?
    case OperationThrows => w.main.Operating?
    case DogAwaited => w.main.AwaitDog? && w.dog.DogExited?
    case AllAwaited => w.main.AwaitAll? && w.dog.DogExited? && forall i :: 0 <= i < |w.workers| ==> w.workers[i].pc.LoopExited?
  }

  function WorkerStep(k: Worker, w: World, o: Opts, e: Event): Worker {
    match e
    case LoopCheck(_) => k.(pc := if GoesOn(w, o) then Probing(w.now) else LoopExited)
    case ProbeAnswers(_, ok) =>
      if !k.pc.Probing? then k else
      var s := Sample(k.pc.at, ok);
      k.(pc := LoopAsleep, path := Record(k.path, s, o.settleMs), history := k.history + [s])
    case _ => k.(pc := LoopTop)
  }

  function DogStep(w: World, o: Opts, e: Event): World {
    if e.DogCheck? then
      if !GoesOn(w, o) then w.(dog := DogExited(if w.stop then Stopped else TimedOut))
      else if SomeFailed(w.workers) && AllSettled(w.workers) then w.(dog := DogExited(Early))
      else w.(dog := DogAsleep)
    else
      var late := w.now - w.lastWall - o.intervalMs;
      var pauses := if late > PAUSE_SLACK_MS then w.pauses + [Pause(w.lastWall, w.now)] else w.pauses;
      w.(dog := DogTop, pauses := pauses, lastWall := w.now)
  }

  function Step(w: World, o: Opts, e: Event): World
    requires Enabled(w, e)
  {
    match e
    case Tick(ms) => w.(now := w.now + ms)
    case LoopCheck(i) => w.(workers := w.workers[i := WorkerStep(w.workers[i], w, o, e)])
    case ProbeAnswers(i, _) => w.(workers := w.workers[i := WorkerStep(w.workers[i], w, o, e)])
    case LoopWakes(i) => w.(workers := w.workers[i := WorkerStep(w.workers[i], w, o, e)])
    case DogCheck => DogStep(w, o, e)
    case DogWakes => DogStep(w, o, e)
    case OperationDone => w.(main := AwaitDog)
    case OperationThrows => w.(main := AwaitAll(true), stop := true)
    case DogAwaited => w.(main := AwaitAll(false), stop := true)
    case AllAwaited => w.(main := if w.main.threw then Rethrown else Returned(w.now))
  }

  /** `ws` are the states passed by the steps `es`, from `n` fresh paths. */
  ghost predicate IsRun(n: nat, o: Opts, ws: seq<World>, es: seq<Event>) {
    && |ws| == |es| + 1 && ws[0] == Start(n)
    && forall k :: 0 <= k < |es| ==> Enabled(ws[k], es[k]) && ws[k + 1] == Step(ws[k], o, es[k])
  }

  // ----- what every step keeps -----

  ghost predicate WorkerInv(k: Worker, now: int, settleMs: int) {
    && k.path == Replay(k.history, settleMs)
    && TimeOrdered(k.history)
    && (forall i :: 0 <= i < |k.history| ==> 0 <= k.history[i].at <= now)
    && (k.pc.Probing? ==> 0 <= k.pc.at <= now && forall i :: 0 <= i < |k.history| ==> k.history[i].at <= k.pc.at)
  }

  ghost predicate PausesInv(ps: seq<Pause>, last: int) {
    && (forall i :: 0 <= i < |ps| ==> 0 <= ps[i].fromMs <= ps[i].toMs <= last)
    && (forall i, j :: 0 <= i < j < |ps| ==> ps[i].toMs <= ps[j].fromMs)
  }

  ghost predicate Inv(w: World, o: Opts) {
    && 0 <= w.lastWall <= w.now && PausesInv(w.pauses, w.lastWall)
    && (forall i :: 0 <= i < |w.workers| ==> WorkerInv(w.workers[i], w.now, o.settleMs))
    && (w.stop <==> w.main.AwaitAll? || w.main.Returned? || w.main.Rethrown?)
    && (w.dog == DogExited(Early) ==> SomeFailed(w.workers))
    && (w.dog == DogExited(TimedOut) ==> w.now >= o.maxWaitMs)
    && (w.dog == DogExited(Stopped) ==> w.main == AwaitAll(true) || w.main == Rethrown)
    && (w.main == AwaitAll(false) || w.main.Returned? ==> w.dog.DogExited?)
    && (w.main.Returned? ==> 0 <= w.main.endMs <= w.now && w.lastWall <= w.main.endMs
                             && (w.dog == DogExited(TimedOut) ==> w.main.endMs >= o.maxWaitMs))
  }

  lemma {:induction false} AnswerKeepsInv(k: Worker, w: World, o: Opts, e: Event, x: Sample)
    requires WorkerInv(k, w.now, o.settleMs) && e.ProbeAnswers? && k.pc.Probing? && x == Sample(k.pc.at, e.ok)
    ensures WorkerInv(WorkerStep(k, w, o, e), w.now, o.settleMs)
  {
    var v, h := WorkerStep(k, w, o, e), k.history + [x];
    assert v.history == h && v.path == Replay(h, o.settleMs) && TimeOrdered(h) by { ReplayMore(k.history, x, o.settleMs); }
    forall i | 0 <= i < |h| ensures 0 <= h[i].at <= w.now {
      if i < |k.history| { assert h[i] == k.history[i]; }
    }
  }

  lemma {:induction false} WorkerStepKeepsInv(k: Worker, w: World, o: Opts, e: Event)
    requires WorkerInv(k, w.now, o.settleMs) && 0 <= w.now
    ensures WorkerInv(WorkerStep(k, w, o, e), w.now, o.settleMs)
  {
    if e.ProbeAnswers? && k.pc.Probing? {
      AnswerKeepsInv(k, w, o, e, Sample(k.pc.at, e.ok));
    } else {
      var v := WorkerStep(k, w, o, e);
      assert v.history == k.history && v.path == k.path;
    }
  }

  lemma {:induction false} ReplayMore(h: seq<Sample>, x: Sample, settleMs: int)
    requires TimeOrdered(h) && forall i :: 0 <= i < |h| ==> h[i].at <= x.at
    ensures TimeOrdered(h + [x]) && Replay(h + [x], settleMs) == Record(Replay(h, settleMs), x, settleMs)
  {
    assert (h + [x])[..|h|] == h;
    forall i, j | 0 <= i < j < |h + [x]| ensures AtLe((h + [x])[i], (h + [x])[j]) {
      if j < |h| { assert AtLe(h[i], h[j]); }
    }
  }

  lemma {:induction false} FailureStays(k: Worker, w: World, o: Opts, e: Event)
    ensures k.path.firstFailMs.Some? ==> WorkerStep(k, w, o, e).path.firstFailMs == k.path.firstFailMs
    ensures k.path.firstFailMs.Some? && k.path.recoveredMs.Some? ==>
      WorkerStep(k, w, o, e).path.recoveredMs == k.path.recoveredMs
  {
  }

  /** Failures, and recoveries of failures, are never forgotten. */
  lemma {:induction false} StepRemembers(w: World, o: Opts, e: Event, i: nat)
    requires Enabled(w, e) && i < |w.workers|
    ensures |Step(w, o, e).workers| == |w.workers|
    ensures var p, q := w.workers[i].path, Step(w, o, e).workers[i].path;
      && (p.firstFailMs.Some? ==> q.firstFailMs == p.firstFailMs)
      && (p.firstFailMs.Some? && p.recoveredMs.Some? ==> q.recoveredMs == p.recoveredMs)
  {
    FailureStays(w.workers[i], w, o, e);
  }

  lemma {:induction false} SomeFailedStays(w: World, o: Opts, e: Event)
    requires Enabled(w, e) && SomeFailed(w.workers)
    ensures SomeFailed(Step(w, o, e).workers)
  {
    var i :| 0 <= i < |w.workers| && w.workers[i].path.firstFailMs.Some?;
    StepRemembers(w, o, e, i);
    assert Step(w, o, e).workers[i].path.firstFailMs.Some?;
  }

  lemma {:induction false} WorkersKeepInv(w: World, o: Opts, e: Event, i: nat)
    requires Inv(w, o) && Enabled(w, e) && i < |Step(w, o, e).workers|
    ensures WorkerInv(Step(w, o, e).workers[i], Step(w, o, e).now, o.settleMs)
  {
    assert i < |w.workers| && WorkerInv(w.workers[i], w.now, o.settleMs);
    WorkerStepKeepsInv(w.workers[i], w, o, e);
  }

  lemma {:induction false} StepKeepsInv(w: World, o: Opts, e: Event)
    requires Inv(w, o) && Enabled(w, e)
    ensures Inv(Step(w, o, e), o)
  {
    forall i | 0 <= i < |Step(w, o, e).workers|
      ensures WorkerInv(Step(w, o, e).workers[i], Step(w, o, e).now, o.settleMs)
    {
      WorkersKeepInv(w, o, e, i);
    }
    if SomeFailed(w.workers) { SomeFailedStays(w, o, e); }
    StepKeepsPauses(w, o, e);
  }

  lemma {:induction false} StepKeepsPauses(w: World, o: Opts, e: Event)
    requires Enabled(w, e) && 0 <= w.lastWall <= w.now && PausesInv(w.pauses, w.lastWall)
    ensures var v := Step(w, o, e); 0 <= v.lastWall <= v.now && PausesInv(v.pauses, v.lastWall)
  {
  }

  /** Holds in every state of every run. */
  lemma {:induction false} RunKeepsInv(n: nat, o: Opts, ws: seq<World>, es: seq<Event>, k: nat)
    requires IsRun(n, o, ws, es) && k < |ws|
    ensures Inv(ws[k], o)
  {
    if k > 0 {
      RunKeepsInv(n, o, ws, es, k - 1);
      assert Enabled(ws[k - 1], es[k - 1]) && ws[(k - 1) + 1] == Step(ws[k - 1], o, es[k - 1]);
      StepKeepsInv(ws[k - 1], o, es[k - 1]);
    }
  }

  // ----- what a result means -----

  /** A null result is earned: a return with no failure seen means the watchdog waited to the end. */
  lemma {:induction false} NullResultIsEarned(n: nat, o: Opts, ws: seq<World>, es: seq<Event>)
    requires IsRun(n, o, ws, es) && ws[|es|].main.Returned? && !SomeFailed(ws[|es|].workers)
    ensures ws[|es|].dog == DogExited(TimedOut) && ws[|es|].main.endMs >= o.maxWaitMs
  {
    RunKeepsInv(n, o, ws, es, |es|);
    match ws[|es|].dog.why
    case Early =>
    case TimedOut =>
    case Stopped =>
  }

  lemma {:induction false} RunRemembers(n: nat, o: Opts, ws: seq<World>, es: seq<Event>, j: nat, k: nat, i: nat)
    requires IsRun(n, o, ws, es) && j <= k < |ws| && i < |ws[j].workers|
    ensures |ws[k].workers| == |ws[j].workers|
    ensures var p, q := ws[j].workers[i].path, ws[k].workers[i].path;
      && (p.firstFailMs.Some? ==> q.firstFailMs == p.firstFailMs)
      && (p.firstFailMs.Some? && p.recoveredMs.Some? ==> q.recoveredMs == p.recoveredMs)
  {
    if j < k {
      RunRemembers(n, o, ws, es, j, k - 1, i);
      assert Enabled(ws[k - 1], es[k - 1]) && ws[(k - 1) + 1] == Step(ws[k - 1], o, es[k - 1]);
      StepRemembers(ws[k - 1], o, es[k - 1], i);
    }
  }

  /**
   If the watchdog leaves early at step `k`, something had failed by then, every path
   that had failed had a sustained recovery, and the report still shows it.
   */
  lemma {:induction false} EarlyExitIsSettled(n: nat, o: Opts, ws: seq<World>, es: seq<Event>, k: nat, i: nat)
    requires IsRun(n, o, ws, es) && k < |es| && es[k] == DogCheck && ws[k + 1].dog == DogExited(Early)
    requires i < |ws[k].workers| && ws[k].workers[i].path.firstFailMs.Some?
    ensures var p, q, h := ws[k].workers[i].path, ws[|es|].workers, ws[k].workers[i].history;
      && p.recoveredMs.Some? && !NoneSustained(h, RunsOf(h), o.settleMs)
      && i < |q| && q[i].path.firstFailMs == p.firstFailMs && q[i].path.recoveredMs == p.recoveredMs
  {
    assert Enabled(ws[k], es[k]) && ws[k + 1] == Step(ws[k], o, es[k]);
    RunRemembers(n, o, ws, es, k, |es|, i);
    RunKeepsInv(n, o, ws, es, k);
    assert WorkerInv(ws[k].workers[i], ws[k].now, o.settleMs);
    SamplerRefinesOutages(ws[k].workers[i].history, o.settleMs, [], 0);
  }

  // ----- the report -----

  function Overlap(p: Pause, from: int, to: int): int { Max(0, Min(p.toMs, to) - Max(p.fromMs, from)) }

  function PausedMs(ps: seq<Pause>, to: int): int {
    if ps == [] then 0 else PausedMs(ps[..|ps| - 1], to) + Overlap(ps[|ps| - 1], 0, to)
  }

  lemma {:induction false} PausesFit(ps: seq<Pause>, last: int, to: int)
    requires PausesInv(ps, last) && 0 <= last && 0 <= to
    ensures 0 <= PausedMs(ps, to) <= Min(last, to)
  {
    if ps != [] {
      var p := ps[|ps| - 1];
      assert PausesInv(ps[..|ps| - 1], p.fromMs);
      PausesFit(ps[..|ps| - 1], p.fromMs, to);
    }
  }

  datatype PathWindow = PathWindow(
    healthyAtStart: bool, samples: nat, failures: nat, firstFailMs: Option<int>, recoveredMs: Option<int>,
    windowMs: Option<int>, pausedMs: int)

  function Finalise(p: Path, ps: seq<Pause>, endMs: int): PathWindow {
    PathWindow(
      p.healthyAtStart.Some? && p.healthyAtStart.value, p.samples, p.failures, p.firstFailMs, p.recoveredMs,
      WindowMs(p), PausedMs(ps, if p.recoveredMs.Some? then p.recoveredMs.value else endMs))
  }

  ghost predicate InPause(ps: seq<Pause>, t: int) {
    exists i :: 0 <= i < |ps| && ps[i].fromMs <= t < ps[i].toMs
  }

  /** How many milliseconds of `[0, until)` lie in a pause. */
  ghost function PausedTime(ps: seq<Pause>, until: int): nat
    decreases until
  {
    if until <= 0 then 0 else PausedTime(ps, until - 1) + if InPause(ps, until - 1) then 1 else 0
  }

  lemma {:induction false} InPauseLast(ps: seq<Pause>, p: Pause, t: int)
    ensures InPause(ps + [p], t) <==> InPause(ps, t) || p.fromMs <= t < p.toMs
  {
    var more := ps + [p];
    if InPause(ps, t) {
      var i :| 0 <= i < |ps| && ps[i].fromMs <= t < ps[i].toMs;
      assert more[i] == ps[i];
    }
    if p.fromMs <= t < p.toMs { assert more[|ps|] == p; }
  }

  lemma {:induction false} OnePauseMore(ps: seq<Pause>, p: Pause, until: int)
    requires 0 <= p.fromMs <= p.toMs && forall i :: 0 <= i < |ps| ==> ps[i].toMs <= p.fromMs
    ensures PausedTime(ps + [p], until) == PausedTime(ps, until) + Overlap(p, 0, until)
    decreases until
  {
    if until > 0 {
      OnePauseMore(ps, p, until - 1);
      InPauseLast(ps, p, until - 1);
    }
  }

  lemma {:induction false} NoPauseNoTime(until: int)
    ensures PausedTime([], until) == 0
    decreases until
  {
    if until > 0 { NoPauseNoTime(until - 1); }
  }

  /** Disjoint pauses add up to the milliseconds they cover. */
  lemma {:induction false} PausedIsTime(ps: seq<Pause>, last: int, to: int)
    requires PausesInv(ps, last)
    ensures PausedMs(ps, to) == PausedTime(ps, to)
  {
    if ps == [] {
      NoPauseNoTime(to);
    } else {
      var front, p := ps[..|ps| - 1], ps[|ps| - 1];
      assert ps == front + [p];
      assert PausesInv(front, p.fromMs);
      PausedIsTime(front, p.fromMs, to);
      OnePauseMore(front, p, to);
    }
  }

  /** The clock at the watchdog's wakes among the first `k` steps. */
  ghost function Wakes(ws: seq<World>, es: seq<Event>, k: nat): seq<int>
    requires k <= |es| <= |ws|
  {
    if k == 0 then [] else
    var before := Wakes(ws, es, k - 1);
    if es[k - 1].DogWakes? then before + [ws[k - 1].now] else before
  }

  ghost function LastOr0(ts: seq<int>): int { if ts == [] then 0 else ts[|ts| - 1] }

  /** The spans between consecutive times, the first from 0, that are longer than `min`. */
  ghost function LongSpans(ts: seq<int>, min: int): seq<Pause> {
    if ts == [] then [] else
    var front, t := ts[..|ts| - 1], ts[|ts| - 1];
    var spans := LongSpans(front, min);
    if t - LastOr0(front) > min then spans + [Pause(LastOr0(front), t)] else spans
  }

  lemma {:induction false} SpansMore(ts: seq<int>, t: int, min: int)
    ensures LongSpans(ts + [t], min)
         == if t - LastOr0(ts) > min then LongSpans(ts, min) + [Pause(LastOr0(ts), t)] else LongSpans(ts, min)
  {
    assert (ts + [t])[..|ts|] == ts;
  }

  /** The recorded pauses are exactly the spans between the watchdog's wakes that outlast its sleep by more than 2 s. */
  lemma {:induction false} PausesAreLongSpans(n: nat, o: Opts, ws: seq<World>, es: seq<Event>, k: nat)
    requires IsRun(n, o, ws, es) && k <= |es|
    ensures ws[k].pauses == LongSpans(Wakes(ws, es, k), o.intervalMs + 2000)
    ensures ws[k].lastWall == LastOr0(Wakes(ws, es, k))
  {
    if k > 0 {
      PausesAreLongSpans(n, o, ws, es, k - 1);
      assert Enabled(ws[k - 1], es[k - 1]) && ws[(k - 1) + 1] == Step(ws[k - 1], o, es[k - 1]);
      if es[k - 1].DogWakes? { SpansMore(Wakes(ws, es, k - 1), ws[k - 1].now, o.intervalMs + 2000); }
    }
  }

  /**
   What is reported for each path on return is told from its samples, the clock at the
   watchdog's wakes, and the time of the return: the counts; the outages of its samples;
   a window from the first one to the end of the first that was followed by a sustained
   recovery; and the milliseconds before that end (or the return) in which the host was
   paused.
   */
  lemma {:induction false} ReportIsTold(n: nat, o: Opts, ws: seq<World>, es: seq<Event>, i: nat)
    requires IsRun(n, o, ws, es) && ws[|es|].main.Returned? && i < |ws[|es|].workers|
    ensures var w := ws[|es|]; var h, end, os := w.workers[i].history, w.main.endMs, OutagesOf(w.workers[i].history, [], 0);
      var ps := LongSpans(Wakes(ws, es, |es|), o.intervalMs + 2000);
      var r := Finalise(w.workers[i].path, w.pauses, end);
      && r.samples == |h| && r.failures == Failures(h) && r.healthyAtStart == (h != [] && h[0].ok)
      && (r.firstFailMs == if os == [] then None else Some(os[0].startMs))
      && (r.recoveredMs.None? <==> NoneSustained(h, RunsOf(h), o.settleMs))
      && (r.windowMs.Some? <==> r.recoveredMs.Some?)
      && (r.recoveredMs.Some? ==> exists j: nat :: ReportsOutage(r, h, os, j, o.settleMs))
      && r.pausedMs == PausedTime(ps, if r.recoveredMs.Some? then r.recoveredMs.value else end)
  {
    RunKeepsInv(n, o, ws, es, |es|);
    PausesAreLongSpans(n, o, ws, es, |es|);
    PathIsTold(ws[|es|].workers[i], ws[|es|].now, o, ws[|es|].pauses, ws[|es|].main.endMs);
    var p := ws[|es|].workers[i].path;
    PausedIsTime(ws[|es|].pauses, ws[|es|].lastWall, if p.recoveredMs.Some? then p.recoveredMs.value else ws[|es|].main.endMs);
  }

  /** The window runs from the first outage to the end of outage `j`, the first whose recovery was sustained. */
  ghost predicate ReportsOutage(r: PathWindow, h: seq<Sample>, os: seq<Outage>, j: nat, settleMs: int) {
    && j < |os| && !os[j].open && FirstSustained(h, RunsOf(h), j, settleMs)
    && r.recoveredMs == Some(os[j].endMs) && r.windowMs == Some(os[j].endMs - os[0].startMs)
    && 0 <= os[j].Length() <= r.windowMs.value
  }

  lemma {:induction false} PathIsTold(k: Worker, now: int, o: Opts, ps: seq<Pause>, endMs: int)
    requires WorkerInv(k, now, o.settleMs)
    ensures var h, os, r := k.history, OutagesOf(k.history, [], 0), Finalise(k.path, ps, endMs);
      && r.samples == |h| && r.failures == Failures(h) && r.healthyAtStart == (h != [] && h[0].ok)
      && (r.firstFailMs == if os == [] then None else Some(os[0].startMs))
      && (r.recoveredMs.None? <==> NoneSustained(h, RunsOf(h), o.settleMs))
      && (r.windowMs.Some? <==> r.recoveredMs.Some?)
      && (r.recoveredMs.Some? ==> exists j: nat :: ReportsOutage(r, h, os, j, o.settleMs))
  {
    var h, os, r := k.history, OutagesOf(k.history, [], 0), Finalise(k.path, ps, endMs);
    CountersAreExact(h, o.settleMs);
    SamplerRefinesOutages(h, o.settleMs, [], 0);
    if r.recoveredMs.Some? {
      var j: nat :| FirstSustained(h, RunsOf(h), j, o.settleMs) && WindowOf(k.path, os, j);
      assert ReportsOutage(r, h, os, j, o.settleMs);
    }
  }

  /** The pauses reported for a path never exceed the span they are counted in, and the return is timed by the clock. */
  lemma {:induction false} ReportIsSound(n: nat, o: Opts, ws: seq<World>, es: seq<Event>, i: nat)
    requires IsRun(n, o, ws, es) && ws[|es|].main.Returned? && i < |ws[|es|].workers|
    ensures var w := ws[|es|]; var r := Finalise(w.workers[i].path, w.pauses, w.main.endMs);
      var end := if r.recoveredMs.Some? then r.recoveredMs.value else w.main.endMs;
      && 0 <= r.pausedMs <= end <= w.now
      && (r.windowMs.Some? ==> r.windowMs.value >= 0)
    ensures exists k :: 0 <= k < |es| && es[k].AllAwaited? && ws[|es|].main.endMs == ws[k].now
  {
    RunKeepsInv(n, o, ws, es, |es|);
    var w := ws[|es|];
    var k := w.workers[i];
    assert WorkerInv(k, w.now, o.settleMs);
    SamplerRefinesOutages(k.history, o.settleMs, [], 0);
    if k.path.recoveredMs.Some? { RecoveryIsASample(k.history, o.settleMs); }
    PausesFit(w.pauses, w.lastWall, if k.path.recoveredMs.Some? then k.path.recoveredMs.value else w.main.endMs);
    var q := ReturnedAt(n, o, ws, es, |es|);
  }

  lemma {:induction false} ReturnedAt(n: nat, o: Opts, ws: seq<World>, es: seq<Event>, m: nat) returns (k: nat)
    requires IsRun(n, o, ws, es) && m < |ws| && ws[m].main.Returned?
    ensures k < m && es[k].AllAwaited? && ws[m].main.endMs == ws[k].now
  {
    k := m - 1;
    assert Enabled(ws[m - 1], es[m - 1]) && ws[(m - 1) + 1] == Step(ws[m - 1], o, es[m - 1]);
    if ws[m - 1].main.Returned? { k := ReturnedAt(n, o, ws, es, m - 1); }
  }

  lemma {:induction false} RecoveryIsASample(h: seq<Sample>, settleMs: int)
    requires Replay(h, settleMs).recoveredMs.Some?
    ensures exists i :: 0 <= i < |h| && h[i].at == Replay(h, settleMs).recoveredMs.value
  {
    ReplayTells(h, settleMs);
    var rs, p := RunsOf(h), Replay(h, settleMs);
    var i :| 0 <= i < |rs| && FirstSustained(h, rs, i, settleMs) && p.recoveredMs.value == h[rs[i].hi].at;
  }

  // ----- what the steps record, told from the clock -----

  predicate OfLoop(e: Event, i: nat) { e == LoopCheck(i) || e == LoopWakes(i) || (e.ProbeAnswers? && e.i == i) }

  /** A loop that is probing began with its last step, a check at the probe's start time. */
  lemma {:induction false} ProbeBegan(n: nat, o: Opts, ws: seq<World>, es: seq<Event>, k: nat, i: nat) returns (j: nat)
    requires IsRun(n, o, ws, es) && k < |ws| && i < |ws[k].workers| && ws[k].workers[i].pc.Probing?
    ensures j < k && es[j] == LoopCheck(i) && ws[k].workers[i].pc == Probing(ws[j].now)
    ensures !ws[j].stop && ws[j].now < o.maxWaitMs
    ensures forall q :: j < q < k ==> !OfLoop(es[q], i)
  {
    j := k - 1;
    assert Enabled(ws[k - 1], es[k - 1]) && ws[(k - 1) + 1] == Step(ws[k - 1], o, es[k - 1]);
    if es[k - 1] != LoopCheck(i) { j := ProbeBegan(n, o, ws, es, k - 1, i); }
  }

  /**
   An answer is recorded as a sample at the time its probe was started, which was before
   the stop and before `maxWaitMs`, and it is the only thing its step records.
   */
  lemma {:induction false} AnswersAreStamped(n: nat, o: Opts, ws: seq<World>, es: seq<Event>, k: nat)
    requires IsRun(n, o, ws, es) && k < |es| && es[k].ProbeAnswers?
    ensures var i, ok := es[k].i, es[k].ok;
      && i < |ws[k].workers| == |ws[k + 1].workers|
      && (exists j :: 0 <= j < k && es[j] == LoopCheck(i) && (forall q :: j < q < k ==> !OfLoop(es[q], i))
            && !ws[j].stop && ws[j].now < o.maxWaitMs
            && ws[k + 1].workers[i].history == ws[k].workers[i].history + [Sample(ws[j].now, ok)])
      && forall q :: 0 <= q < |ws[k].workers| && q != i ==> ws[k + 1].workers[q] == ws[k].workers[q]
  {
    assert Enabled(ws[k], es[k]) && ws[k + 1] == Step(ws[k], o, es[k]);
    var j := ProbeBegan(n, o, ws, es, k, es[k].i);
  }

  /** A loop `b` some steps after `a` and after the stop: at most the answer of a probe in flight has been recorded. */
  ghost predicate Trails(a: Worker, b: Worker) {
    || (b.history == a.history && (b.pc.Probing? ==> b.pc == a.pc))
    || (&& a.pc.Probing? && !b.pc.Probing? && |b.history| == |a.history| + 1
        && a.history < b.history && b.history[|a.history|].at == a.pc.at)
  }

  lemma {:induction false} StopIsObeyed(n: nat, o: Opts, ws: seq<World>, es: seq<Event>, j: nat, k: nat, i: nat)
    requires IsRun(n, o, ws, es) && j <= k < |ws| && ws[j].stop && i < |ws[j].workers|
    ensures ws[k].stop && |ws[k].workers| == |ws[j].workers| && Trails(ws[j].workers[i], ws[k].workers[i])
  {
    if j < k {
      StopIsObeyed(n, o, ws, es, j, k - 1, i);
      assert Enabled(ws[k - 1], es[k - 1]) && ws[(k - 1) + 1] == Step(ws[k - 1], o, es[k - 1]);
    }
  }

  /** A return waits for the watchdog and every loop, so what it reports is final. */
  lemma {:induction false} ReturnIsFinal(n: nat, o: Opts, ws: seq<World>, es: seq<Event>, j: nat, k: nat)
    requires IsRun(n, o, ws, es) && j <= k < |ws| && (ws[j].main.Returned? || ws[j].main.Rethrown?)
    ensures ws[j].dog.DogExited? && forall i :: 0 <= i < |ws[j].workers| ==> ws[j].workers[i].pc.LoopExited?
    ensures ws[k].workers == ws[j].workers && ws[k].pauses == ws[j].pauses && ws[k].main == ws[j].main
    ensures ws[k].dog == ws[j].dog
    decreases k
  {
    if j < k {
      ReturnIsFinal(n, o, ws, es, j, k - 1);
      assert Enabled(ws[k - 1], es[k - 1]) && ws[(k - 1) + 1] == Step(ws[k - 1], o, es[k - 1]);
    } else {
      assert Enabled(ws[j - 1], es[j - 1]) && ws[(j - 1) + 1] == Step(ws[j - 1], o, es[j - 1]);
      if ws[j - 1].main.Returned? || ws[j - 1].main.Rethrown? { ReturnIsFinal(n, o, ws, es, j - 1, j - 1); }
    }
  }

  /**
   The watchdog's check leaves early exactly when it is neither stopped nor out of time,
   some path has failed, and every path that has failed has had a sustained recovery.
   */
  lemma {:induction false} EarlyExitIff(n: nat, o: Opts, ws: seq<World>, es: seq<Event>, k: nat)
    requires IsRun(n, o, ws, es) && k < |es| && es[k] == DogCheck
    ensures var w := ws[k];
      ws[k + 1].dog == DogExited(Early) <==>
        && !w.stop && w.now < o.maxWaitMs
        && (exists i :: 0 <= i < |w.workers| && HasFailed(w.workers[i]))
        && (forall i :: 0 <= i < |w.workers| && HasFailed(w.workers[i]) ==> HasSettled(w.workers[i], o.settleMs))
    ensures ws[k + 1].dog == DogAsleep ==> !ws[k].stop && ws[k].now < o.maxWaitMs
  {
    RunKeepsInv(n, o, ws, es, k);
    assert Enabled(ws[k], es[k]) && ws[k + 1] == Step(ws[k], o, es[k]);
    var w := ws[k];
    forall i | 0 <= i < |w.workers|
      ensures w.workers[i].path.firstFailMs.Some? <==> HasFailed(w.workers[i])
      ensures w.workers[i].path.recoveredMs.Some? <==> HasSettled(w.workers[i], o.settleMs)
    {
      assert WorkerInv(w.workers[i], w.now, o.settleMs);
      FailureIsSeen(w.workers[i].history, o.settleMs);
    }
  }

  ghost predicate HasFailed(k: Worker) { exists j :: 0 <= j < |k.history| && !k.history[j].ok }

  ghost predicate HasSettled(k: Worker, settleMs: int) { !NoneSustained(k.history, RunsOf(k.history), settleMs) }

  lemma {:induction false} FailureIsSeen(h: seq<Sample>, settleMs: int)
    ensures Replay(h, settleMs).firstFailMs.Some? <==> exists j :: 0 <= j < |h| && !h[j].ok
    ensures Replay(h, settleMs).recoveredMs.Some? <==> !NoneSustained(h, RunsOf(h), settleMs)
  {
    ReplayTells(h, settleMs);
    FirstFailure(h, settleMs);
  }

  lemma {:induction false} FirstFailure(h: seq<Sample>, settleMs: int)
    ensures Replay(h, settleMs).firstFailMs.Some? <==> exists j :: 0 <= j < |h| && !h[j].ok
  {
    if h != [] {
      var front := h[..|h| - 1];
      FirstFailure(front, settleMs);
      if exists j :: 0 <= j < |front| && !front[j].ok {
        var j :| 0 <= j < |front| && !front[j].ok;
        assert !h[j].ok;
      }
      assert !h[|h| - 1].ok ==> exists j :: 0 <= j < |h| && !h[j].ok;
    }
  }
}

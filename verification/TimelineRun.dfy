/**
 Whole runs of `timeline` (experiments/data-api-reenable/lib/reenable.ts): one loop per
 path, the operation, and the main loop that waits for the paths named in `stopOn`. A
 step is the code between two awaits; a run is any order of enabled steps with a clock
 that never goes back. Times are milliseconds since `t0`.
 */
module TimelineRuns {
  import opened Wrappers
  import opened Timelines

  datatype Opts = Opts(maxWaitMs: int, settleMs: int, stopOn: seq<string>)

  datatype LoopPc = LoopTop | Probing | LoopAsleep | LoopExited | LoopFailed
  /** `history` is what the loop has recorded, for the statements below; no step reads it. */
  datatype Worker = Worker(name: string, line: Line, pc: LoopPc, history: seq<Obs>)

  datatype Reason = ByDone | ByTimeout
  datatype MainPc = Operating | MainTop | MainAsleep | AwaitLoops(why: Reason) | Returned(why: Reason) | Rejected

  datatype World = World(now: int, stop: bool, workers: seq<Worker>, main: MainPc)

  datatype Event =
    | Tick(ms: nat)
    | LoopCheck(i: nat) | Answers(i: nat, ok: bool, state: string) | ProbeThrows(i: nat) | LoopWakes(i: nat)
    | OperationDone | OperationThrows | MainCheck | MainWakes | LoopsAwaited | LoopsReject

  function Start(names: seq<string>): World {
    World(0, false, seq(|names|, i requires 0 <= i < |names| => Worker(names[i], Empty, LoopTop, [])), Operating)
  }

  predicate GoesOn(w: World, o: Opts) { !w.stop && w.now < o.maxWaitMs }

  /** Every path named in `stopOn` shows a sustained success; an empty list never stops. */
  predicate Done(ws: seq<Worker>, stopOn: seq<string>) {
    |stopOn| > 0 && forall i :: 0 <= i < |ws| && ws[i].name in stopOn ==> ws[i].line.sustainedOkMs.Some?
  }

  predicate LoopAt(w: World, i: nat, pc: LoopPc) { i < |w.workers| && w.workers[i].pc == pc }

  predicate Enabled(w: World, e: Event) {
    match e
    case Tick(_) => true
    case LoopCheck(i) => LoopAt(w, i, LoopTop)
    case Answers(i, _, _) => LoopAt(w, i, Probing)
    case ProbeThrows(i) => LoopAt(w, i, Probing)
    case LoopWakes(i) => LoopAt(w, i, LoopAsleep)
    case OperationDone => w.main.Operating?
    case OperationThrows => w.main.Operating?
    case MainCheck => w.main.MainTop?
    case MainWakes => w.main.MainAsleep?
    case LoopsAwaited => w.main.AwaitLoops? && forall i :: 0 <= i < |w.workers| ==> LoopAt(w, i, LoopExited)
    case LoopsReject => w.main.AwaitLoops? && exists i :: 0 <= i < |w.workers| && LoopAt(w, i, LoopFailed)
  }

  /** One loop's step; an answer is stamped when it arrives. */
  function WorkerStep(k: Worker, w: World, o: Opts, e: Event): Worker {
    match e
    case LoopCheck(_) => k.(pc := if GoesOn(w, o) then Probing else LoopExited)
    case Answers(_, ok, state) =>
      var x := Obs(w.now, ok, state);
      k.(pc := LoopAsleep, line := Record(k.line, x, o.settleMs), history := k.history + [x])
    case ProbeThrows(_) => k.(pc := LoopFailed)
    case LoopWakes(_) => k.(pc := LoopTop)
    case _ => k
  }

  function MainStep(w: World, o: Opts, e: Event): World {
    match e
    case OperationDone => w.(main := MainTop)
    case OperationThrows => w.(main := Rejected)
    case MainCheck =>
      if !GoesOn(w, o) then w.(main := AwaitLoops(ByTimeout), stop := true)
      else if Done(w.workers, o.stopOn) then w.(main := AwaitLoops(ByDone), stop := true)
      else w.(main := MainAsleep)
    case MainWakes => w.(main := MainTop)
    case LoopsAwaited => if w.main.AwaitLoops? then w.(main := Returned(w.main.why)) else w
    case LoopsReject => w.(main := Rejected)
    case _ => w
  }

  /** The loop a step belongs to, if it is a loop's. */
  function LoopOf(e: Event): Option<nat> {
    if e.LoopCheck? || e.Answers? || e.ProbeThrows? || e.LoopWakes? then Some(e.i) else None
  }

  function Step(w: World, o: Opts, e: Event): World {
    if e.Tick? then w.(now := w.now + e.ms) else
    match LoopOf(e)
    case Some(i) => if i < |w.workers| then w.(workers := w.workers[i := WorkerStep(w.workers[i], w, o, e)]) else w
    case None => MainStep(w, o, e)
  }

  /** The state after a run over probes of these names. */
  function Exec(names: seq<string>, o: Opts, es: seq<Event>): World {
    if es == [] then Start(names) else Step(Exec(names, o, es[..|es| - 1]), o, es[|es| - 1])
  }

  predicate Legal(names: seq<string>, o: Opts, es: seq<Event>) {
    es == [] || (Legal(names, o, es[..|es| - 1]) && Enabled(Exec(names, o, es[..|es| - 1]), es[|es| - 1]))
  }

  lemma {:induction false} ExecMore(names: seq<string>, o: Opts, es: seq<Event>, e: Event)
    ensures Exec(names, o, es + [e]) == Step(Exec(names, o, es), o, e)
    ensures Legal(names, o, es + [e]) <==> Legal(names, o, es) && Enabled(Exec(names, o, es), e)
  {
    assert (es + [e])[..|es|] == es;
  }

  // ----- what every step keeps -----

  /** What a loop has recorded by `now`, and the line it makes. */
  ghost predicate Recorded(h: seq<Obs>, l: Line, now: int, settleMs: int) {
    && l == Replay(h, settleMs) && Ordered(h)
    && forall j :: 0 <= j < |h| ==> 0 <= h[j].at <= now
  }

  ghost predicate WorkerInv(k: Worker, name: string, now: int, settleMs: int) {
    k.name == name && Recorded(k.history, k.line, now, settleMs)
  }

  ghost predicate WorkersInv(w: World, names: seq<string>, settleMs: int) {
    |w.workers| == |names| && forall i :: 0 <= i < |names| ==> WorkerInv(w.workers[i], names[i], w.now, settleMs)
  }

  ghost predicate MainInv(w: World, o: Opts) {
    && 0 <= w.now
    && (w.main.AwaitLoops? || w.main.Returned? ==> w.stop)
    && (w.main.Operating? || w.main.MainTop? || w.main.MainAsleep? ==> !w.stop)
    && (w.main == AwaitLoops(ByTimeout) || w.main == Returned(ByTimeout) ==> w.now >= o.maxWaitMs)
  }

  lemma {:induction false} RecordedMore(h: seq<Obs>, x: Obs, l: Line, settleMs: int)
    requires Recorded(h, l, x.at, settleMs) && 0 <= x.at
    ensures Recorded(h + [x], Record(l, x, settleMs), x.at, settleMs)
  {
    assert (h + [x])[..|h|] == h;
  }

  lemma {:induction false} AnswerKeepsInv(k: Worker, name: string, w: World, o: Opts, e: Event, v: Worker)
    requires WorkerInv(k, name, w.now, o.settleMs) && 0 <= w.now && e.Answers? && v == WorkerStep(k, w, o, e)
    ensures WorkerInv(v, name, w.now, o.settleMs)
  {
    RecordedMore(k.history, Obs(w.now, e.ok, e.state), k.line, o.settleMs);
  }

  lemma {:induction false} WorkerStepKeepsInv(k: Worker, name: string, w: World, o: Opts, e: Event)
    requires WorkerInv(k, name, w.now, o.settleMs) && 0 <= w.now
    ensures WorkerInv(WorkerStep(k, w, o, e), name, w.now, o.settleMs)
  {
    if e.Answers? {
      AnswerKeepsInv(k, name, w, o, e, WorkerStep(k, w, o, e));
    } else {
      assert WorkerStep(k, w, o, e).history == k.history && WorkerStep(k, w, o, e).line == k.line;
    }
  }

  lemma {:induction false} StepKeepsWorkers(w: World, names: seq<string>, o: Opts, e: Event)
    requires WorkersInv(w, names, o.settleMs) && 0 <= w.now
    ensures WorkersInv(Step(w, o, e), names, o.settleMs)
  {
    var v := Step(w, o, e);
    forall i | 0 <= i < |names| ensures WorkerInv(v.workers[i], names[i], v.now, o.settleMs) {
      assert WorkerInv(w.workers[i], names[i], w.now, o.settleMs);
      if LoopOf(e) == Some(i) { WorkerStepKeepsInv(w.workers[i], names[i], w, o, e); }
    }
  }

  lemma {:induction false} StepKeepsMain(w: World, o: Opts, e: Event)
    requires MainInv(w, o) && Enabled(w, e)
    ensures MainInv(Step(w, o, e), o)
  {
  }

  /** Holds after every run: each line replays its own answers, in time order, and `stop` follows the main loop. */
  lemma {:induction false} RunKeepsInv(names: seq<string>, o: Opts, es: seq<Event>)
    requires Legal(names, o, es)
    ensures WorkersInv(Exec(names, o, es), names, o.settleMs) && MainInv(Exec(names, o, es), o)
  {
    if es != [] {
      var front := es[..|es| - 1];
      RunKeepsInv(names, o, front);
      StepKeepsWorkers(Exec(names, o, front), names, o, es[|es| - 1]);
      StepKeepsMain(Exec(names, o, front), o, es[|es| - 1]);
    }
  }

  // ----- after the main loop has left -----

  /**
   A loop `b` some steps after `a` and after `stop`: it has recorded nothing more, or
   just the answer of the probe that was in flight.
   */
  ghost predicate Trails(a: Worker, b: Worker, settleMs: int) {
    || (b.history == a.history && b.line == a.line && (b.pc.Probing? ==> a.pc.Probing?))
    || (&& a.pc.Probing? && !b.pc.Probing? && |b.history| == |a.history| + 1
        && b.history == a.history + [b.history[|a.history|]] && b.line == Record(a.line, b.history[|a.history|], settleMs))
  }

  lemma {:induction false} StepTrails(a: Worker, w: World, o: Opts, e: Event, i: nat)
    requires w.stop && i < |w.workers| && Enabled(w, e) && Trails(a, w.workers[i], o.settleMs)
    ensures |Step(w, o, e).workers| == |w.workers| && Trails(a, Step(w, o, e).workers[i], o.settleMs)
  {
    var b := w.workers[i];
    if LoopOf(e) == Some(i) && e.Answers? {
      var x := Obs(w.now, e.ok, e.state);
      assert b.history == a.history;
      assert (a.history + [x])[|a.history|] == x;
    }
  }

  lemma {:induction false} StopStays(w: World, o: Opts, e: Event)
    requires Enabled(w, e) && MainInv(w, o)
    ensures w.stop ==> Step(w, o, e).stop
  {
  }

  lemma {:induction false} RunTrails(names: seq<string>, o: Opts, es: seq<Event>, more: seq<Event>, i: nat)
    requires Legal(names, o, es + more) && i < |names|
    ensures Legal(names, o, es)
    ensures |Exec(names, o, es).workers| == |Exec(names, o, es + more).workers| == |names|
    ensures Exec(names, o, es).stop ==>
      Exec(names, o, es + more).stop && Trails(Exec(names, o, es).workers[i], Exec(names, o, es + more).workers[i], o.settleMs)
  {
    if more == [] {
      assert es + more == es;
      RunKeepsInv(names, o, es);
    } else {
      var n := |more| - 1;
      var front := es + more[..n];
      assert es + more == front + [more[n]];
      ExecMore(names, o, front, more[n]);
      RunTrails(names, o, es, more[..n], i);
      RunKeepsInv(names, o, front);
      if Exec(names, o, es).stop {
        StepTrails(Exec(names, o, es).workers[i], Exec(names, o, front), o, more[n], i);
        StopStays(Exec(names, o, front), o, more[n]);
      }
    }
  }

  /** After `es`, the main loop's next check leaves because `done()` holds. */
  predicate LeavesByDone(names: seq<string>, o: Opts, es: seq<Event>) {
    && Legal(names, o, es) && Exec(names, o, es).main.MainTop?
    && Step(Exec(names, o, es), o, MainCheck).main == AwaitLoops(ByDone)
  }

  /** The final unbroken run of successes spans `settleMs`, and starts at `t`. */
  ghost predicate SustainedAt(h: seq<Obs>, settleMs: int, t: int) {
    exists f: nat :: IsFinalRun(h, f) && SustainedFrom(h, f, settleMs) == Some(t)
  }

  /** When the main loop leaves by `done()`, every path it waits for is in a run of successes that has lasted. */
  lemma {:induction false} DoneIsSettled(names: seq<string>, o: Opts, es: seq<Event>, i: nat)
    requires LeavesByDone(names, o, es) && i < |names| && names[i] in o.stopOn
    ensures var w := Exec(names, o, es);
      && w.now < o.maxWaitMs && i < |w.workers| && w.workers[i].line.sustainedOkMs.Some?
      && SustainedAt(w.workers[i].history, o.settleMs, w.workers[i].line.sustainedOkMs.value)
  {
    RunKeepsInv(names, o, es);
    var k := Exec(names, o, es).workers[i];
    assert WorkerInv(k, names[i], Exec(names, o, es).now, o.settleMs);
    var f := FinalRunOf(k.history);
    SustainedIsFinalRun(k.history, o.settleMs, f);
  }

  /**
   What happens to a path after that: at most one more answer is recorded, and the
   path still shows its sustained success exactly when that answer, if any, is not a failure.
   */
  lemma {:induction false} DoneIsKeptIff(names: seq<string>, o: Opts, es: seq<Event>, more: seq<Event>, i: nat)
    requires LeavesByDone(names, o, es) && Legal(names, o, es + [MainCheck] + more)
    requires i < |names| && names[i] in o.stopOn
    ensures |Exec(names, o, es).workers| == |Exec(names, o, es + [MainCheck] + more).workers| == |names|
    ensures var a, b := Exec(names, o, es).workers[i], Exec(names, o, es + [MainCheck] + more).workers[i];
      && |a.history| <= |b.history| <= |a.history| + 1 && a.history <= b.history
      && (b.line.sustainedOkMs == a.line.sustainedOkMs <==> forall j :: |a.history| <= j < |b.history| ==> b.history[j].ok)
      && (b.line.sustainedOkMs.None? || b.line.sustainedOkMs == a.line.sustainedOkMs)
  {
    DoneIsSettled(names, o, es, i);
    ExecMore(names, o, es, MainCheck);
    RunTrails(names, o, es + [MainCheck], more, i);
  }

  /**
   The main loop's check leaves by `done()` exactly when there is time left, the list is not
   empty, and every path it names is in a run of successes that has lasted.
   */
  lemma {:induction false} LeavesIff(names: seq<string>, o: Opts, es: seq<Event>)
    requires Legal(names, o, es) && Exec(names, o, es).main.MainTop?
    ensures |Exec(names, o, es).workers| == |names|
    ensures var w, v := Exec(names, o, es), Step(Exec(names, o, es), o, MainCheck);
      && (v.main == AwaitLoops(ByDone) <==>
            w.now < o.maxWaitMs && o.stopOn != []
            && forall i :: 0 <= i < |names| && names[i] in o.stopOn ==> IsSettled(w.workers[i].history, o.settleMs))
      && (v.main == AwaitLoops(ByTimeout) <==> w.now >= o.maxWaitMs)
      && (v.stop <==> v.main != MainAsleep)
  {
    RunKeepsInv(names, o, es);
    var w := Exec(names, o, es);
    forall i | 0 <= i < |names| ensures w.workers[i].line.sustainedOkMs.Some? <==> IsSettled(w.workers[i].history, o.settleMs) {
      assert WorkerInv(w.workers[i], names[i], w.now, o.settleMs);
      SettledIff(w.workers[i].history, o.settleMs);
    }
  }

  ghost predicate IsSettled(h: seq<Obs>, settleMs: int) { exists t :: SustainedAt(h, settleMs, t) }

  lemma {:induction false} SettledIff(h: seq<Obs>, settleMs: int)
    requires Ordered(h)
    ensures Replay(h, settleMs).sustainedOkMs.Some? <==> IsSettled(h, settleMs)
  {
    if Replay(h, settleMs).sustainedOkMs.Some? {
      var f := FinalRunOf(h);
      SustainedIsFinalRun(h, settleMs, f);
      assert SustainedAt(h, settleMs, Replay(h, settleMs).sustainedOkMs.value);
    }
    if IsSettled(h, settleMs) {
      var t :| SustainedAt(h, settleMs, t);
      IsFinalRunGives(h, settleMs, t);
    }
  }

  lemma {:induction false} IsFinalRunGives(h: seq<Obs>, settleMs: int, t: int)
    requires Ordered(h) && SustainedAt(h, settleMs, t)
    ensures Replay(h, settleMs).sustainedOkMs == Some(t)
  {
    var f: nat :| IsFinalRun(h, f) && SustainedFrom(h, f, settleMs) == Some(t);
    SustainedIsFinalRun(h, settleMs, f);
  }

  /** An answer is recorded at the time it arrives, by its own loop alone. */
  lemma {:induction false} AnswersAreStamped(names: seq<string>, o: Opts, es: seq<Event>, i: nat, ok: bool, state: string)
    requires Legal(names, o, es + [Answers(i, ok, state)])
    ensures var w, v := Exec(names, o, es), Exec(names, o, es + [Answers(i, ok, state)]);
      && i < |w.workers| == |v.workers|
      && v.workers[i].history == w.workers[i].history + [Obs(w.now, ok, state)]
      && forall q :: 0 <= q < |w.workers| && q != i ==> v.workers[q] == w.workers[q]
  {
    ExecMore(names, o, es, Answers(i, ok, state));
  }

  lemma {:induction false} FailedStays(w: World, o: Opts, e: Event, i: nat)
    requires Enabled(w, e) && LoopAt(w, i, LoopFailed) && !w.main.Returned?
    ensures LoopAt(Step(w, o, e), i, LoopFailed) && !Step(w, o, e).main.Returned?
  {
    assert !LoopAt(w, i, LoopExited);
  }

  /** A probe that throws ends its loop for good, and the call never returns: all it can do is reject. */
  lemma {:induction false} ThrownProbeNeverReturns(names: seq<string>, o: Opts, es: seq<Event>, more: seq<Event>, i: nat)
    requires Legal(names, o, es + [ProbeThrows(i)] + more)
    ensures LoopAt(Exec(names, o, es + [ProbeThrows(i)] + more), i, LoopFailed)
    ensures !Exec(names, o, es + [ProbeThrows(i)] + more).main.Returned?
  {
    var start := es + [ProbeThrows(i)];
    if more == [] {
      assert start + more == start;
      ExecMore(names, o, es, ProbeThrows(i));
      if Exec(names, o, es).main.Returned? { ReturnedExited(names, o, es); }
    } else {
      var n := |more| - 1;
      assert start + more == (start + more[..n]) + [more[n]];
      ExecMore(names, o, start + more[..n], more[n]);
      ThrownProbeNeverReturns(names, o, es, more[..n], i);
      FailedStays(Exec(names, o, start + more[..n]), o, more[n], i);
    }
  }

  /** A return waits for every loop, so the paths it returns are final. */
  lemma {:induction false} ReturnIsFinal(names: seq<string>, o: Opts, es: seq<Event>, more: seq<Event>)
    requires Legal(names, o, es + more) && Exec(names, o, es).main.Returned?
    ensures Legal(names, o, es) && AllExited(Exec(names, o, es).workers)
    ensures Exec(names, o, es + more).workers == Exec(names, o, es).workers
    ensures Exec(names, o, es + more).main == Exec(names, o, es).main
  {
    LegalPrefix(names, o, es, more);
    ReturnedExited(names, o, es);
    if more == [] {
      assert es + more == es;
    } else {
      var n := |more| - 1;
      assert es + more == (es + more[..n]) + [more[n]];
      ExecMore(names, o, es + more[..n], more[n]);
      ReturnIsFinal(names, o, es, more[..n]);
      ExitedStay(Exec(names, o, es + more[..n]), o, more[n]);
    }
  }

  ghost predicate AllExited(ws: seq<Worker>) { forall i :: 0 <= i < |ws| ==> ws[i].pc.LoopExited? }

  lemma {:induction false} ExitedStay(w: World, o: Opts, e: Event)
    requires Enabled(w, e) && w.main.Returned? && AllExited(w.workers)
    ensures Step(w, o, e).workers == w.workers && Step(w, o, e).main == w.main
  {
  }

  lemma {:induction false} ReturnedExited(names: seq<string>, o: Opts, es: seq<Event>)
    requires Legal(names, o, es) && Exec(names, o, es).main.Returned?
    ensures AllExited(Exec(names, o, es).workers)
  {
    var front, e := es[..|es| - 1], es[|es| - 1];
    if Exec(names, o, front).main.Returned? {
      ReturnedExited(names, o, front);
      ExitedStay(Exec(names, o, front), o, e);
    } else {
      ReturnsExited(Exec(names, o, front), o, e);
    }
  }

  lemma {:induction false} ReturnsExited(w: World, o: Opts, e: Event)
    requires Enabled(w, e) && !w.main.Returned? && Step(w, o, e).main.Returned?
    ensures Step(w, o, e).workers == w.workers && AllExited(w.workers)
  {
    forall i | 0 <= i < |w.workers| ensures w.workers[i].pc.LoopExited? { assert LoopAt(w, i, LoopExited); }
  }

  /** How a run that has left its main loop got there. */
  lemma {:induction false} LeftBy(names: seq<string>, o: Opts, es: seq<Event>) returns (n: nat)
    requires Legal(names, o, es)
    requires Exec(names, o, es).main == AwaitLoops(ByDone) || Exec(names, o, es).main == Returned(ByDone)
    ensures n < |es| && es[n] == MainCheck && LeavesByDone(names, o, es[..n])
  {
    n := |es| - 1;
    var front := es[..n];
    RunKeepsInv(names, o, front);
    if Exec(names, o, front).main == AwaitLoops(ByDone) || Exec(names, o, front).main == Returned(ByDone) {
      n := LeftBy(names, o, front);
      assert front[..n] == es[..n];
    }
  }

  /**
   The function promises to wait until every path in `stopOn` has a lasting success, or
   for `maxWaitMs`. A path that comes back without one means the time ran out, or that the
   path's last answer failed after the main loop had already left.
   */
  lemma {:induction false} NullIsTimeoutOrRelapse(names: seq<string>, o: Opts, es: seq<Event>, i: nat)
    requires Legal(names, o, es) && Exec(names, o, es).main.Returned? && i < |names| && names[i] in o.stopOn
    ensures var w := Exec(names, o, es);
      && i < |w.workers|
      && (w.workers[i].line.sustainedOkMs.None? ==>
          || (w.main == Returned(ByTimeout) && w.now >= o.maxWaitMs)
          || exists n :: 0 <= n < |es| && LeavesByDone(names, o, es[..n]) && RelapsedAfter(Exec(names, o, es[..n]), w, i))
  {
    RunKeepsInv(names, o, es);
    var w := Exec(names, o, es);
    if w.main.why.ByDone? && w.workers[i].line.sustainedOkMs.None? { var n := RelapseOf(names, o, es, i, w); }
  }

  /** When that happened. */
  lemma {:induction false} RelapseOf(names: seq<string>, o: Opts, es: seq<Event>, i: nat, w: World) returns (n: nat)
    requires Legal(names, o, es) && w == Exec(names, o, es) && w.main == Returned(ByDone)
    requires i < |names| && names[i] in o.stopOn && i < |w.workers| && w.workers[i].line.sustainedOkMs.None?
    ensures n < |es| && LeavesByDone(names, o, es[..n]) && RelapsedAfter(Exec(names, o, es[..n]), w, i)
  {
    n := LeftBy(names, o, es);
    assert es == es[..n] + [MainCheck] + es[n + 1..];
    Relapsed(names, o, es[..n], es[n + 1..], i);
  }

  lemma {:induction false} Relapsed(names: seq<string>, o: Opts, es: seq<Event>, more: seq<Event>, i: nat)
    requires LeavesByDone(names, o, es) && Legal(names, o, es + [MainCheck] + more)
    requires i < |names| && names[i] in o.stopOn
    requires i < |Exec(names, o, es + [MainCheck] + more).workers|
    requires Exec(names, o, es + [MainCheck] + more).workers[i].line.sustainedOkMs.None?
    ensures RelapsedAfter(Exec(names, o, es), Exec(names, o, es + [MainCheck] + more), i)
  {
    DoneIsSettled(names, o, es, i);
    DoneIsKeptIff(names, o, es, more, i);
  }

  /** Path `i` had a lasting success in `v`, and its one answer since then is a failure. */
  ghost predicate RelapsedAfter(v: World, w: World, i: nat) {
    && i < |v.workers| == |w.workers| && v.workers[i].line.sustainedOkMs.Some?
    && |w.workers[i].history| == |v.workers[i].history| + 1 && !w.workers[i].history[|v.workers[i].history|].ok
  }

  // ----- a run that returns without the success it stopped on -----

  /** A run over the one path "a". */
  function Solo(now: int, line: Line, h: seq<Obs>, pc: LoopPc, main: MainPc): World {
    World(now, main.AwaitLoops? || main.Returned?, [Worker("a", line, pc, h)], main)
  }

  ghost predicate Reaches(o: Opts, es: seq<Event>, w: World) {
    Legal(["a"], o, es) && Exec(["a"], o, es) == w
  }

  lemma {:induction false} Onwards(o: Opts, es: seq<Event>, w: World, e: Event)
    requires Reaches(o, es, w) && Enabled(w, e)
    ensures Reaches(o, es + [e], Step(w, o, e))
  {
    ExecMore(["a"], o, es, e);
  }

  /** One turn of the loop: probe, record, sleep 10 ms. */
  function Turn(ok: bool): seq<Event> { [LoopCheck(0)] + [Answers(0, ok, "http")] + [Tick(10)] + [LoopWakes(0)] }

  lemma {:induction false} SoloTurn(o: Opts, es: seq<Event>, now: int, line: Line, h: seq<Obs>, ok: bool)
    requires Reaches(o, es, Solo(now, line, h, LoopTop, Operating)) && now < o.maxWaitMs
    ensures var x := Obs(now, ok, "http");
      Reaches(o, es + Turn(ok), Solo(now + 10, Record(line, x, o.settleMs), h + [x], LoopTop, Operating))
  {
    var x := Obs(now, ok, "http");
    var line' := Record(line, x, o.settleMs);
    var es1 := es + [LoopCheck(0)];
    var es2 := es1 + [Answers(0, ok, "http")];
    SoloChecks(o, es, now, line, h);
    SoloAnswers(o, es1, now, line, h, x);
    SoloTicks(o, es2, now, line', h + [x]);
    SoloWakes(o, es2 + [Tick(10)], now + 10, line', h + [x]);
    assert es + Turn(ok) == es2 + [Tick(10)] + [LoopWakes(0)];
  }

  lemma {:induction false} SoloChecks(o: Opts, es: seq<Event>, now: int, line: Line, h: seq<Obs>)
    requires Reaches(o, es, Solo(now, line, h, LoopTop, Operating)) && now < o.maxWaitMs
    ensures Reaches(o, es + [LoopCheck(0)], Solo(now, line, h, Probing, Operating))
  {
    SoloStep(o, now, line, h, LoopTop, LoopCheck(0));
    Onwards(o, es, Solo(now, line, h, LoopTop, Operating), LoopCheck(0));
  }

  /** A step of the one loop there is. */
  lemma {:induction false} SoloStep(o: Opts, now: int, line: Line, h: seq<Obs>, pc: LoopPc, e: Event)
    requires LoopOf(e) == Some(0)
    ensures var w := Solo(now, line, h, pc, Operating);
      Step(w, o, e) == w.(workers := [WorkerStep(w.workers[0], w, o, e)])
  {
  }

  lemma {:induction false} SoloAnswers(o: Opts, es: seq<Event>, now: int, line: Line, h: seq<Obs>, x: Obs)
    requires Reaches(o, es, Solo(now, line, h, Probing, Operating)) && x.at == now
    ensures Reaches(o, es + [Answers(0, x.ok, x.state)],
                    Solo(now, Record(line, x, o.settleMs), h + [x], LoopAsleep, Operating))
  {
    SoloStep(o, now, line, h, Probing, Answers(0, x.ok, x.state));
    Onwards(o, es, Solo(now, line, h, Probing, Operating), Answers(0, x.ok, x.state));
  }

  lemma {:induction false} SoloTicks(o: Opts, es: seq<Event>, now: int, line: Line, h: seq<Obs>)
    requires Reaches(o, es, Solo(now, line, h, LoopAsleep, Operating))
    ensures Reaches(o, es + [Tick(10)], Solo(now + 10, line, h, LoopAsleep, Operating))
  {
    Onwards(o, es, Solo(now, line, h, LoopAsleep, Operating), Tick(10));
  }

  lemma {:induction false} SoloWakes(o: Opts, es: seq<Event>, now: int, line: Line, h: seq<Obs>)
    requires Reaches(o, es, Solo(now, line, h, LoopAsleep, Operating))
    ensures Reaches(o, es + [LoopWakes(0)], Solo(now, line, h, LoopTop, Operating))
  {
    SoloStep(o, now, line, h, LoopAsleep, LoopWakes(0));
    Onwards(o, es, Solo(now, line, h, LoopAsleep, Operating), LoopWakes(0));
  }

  const RelapseOpts := Opts(1000, 10, ["a"])
  const SettledLine := Line([Change(0, "http")], 2, Some(0), Some(0), Some(0))
  const SettledRun := Turn(true) + Turn(true) + [LoopCheck(0)] + [OperationDone]
  const RelapseRun := SettledRun + [MainCheck] + [Answers(0, false, "http")] + [LoopWakes(0)] + [LoopCheck(0)] + [LoopsAwaited]

  lemma {:induction false} FirstSuccess(x: Obs, line: Line, settleMs: int)
    requires x == Obs(0, true, "http") && line == Line([Change(0, "http")], 1, Some(0), None, Some(0)) && settleMs > 0
    ensures Record(Empty, x, settleMs) == line
  {
    assert Record(Empty, x, settleMs).transitions == line.transitions;
  }

  lemma {:induction false} SoloStarts(o: Opts, none: seq<Event>, h: seq<Obs>)
    requires none == [] && h == []
    ensures Reaches(o, none, Solo(0, Empty, h, LoopTop, Operating))
  {
    assert Start(["a"]).workers == Solo(0, Empty, h, LoopTop, Operating).workers;
  }

  lemma {:induction false} FirstTurn(o: Opts, x: Obs, line: Line, turn: seq<Event>, none: seq<Event>, h: seq<Obs>)
    requires o == RelapseOpts && turn == Turn(true) && none == [] && h == []
    requires x == Obs(0, true, "http") && line == Record(Empty, x, o.settleMs)
    ensures Reaches(o, turn, Solo(10, line, [x], LoopTop, Operating))
  {
    SoloStarts(o, none, h);
    SoloTurn(o, none, 0, Empty, h, true);
    assert none + turn == turn && h + [x] == [x];
  }

  /** Two successes 10 ms apart, a third probe under way, and the operation returns. */
  lemma {:induction false} SettledRunReaches(o: Opts, x: Obs, h: seq<Obs>, turn: seq<Event>)
    requires o == RelapseOpts && turn == Turn(true) && x == Obs(0, true, "http") && h == [x] + [Obs(10, true, "http")]
    ensures Reaches(o, turn + turn + [LoopCheck(0)] + [OperationDone], Solo(20, SettledLine, h, Probing, MainTop))
  {
    var line := Line([Change(0, "http")], 1, Some(0), None, Some(0));
    FirstSuccess(x, line, o.settleMs);
    FirstTurn(o, x, line, turn, [], []);
    SoloTurn(o, turn, 10, line, [x], true);
    ThirdProbe(o, turn + turn, h);
  }

  lemma {:induction false} ThirdProbe(o: Opts, es: seq<Event>, h: seq<Obs>)
    requires Reaches(o, es, Solo(20, SettledLine, h, LoopTop, Operating)) && 20 < o.maxWaitMs
    ensures Reaches(o, es + [LoopCheck(0)] + [OperationDone], Solo(20, SettledLine, h, Probing, MainTop))
  {
    Onwards(o, es, Solo(20, SettledLine, h, LoopTop, Operating), LoopCheck(0));
    Onwards(o, es + [LoopCheck(0)], Solo(20, SettledLine, h, Probing, Operating), OperationDone);
  }

  /** From there: the main loop leaves by `done()`, and the probe in flight fails. */
  lemma {:induction false} LeavesAndRelapses(o: Opts, es: seq<Event>, h: seq<Obs>, line: Line, x: Obs)
    requires Reaches(o, es, Solo(20, SettledLine, h, Probing, MainTop)) && o == RelapseOpts
    requires x == Obs(20, false, "http") && line == SettledLine.(samples := 3, sustainedOkMs := None, runStart := None)
    ensures LeavesByDone(["a"], o, es)
    ensures Reaches(o, es + [MainCheck] + [Answers(0, false, "http")], Solo(20, line, h + [x], LoopAsleep, AwaitLoops(ByDone)))
  {
    assert Done(Solo(20, SettledLine, h, Probing, MainTop).workers, o.stopOn);
    Onwards(o, es, Solo(20, SettledLine, h, Probing, MainTop), MainCheck);
    Onwards(o, es + [MainCheck], Solo(20, SettledLine, h, Probing, AwaitLoops(ByDone)), Answers(0, false, "http"));
  }

  lemma {:induction false} LoopLeaves(o: Opts, es: seq<Event>, line: Line, h: seq<Obs>)
    requires Reaches(o, es, Solo(20, line, h, LoopAsleep, AwaitLoops(ByDone)))
    ensures Reaches(o, es + [LoopWakes(0)] + [LoopCheck(0)] + [LoopsAwaited], Solo(20, line, h, LoopExited, Returned(ByDone)))
  {
    Onwards(o, es, Solo(20, line, h, LoopAsleep, AwaitLoops(ByDone)), LoopWakes(0));
    Onwards(o, es + [LoopWakes(0)], Solo(20, line, h, LoopTop, AwaitLoops(ByDone)), LoopCheck(0));
    Onwards(o, es + [LoopWakes(0)] + [LoopCheck(0)], Solo(20, line, h, LoopExited, AwaitLoops(ByDone)), LoopsAwaited);
  }

  /**
   The main loop leaves by `done()`, the probe in flight fails, and the path is returned without a
   sustained success.
   */
  lemma {:induction false} RelapseRunReturnsNull(o: Opts, settled: seq<Event>, relapse: seq<Event>)
    requires o == RelapseOpts && settled == SettledRun && relapse == RelapseRun
    ensures LeavesByDone(["a"], o, settled) && Legal(["a"], o, relapse)
    ensures var w := Exec(["a"], o, relapse);
      w.main == Returned(ByDone) && |w.workers| == 1 && w.workers[0].line.sustainedOkMs.None?
  {
    var x, y := Obs(0, true, "http"), Obs(20, false, "http");
    var h := [x] + [Obs(10, true, "http")];
    var line := SettledLine.(samples := 3, sustainedOkMs := None, runStart := None);
    SettledRunReaches(o, x, h, Turn(true));
    LeavesAndRelapses(o, settled, h, line, y);
    LoopLeaves(o, settled + [MainCheck] + [Answers(0, false, "http")], line, h + [y]);
  }

  // ----- stopping with no success at all -----

  /** Some run leaves by `done()` although no path has answered ok. */
  ghost predicate CanStopUnanswered(names: seq<string>, o: Opts) {
    exists es :: LeavesByDone(names, o, es) && NoSuccess(Exec(names, o, es))
  }

  ghost predicate NoSuccess(w: World) {
    forall i, j :: 0 <= i < |w.workers| && 0 <= j < |w.workers[i].history| ==> !w.workers[i].history[j].ok
  }

  /** The loops have made the first `k` of their first checks, and nothing has been answered. */
  ghost predicate IsChecked(w: World, names: seq<string>, k: nat) {
    && w.now == 0 && !w.stop && |w.workers| == |names|
    && forall i :: 0 <= i < |names| ==> w.workers[i] == Worker(names[i], Empty, if i < k then Probing else LoopTop, [])
  }

  function Checks(k: nat): seq<Event> { if k == 0 then [] else Checks(k - 1) + [LoopCheck(k - 1)] }

  lemma {:induction false} ChecksReach(names: seq<string>, o: Opts, k: nat, es: seq<Event>) returns (w: World)
    requires k <= |names| && 0 < o.maxWaitMs && es == Checks(k)
    ensures Legal(names, o, es) && Exec(names, o, es) == w && IsChecked(w, names, k) && w.main.Operating?
  {
    if k == 0 {
      w := Start(names);
    } else {
      var front, e := Checks(k - 1), LoopCheck(k - 1);
      var v := ChecksReach(names, o, k - 1, front);
      CheckOne(names, o, k - 1, v);
      ExecMore(names, o, front, e);
      w := Step(v, o, e);
    }
  }

  lemma {:induction false} CheckOne(names: seq<string>, o: Opts, k: nat, w: World)
    requires k < |names| && 0 < o.maxWaitMs && IsChecked(w, names, k)
    ensures Enabled(w, LoopCheck(k)) && IsChecked(Step(w, o, LoopCheck(k)), names, k + 1)
    ensures Step(w, o, LoopCheck(k)).main == w.main
  {
  }

  lemma {:induction false} DoneNeedsSuccess(names: seq<string>, o: Opts, es: seq<Event>, i: nat)
    requires LeavesByDone(names, o, es) && i < |names| && names[i] in o.stopOn
    ensures !NoSuccess(Exec(names, o, es))
  {
    DoneIsSettled(names, o, es, i);
    var k := Exec(names, o, es).workers[i];
    var j := SuccessOf(k.history, o.settleMs, k.line.sustainedOkMs.value);
  }

  lemma {:induction false} SuccessOf(h: seq<Obs>, settleMs: int, t: int) returns (j: nat)
    requires SustainedAt(h, settleMs, t)
    ensures j < |h| && h[j].ok
  {
    j :| IsFinalRun(h, j) && SustainedFrom(h, j, settleMs) == Some(t);
  }

  /**
   The list is there to wait for successes. A run can stop with none exactly when the
   list is non-empty, names no probe, and there is any time to wait.
   */
  lemma {:induction false} StopsUnansweredIff(names: seq<string>, o: Opts)
    ensures CanStopUnanswered(names, o) <==>
            o.stopOn != [] && o.maxWaitMs > 0 && forall i :: 0 <= i < |names| ==> names[i] !in o.stopOn
  {
    if CanStopUnanswered(names, o) {
      var es :| LeavesByDone(names, o, es) && NoSuccess(Exec(names, o, es));
      RunKeepsInv(names, o, es);
      forall i | 0 <= i < |names| ensures names[i] !in o.stopOn {
        if names[i] in o.stopOn { DoneNeedsSuccess(names, o, es, i); }
      }
    }
    if o.stopOn != [] && o.maxWaitMs > 0 && forall i :: 0 <= i < |names| ==> names[i] !in o.stopOn {
      StopsUnanswered(names, o, Checks(|names|));
    }
  }

  lemma {:induction false} StopsUnanswered(names: seq<string>, o: Opts, es: seq<Event>)
    requires o.stopOn != [] && o.maxWaitMs > 0 && forall i :: 0 <= i < |names| ==> names[i] !in o.stopOn
    requires es == Checks(|names|)
    ensures CanStopUnanswered(names, o)
  {
    var w := ChecksReach(names, o, |names|, es);
    DoneUnanswered(names, o, w, Step(w, o, OperationDone));
    LeavesUnanswered(names, o, es, w, Step(w, o, OperationDone));
  }

  lemma {:induction false} LeavesUnanswered(names: seq<string>, o: Opts, es: seq<Event>, w: World, v: World)
    requires Legal(names, o, es) && Exec(names, o, es) == w && w.main.Operating? && v == Step(w, o, OperationDone)
    requires v.main.MainTop? && Step(v, o, MainCheck).main == AwaitLoops(ByDone) && NoSuccess(v)
    ensures CanStopUnanswered(names, o)
  {
    var more := es + [OperationDone];
    ExecMore(names, o, es, OperationDone);
    assert LeavesByDone(names, o, more) && NoSuccess(Exec(names, o, more));
  }

  lemma {:induction false} DoneUnanswered(names: seq<string>, o: Opts, w: World, v: World)
    requires o.stopOn != [] && o.maxWaitMs > 0 && forall i :: 0 <= i < |names| ==> names[i] !in o.stopOn
    requires IsChecked(w, names, |names|) && w.main.Operating? && v == Step(w, o, OperationDone)
    ensures v.main.MainTop? && Step(v, o, MainCheck).main == AwaitLoops(ByDone) && NoSuccess(v)
  {
    assert Done(v.workers, o.stopOn);
  }

  // ----- an operation that throws -----

  lemma {:induction false} RejectedStays(names: seq<string>, o: Opts, es: seq<Event>, more: seq<Event>)
    requires Legal(names, o, es + more) && Legal(names, o, es)
    requires Exec(names, o, es).main.Rejected? && !Exec(names, o, es).stop
    ensures Exec(names, o, es + more).main.Rejected? && !Exec(names, o, es + more).stop
  {
    if more == [] {
      assert es + more == es;
    } else {
      var n := |more| - 1;
      assert es + more == (es + more[..n]) + [more[n]];
      ExecMore(names, o, es + more[..n], more[n]);
      RejectedStays(names, o, es, more[..n]);
    }
  }

  /** When the operation throws, nothing ever stops the loops: each goes on probing until `maxWaitMs`. */
  lemma {:induction false} ThrowLeavesLoopsRunning(names: seq<string>, o: Opts, es: seq<Event>, more: seq<Event>,
                                                   i: nat)
    requires Legal(names, o, es + [OperationThrows] + more + [LoopCheck(i)])
    ensures var all := es + [OperationThrows] + more;
      var w, v := Exec(names, o, all), Exec(names, o, all + [LoopCheck(i)]);
      && w.main.Rejected? && i < |v.workers|
      && (v.workers[i].pc == if w.now < o.maxWaitMs then Probing else LoopExited)
  {
    var all := es + [OperationThrows] + more;
    ExecMore(names, o, all, LoopCheck(i));
    LegalPrefix(names, o, es + [OperationThrows], more);
    ExecMore(names, o, es, OperationThrows);
    RunKeepsInv(names, o, es);
    RejectedStays(names, o, es + [OperationThrows], more);
  }

  lemma {:induction false} LegalPrefix(names: seq<string>, o: Opts, es: seq<Event>, more: seq<Event>)
    requires Legal(names, o, es + more)
    ensures Legal(names, o, es)
  {
    if more == [] {
      assert es + more == es;
    } else {
      var n := |more| - 1;
      assert es + more == (es + more[..n]) + [more[n]];
      ExecMore(names, o, es + more[..n], more[n]);
      LegalPrefix(names, o, es, more[..n]);
    }
  }
}

/**
 The hedged read of experiments/client-retries/lib/policy.ts: one GET, at most one
 extra attempt, a hedge timer, a deadline and a grace timer. Every callback body
 runs without interruption, so one callback is one step of the state machine below;
 a run is any order of enabled callbacks. `build` is assumed not to throw before it
 returns its promise; a rejection is a response of status 0.
 */
module Hedge {
  import opened Wrappers

  datatype Resp = Resp(status: int, body: string)
  datatype Win = Win(n: nat, r: Resp)
  datatype Result = Result(r: Resp, started: nat, winner: nat)
  datatype Opts = Opts(timeoutMs: int, hedgeAfterMs: int)

  predicate Retryable(r: Resp) { r.status == 0 || r.status >= 500 }

  /** A callback: an attempt's promise settles, or one of the three timers fires. */
  datatype Event = Settle(n: nat, r: Resp) | HedgeTimer | DeadlineAbort | GraceTimer

  /**
   `aborted` has one entry per abort controller created; `pending` holds the
   attempts whose promise has not settled; `resolved` lists the calls of `resolve`.
   */
  datatype Call = Call(
    started: nat, settled: nat, done: bool, last: Option<Win>,
    hedgeArmed: bool, deadlineAborted: bool, graceArmed: bool,
    aborted: seq<bool>, pending: set<nat>, resolved: seq<Result>)

  // ----- the callbacks -----

  function Launch(c: Call): Call {
    if c.done || c.started >= 2 then c
    else c.(started := c.started + 1, aborted := c.aborted + [false], pending := c.pending + {|c.aborted| + 1})
  }

  function AbortAllBut(aborted: seq<bool>, n: nat): seq<bool> {
    seq(|aborted|, i requires 0 <= i < |aborted| => i + 1 != n || aborted[i])
  }

  function Finish(c: Call, w: Win): Call {
    if c.done then c
    else c.(done := true, hedgeArmed := false, aborted := AbortAllBut(c.aborted, w.n),
            resolved := c.resolved + [Result(w.r, c.started, w.n)])
  }

  function Begin(): Call {
    Launch(Call(0, 0, false, None, true, false, false, [], {}, []))
  }

  predicate Enabled(c: Call, e: Event) {
    match e
    case Settle(n, _) => n in c.pending
    case HedgeTimer => c.hedgeArmed
    case DeadlineAbort => !c.deadlineAborted
    case GraceTimer => c.graceArmed
  }

  function Step(c: Call, e: Event): Call {
    match e
    case Settle(n, r) =>
      var w := Win(n, r);
      var d := c.(settled := c.settled + 1, last := Some(w), pending := c.pending - {n});
      if !Retryable(r) then Finish(d, w)
      else if d.started < 2 && !d.deadlineAborted then Launch(d)
      else if d.settled == d.started then Finish(d, w)
      else d
    case HedgeTimer => Launch(c.(hedgeArmed := false))
    case DeadlineAbort => c.(deadlineAborted := true, graceArmed := true, aborted := AbortAllBut(c.aborted, 0))
    case GraceTimer =>
      var d := c.(graceArmed := false);
      if d.last.Some? then Finish(d, d.last.value) else d
  }

  /** The state after a run. */
  function Exec(es: seq<Event>): Call {
    if es == [] then Begin() else Step(Exec(es[..|es| - 1]), es[|es| - 1])
  }

  predicate Legal(es: seq<Event>) {
    es == [] || (Legal(es[..|es| - 1]) && Enabled(Exec(es[..|es| - 1]), es[|es| - 1]))
  }

  // ----- the closures that mutate the call -----

  class HedgedGet {
    var started: nat
    var settled: nat
    var done: bool
    var last: Option<Win>
    var hedgeArmed: bool
    var deadlineAborted: bool
    var graceArmed: bool
    var aborted: seq<bool>
    var pending: set<nat>
    var resolved: seq<Result>

    ghost function View(): Call
      reads this
    {
      Call(started, settled, done, last, hedgeArmed, deadlineAborted, graceArmed, aborted, pending, resolved)
    }

    constructor ()
      ensures View() == Begin()
    {
      started, settled, done, last := 0, 0, false, None;
      hedgeArmed, deadlineAborted, graceArmed := true, false, false;
      aborted, pending, resolved := [], {}, [];
      new;
      DoLaunch();
    }

    method DoLaunch()
      modifies this
      ensures View() == Launch(old(View()))
    {
      if done || started >= 2 { return; }
      started := started + 1;
      aborted := aborted + [false];
      pending := pending + {|aborted|};
    }

    method AbortOthers(n: nat)
      modifies this`aborted
      ensures aborted == AbortAllBut(old(aborted), n)
    {
      for i := 0 to |aborted|
        invariant |aborted| == |old(aborted)|
        invariant forall j :: 0 <= j < i ==> aborted[j] == (j + 1 != n || old(aborted)[j])
        invariant forall j :: i <= j < |aborted| ==> aborted[j] == old(aborted)[j]
      {
        if i + 1 != n { aborted := aborted[i := true]; }
      }
    }

    method DoFinish(w: Win)
      modifies this
      ensures View() == Finish(old(View()), w)
    {
      if done { return; }
      done := true;
      hedgeArmed := false;
      AbortOthers(w.n);
      resolved := resolved + [Result(w.r, started, w.n)];
    }

    method OnSettle(n: nat, r: Resp)
      requires Enabled(View(), Settle(n, r))
      modifies this
      ensures View() == Step(old(View()), Settle(n, r))
    {
      var w := Win(n, r);
      pending := pending - {n};
      settled := settled + 1;
      last := Some(w);
      if !Retryable(r) {
        DoFinish(w);
      } else if started < 2 && !deadlineAborted {
        DoLaunch();
      } else if settled == started {
        DoFinish(w);
      }
    }

    method OnHedgeTimer()
      requires Enabled(View(), HedgeTimer)
      modifies this
      ensures View() == Step(old(View()), HedgeTimer)
    {
      hedgeArmed := false;
      DoLaunch();
    }

    method OnDeadline()
      requires Enabled(View(), DeadlineAbort)
      modifies this
      ensures View() == Step(old(View()), DeadlineAbort)
    {
      deadlineAborted := true;
      graceArmed := true;
      AbortOthers(0);
    }

    method OnGraceTimer()
      requires Enabled(View(), GraceTimer)
      modifies this
      ensures View() == Step(old(View()), GraceTimer)
    {
      graceArmed := false;
      if last.Some? { DoFinish(last.value); }
    }
  }

  // ----- what every step keeps -----

  ghost predicate Inv(c: Call) {
    && 1 <= c.started <= 2 && |c.aborted| == c.started
    && c.pending <= (if c.started == 1 then {1} else {1, 2})
    && c.settled + |c.pending| == c.started
    && (c.last.Some? <==> c.settled > 0)
    && (c.last.Some? ==> 1 <= c.last.value.n <= c.started && c.last.value.n !in c.pending)
    && (c.graceArmed ==> c.deadlineAborted)
    && (!c.done ==> c.pending != {} && c.resolved == [] && (c.last.Some? ==> Retryable(c.last.value.r)))
    && (c.done ==>
          && |c.resolved| == 1 && !c.hedgeArmed
          && c.resolved[0].started == c.started && 1 <= c.resolved[0].winner <= c.started
          && c.resolved[0].winner !in c.pending
          && forall i :: 0 <= i < c.started && i + 1 != c.resolved[0].winner ==> c.aborted[i])
  }

  lemma {:induction false} SettleKeepsInv(c: Call, n: nat, r: Resp)
    requires Inv(c) && n in c.pending
    ensures Inv(Step(c, Settle(n, r)))
  {
    assert |c.pending - {n}| == |c.pending| - 1;
    if c.started == 1 { assert c.pending == {1}; assert c.pending - {n} + {2} == {2}; }
  }

  lemma {:induction false} HedgeTimerKeepsInv(c: Call)
    requires Inv(c) && c.hedgeArmed
    ensures Inv(Step(c, HedgeTimer))
  {
    if c.started == 1 { assert 2 !in c.pending; assert |c.pending + {2}| == |c.pending| + 1; }
  }

  lemma {:induction false} DeadlineKeepsInv(c: Call)
    requires Inv(c)
    ensures Inv(Step(c, DeadlineAbort))
  {
  }

  lemma {:induction false} GraceKeepsInv(c: Call)
    requires Inv(c) && c.graceArmed
    ensures Inv(Step(c, GraceTimer))
  {
  }

  lemma {:induction false} StepKeepsInv(c: Call, e: Event)
    requires Inv(c) && Enabled(c, e)
    ensures Inv(Step(c, e))
  {
    match e
    case Settle(n, r) => SettleKeepsInv(c, n, r);
    case HedgeTimer => HedgeTimerKeepsInv(c);
    case DeadlineAbort => DeadlineKeepsInv(c);
    case GraceTimer => GraceKeepsInv(c);
  }

  /** Holds in every state of every run. */
  lemma {:induction false} RunKeepsInv(es: seq<Event>)
    requires Legal(es)
    ensures Inv(Exec(es))
  {
    if es != [] {
      RunKeepsInv(es[..|es| - 1]);
      StepKeepsInv(Exec(es[..|es| - 1]), es[|es| - 1]);
    }
  }

  /**
   Never stuck: an unresolved call has at most two attempts and one of them can
   still settle, so a call all of whose attempts have settled is resolved.
   */
  lemma {:induction false} NeverStuck(es: seq<Event>)
    requires Legal(es)
    ensures var c := Exec(es);
      && (!c.done ==> c.settled < c.started <= 2 && exists n :: n in c.pending && forall r :: Legal(es + [Settle(n, r)]))
      && (c.pending == {} ==> c.done)
      && |c.resolved| == (if c.done then 1 else 0)
  {
    RunKeepsInv(es);
    var c := Exec(es);
    if !c.done {
      var n :| n in c.pending;
      forall r ensures Legal(es + [Settle(n, r)]) { Extend(es, Settle(n, r)); }
    }
  }

  lemma {:induction false} Extend(es: seq<Event>, e: Event)
    ensures Legal(es + [e]) <==> Legal(es) && Enabled(Exec(es), e)
    ensures Exec(es + [e]) == Step(Exec(es), e)
  {
    assert (es + [e])[..|es|] == es;
  }

  lemma {:induction false} DoneStays(c: Call, e: Event)
    requires c.done
    ensures Step(c, e).done && Step(c, e).resolved == c.resolved && Step(c, e).started == c.started
  {
  }

  /** Once resolved, nothing is started and the answer stays. */
  lemma {:induction false} ResolvedIsFinal(es: seq<Event>, more: seq<Event>)
    requires Legal(es + more) && Exec(es).done
    ensures var c, d := Exec(es), Exec(es + more); d.done && d.resolved == c.resolved && d.started == c.started
  {
    if more == [] {
      assert es + more == es;
    } else {
      var front, e := more[..|more| - 1], more[|more| - 1];
      assert es + more == (es + front) + [e];
      Extend(es + front, e);
      ResolvedIsFinal(es, front);
      DoneStays(Exec(es + front), e);
    }
  }

  // ----- what the answer is, told from the run alone -----

  function Settles(es: seq<Event>): nat {
    if es == [] then 0 else Settles(es[..|es| - 1]) + (if es[|es| - 1].Settle? then 1 else 0)
  }

  function LastSettle(es: seq<Event>): Option<Win> {
    if es == [] then None
    else if es[|es| - 1].Settle? then Some(Win(es[|es| - 1].n, es[|es| - 1].r))
    else LastSettle(es[..|es| - 1])
  }

  /** The second attempt starts on the hedge timer, or on an answer before the deadline. */
  ghost predicate SecondStarted(es: seq<Event>) {
    exists k :: 0 <= k < |es| && (es[k].HedgeTimer? || (es[k].Settle? && DeadlineAbort !in es[..k]))
  }

  /**
   After `es` without a decision, `e` decides the call: a non-retryable answer; a
   retryable one when no other attempt is or can be running; the grace timer when
   there is an answer to give.
   */
  ghost predicate Decides(es: seq<Event>, e: Event) {
    match e
    case Settle(_, r) =>
      || !Retryable(r)
      || (SecondStarted(es) && Settles(es) == 1)
      || (!SecondStarted(es) && DeadlineAbort in es)
    case GraceTimer => LastSettle(es).Some?
    case _ => false
  }

  ghost function Decision(es: seq<Event>): Option<Result> {
    if es == [] then None else
    var front, e := es[..|es| - 1], es[|es| - 1];
    var earlier := Decision(front);
    if earlier.Some? || !Decides(front, e) then earlier
    else Some(Verdict(front, e))
  }

  /** The answer `e` decides on after `es`. */
  ghost function Verdict(es: seq<Event>, e: Event): Result
    requires Decides(es, e)
  {
    var w := if e.Settle? then Win(e.n, e.r) else LastSettle(es).value;
    Result(w.r, if SecondStarted(es) then 2 else 1, w.n)
  }

  lemma {:induction false} SecondStartedExtends(es: seq<Event>, e: Event)
    ensures SecondStarted(es + [e]) <==> SecondStarted(es) || e.HedgeTimer? || (e.Settle? && DeadlineAbort !in es)
  {
    var more := es + [e];
    assert forall k :: 0 <= k < |es| ==> more[k] == es[k] && more[..k] == es[..k];
    assert more[|es|] == e && more[..|es|] == es;
  }

  /** The counters of an undecided call, told from the run. */
  ghost predicate Tells(es: seq<Event>, c: Call) {
    && c.settled == Settles(es) && c.last == LastSettle(es)
    && c.deadlineAborted == (DeadlineAbort in es)
    && c.started == (if SecondStarted(es) then 2 else 1)
  }

  lemma {:induction false} DecisionStep(es: seq<Event>, e: Event)
    requires Legal(es + [e])
    requires Exec(es).done <==> Decision(es).Some?
    requires !Exec(es).done ==> Tells(es, Exec(es))
    requires Exec(es).done ==> Exec(es).resolved == [Decision(es).value]
    ensures var more := es + [e]; var d := Exec(more);
      && (d.done <==> Decision(more).Some?)
      && (!d.done ==> Tells(more, d))
      && (d.done ==> d.resolved == [Decision(more).value])
  {
    var more := es + [e];
    Extend(es, e);
    RunKeepsInv(es);
    DecisionExtends(es, e, more);
    if Exec(es).done { DoneStays(Exec(es), e); } else { DecidesOpen(es, e, more, Exec(es), Exec(more)); }
  }

  lemma {:induction false} DecisionExtends(es: seq<Event>, e: Event, more: seq<Event>)
    requires more == es + [e]
    ensures Decision(more) == if Decision(es).Some? || !Decides(es, e) then Decision(es) else Some(Verdict(es, e))
  {
    assert more[..|more| - 1] == es && more[|more| - 1] == e;
  }

  lemma {:induction false} CountersExtend(es: seq<Event>, e: Event, more: seq<Event>)
    requires more == es + [e]
    ensures Settles(more) == Settles(es) + if e.Settle? then 1 else 0
    ensures LastSettle(more) == if e.Settle? then Some(Win(e.n, e.r)) else LastSettle(es)
    ensures DeadlineAbort in more <==> DeadlineAbort in es || e == DeadlineAbort
  {
    assert more[..|more| - 1] == es && more[|more| - 1] == e;
  }

  /** An open call is decided by the next event exactly when that event decides. */
  lemma {:induction false} DecidesOpen(es: seq<Event>, e: Event, more: seq<Event>, c: Call, d: Call)
    requires Inv(c) && !c.done && Tells(es, c) && Enabled(c, e) && d == Step(c, e) && more == es + [e]
    ensures d.done <==> Decides(es, e)
    ensures if d.done then d.resolved == [Verdict(es, e)] else Tells(more, d)
  {
    CountersExtend(es, e, more);
    SecondStartedExtends(es, e);
  }

  /**
   The call is resolved exactly when the run holds a deciding event, and then with
   the answer of the first one.
   */
  lemma {:induction false} AnswerIsFirstDecision(es: seq<Event>)
    requires Legal(es)
    ensures Exec(es).done <==> Decision(es).Some?
    ensures !Exec(es).done ==> Tells(es, Exec(es))
    ensures Exec(es).done ==> Exec(es).resolved == [Decision(es).value]
  {
    if es != [] {
      var front, e := es[..|es| - 1], es[|es| - 1];
      assert es == front + [e];
      AnswerIsFirstDecision(front);
      DecisionStep(front, e);
    }
  }

  // ----- timers, attempts and controllers, told from the run alone -----

  ghost predicate Settled(es: seq<Event>, n: nat) {
    exists k :: 0 <= k < |es| && es[k].Settle? && es[k].n == n
  }

  lemma {:induction false} MembersExtend(es: seq<Event>, e: Event, more: seq<Event>, n: nat)
    requires more == es + [e]
    ensures forall x :: x in more <==> x in es || x == e
    ensures Settled(more, n) <==> Settled(es, n) || (e.Settle? && e.n == n)
  {
    if Settled(es, n) {
      var k :| 0 <= k < |es| && es[k].Settle? && es[k].n == n;
      assert more[k] == es[k];
    }
    assert more[|es|] == e;
  }

  /** What is still to fire and which attempts are still running. */
  ghost predicate TimersTell(es: seq<Event>, c: Call) {
    && (c.hedgeArmed <==> HedgeTimer !in es && !c.done)
    && (c.deadlineAborted <==> DeadlineAbort in es)
    && (c.graceArmed <==> DeadlineAbort in es && GraceTimer !in es)
    && (GraceTimer in es ==> DeadlineAbort in es)
    && c.settled == Settles(es)
  }

  ghost predicate AttemptsTell(es: seq<Event>, c: Call) {
    forall n: nat :: (n in c.pending <==> 1 <= n <= c.started && !Settled(es, n)) && (Settled(es, n) ==> 1 <= n <= c.started)
  }

  lemma {:induction false} TimersStep(es: seq<Event>, e: Event, more: seq<Event>, c: Call, d: Call)
    requires Inv(c) && TimersTell(es, c) && Enabled(c, e) && more == es + [e] && d == Step(c, e)
    ensures TimersTell(more, d)
  {
    CountersExtend(es, e, more);
    MembersExtend(es, e, more, 0);
  }

  lemma {:induction false} AttemptsStep(es: seq<Event>, e: Event, more: seq<Event>, c: Call, d: Call)
    requires Inv(c) && AttemptsTell(es, c) && Enabled(c, e) && more == es + [e] && d == Step(c, e)
    ensures AttemptsTell(more, d)
  {
    forall n: nat
      ensures (n in d.pending <==> 1 <= n <= d.started && !Settled(more, n)) && (Settled(more, n) ==> 1 <= n <= d.started)
    {
      MembersExtend(es, e, more, n);
      AttemptStep(c, e, d, n, Settled(es, n), Settled(more, n));
    }
  }

  lemma {:induction false} AttemptStep(c: Call, e: Event, d: Call, n: nat, was: bool, now: bool)
    requires Inv(c) && Enabled(c, e) && d == Step(c, e) && (now <==> was || (e.Settle? && e.n == n))
    requires (n in c.pending <==> 1 <= n <= c.started && !was) && (was ==> 1 <= n <= c.started)
    ensures (n in d.pending <==> 1 <= n <= d.started && !now) && (now ==> 1 <= n <= d.started)
  {
  }

  /** Every timer fires at most once, the hedge timer only while the call is open; an attempt runs until it settles. */
  lemma {:induction false} StateIsTold(es: seq<Event>)
    requires Legal(es)
    ensures TimersTell(es, Exec(es)) && AttemptsTell(es, Exec(es))
  {
    if es != [] {
      var front, e := es[..|es| - 1], es[|es| - 1];
      assert es == front + [e];
      StateIsTold(front);
      RunKeepsInv(front);
      TimersStep(front, e, es, Exec(front), Exec(es));
      AttemptsStep(front, e, es, Exec(front), Exec(es));
    }
  }

  /** The deadline fires when controller `i` is there. */
  ghost predicate DeadlineMeets(es: seq<Event>, i: nat) {
    exists k :: 0 <= k < |es| && es[k].DeadlineAbort? && i < |Exec(es[..k]).aborted|
  }

  lemma {:induction false} DeadlineMeetsExtends(es: seq<Event>, e: Event, more: seq<Event>, i: nat)
    requires more == es + [e]
    ensures DeadlineMeets(more, i) <==> DeadlineMeets(es, i) || (e.DeadlineAbort? && i < |Exec(es).aborted|)
  {
    forall k | 0 <= k < |es| ensures more[k] == es[k] && more[..k] == es[..k] {}
    assert more[|es|] == e && more[..|es|] == es;
    if DeadlineMeets(es, i) {
      var k :| 0 <= k < |es| && es[k].DeadlineAbort? && i < |Exec(es[..k]).aborted|;
      assert more[k].DeadlineAbort? && i < |Exec(more[..k]).aborted|;
    }
  }

  /** Controller `i` lost the call to another attempt. */
  ghost predicate LostTo(c: Call, i: nat) {
    c.done && |c.resolved| == 1 && c.resolved[0].winner != i + 1
  }

  lemma {:induction false} AbortedStep(c: Call, d: Call, e: Event, i: nat, met: bool)
    requires Inv(c) && Enabled(c, e) && d == Step(c, e) && i < |d.aborted|
    requires i < |c.aborted| ==> (c.aborted[i] <==> met || LostTo(c, i))
    requires i >= |c.aborted| ==> !met
    ensures d.aborted[i] <==> met || (e.DeadlineAbort? && i < |c.aborted|) || LostTo(d, i)
  {
  }

  lemma {:induction false} NotYetMet(es: seq<Event>, i: nat)
    requires Legal(es) && DeadlineMeets(es, i)
    ensures i < |Exec(es).aborted|
  {
    if es != [] {
      var front, e := es[..|es| - 1], es[|es| - 1];
      assert es == front + [e];
      DeadlineMeetsExtends(front, e, es, i);
      if DeadlineMeets(front, i) { NotYetMet(front, i); }
      ControllersStay(Exec(front), e);
    }
  }

  lemma {:induction false} ControllersStay(c: Call, e: Event)
    ensures |c.aborted| <= |Step(c, e).aborted|
  {
  }

  /**
   Which attempts are aborted: those whose controller was there when the deadline fired,
   and, once the call is resolved, those that did not win it. No other.
   */
  lemma {:induction false} AbortedIff(es: seq<Event>, i: nat)
    requires Legal(es) && i < |Exec(es).aborted|
    ensures Exec(es).aborted[i] <==> DeadlineMeets(es, i) || LostTo(Exec(es), i)
  {
    if es != [] {
      var front, e := es[..|es| - 1], es[|es| - 1];
      assert es == front + [e];
      RunKeepsInv(front);
      DeadlineMeetsExtends(front, e, es, i);
      if i < |Exec(front).aborted| {
        AbortedIff(front, i);
      } else if DeadlineMeets(front, i) {
        NotYetMet(front, i);
      }
      AbortedStep(Exec(front), Exec(es), e, i, DeadlineMeets(front, i));
    }
  }

  /** Hedge timer, then deadline: both attempts are aborted. */
  lemma {:induction false} DeadlineAbortsBoth(es: seq<Event>)
    requires es == [HedgeTimer, DeadlineAbort]
    ensures Legal(es) && Exec(es).aborted == [true, true]
  {
    var none: seq<Event> := [];
    assert es == none + [HedgeTimer] + [DeadlineAbort];
    Extend(none, HedgeTimer);
    Extend(none + [HedgeTimer], DeadlineAbort);
    assert Begin().aborted == [false] && Step(Begin(), HedgeTimer).aborted == [false, false];
  }

  // ----- who wins -----

  /** The answer is what attempt `winner` settled with, and every other attempt has been aborted. */
  lemma {:induction false} WinnerIsHonest(es: seq<Event>)
    requires Legal(es) && Exec(es).done
    ensures |Exec(es).resolved| == 1 && |Exec(es).aborted| == Exec(es).started
    ensures var c := Exec(es); var res := c.resolved[0];
      && 1 <= res.winner <= res.started == c.started
      && Settle(res.winner, res.r) in es
      && forall i :: 0 <= i < c.started && i + 1 != res.winner ==> c.aborted[i]
  {
    RunKeepsInv(es);
    AnswerIsFirstDecision(es);
    DecisionIsSettled(es);
  }

  lemma {:induction false} LastSettleIn(es: seq<Event>)
    ensures LastSettle(es).Some? ==> Settle(LastSettle(es).value.n, LastSettle(es).value.r) in es
  {
    if es != [] { LastSettleIn(es[..|es| - 1]); }
  }

  lemma {:induction false} DecisionIsSettled(es: seq<Event>)
    ensures Decision(es).Some? ==> Settle(Decision(es).value.winner, Decision(es).value.r) in es
  {
    if es != [] {
      var front := es[..|es| - 1];
      DecisionIsSettled(front);
      LastSettleIn(front);
      assert forall x :: x in front ==> x in es;
      assert es[|es| - 1] in es;
    }
  }

  /** A non-retryable answer that finds the call open wins it, whatever follows. */
  lemma {:induction false} FirstGoodAnswerWins(es: seq<Event>, n: nat, r: Resp, more: seq<Event>)
    requires Legal(es + [Settle(n, r)] + more) && r.status != 0 && r.status < 500 && !Exec(es).done
    ensures Exec(es + [Settle(n, r)] + more).resolved == [Result(r, Exec(es).started, n)]
  {
    LegalPrefix(es + [Settle(n, r)], more);
    Extend(es, Settle(n, r));
    RunKeepsInv(es);
    ResolvedIsFinal(es + [Settle(n, r)], more);
  }

  lemma {:induction false} LegalPrefix(es: seq<Event>, more: seq<Event>)
    requires Legal(es + more)
    ensures Legal(es)
  {
    if more == [] {
      assert es + more == es;
    } else {
      assert (es + more)[..|es + more| - 1] == es + more[..|more| - 1];
      LegalPrefix(es, more[..|more| - 1]);
    }
  }

  /** Every answer so far was retryable. */
  ghost predicate AllRetryable(es: seq<Event>) {
    forall k :: 0 <= k < |es| && es[k].Settle? ==> es[k].r.status == 0 || es[k].r.status >= 500
  }

  lemma {:induction false} OpenMeansAllRetryable(es: seq<Event>)
    requires Legal(es) && !Exec(es).done
    ensures AllRetryable(es)
  {
    if es != [] {
      var front, e := es[..|es| - 1], es[|es| - 1];
      assert es == front + [e];
      if Exec(front).done { ResolvedIsFinal(front, [e]); }
      OpenMeansAllRetryable(front);
      assert forall k :: 0 <= k < |front| ==> es[k] == front[k];
    }
  }

  /**
   A retryable answer is given only by the grace timer after the deadline, or when
   every started attempt has settled; and before the deadline only when both
   attempts have failed retryably.
   */
  lemma {:induction false} RetryableIsLastResort(es: seq<Event>, e: Event)
    requires Legal(es + [e]) && !Exec(es).done && Exec(es + [e]).done
    requires var r := Exec(es + [e]).resolved[0].r; r.status == 0 || r.status >= 500
    ensures var d := Exec(es + [e]);
      && (e.GraceTimer? || d.pending == {})
      && (e.GraceTimer? ==> d.deadlineAborted)
      && (!d.deadlineAborted ==> d.started == 2 && Settles(es + [e]) == 2 && AllRetryable(es + [e]))
  {
    LegalPrefix(es, [e]);
    Extend(es, e);
    RunKeepsInv(es);
    RunKeepsInv(es + [e]);
    AnswerIsFirstDecision(es);
    OpenMeansAllRetryable(es);
    assert (es + [e])[..|es|] == es;
  }

  // ----- the deadline -----

  /** Timers fire in the order they fall due; on a tie the deadline, which is set first, goes first. */
  ghost predicate InTimerOrder(o: Opts, es: seq<Event>) {
    forall k :: 0 <= k < |es| ==>
      var c := Exec(es[..k]);
      && (es[k].DeadlineAbort? && o.hedgeAfterMs < o.timeoutMs ==> !c.hedgeArmed)
      && (es[k].HedgeTimer? && o.timeoutMs <= o.hedgeAfterMs ==> c.deadlineAborted)
  }

  /** Some attempt of the run is started when the deadline has already passed. */
  ghost predicate StartsLate(es: seq<Event>) {
    exists k :: 0 <= k < |es| && Exec(es[..k]).deadlineAborted && Exec(es[..k]).started < Step(Exec(es[..k]), es[k]).started
  }

  lemma {:induction false} HedgeGoneByDeadline(o: Opts, es: seq<Event>)
    requires Legal(es) && InTimerOrder(o, es) && o.hedgeAfterMs < o.timeoutMs
    ensures Exec(es).deadlineAborted ==> !Exec(es).hedgeArmed
  {
    if es != [] {
      var front, e := es[..|es| - 1], es[|es| - 1];
      InTimerOrderUpTo(o, es, |es| - 1);
      HedgeGoneByDeadline(o, front);
      HedgeGoneStep(Exec(front), e);
    }
  }

  lemma {:induction false} HedgeGoneStep(c: Call, e: Event)
    requires c.deadlineAborted ==> !c.hedgeArmed
    requires e.DeadlineAbort? ==> !c.hedgeArmed
    ensures Step(c, e).deadlineAborted ==> !Step(c, e).hedgeArmed
  {
  }

  lemma {:induction false} InTimerOrderUpTo(o: Opts, es: seq<Event>, n: nat)
    requires InTimerOrder(o, es) && n <= |es|
    ensures InTimerOrder(o, es[..n])
    ensures n < |es| && es[n].DeadlineAbort? && o.hedgeAfterMs < o.timeoutMs ==> !Exec(es[..n]).hedgeArmed
  {
    assert forall k :: 0 <= k < n ==> es[..n][k] == es[k] && es[..n][..k] == es[..k];
  }

  lemma {:induction false} LegalUpTo(es: seq<Event>, k: nat)
    requires Legal(es) && k < |es|
    ensures Legal(es[..k]) && Enabled(Exec(es[..k]), es[k])
  {
    assert es == es[..k + 1] + es[k + 1..];
    LegalPrefix(es[..k + 1], es[k + 1..]);
    assert es[..k + 1] == es[..k] + [es[k]];
    Extend(es[..k], es[k]);
  }

  /**
   The deadline is documented to cover all attempts. The hedge timer does not look
   at it, so an attempt can be started after it, and nothing aborts that attempt.
   This can happen exactly when the hedge timer is not due before the deadline.
   */
  lemma {:induction false} LateStartIff(o: Opts)
    ensures (exists es :: Legal(es) && InTimerOrder(o, es) && StartsLate(es)) <==> o.timeoutMs <= o.hedgeAfterMs
  {
    if o.timeoutMs <= o.hedgeAfterMs {
      var es := [DeadlineAbort, HedgeTimer];
      LateStartRun();
      assert es[..0] == [] && es[..1] == [DeadlineAbort];
      assert InTimerOrder(o, es);
    } else {
      forall es | Legal(es) && InTimerOrder(o, es) ensures !StartsLate(es) {
        forall k | 0 <= k < |es| && Exec(es[..k]).deadlineAborted
          ensures Exec(es[..k]).started == Step(Exec(es[..k]), es[k]).started
        {
          LegalUpTo(es, k);
          InTimerOrderUpTo(o, es, k);
          HedgeGoneByDeadline(o, es[..k]);
        }
      }
    }
  }

  lemma {:induction false} LateStartRun()
    ensures var es := [DeadlineAbort, HedgeTimer];
      && Legal(es) && StartsLate(es)
      && Exec(es).deadlineAborted && Exec(es).pending == {1, 2} && Exec(es).aborted == [true, false]
  {
    var es := [DeadlineAbort, HedgeTimer];
    assert es[..1] == [DeadlineAbort] && [DeadlineAbort][..0] == [];
    assert Begin().started == 1 && Begin().aborted == [false] && Begin().pending == {1};
    assert Exec([DeadlineAbort]) == Step(Begin(), DeadlineAbort);
    assert Exec(es[..1]).started < Step(Exec(es[..1]), es[1]).started;
  }

  lemma {:induction false} SettlesMeansLast(es: seq<Event>)
    ensures LastSettle(es).Some? <==> Settles(es) > 0
  {
    if es != [] { SettlesMeansLast(es[..|es| - 1]); }
  }

  /** When the grace timer has fired, the call is still open exactly when no attempt had settled. */
  lemma {:induction false} GraceEndsCallIff(es: seq<Event>)
    requires Legal(es + [GraceTimer])
    ensures Exec(es + [GraceTimer]).done <==> Exec(es).done || Settles(es) > 0
  {
    LegalPrefix(es, [GraceTimer]);
    Extend(es, GraceTimer);
    RunKeepsInv(es);
    AnswerIsFirstDecision(es);
    SettlesMeansLast(es);
  }

  ghost predicate NoSettle(es: seq<Event>) {
    forall k :: 0 <= k < |es| ==> !es[k].Settle?
  }

  /** Without an answer, nothing but the grace timer could end the call, and it fires once. */
  lemma {:induction false} GraceIsSpent(c: Call, e: Event)
    requires c.deadlineAborted && !c.graceArmed && Enabled(c, e) && !e.Settle?
    ensures Step(c, e).done == c.done && Step(c, e).deadlineAborted && !Step(c, e).graceArmed
  {
  }

  /**
   The deadline is documented to bound the whole call. It aborts the attempts, but
   what ends the call is an answer: a call that is open when the grace timer has
   fired stays open through every continuation in which no attempt settles.
   */
  lemma {:induction false} OnlyAnswersEndCall(es: seq<Event>, more: seq<Event>)
    requires Legal(es + [GraceTimer] + more) && !Exec(es + [GraceTimer]).done && NoSettle(more)
    ensures var c := Exec(es + [GraceTimer] + more); !c.done && c.deadlineAborted && !c.graceArmed
  {
    var start := es + [GraceTimer];
    if more == [] {
      assert start + more == start;
      LegalPrefix(es, [GraceTimer]);
      Extend(es, GraceTimer);
      RunKeepsInv(es);
    } else {
      var front, e := more[..|more| - 1], more[|more| - 1];
      assert start + more == start + front + [e];
      Extend(start + front, e);
      OnlyAnswersEndCall(es, front);
      GraceIsSpent(Exec(start + front), e);
    }
  }

  /** The call at its least bounded: past deadline and grace, open, the hedge timer still to come. */
  lemma {:induction false} OpenPastDeadlineRun()
    ensures var es := [DeadlineAbort, GraceTimer];
      && Legal(es)
      && !Exec(es).done && Exec(es).deadlineAborted && !Exec(es).graceArmed
      && Exec(es).hedgeArmed && Exec(es).pending == {1}
  {
    var es := [DeadlineAbort, GraceTimer];
    assert es[..1] == [DeadlineAbort] && [DeadlineAbort][..0] == [];
    assert Begin().pending == {1} && Begin().last.None?;
    assert Exec([DeadlineAbort]) == Step(Begin(), DeadlineAbort);
  }
}

/**
 The drain guard of harness/src/settle.ts and the module loop of harness/src/run.ts
 that uses it. `arm` hands out a promise, here a token; a drain of the event loop
 takes the armed token and resolves it later through a timer. Modules run one after
 another, and everything else may happen in any order. The callbacks that a promise
 triggers run before the next timer or drain, so a race and its clean-up are one step.
 */
module Settle {
  import opened Wrappers

  datatype Outcome = Settled(value: int) | Threw | Drained | TimedOut(ms: int)

  /** The module being awaited: its arm token and its declared timeout. */
  datatype Pending = Pending(token: nat, timeoutMs: int)

  /**
   `wake` is the armed token; `timers` the tokens whose wake is on its way;
   `begun` counts modules; `reported` pairs each outcome with its module's token
   (none for a module that threw before arming); `taken` lists the drains that found
   a token armed, and `idle` counts those that found none.
   */
  datatype Runner = Runner(
    wake: Option<nat>, timers: set<nat>, nextToken: nat, current: Option<Pending>,
    begun: nat, reported: seq<(Option<nat>, Outcome)>, taken: seq<nat>, idle: nat)

  datatype Event =
    | Begin(throwsAtOnce: bool, timeoutMs: int)
    | WorkSettles(value: int) | WorkThrows | Timeout
    | Drain
    | WakeFires(token: nat)

  const Fresh := Runner(None, {}, 0, None, 0, [], [], 0)

  /** The event finds what it acts on. */
  predicate Applies(r: Runner, e: Event) {
    match e
    case Begin(_, _) => r.current.None?
    case WorkSettles(_) => r.current.Some?
    case WorkThrows => r.current.Some?
    case Timeout => r.current.Some? && r.current.value.timeoutMs > 0
    case Drain => true
    case WakeFires(t) => t in r.timers
  }

  /** The event can happen now: a wake on its way keeps the loop alive, so only a loop without one drains. */
  predicate Enabled(r: Runner, e: Event) {
    Applies(r, e) && (e.Drain? ==> r.timers == {})
  }

  /** The race is decided: report, clear the timeout, disarm. */
  function Finish(r: Runner, o: Outcome): Runner
    requires r.current.Some?
  {
    r.(current := None, wake := None, reported := r.reported + [(Some(r.current.value.token), o)])
  }

  function Step(r: Runner, e: Event): Runner
    requires Applies(r, e)
  {
    match e
    case Begin(throws, ms) =>
      if throws then r.(begun := r.begun + 1, reported := r.reported + [(None, Threw)])
      else r.(begun := r.begun + 1, wake := Some(r.nextToken), nextToken := r.nextToken + 1,
                current := Some(Pending(r.nextToken, ms)))
    case WorkSettles(v) => Finish(r, Settled(v))
    case WorkThrows => Finish(r, Threw)
    case Timeout => Finish(r, TimedOut(r.current.value.timeoutMs))
    case Drain =>
      if r.wake.Some? then r.(wake := None, timers := r.timers + {r.wake.value}, taken := r.taken + [r.wake.value])
      else r.(idle := r.idle + 1)
    case WakeFires(t) =>
      var q := r.(timers := r.timers - {t});
      if q.current.Some? && q.current.value.token == t then Finish(q, Drained) else q
  }

  ghost predicate IsRun(rs: seq<Runner>, es: seq<Event>) {
    && |rs| == |es| + 1 && rs[0] == Fresh
    && forall k :: 0 <= k < |es| ==> Enabled(rs[k], es[k]) && rs[k + 1] == Step(rs[k], es[k])
  }

  /** The `wake` slot and the runner's loop, as they are updated. */
  class Harness {
    var wake: Option<nat>
    var timers: set<nat>
    var nextToken: nat
    var current: Option<Pending>
    var begun: nat
    var reported: seq<(Option<nat>, Outcome)>
    var taken: seq<nat>
    var idle: nat

    ghost function View(): Runner
      reads this
    {
      Runner(wake, timers, nextToken, current, begun, reported, taken, idle)
    }

    constructor ()
      ensures View() == Fresh
    {
      wake, timers, nextToken, current, begun, reported, taken, idle := None, {}, 0, None, 0, [], [], 0;
    }

    method Arm() returns (token: nat)
      modifies this`wake, this`nextToken
      ensures token == old(nextToken) && nextToken == token + 1 && wake == Some(token)
    {
      token := nextToken;
      nextToken := nextToken + 1;
      wake := Some(token);
    }

    method OnDrain()
      requires Enabled(View(), Drain)
      modifies this
      ensures View() == Step(old(View()), Drain)
    {
      var w := wake;
      wake := None;
      if w.Some? {
        timers := timers + {w.value};
        taken := taken + [w.value];
      } else {
        idle := idle + 1;
      }
    }

    method BeginModule(throwsAtOnce: bool, timeoutMs: int)
      requires Enabled(View(), Begin(throwsAtOnce, timeoutMs))
      modifies this
      ensures View() == Step(old(View()), Begin(throwsAtOnce, timeoutMs))
    {
      begun := begun + 1;
      if throwsAtOnce {
        reported := reported + [(None, Threw)];
        return;
      }
      var token := Arm();
      current := Some(Pending(token, timeoutMs));
    }

    method EndModule(o: Outcome)
      requires current.Some?
      modifies this
      ensures View() == Finish(old(View()), o)
    {
      reported := reported + [(Some(current.value.token), o)];
      current := None;
      wake := None;
    }

    method OnWake(token: nat)
      requires Enabled(View(), WakeFires(token))
      modifies this
      ensures View() == Step(old(View()), WakeFires(token))
    {
      timers := timers - {token};
      if current.Some? && current.value.token == token { EndModule(Drained); }
    }
  }

  // ----- what every step keeps -----

  ghost predicate Inv(r: Runner) {
    && (r.current.None? ==> r.wake.None?)
    && (r.wake.Some? ==> r.current.Some? && r.wake.value == r.current.value.token)
    && (r.current.Some? ==> r.current.value.token + 1 == r.nextToken)
    && (r.current.Some? && r.wake.None? ==> r.current.value.token in r.timers)
    && (forall t :: t in r.timers ==> t < r.nextToken && t in r.taken)
    && (r.wake.Some? ==> r.wake.value !in r.taken)
    && |r.reported| + (if r.current.Some? then 1 else 0) == r.begun
    && (forall i :: 0 <= i < |r.reported| && r.reported[i].0.Some? ==>
          && r.reported[i].0.value < r.nextToken
          && (r.current.Some? ==> r.reported[i].0.value != r.current.value.token)
          && (r.reported[i].1.Drained? ==> r.reported[i].0.value in r.taken))
    && (forall i :: 0 <= i < |r.reported| && r.reported[i].0.None? ==> r.reported[i].1.Threw?)
    && (forall i, j :: 0 <= i < j < |r.reported| && r.reported[i].0.Some? && r.reported[j].0.Some? ==>
          r.reported[i].0.value != r.reported[j].0.value)
    && (forall i :: 0 <= i < |r.taken| ==> r.taken[i] < r.nextToken)
  }

  lemma {:induction false} FinishKeepsInv(r: Runner, o: Outcome)
    requires Inv(r) && r.current.Some? && (o.Drained? ==> r.current.value.token in r.taken)
    ensures Inv(Finish(r, o))
  {
  }

  lemma {:induction false} StepKeepsInv(r: Runner, e: Event)
    requires Inv(r) && Enabled(r, e)
    ensures Inv(Step(r, e))
  {
    match e
    case Begin(_, _) =>
    case WorkSettles(v) => FinishKeepsInv(r, Settled(v));
    case WorkThrows => FinishKeepsInv(r, Threw);
    case Timeout => FinishKeepsInv(r, TimedOut(r.current.value.timeoutMs));
    case Drain =>
    case WakeFires(t) =>
      if r.current.Some? && r.current.value.token == t {
        var q := Finish(r, Drained);
        FinishKeepsInv(r, Drained);
        assert Step(r, e) == q.(timers := q.timers - {t});
      }
  }

  lemma {:induction false} RunKeepsInv(rs: seq<Runner>, es: seq<Event>, k: nat)
    requires IsRun(rs, es) && k < |rs|
    ensures Inv(rs[k])
  {
    if k > 0 {
      RunKeepsInv(rs, es, k - 1);
      assert Enabled(rs[k - 1], es[k - 1]) && rs[(k - 1) + 1] == Step(rs[k - 1], es[k - 1]);
      StepKeepsInv(rs[k - 1], es[k - 1]);
    }
  }

  // ----- what a run reports -----

  /**
   Over any run: one outcome per finished module, each under its own token; the watch
   is disarmed between modules; and `drained` is reported only of a module whose own
   token a drain took.
   */
  lemma {:induction false} OneOutcomeEach(rs: seq<Runner>, es: seq<Event>)
    requires IsRun(rs, es)
    ensures var r := rs[|es|];
      && |r.reported| == r.begun - (if r.current.Some? then 1 else 0)
      && (r.current.None? ==> r.wake.None?)
      && (forall i, j :: 0 <= i < j < |r.reported| && r.reported[i].0.Some? && r.reported[j].0.Some? ==>
            r.reported[i].0.value != r.reported[j].0.value)
      && (forall i :: 0 <= i < |r.reported| && r.reported[i].1.Drained? ==>
            r.reported[i].0.Some? && r.reported[i].0.value in r.taken)
  {
    RunKeepsInv(rs, es, |es|);
  }

  /** What event `e` reports in state `r`, if it ends a module. */
  ghost predicate Ends(r: Runner, e: Event, entry: (Option<nat>, Outcome)) {
    match e
    case Begin(throws, _) => throws && entry == (None, Threw)
    case WorkSettles(v) => r.current.Some? && entry == (Some(r.current.value.token), Settled(v))
    case WorkThrows => r.current.Some? && entry == (Some(r.current.value.token), Threw)
    case Timeout => r.current.Some? && r.current.value.timeoutMs > 0 && entry == (Some(r.current.value.token), TimedOut(r.current.value.timeoutMs))
    case Drain => false
    case WakeFires(t) => r.current.Some? && t == r.current.value.token && entry == (Some(t), Drained)
  }

  /** Entry `i` of the report was made by step `k`. */
  ghost predicate ReportedAt(rs: seq<Runner>, es: seq<Event>, k: nat, i: nat, entry: (Option<nat>, Outcome)) {
    k < |es| && k < |rs| && |rs[k].reported| == i && Ends(rs[k], es[k], entry)
  }

  ghost predicate IsAccounted(rs: seq<Runner>, es: seq<Event>, n: nat, i: nat)
    requires n < |rs| && i < |rs[n].reported|
  {
    exists k: nat :: k < n && ReportedAt(rs, es, k, i, rs[n].reported[i])
  }

  /** Every outcome reported is that of the event that ended its module, and every such event is reported. */
  lemma {:induction false} OutcomesAreEvents(rs: seq<Runner>, es: seq<Event>, n: nat)
    requires IsRun(rs, es) && n < |rs|
    ensures forall i: nat :: i < |rs[n].reported| ==> IsAccounted(rs, es, n, i)
    ensures forall k, entry :: 0 <= k < n && Ends(rs[k], es[k], entry) ==>
      |rs[k].reported| < |rs[n].reported| && rs[n].reported[|rs[k].reported|] == entry
    ensures forall k :: 0 <= k < n ==> |rs[k].reported| <= |rs[n].reported|
  {
    if n > 0 {
      OutcomesAreEvents(rs, es, n - 1);
      var r, e := rs[n - 1], es[n - 1];
      assert Enabled(r, e) && rs[(n - 1) + 1] == Step(r, e);
      StepReports(r, e);
      forall i: nat | i < |rs[n].reported| ensures IsAccounted(rs, es, n, i) {
        if i < |r.reported| {
          assert IsAccounted(rs, es, n - 1, i);
          var k: nat :| k < n - 1 && ReportedAt(rs, es, k, i, r.reported[i]);
          assert ReportedAt(rs, es, k, i, rs[n].reported[i]);
        } else {
          assert ReportedAt(rs, es, n - 1, i, rs[n].reported[i]);
        }
      }
    }
  }

  lemma {:induction false} StepReports(r: Runner, e: Event)
    requires Enabled(r, e)
    ensures r.reported <= Step(r, e).reported
    ensures forall entry :: Ends(r, e, entry) ==> Step(r, e).reported == r.reported + [entry]
    ensures |Step(r, e).reported| <= |r.reported| + 1
    ensures |Step(r, e).reported| > |r.reported| ==> Ends(r, e, Step(r, e).reported[|r.reported|])
  {
  }

  /** The module awaited is the last one begun, under the token and the timeout it was begun with. */
  lemma {:induction false} AwaitedWasBegun(rs: seq<Runner>, es: seq<Event>, n: nat) returns (k: nat)
    requires IsRun(rs, es) && n < |rs| && rs[n].current.Some?
    ensures k < n && es[k] == Begin(false, rs[n].current.value.timeoutMs) && rs[k].nextToken == rs[n].current.value.token
    ensures forall q :: k < q < n ==> !es[q].Begin?
  {
    k := n - 1;
    assert Enabled(rs[n - 1], es[n - 1]) && rs[(n - 1) + 1] == Step(rs[n - 1], es[n - 1]);
    if !es[n - 1].Begin? { k := AwaitedWasBegun(rs, es, n - 1); }
  }

  function Drains(es: seq<Event>): nat {
    if es == [] then 0 else Drains(es[..|es| - 1]) + if es[|es| - 1].Drain? then 1 else 0
  }

  /** Every drain either takes a token or is counted as idle. */
  lemma {:induction false} DrainsAreCounted(rs: seq<Runner>, es: seq<Event>, n: nat)
    requires IsRun(rs, es) && n < |rs|
    ensures |rs[n].taken| + rs[n].idle == Drains(es[..n])
  {
    if n > 0 {
      DrainsAreCounted(rs, es, n - 1);
      assert Enabled(rs[n - 1], es[n - 1]) && rs[(n - 1) + 1] == Step(rs[n - 1], es[n - 1]);
      assert es[..n][..n - 1] == es[..n - 1];
    }
  }

  /** Step `k` is a drain that finds the module with token `t` awaited and its arm in force. */
  ghost predicate DrainsModule(rs: seq<Runner>, es: seq<Event>, k: nat, t: nat) {
    && k < |es| && k < |rs| && es[k].Drain?
    && rs[k].wake == Some(t) && rs[k].current.Some? && rs[k].current.value.token == t
  }

  lemma {:induction false} TakenByDrain(rs: seq<Runner>, es: seq<Event>, n: nat, t: nat) returns (k: nat)
    requires IsRun(rs, es) && n < |rs| && t in rs[n].taken
    ensures k < n && DrainsModule(rs, es, k, t)
  {
    var m := n - 1;
    assert Enabled(rs[m], es[m]) && rs[m + 1] == Step(rs[m], es[m]);
    if t in rs[m].taken {
      k := TakenByDrain(rs, es, m, t);
    } else {
      RunKeepsInv(rs, es, m);
      k := m;
    }
  }

  /** A module is reported as drained only if the loop drained while its own arm was in force. */
  lemma {:induction false} DrainedMeansDrained(rs: seq<Runner>, es: seq<Event>, i: nat)
    requires IsRun(rs, es) && i < |rs[|es|].reported| && rs[|es|].reported[i].1.Drained?
    ensures rs[|es|].reported[i].0.Some?
    ensures exists k: nat :: DrainsModule(rs, es, k, rs[|es|].reported[i].0.value)
  {
    OneOutcomeEach(rs, es);
    var k := TakenByDrain(rs, es, |es|, rs[|es|].reported[i].0.value);
  }

  /**
   A module is never lost to a drain: while one is awaited, either its wake is on its
   way and will report it as drained, or the next drain will send that wake.
   */
  lemma {:induction false} DrainAlwaysReports(rs: seq<Runner>, es: seq<Event>)
    requires IsRun(rs, es) && rs[|es|].current.Some?
    ensures var r := rs[|es|]; var t := r.current.value.token;
      && (t in r.timers || r.wake == Some(t))
      && (t in r.timers ==> Step(r, WakeFires(t)).reported == r.reported + [(Some(t), Drained)])
      && (r.wake == Some(t) && Enabled(r, Drain) ==>
            && Enabled(Step(r, Drain), WakeFires(t))
            && Step(Step(r, Drain), WakeFires(t)).reported == r.reported + [(Some(t), Drained)])
  {
    RunKeepsInv(rs, es, |es|);
  }

  // ----- wakes that come too late -----

  /** A wake whose module is no longer the one awaited. */
  predicate IsLate(r: Runner, e: Event) {
    e.WakeFires? && !(r.current.Some? && r.current.value.token == e.token)
  }

  predicate Applicable(r: Runner, es: seq<Event>)
    decreases es
  {
    es == [] || (Applies(r, es[0]) && Applicable(Step(r, es[0]), es[1..]))
  }

  function Final(r: Runner, es: seq<Event>): Runner
    requires Applicable(r, es)
    decreases es
  {
    if es == [] then r else Final(Step(r, es[0]), es[1..])
  }

  /** The events without the late wakes. */
  function Prune(r: Runner, es: seq<Event>): seq<Event>
    requires Applicable(r, es)
    decreases es
  {
    if es == [] then [] else (if IsLate(r, es[0]) then [] else [es[0]]) + Prune(Step(r, es[0]), es[1..])
  }

  /** The two differ at most in wakes still on their way. */
  ghost predicate SameBut(q: Runner, r: Runner) {
    q == r.(timers := q.timers) && r.timers <= q.timers
  }

  lemma {:induction false} SameStep(q: Runner, r: Runner, e: Event)
    requires SameBut(q, r) && Applies(r, e)
    ensures IsLate(r, e) ==> SameBut(q, Step(r, e))
    ensures !IsLate(r, e) ==> Applies(q, e) && SameBut(Step(q, e), Step(r, e))
  {
  }

  lemma {:induction false} PruneKeeps(q: Runner, r: Runner, es: seq<Event>)
    requires SameBut(q, r) && Applicable(r, es)
    ensures Applicable(q, Prune(r, es)) && SameBut(Final(q, Prune(r, es)), Final(r, es))
    decreases es
  {
    if es != [] {
      var e, r', rest := es[0], Step(r, es[0]), es[1..];
      SameStep(q, r, e);
      if IsLate(r, e) {
        PruneKeeps(q, r', rest);
        assert Prune(r, es) == Prune(r', rest);
      } else {
        PruneKeeps(Step(q, e), r', rest);
        assert Prune(r, es)[0] == e && Prune(r, es)[1..] == Prune(r', rest);
      }
    }
  }

  lemma {:induction false} RunIsFinal(rs: seq<Runner>, es: seq<Event>, k: nat)
    requires IsRun(rs, es) && k <= |es|
    ensures Applicable(rs[k], es[k..]) && Final(rs[k], es[k..]) == rs[|es|]
    decreases |es| - k
  {
    if k < |es| {
      assert Enabled(rs[k], es[k]) && rs[k + 1] == Step(rs[k], es[k]);
      RunIsFinal(rs, es, k + 1);
      assert es[k..][0] == es[k] && es[k..][1..] == es[k + 1..];
    }
  }

  /**
   Late wakes do not interfere: take them out of any run, and the outcomes reported, the
   module awaited, its arm and the drains taken are all the same.
   */
  lemma {:induction false} LateWakesDoNotInterfere(rs: seq<Runner>, es: seq<Event>)
    requires IsRun(rs, es)
    ensures Applicable(Fresh, es) && Applicable(Fresh, Prune(Fresh, es))
    ensures var q, r := Final(Fresh, Prune(Fresh, es)), rs[|es|];
      q.reported == r.reported && q.current == r.current && q.wake == r.wake && q.taken == r.taken && q.idle == r.idle
  {
    RunIsFinal(rs, es, 0);
    assert es[0..] == es;
    PruneKeeps(Fresh, Fresh, es);
  }

  /** What is left holds no late wake. */
  lemma {:induction false} PruneLeavesNone(q: Runner, r: Runner, es: seq<Event>, k: nat)
    requires SameBut(q, r) && Applicable(r, es) && k < |Prune(r, es)|
    ensures Applicable(q, Prune(r, es)) && Applicable(q, Prune(r, es)[..k])
    ensures !IsLate(Final(q, Prune(r, es)[..k]), Prune(r, es)[k])
    decreases es
  {
    PruneKeeps(q, r, es);
    var e, r', rest, kept := es[0], Step(r, es[0]), es[1..], Prune(r, es);
    SameStep(q, r, e);
    if IsLate(r, e) {
      PruneLeavesNone(q, r', rest, k);
      assert kept == Prune(r', rest);
    } else if k > 0 {
      PruneLeavesNone(Step(q, e), r', rest, k - 1);
      assert kept[1..] == Prune(r', rest) && kept[..k][0] == e && kept[..k][1..] == Prune(r', rest)[..k - 1];
    }
  }
}

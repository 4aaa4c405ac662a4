/**
 The two load generators of experiments/edge-burst/lib/load.ts. `fire` is an oracle
 that always answers in the end; a request's promise settling and the generator's
 own wake-ups interleave freely. Times are milliseconds since the step started.
 */
module OpenLoop {

  datatype Shot = Shot(id: nat, at: real)

  /**
   `i` requests have been decided: `skipped` were refused by the cap, `pending` have
   been sent and not yet removed, `shots` have answered, and `answered` have their
   shot but are still pending. `fired` is the send log, for the statements below.
   */
  datatype Gen = Gen(
    i: nat, skipped: nat, pending: set<nat>, answered: set<nat>, shots: seq<nat>, maxSeen: nat, fired: seq<Shot>, now: real)

  datatype Plan = Plan(rate: real, total: nat, cap: nat)

  const Idle := Gen(0, 0, {}, {}, [], 0, [], 0.0)

  function Due(p: Plan, elapsed: real): int {
    var due := (elapsed * p.rate / 1000.0).Floor + 1;
    if due < p.total then due else p.total
  }

  /** Decide request `i`. */
  function FireOne(g: Gen, cap: nat): Gen {
    if |g.pending| >= cap then g.(i := g.i + 1, skipped := g.skipped + 1)
    else
      var pending := g.pending + {g.i};
      g.(i := g.i + 1, pending := pending, fired := g.fired + [Shot(g.i, g.now)],
         maxSeen := if |pending| > g.maxSeen then |pending| else g.maxSeen)
  }

  function FireUntil(g: Gen, cap: nat, due: int): Gen
    decreases due - g.i
  {
    if g.i < due then FireUntil(FireOne(g, cap), cap, due) else g
  }

  /** The loop wakes; a request's shot is pushed; its promise leaves the pending set. */
  datatype Event = Tick(at: real) | Answer(id: nat) | Remove(id: nat)

  predicate Enabled(p: Plan, g: Gen, e: Event) {
    match e
    case Tick(at) => g.i < p.total && at >= g.now
    case Answer(id) => id in g.pending && id !in g.answered
    case Remove(id) => id in g.answered
  }

  function Step(p: Plan, g: Gen, e: Event): Gen {
    match e
    case Tick(at) => FireUntil(g.(now := at), p.cap, Due(p, at))
    case Answer(id) => g.(answered := g.answered + {id}, shots := g.shots + [id])
    case Remove(id) => g.(answered := g.answered - {id}, pending := g.pending - {id})
  }

  ghost predicate IsRun(p: Plan, gs: seq<Gen>, es: seq<Event>) {
    && |gs| == |es| + 1 && gs[0] == Idle
    && forall k :: 0 <= k < |es| ==> Enabled(p, gs[k], es[k]) && gs[k + 1] == Step(p, gs[k], es[k])
  }

  /** The generator as it runs: the loop body between two sleeps, and a request's completion. */
  class Generator {
    var i: nat
    var skipped: nat
    var pending: set<nat>
    var answered: set<nat>
    var shots: seq<nat>
    var maxSeen: nat
    var fired: seq<Shot>
    var now: real

    ghost function View(): Gen
      reads this
    {
      Gen(i, skipped, pending, answered, shots, maxSeen, fired, now)
    }

    constructor ()
      ensures View() == Idle
    {
      i, skipped, pending, answered, shots, maxSeen, fired, now := 0, 0, {}, {}, [], 0, [], 0.0;
    }

    method OnTick(p: Plan, at: real)
      requires Enabled(p, View(), Tick(at))
      modifies this
      ensures View() == Step(p, old(View()), Tick(at))
    {
      now := at;
      var due := Due(p, at);
      ghost var goal := FireUntil(View(), p.cap, due);
      while i < due
        invariant FireUntil(View(), p.cap, due) == goal
        decreases due - i
      {
        DecideNext(p.cap);
      }
    }

    method DecideNext(cap: nat)
      modifies this
      ensures View() == FireOne(old(View()), cap)
    {
      var id := i;
      i := i + 1;
      if |pending| >= cap {
        skipped := skipped + 1;
      } else {
        pending := pending + {id};
        fired := fired + [Shot(id, now)];
        if |pending| > maxSeen { maxSeen := |pending|; }
      }
    }

    method OnAnswer(p: Plan, id: nat)
      requires Enabled(p, View(), Answer(id))
      modifies this
      ensures View() == Step(p, old(View()), Answer(id))
    {
      shots := shots + [id];
      answered := answered + {id};
    }

    method OnRemove(p: Plan, id: nat)
      requires Enabled(p, View(), Remove(id))
      modifies this
      ensures View() == Step(p, old(View()), Remove(id))
    {
      answered := answered - {id};
      pending := pending - {id};
    }
  }

  // ----- what every step keeps -----

  /** Request `id` may leave at `at`: not before `id * 1000 / rate`. */
  predicate OnTime(p: Plan, id: nat, at: real) { id as real * 1000.0 <= at * p.rate }

  ghost predicate Inv(p: Plan, g: Gen) {
    && g.i <= p.total && g.now >= 0.0
    && g.answered <= g.pending
    && g.i + |g.answered| == g.skipped + |g.pending| + |g.shots|
    && |g.pending| <= g.maxSeen <= p.cap
    && |g.fired| + |g.answered| == |g.pending| + |g.shots|
    && (forall id :: id in g.pending ==> id < g.i && (id in g.answered <==> id in g.shots))
    && (forall a :: 0 <= a < |g.shots| ==> g.shots[a] < g.i)
    && (forall a, b :: 0 <= a < b < |g.shots| ==> g.shots[a] != g.shots[b])
    && (forall k :: 0 <= k < |g.fired| ==>
          g.fired[k].id < g.i && g.fired[k].at <= g.now && OnTime(p, g.fired[k].id, g.fired[k].at))
    && (forall j, k :: 0 <= j < k < |g.fired| ==> g.fired[j].id < g.fired[k].id && g.fired[j].at <= g.fired[k].at)
  }

  lemma {:induction false} DueIsOnTime(p: Plan, id: nat, at: real)
    requires p.rate > 0.0 && at >= 0.0 && id < Due(p, at)
    ensures OnTime(p, id, at)
  {
    var x := at * p.rate / 1000.0;
    assert id <= x.Floor;
    assert id as real <= x.Floor as real <= x;
    assert x * 1000.0 == at * p.rate;
  }

  /** Whatever may leave by `at` is due. */
  lemma {:induction false} OnTimeIsDue(p: Plan, id: nat, at: real)
    requires p.rate > 0.0 && id < p.total && OnTime(p, id, at)
    ensures id < Due(p, at)
  {
    var x := at * p.rate / 1000.0;
    assert x * 1000.0 == at * p.rate;
    assert id as real <= x;
  }

  lemma {:induction false} FireOneKeepsInv(p: Plan, g: Gen)
    requires Inv(p, g) && g.i < p.total && OnTime(p, g.i, g.now)
    ensures Inv(p, FireOne(g, p.cap))
  {
    if |g.pending| < p.cap { SendKeepsInv(p, g, g.fired + [Shot(g.i, g.now)]); }
  }

  lemma {:induction false} SendKeepsInv(p: Plan, g: Gen, fired: seq<Shot>)
    requires Inv(p, g) && g.i < p.total && OnTime(p, g.i, g.now) && |g.pending| < p.cap && fired == g.fired + [Shot(g.i, g.now)]
    ensures Inv(p, FireOne(g, p.cap))
  {
    assert g.i !in g.pending;
    assert |g.pending + {g.i}| == |g.pending| + 1;
    assert FireOne(g, p.cap).fired == fired;
    forall j, k | 0 <= j < k < |fired| ensures fired[j].id < fired[k].id && fired[j].at <= fired[k].at {
      assert j < |g.fired|;
    }
  }

  /**
   After a tick every request due by then has been decided, and none beyond; requests were skipped
   only at the cap.
   */
  lemma {:induction false} FireUntilKeepsInv(p: Plan, g: Gen, due: int)
    requires p.rate > 0.0 && Inv(p, g) && due == Due(p, g.now)
    ensures var h := FireUntil(g, p.cap, due);
      && Inv(p, h) && h.now == g.now && h.shots == g.shots && h.answered == g.answered
      && (h.i == if g.i < due then due else g.i)
      && g.pending <= h.pending
      && (h.skipped > g.skipped ==> |h.pending| == p.cap) && h.skipped >= g.skipped
      && (h.maxSeen == g.maxSeen || h.maxSeen == |h.pending|)
    decreases due - g.i
  {
    if g.i < due {
      var one := FireOne(g, p.cap);
      DueIsOnTime(p, g.i, g.now);
      FireOneKeepsInv(p, g);
      FireUntilKeepsInv(p, one, due);
      var h := FireUntil(one, p.cap, due);
      SubsetSize(one.pending, h.pending);
    }
  }

  /** The log goes on from `before` to `after` with requests sent at `at`. */
  ghost predicate SentAt(before: seq<Shot>, after: seq<Shot>, at: real) {
    before <= after && forall c :: |before| <= c < |after| ==> after[c].at == at
  }

  /** What a tick sends, it sends at its own time. */
  lemma {:induction false} FireUntilStamps(g: Gen, cap: nat, due: int)
    ensures var h := FireUntil(g, cap, due);
      h.now == g.now && SentAt(g.fired, h.fired, g.now)
    decreases due - g.i
  {
    if g.i < due { FireUntilStamps(FireOne(g, cap), cap, due); }
  }

  lemma {:induction false} SubsetSize(a: set<nat>, b: set<nat>)
    requires a <= b
    ensures |a| <= |b|
  {
    assert b == a + (b - a);
  }

  lemma {:induction false} TickKeepsInv(p: Plan, g: Gen, at: real)
    requires p.rate > 0.0 && Inv(p, g) && at >= g.now
    ensures Inv(p, Step(p, g, Tick(at)))
  {
    assert Inv(p, g.(now := at));
    FireUntilKeepsInv(p, g.(now := at), Due(p, at));
  }

  lemma {:induction false} AnswerKeepsInv(p: Plan, g: Gen, id: nat)
    requires Inv(p, g) && id in g.pending && id !in g.answered
    ensures Inv(p, Step(p, g, Answer(id)))
  {
    assert |g.answered + {id}| == |g.answered| + 1;
  }

  lemma {:induction false} RemoveKeepsInv(p: Plan, g: Gen, id: nat)
    requires Inv(p, g) && id in g.answered
    ensures Inv(p, Step(p, g, Remove(id)))
  {
    assert |g.pending - {id}| == |g.pending| - 1 && |g.answered - {id}| == |g.answered| - 1;
  }

  lemma {:induction false} StepKeepsInv(p: Plan, g: Gen, e: Event)
    requires p.rate > 0.0 && Inv(p, g) && Enabled(p, g, e)
    ensures Inv(p, Step(p, g, e))
  {
    match e
    case Tick(at) => TickKeepsInv(p, g, at);
    case Answer(id) => AnswerKeepsInv(p, g, id);
    case Remove(id) => RemoveKeepsInv(p, g, id);
  }

  lemma {:induction false} RunKeepsInv(p: Plan, gs: seq<Gen>, es: seq<Event>, k: nat)
    requires p.rate > 0.0 && IsRun(p, gs, es) && k < |gs|
    ensures Inv(p, gs[k])
  {
    if k > 0 {
      RunKeepsInv(p, gs, es, k - 1);
      assert Enabled(p, gs[k - 1], es[k - 1]) && gs[(k - 1) + 1] == Step(p, gs[k - 1], es[k - 1]);
      StepKeepsInv(p, gs[k - 1], es[k - 1]);
    }
  }

  // ----- the schedule -----

  lemma {:induction false} IdsGrow(fired: seq<Shot>, k: nat)
    requires k < |fired| && forall i, j :: 0 <= i < j < |fired| ==> fired[i].id < fired[j].id
    ensures fired[k].id >= k
  {
    if k > 0 { IdsGrow(fired, k - 1); assert fired[k - 1].id < fired[k].id; }
  }

  /**
   Never ahead of the schedule: no request leaves before its time, so at any time `t`
   at most `floor(t * rate / 1000) + 1` have left.
   */
  lemma {:induction false} NeverAhead(p: Plan, gs: seq<Gen>, es: seq<Event>, k: nat, c: nat, t: real)
    requires p.rate > 0.0 && IsRun(p, gs, es) && k < |gs|
    requires 0 < c <= |gs[k].fired| && gs[k].fired[c - 1].at <= t
    ensures OnTime(p, gs[k].fired[c - 1].id, gs[k].fired[c - 1].at)
    ensures c <= (t * p.rate / 1000.0).Floor + 1
  {
    RunKeepsInv(p, gs, es, k);
    var f := gs[k].fired;
    IdsGrow(f, c - 1);
    AtMost(c - 1, f[c - 1].id, f[c - 1].at, t, p.rate);
  }

  lemma {:induction false} AtMost(c: nat, id: nat, at: real, t: real, rate: real)
    requires c <= id && id as real * 1000.0 <= at * rate && at <= t && rate > 0.0
    ensures c <= (t * rate / 1000.0).Floor
  {
    assert (t - at) * rate >= 0.0;
    assert t * rate - at * rate == (t - at) * rate;
    var x := t * rate / 1000.0;
    assert x * 1000.0 == t * rate;
    assert c as real <= x;
  }

  /**
   After each tick the requests decided are those decided before and all whose time has
   come; what it sent left at its time; in-flight is within the cap, and any skip happened
   at the cap.
   */
  lemma {:induction false} NothingLeftBehind(p: Plan, gs: seq<Gen>, es: seq<Event>, k: nat)
    requires p.rate > 0.0 && IsRun(p, gs, es) && k < |es| && es[k].Tick?
    ensures forall id: nat :: id < gs[k + 1].i <==> id < gs[k].i || (id < p.total && OnTime(p, id, es[k].at))
    ensures SentAt(gs[k].fired, gs[k + 1].fired, es[k].at)
    ensures |gs[k + 1].pending| <= p.cap
    ensures gs[k + 1].skipped > gs[k].skipped ==> |gs[k + 1].pending| == p.cap
  {
    RunKeepsInv(p, gs, es, k);
    RunKeepsInv(p, gs, es, k + 1);
    assert Enabled(p, gs[k], es[k]) && gs[k + 1] == Step(p, gs[k], es[k]);
    var g, due := gs[k].(now := es[k].at), Due(p, es[k].at);
    assert Inv(p, g);
    FireUntilKeepsInv(p, g, due);
    FireUntilStamps(g, p.cap, due);
    forall id: nat ensures id < gs[k + 1].i <==> id < gs[k].i || (id < p.total && OnTime(p, id, es[k].at)) {
      if id < due { DueIsOnTime(p, id, es[k].at); }
      if id < p.total && OnTime(p, id, es[k].at) { OnTimeIsDue(p, id, es[k].at); }
    }
  }

  /** The recorded maximum was really reached. */
  lemma {:induction false} MaxSeenIsReached(p: Plan, gs: seq<Gen>, es: seq<Event>, k: nat) returns (j: nat)
    requires p.rate > 0.0 && IsRun(p, gs, es) && k < |gs|
    ensures j <= k && |gs[j].pending| == gs[k].maxSeen
  {
    if k == 0 {
      j := 0;
    } else {
      j := MaxSeenIsReached(p, gs, es, k - 1);
      assert Enabled(p, gs[k - 1], es[k - 1]) && gs[(k - 1) + 1] == Step(p, gs[k - 1], es[k - 1]);
      if es[k - 1].Tick? && gs[k].maxSeen != gs[k - 1].maxSeen {
        var g := gs[k - 1].(now := es[k - 1].at);
        RunKeepsInv(p, gs, es, k - 1);
        assert Inv(p, g);
        FireUntilKeepsInv(p, g, Due(p, es[k - 1].at));
        j := k;
      }
    }
  }

  /** When the loop has decided every request and all promises have settled, sent plus skipped is what was scheduled. */
  lemma {:induction false} AllAccounted(p: Plan, gs: seq<Gen>, es: seq<Event>)
    requires p.rate > 0.0 && IsRun(p, gs, es)
    ensures var g := gs[|es|];
      && g.maxSeen <= p.cap
      && (g.i == p.total && g.pending == {} ==> |g.shots| + g.skipped == p.total && |g.shots| == |g.fired|)
  {
    RunKeepsInv(p, gs, es, |es|);
  }
}

module Burst {

  /**
   `flying` maps a lane to the request it waits for; `answered` lanes have pushed
   their shot but not yet resumed; `idle` lanes have left their loop.
   */
  datatype State = State(next: nat, inFlight: int, maxSeen: int, flying: map<nat, nat>, answered: set<nat>,
      idle: set<nat>, shots: seq<nat>)

  datatype Opts = Opts(n: nat, maxInFlight: int)

  function Lanes(o: Opts): nat {
    if o.maxInFlight < 0 then 0 else if o.maxInFlight < o.n then o.maxInFlight else o.n
  }

  /** The lane's loop check and, if it goes on, the send. */
  function LaneTop(b: State, o: Opts, lane: nat): State {
    if b.next < o.n then
      b.(next := b.next + 1, inFlight := b.inFlight + 1,
         maxSeen := if b.inFlight + 1 > b.maxSeen then b.inFlight + 1 else b.maxSeen,
         flying := b.flying[lane := b.next])
    else b.(idle := b.idle + {lane})
  }

  /** The first `k` lanes started, one after another. */
  function Launched(o: Opts, k: nat): State {
    if k == 0 then State(0, 0, 0, map[], {}, {}, []) else LaneTop(Launched(o, k - 1), o, k - 1)
  }

  datatype Event = Answer(lane: nat) | Resume(lane: nat)

  predicate Enabled(b: State, e: Event) {
    match e
    case Answer(lane) => lane in b.flying
    case Resume(lane) => lane in b.answered
  }

  function Step(b: State, o: Opts, e: Event): State
    requires Enabled(b, e)
  {
    match e
    case Answer(lane) => b.(shots := b.shots + [b.flying[lane]], flying := b.flying - {lane}, answered := b.answered + {lane})
    case Resume(lane) => LaneTop(b.(inFlight := b.inFlight - 1, answered := b.answered - {lane}), o, lane)
  }

  ghost predicate IsRun(o: Opts, bs: seq<State>, es: seq<Event>) {
    && |bs| == |es| + 1 && bs[0] == Launched(o, Lanes(o))
    && forall k :: 0 <= k < |es| ==> Enabled(bs[k], es[k]) && bs[k + 1] == Step(bs[k], o, es[k])
  }

  /** The shared variables the lanes update. */
  class Generator {
    var next: nat
    var inFlight: int
    var maxSeen: int
    var flying: map<nat, nat>
    var answered: set<nat>
    var idle: set<nat>
    var shots: seq<nat>

    ghost function View(): State
      reads this
    {
      State(next, inFlight, maxSeen, flying, answered, idle, shots)
    }

    constructor (o: Opts)
      ensures View() == Launched(o, Lanes(o))
    {
      next, inFlight, maxSeen, flying, answered, idle, shots := 0, 0, 0, map[], {}, {}, [];
      new;
      for k := 0 to Lanes(o)
        invariant View() == Launched(o, k)
      {
        RunLane(o, k);
      }
    }

    method RunLane(o: Opts, lane: nat)
      modifies this
      ensures View() == LaneTop(old(View()), o, lane)
    {
      if next < o.n {
        var id := next;
        next := next + 1;
        inFlight := inFlight + 1;
        if inFlight > maxSeen { maxSeen := inFlight; }
        flying := flying[lane := id];
      } else {
        idle := idle + {lane};
      }
    }

    method OnAnswer(o: Opts, lane: nat)
      requires Enabled(View(), Answer(lane))
      modifies this
      ensures View() == Step(old(View()), o, Answer(lane))
    {
      shots := shots + [flying[lane]];
      flying := flying - {lane};
      answered := answered + {lane};
    }

    method OnResume(o: Opts, lane: nat)
      requires Enabled(View(), Resume(lane))
      modifies this
      ensures View() == Step(old(View()), o, Resume(lane))
    {
      answered := answered - {lane};
      inFlight := inFlight - 1;
      RunLane(o, lane);
    }
  }

  // ----- what every step keeps -----

  /** `k` lanes exist; each is flying, answered or idle; every request below `next` is flying or has its shot, once. */
  ghost predicate Inv(b: State, o: Opts, k: nat) {
    && k <= Lanes(o) && b.next <= o.n
    && |b.flying| + |b.answered| + |b.idle| == k
    && b.flying.Keys !! b.answered && b.flying.Keys !! b.idle && b.answered !! b.idle
    && (forall l :: l in b.flying || l in b.answered || l in b.idle ==> l < k)
    && b.inFlight == |b.flying| + |b.answered|
    && b.next == |b.flying| + |b.shots|
    && b.maxSeen == k
    && (b.idle != {} ==> b.next == o.n)
    && (forall l :: l in b.flying ==> b.flying[l] < b.next && b.flying[l] !in b.shots)
    && (forall l, m :: l in b.flying && m in b.flying && l != m ==> b.flying[l] != b.flying[m])
    && (forall a :: 0 <= a < |b.shots| ==> b.shots[a] < b.next)
    && (forall a, c :: 0 <= a < c < |b.shots| ==> b.shots[a] != b.shots[c])
  }

  /** `k` lanes have started and nothing has come back yet. */
  ghost predicate Launching(b: State, o: Opts, k: nat) {
    Inv(b, o, k) && b.answered == {} && b.idle == {} && b.shots == []
  }

  lemma {:induction false} StartKeepsInv(b: State, o: Opts, k: nat)
    requires Launching(b, o, k) && k < Lanes(o)
    ensures Launching(LaneTop(b, o, k), o, k + 1)
  {
    assert k !in b.flying;
    var c := LaneTop(b, o, k);
    assert c.flying.Keys == b.flying.Keys + {k};
    assert |c.flying.Keys| == |b.flying.Keys| + 1;
  }

  lemma {:induction false} LaunchInv(o: Opts, k: nat, b: State)
    requires k <= Lanes(o) && b == Launched(o, k)
    ensures Launching(b, o, k)
  {
    if k == 0 {
      NoLanesInv(o, b);
    } else {
      var a := Launched(o, k - 1);
      LaunchInv(o, k - 1, a);
      StartKeepsInv(a, o, k - 1);
    }
  }

  lemma {:induction false} NoLanesInv(o: Opts, b: State)
    requires b == State(0, 0, 0, map[], {}, {}, [])
    ensures Launching(b, o, 0)
  {
  }

  lemma {:induction false} AnswerKeepsInv(b: State, o: Opts, lane: nat)
    requires Inv(b, o, Lanes(o)) && lane in b.flying
    ensures Inv(Step(b, o, Answer(lane)), o, Lanes(o))
  {
    var c := Step(b, o, Answer(lane));
    assert c.flying.Keys == b.flying.Keys - {lane};
    assert |c.flying.Keys| == |b.flying.Keys| - 1;
    assert |c.answered| == |b.answered| + 1;
  }

  lemma {:induction false} ResumeKeepsInv(b: State, o: Opts, lane: nat)
    requires Inv(b, o, Lanes(o)) && lane in b.answered
    ensures Inv(Step(b, o, Resume(lane)), o, Lanes(o))
  {
    var c := Step(b, o, Resume(lane));
    assert |b.answered - {lane}| == |b.answered| - 1;
    if b.next < o.n {
      assert c.flying.Keys == b.flying.Keys + {lane};
      assert |c.flying.Keys| == |b.flying.Keys| + 1;
    } else {
      assert |c.idle| == |b.idle| + 1;
    }
  }

  lemma {:induction false} RunKeepsInv(o: Opts, bs: seq<State>, es: seq<Event>, k: nat)
    requires IsRun(o, bs, es) && k < |bs|
    ensures Inv(bs[k], o, Lanes(o))
  {
    if k == 0 {
      LaunchInv(o, Lanes(o), bs[0]);
    } else {
      RunKeepsInv(o, bs, es, k - 1);
      assert Enabled(bs[k - 1], es[k - 1]) && bs[(k - 1) + 1] == Step(bs[k - 1], o, es[k - 1]);
      match es[k - 1]
      case Answer(lane) => AnswerKeepsInv(bs[k - 1], o, lane);
      case Resume(lane) => ResumeKeepsInv(bs[k - 1], o, lane);
    }
  }

  /**
   At every step the requests sent are those in flight plus those answered, except
   for the lanes that have answered and not yet resumed, which count in both.
   The recorded maximum is the number of lanes from the start on.
   */
  lemma {:induction false} BurstBalance(o: Opts, bs: seq<State>, es: seq<Event>, k: nat)
    requires IsRun(o, bs, es) && k < |bs|
    ensures var b := bs[k];
      && b.next + |b.answered| == b.inFlight + |b.shots|
      && (b.next == b.inFlight + |b.shots| <==> b.answered == {})
      && b.inFlight <= b.maxSeen
      && b.maxSeen == (if o.maxInFlight < 0 then 0 else if o.maxInFlight < o.n then o.maxInFlight else o.n)
  {
    RunKeepsInv(o, bs, es, k);
  }

  /** Some lane can always go on until all are idle, so a run can only end with every lane idle. */
  lemma {:induction false} BurstNeverStuck(o: Opts, bs: seq<State>, es: seq<Event>)
    requires IsRun(o, bs, es) && |bs[|es|].idle| < Lanes(o)
    ensures exists e :: Enabled(bs[|es|], e)
  {
    RunKeepsInv(o, bs, es, |es|);
    var b := bs[|es|];
    if b.answered != {} {
      var l :| l in b.answered;
      assert Enabled(b, Resume(l));
    } else {
      assert b.flying.Keys != {};
      var l :| l in b.flying;
      assert Enabled(b, Answer(l));
    }
  }

  /** Every answer and every resumption is a step, so no run takes more than two steps per request. */
  lemma {:induction false} StepsAreCounted(o: Opts, bs: seq<State>, es: seq<Event>, k: nat)
    requires IsRun(o, bs, es) && k < |bs|
    ensures k == 2 * |bs[k].shots| - |bs[k].answered|
  {
    if k == 0 {
      LaunchInv(o, Lanes(o), bs[0]);
    } else {
      StepsAreCounted(o, bs, es, k - 1);
      StepIsCounted(o, bs, es, k - 1);
    }
  }

  lemma {:induction false} StepIsCounted(o: Opts, bs: seq<State>, es: seq<Event>, k: nat)
    requires IsRun(o, bs, es) && k < |es|
    ensures 2 * |bs[k + 1].shots| - |bs[k + 1].answered| == 2 * |bs[k].shots| - |bs[k].answered| + 1
  {
    RunKeepsInv(o, bs, es, k);
    RunSteps(o, bs, es, k);
    StepCounts(bs[k], o, es[k], bs[k + 1]);
  }

  lemma {:induction false} RunSteps(o: Opts, bs: seq<State>, es: seq<Event>, k: nat)
    requires IsRun(o, bs, es) && k < |es|
    ensures Enabled(bs[k], es[k]) && bs[k + 1] == Step(bs[k], o, es[k])
  {
  }

  lemma {:induction false} StepCounts(b: State, o: Opts, e: Event, c: State)
    requires Inv(b, o, Lanes(o)) && Enabled(b, e) && c == Step(b, o, e)
    ensures 2 * |c.shots| - |c.answered| == 2 * |b.shots| - |b.answered| + 1
  {
    match e
    case Answer(lane) => assert c.answered == b.answered + {lane} && lane !in b.answered;
    case Resume(lane) => assert c.answered == b.answered - {lane} && |b.answered - {lane}| == |b.answered| - 1;
  }

  ghost predicate Stopped(b: State) { forall e :: !Enabled(b, e) }

  /**
   Every run ends: it has at most two steps per request, and it cannot go on exactly
   when it has taken them all (none without a lane).
   */
  lemma {:induction false} BurstEnds(o: Opts, bs: seq<State>, es: seq<Event>)
    requires IsRun(o, bs, es)
    ensures |es| <= 2 * o.n
    ensures Stopped(bs[|es|]) <==> |es| == (if Lanes(o) == 0 then 0 else 2 * o.n)
  {
    var b := bs[|es|];
    RunKeepsInv(o, bs, es, |es|);
    StepsAreCounted(o, bs, es, |es|);
    if |b.idle| < Lanes(o) { BurstNeverStuck(o, bs, es); } else { AllIdle(b, o); }
    if Lanes(o) == 0 { NoLaneNoStep(o, bs, es); }
  }

  lemma {:induction false} AllIdle(b: State, o: Opts)
    requires Inv(b, o, Lanes(o)) && |b.idle| == Lanes(o)
    ensures Stopped(b)
    ensures b.answered == {} && (Lanes(o) > 0 ==> |b.shots| == o.n)
  {
    assert b.flying.Keys == {} && b.answered == {};
    if Lanes(o) > 0 { assert b.idle != {}; }
  }

  lemma {:induction false} NoLaneNoStep(o: Opts, bs: seq<State>, es: seq<Event>)
    requires IsRun(o, bs, es) && Lanes(o) == 0
    ensures es == []
  {
    LaunchInv(o, 0, bs[0]);
    AllIdle(bs[0], o);
  }

  /**
   When every lane is idle, exactly the `n` requests have been sent, each once, unless there was no
   lane to send them.
   */
  lemma {:induction false} BurstSendsAll(o: Opts, bs: seq<State>, es: seq<Event>)
    requires IsRun(o, bs, es) && |bs[|es|].idle| == Lanes(o)
    ensures var b := bs[|es|];
      && (|b.shots| == o.n <==> o.n == 0 || o.maxInFlight >= 1)
      && (forall a, c :: 0 <= a < c < |b.shots| ==> b.shots[a] != b.shots[c])
      && (forall a :: 0 <= a < |b.shots| ==> b.shots[a] < o.n)
  {
    RunKeepsInv(o, bs, es, |es|);
  }

  /** The plain balance does fail on the way: one request, answered and not yet resumed, counts twice. */
  lemma {:induction false} BalanceFailsRun()
    ensures var o, es := Opts(1, 1), [Answer(0)];
      exists bs: seq<State> :: IsRun(o, bs, es) && bs[1].next == 1 && bs[1].inFlight + |bs[1].shots| == 2
  {
    var o, es := Opts(1, 1), [Answer(0)];
    var b := Launched(o, 1);
    assert Launched(o, 0) == State(0, 0, 0, map[], {}, {}, []);
    assert b == State(1, 1, 1, map[0 := 0], {}, {}, []);
    var bs := [b, Step(b, o, Answer(0))];
    assert IsRun(o, bs, es);
  }
}

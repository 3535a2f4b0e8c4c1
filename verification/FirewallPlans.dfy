/** Firewall plans waiting for approval: a bounded queue from which applying a plan
    removes it before it runs. */
module FirewallPlans {
  import opened Options

  const MAX_PENDING: nat := 32

  /** A prepared change; `change` stands for the firewall plan itself. */
  datatype Plan = Plan(operationId: string, change: int)

  datatype Result = Planned(plan: Plan) | Applied(operationId: string) | OwnershipDenied | ControllerFailed | PlanNotFound

  /** The position of the first plan with this operation id. */
  function Position(plans: seq<Plan>, id: string): (r: Option<nat>)
    ensures r.Some? ==> r.value < |plans| && plans[r.value].operationId == id
    ensures r.None? ==> forall k :: 0 <= k < |plans| ==> plans[k].operationId != id
  {
    if plans == [] then None
    else if plans[0].operationId == id then Some(0)
    else
      var r := Position(plans[1..], id);
      if r.None? then None else Some(r.value + 1)
  }

  function Without(plans: seq<Plan>, i: nat): seq<Plan>
    requires i < |plans|
  {
    plans[..i] + plans[i + 1..]
  }

  /** Drops the oldest plans until one more fits, then adds it. */
  function Queued(pending: seq<Plan>, plan: Plan): seq<Plan> {
    (if |pending| < MAX_PENDING then pending else pending[|pending| - (MAX_PENDING - 1)..]) + [plan]
  }

  /** A request that reached the queue: a plan prepared, or an operation id applied. */
  datatype Event = Prepare(plan: Plan) | Run(id: string)

  datatype Manager = Manager(pending: seq<Plan>, sent: seq<Plan>)

  function Step(m: Manager, e: Event): Manager {
    match e
    case Prepare(plan) => m.(pending := Queued(m.pending, plan))
    case Run(id) =>
      var at := Position(m.pending, id);
      if at.None? then m
      else Manager(Without(m.pending, at.value), m.sent + [m.pending[at.value]])
  }

  class FirewallManager {
    /** The host firewall is managed here rather than delegated or disabled. */
    const standalone: bool
    var pending: seq<Plan>
    /** The plans handed to the controller, in order. */
    var sent: seq<Plan>

    constructor (standalone: bool)
      ensures this.standalone == standalone && pending == [] && sent == []
    {
      this.standalone := standalone;
      pending, sent := [], [];
    }

    function Current(): Manager
      reads this
    {
      Manager(pending, sent)
    }

    /** Prepares a plan under a new operation id; `change` is None when reading the
        firewall or planning the change fails. */
    method MakePlan(id: string, change: Option<int>) returns (r: Result)
      modifies this
      ensures !standalone ==> r == OwnershipDenied && Current() == old(Current())
      ensures standalone && change.None? ==> r == ControllerFailed && Current() == old(Current())
      ensures standalone && change.Some? ==>
                var plan := Plan(id, change.value);
                r == Planned(plan) && Current() == Step(old(Current()), Prepare(plan))
    {
      if !standalone {
        return OwnershipDenied;
      }
      if change.None? {
        return ControllerFailed;
      }
      var plan := Plan(id, change.value);
      while |pending| >= MAX_PENDING
        invariant |pending| <= |old(pending)| && pending == old(pending)[|old(pending)| - |pending|..]
        invariant |old(pending)| >= MAX_PENDING ==> |pending| >= MAX_PENDING - 1
        invariant |old(pending)| < MAX_PENDING ==> pending == old(pending)
        invariant sent == old(sent)
        decreases |pending|
      {
        pending := pending[1..];
      }
      pending := pending + [plan];
      return Planned(plan);
    }

    /** Takes the plan off the queue and only then hands it to the controller. */
    method Apply(id: string, controllerSucceeds: bool) returns (r: Result)
      modifies this
      ensures !standalone ==> r == OwnershipDenied && Current() == old(Current())
      ensures standalone ==> Current() == Step(old(Current()), Run(id))
      ensures standalone ==>
                r == if Position(old(pending), id).None? then PlanNotFound
                     else if controllerSucceeds then Applied(id) else ControllerFailed
    {
      if !standalone {
        return OwnershipDenied;
      }
      var at := Position(pending, id);
      if at.None? {
        return PlanNotFound;
      }
      var plan := pending[at.value];
      pending := Without(pending, at.value);
      sent := sent + [plan];
      return if controllerSucceeds then Applied(plan.operationId) else ControllerFailed;
    }
  }

  // ----- Whole runs -----

  function After(m: Manager, events: seq<Event>): Manager {
    if events == [] then m
    else Step(After(m, events[..|events| - 1]), events[|events| - 1])
  }

  const NO_PLANS := Manager([], [])

  function Prepared(events: seq<Event>): seq<Plan> {
    if events == [] then []
    else
      var n := |events| - 1;
      Prepared(events[..n]) + if events[n].Prepare? then [events[n].plan] else []
  }

  /** At most 32 plans wait at any time. */
  lemma {:induction false} PendingBounded(events: seq<Event>)
    ensures |After(NO_PLANS, events).pending| <= 32
  {
    if events != [] {
      PendingBounded(events[..|events| - 1]);
    }
  }

  lemma WithoutSplits(plans: seq<Plan>, i: nat)
    requires i < |plans|
    ensures multiset(plans) == multiset(Without(plans, i)) + multiset{plans[i]}
  {
    assert plans == plans[..i] + [plans[i]] + plans[i + 1..];
  }

  lemma QueuedWithin(pending: seq<Plan>, plan: Plan)
    ensures multiset(Queued(pending, plan)) <= multiset(pending) + multiset{plan}
  {
    if |pending| >= MAX_PENDING {
      var cut := |pending| - (MAX_PENDING - 1);
      assert pending == pending[..cut] + pending[cut..];
    }
  }

  /** A plan is handed to the controller or waits no more often than it was prepared. */
  lemma {:induction false} SentAndPendingWithinPrepared(events: seq<Event>)
    ensures var m := After(NO_PLANS, events);
            multiset(m.sent) + multiset(m.pending) <= multiset(Prepared(events))
  {
    if events != [] {
      var n := |events| - 1;
      var m := After(NO_PLANS, events[..n]);
      SentAndPendingWithinPrepared(events[..n]);
      match events[n] {
        case Prepare(plan) =>
          QueuedWithin(m.pending, plan);
        case Run(id) =>
          var at := Position(m.pending, id);
          if at.Some? {
            WithoutSplits(m.pending, at.value);
          }
          assert Prepared(events) == Prepared(events[..n]);
      }
    }
  }

  /** Every prepared plan has its own operation id. */
  predicate DistinctIds(plans: seq<Plan>) {
    forall i, j :: 0 <= i < j < |plans| ==> plans[i].operationId != plans[j].operationId
  }

  lemma {:induction false} DistinctCountsOnce(plans: seq<Plan>, p: Plan, q: Plan)
    requires DistinctIds(plans) && p in multiset(plans) && q in multiset(plans)
    ensures multiset(plans)[p] <= 1
    ensures p.operationId == q.operationId ==> p == q
  {
    assert p in plans && q in plans;
    if plans != [] {
      var n := |plans| - 1;
      var rest := plans[..n];
      assert plans == rest + [plans[n]];
      if p == plans[n] {
        assert p !in rest;
        assert multiset(rest)[p] == 0;
      } else {
        assert p in rest;
        DistinctCountsOnce(rest, p, p);
      }
    }
  }

  /** Each planned operation reaches the controller at most once, whether or not applying
      it succeeds, and once there it is no longer waiting. */
  lemma SentAtMostOnce(events: seq<Event>)
    requires DistinctIds(Prepared(events))
    ensures var m := After(NO_PLANS, events);
            DistinctIds(m.sent + m.pending)
  {
    var m := After(NO_PLANS, events);
    var all := m.sent + m.pending;
    SentAndPendingWithinPrepared(events);
    assert multiset(all) == multiset(m.sent) + multiset(m.pending);
    forall i, j | 0 <= i < j < |all|
      ensures all[i].operationId != all[j].operationId
    {
      assert all[i] in multiset(all) && all[j] in multiset(all);
      DistinctCountsOnce(Prepared(events), all[i], all[j]);
      if all[i] == all[j] {
        TwicePresent(all, i, j);
      }
    }
  }

  lemma TwicePresent(s: seq<Plan>, i: nat, j: nat)
    requires i < j < |s| && s[i] == s[j]
    ensures multiset(s)[s[i]] >= 2
  {
    assert s == s[..j] + [s[j]] + s[j + 1..];
    assert s[i] in s[..j];
  }

  /** Waiting plans have ids of their own. */
  lemma WaitingAreDistinct(events: seq<Event>)
    requires DistinctIds(Prepared(events))
    ensures DistinctIds(After(NO_PLANS, events).pending)
  {
    var m := After(NO_PLANS, events);
    SentAtMostOnce(events);
    forall i, j | 0 <= i < j < |m.pending|
      ensures m.pending[i].operationId != m.pending[j].operationId
    {
      assert (m.sent + m.pending)[|m.sent| + i] == m.pending[i] && (m.sent + m.pending)[|m.sent| + j] == m.pending[j];
    }
  }

  /** Running the id of a waiting plan hands that very plan to the controller, next in order,
      and takes it off the queue; running any other id leaves it waiting. */
  lemma RunSendsThePlan(m: Manager, plan: Plan, id: string)
    requires DistinctIds(m.pending) && plan in m.pending
    ensures var after := Step(m, Run(id));
            if id == plan.operationId then after.sent == m.sent + [plan] && plan !in after.pending
            else plan in after.pending
  {
    var i :| 0 <= i < |m.pending| && m.pending[i] == plan;
    var at := Position(m.pending, id);
    if at.Some? {
      var rest := Without(m.pending, at.value);
      if id == plan.operationId {
        assert i == at.value;
        forall k | 0 <= k < |rest|
          ensures rest[k] != plan
        {
          assert rest[k] == m.pending[if k < i then k else k + 1];
        }
      } else {
        assert plan == rest[if i < at.value then i else i - 1];
      }
    }
  }

  lemma {:induction false} PreparedEarlier(events: seq<Event>)
    requires events != [] && DistinctIds(Prepared(events))
    ensures DistinctIds(Prepared(events[..|events| - 1]))
  {
    var earlier, all := Prepared(events[..|events| - 1]), Prepared(events);
    assert all[..|earlier|] == earlier;
    forall i, j | 0 <= i < j < |earlier|
      ensures earlier[i].operationId != earlier[j].operationId
    {
      assert earlier[i] == all[i] && earlier[j] == all[j];
    }
  }

  /** Event `k` runs a plan that is waiting then. */
  predicate RunsWaiting(events: seq<Event>, k: int, plan: Plan) {
    && 0 <= k < |events| && events[k] == Run(plan.operationId)
    && plan in After(NO_PLANS, events[..k]).pending
  }

  /** A plan reaches the controller if and only if its id is run while it waits. */
  lemma {:induction false} SentExactlyWhenRunWaiting(events: seq<Event>, plan: Plan)
    requires DistinctIds(Prepared(events))
    ensures plan in After(NO_PLANS, events).sent <==> exists k :: RunsWaiting(events, k, plan)
    decreases |events|
  {
    if events != [] {
      var n := |events| - 1;
      var earlier := events[..n];
      PreparedEarlier(events);
      SentExactlyWhenRunWaiting(earlier, plan);
      RunsWaitingEarlier(events, plan);
      var m := After(NO_PLANS, earlier);
      if events[n].Run? {
        if plan in m.pending {
          WaitingAreDistinct(earlier);
          RunSendsThePlan(m, plan, events[n].id);
        }
        var at := Position(m.pending, events[n].id);
        if at.Some? && m.pending[at.value] == plan {
          assert RunsWaiting(events, n, plan);
        }
      }
    }
  }

  lemma RunsWaitingEarlier(events: seq<Event>, plan: Plan)
    requires events != []
    ensures var n := |events| - 1;
            (exists k :: RunsWaiting(events, k, plan))
            <==> (exists k :: RunsWaiting(events[..n], k, plan)) || RunsWaiting(events, n, plan)
  {
    var n := |events| - 1;
    forall k | 0 <= k < n
      ensures RunsWaiting(events, k, plan) <==> RunsWaiting(events[..n], k, plan)
    {
      assert events[..n][..k] == events[..k];
    }
    if k :| RunsWaiting(events[..n], k, plan) {
      assert RunsWaiting(events, k, plan);
    }
    if k :| RunsWaiting(events, k, plan) {
      assert k == n || RunsWaiting(events[..n], k, plan);
    }
  }

  /** A plan whose id is run before 32 others were prepared after it is sent exactly once. */
  lemma RunInTimeIsSentOnce(before: seq<Event>, plan: Plan, later: seq<Event>, more: seq<Event>)
    requires var events := before + [Prepare(plan)] + later + [Run(plan.operationId)] + more;
             DistinctIds(Prepared(events))
    requires PreparedCount(later) < 32 && Run(plan.operationId) !in later
    ensures var events := before + [Prepare(plan)] + later + [Run(plan.operationId)] + more;
            multiset(After(NO_PLANS, events).sent)[plan] == 1
  {
    var first := before + [Prepare(plan)] + later;
    var events := first + [Run(plan.operationId)] + more;
    PendingBounded(before);
    var at := StaysAvailable(After(NO_PLANS, before), plan, later);
    AfterConcat(NO_PLANS, before, [Prepare(plan)]);
    AfterConcat(NO_PLANS, before + [Prepare(plan)], later);
    assert [Prepare(plan)][..0] == [] && events[..|first|] == first;
    assert RunsWaiting(events, |first|, plan);
    SentExactlyWhenRunWaiting(events, plan);
    SentOnceCounts(events, plan);
  }

  lemma SentOnceCounts(events: seq<Event>, plan: Plan)
    requires DistinctIds(Prepared(events)) && plan in After(NO_PLANS, events).sent
    ensures multiset(After(NO_PLANS, events).sent)[plan] == 1
  {
    var m := After(NO_PLANS, events);
    SentAtMostOnce(events);
    assert forall i :: 0 <= i < |m.sent| ==> m.sent[i] == (m.sent + m.pending)[i];
    assert plan in multiset(m.sent);
    DistinctCountsOnce(m.sent, plan, plan);
  }

  lemma {:induction false} AfterOneMore(m: Manager, events: seq<Event>, e: Event)
    ensures After(m, events + [e]) == Step(After(m, events), e)
  {
    assert (events + [e])[..|events|] == events;
  }

  lemma {:induction false} AfterConcat(m: Manager, a: seq<Event>, b: seq<Event>)
    ensures After(m, a + b) == After(After(m, a), b)
    decreases |b|
  {
    if b == [] {
      assert a + b == a;
    } else {
      var earlier, last := b[..|b| - 1], b[|b| - 1];
      AfterConcat(m, a, earlier);
      AfterOneMore(m, a + earlier, last);
      AfterOneMore(After(m, a), earlier, last);
      assert b == earlier + [last];
      assert a + b == a + earlier + [last];
    }
  }

  /** How many plans were prepared. */
  function PreparedCount(events: seq<Event>): nat {
    if events == [] then 0
    else PreparedCount(events[..|events| - 1]) + if events[|events| - 1].Prepare? then 1 else 0
  }

  /** A plan stays available while fewer than 32 plans are prepared after it, unless it is
      itself applied; `at` is where it then waits. */
  lemma {:induction false} StaysAvailable(m: Manager, plan: Plan, later: seq<Event>) returns (at: nat)
    requires |m.pending| <= MAX_PENDING
    requires PreparedCount(later) < 32
    requires Run(plan.operationId) !in later
    ensures var q := After(Step(m, Prepare(plan)), later).pending;
            && |q| <= MAX_PENDING
            && at < |q| && q[at] == plan
            && |q| - at <= PreparedCount(later) + 1
    decreases |later|
  {
    if later == [] {
      at := |Queued(m.pending, plan)| - 1;
    } else {
      var n := |later| - 1;
      at := StaysAvailable(m, plan, later[..n]);
      assert later[n] in later;
      at := StaysOnce(After(Step(m, Prepare(plan)), later[..n]), plan, at, later[n]);
    }
  }

  /** One event later a waiting plan is still waiting, one place nearer the front at most for
      each plan prepared. */
  lemma StaysOnce(m: Manager, plan: Plan, at: nat, e: Event) returns (at': nat)
    requires |m.pending| <= MAX_PENDING && at < |m.pending| && m.pending[at] == plan
    requires e != Run(plan.operationId) && (e.Prepare? ==> |m.pending| - at < MAX_PENDING)
    ensures var q := Step(m, e).pending;
            && |q| <= MAX_PENDING && at' < |q| && q[at'] == plan
            && |q| - at' <= |m.pending| - at + if e.Prepare? then 1 else 0
  {
    at' := at;
    match e {
      case Prepare(_) =>
        if |m.pending| >= MAX_PENDING {
          at' := at - (|m.pending| - (MAX_PENDING - 1));
        }
      case Run(id) =>
        var gone := Position(m.pending, id);
        if gone.Some? && gone.value < at {
          at' := at - 1;
        }
    }
  }

  /** If nothing is applied, a plan is available exactly while fewer than 32 plans have
      been prepared after it. */
  lemma AvailableExactlyWithin32(m: Manager, plan: Plan, later: seq<Event>)
    requires |m.pending| <= MAX_PENDING
    requires forall k :: 0 <= k < |later| ==> later[k].Prepare? && later[k].plan != plan
    ensures plan in After(Step(m, Prepare(plan)), later).pending <==> |later| < 32
  {
    CountAllPrepared(later);
    if |later| < MAX_PENDING {
      var at := StaysAvailable(m, plan, later);
    } else {
      YoungestAreLater(Step(m, Prepare(plan)), plan, later);
    }
  }

  lemma {:induction false} CountAllPrepared(later: seq<Event>)
    requires forall k :: 0 <= k < |later| ==> later[k].Prepare?
    ensures PreparedCount(later) == |later|
  {
    if later != [] {
      CountAllPrepared(later[..|later| - 1]);
    }
  }

  /** After preparing plans only, as many of the youngest waiting plans are among them. */
  lemma {:induction false} YoungestAreLater(m: Manager, plan: Plan, later: seq<Event>)
    requires |m.pending| <= MAX_PENDING
    requires forall k :: 0 <= k < |later| ==> later[k].Prepare? && later[k].plan != plan
    ensures var q := After(m, later).pending;
            |q| <= MAX_PENDING && forall i :: 0 <= i < |q| && |q| - |later| <= i ==> q[i] != plan
    decreases |later|
  {
    if later != [] {
      var n := |later| - 1;
      YoungestAreLater(m, plan, later[..n]);
      var q := After(m, later[..n]).pending;
      var r := After(m, later).pending;
      assert r == Queued(q, later[n].plan);
      forall i | 0 <= i < |r| && |r| - |later| <= i
        ensures r[i] != plan
      {
        if i < |r| - 1 {
          assert r[i] == q[i + |q| + 1 - |r|];
        }
      }
    }
  }
}

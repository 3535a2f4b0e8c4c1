/**
 The notification queue as interleaved steps: any number of producers, one replay task
 and one worker share a bounded channel and an atomic depth counter that no lock ties
 to it.
 */
module NotificationQueue {
  import opened Options

  /** An event id. */
  type Event = string

  /** Where a producer is inside `enqueue`. */
  datatype Producer =
    | Idle
    | Eligible(event: Event)   // registered, depth not yet raised
    | Counted(event: Event)    // depth raised, channel not yet tried
    | Refused(event: Event)    // channel refused, depth not yet lowered
    | Uncounted(event: Event)  // depth lowered, drop not yet counted

  /** Where the replay task is with the first of its remaining events. */
  datatype Replay = Waiting | Reserved | ReplayCounted | Finished

  datatype Worker = Receiving | Took(event: Event) | Delivering(event: Event) | Gone

  /** What registering an event reported. */
  datatype Registration = Accepts | Declines | Fails

  /** What happened, for the properties to refer to. */
  datatype Log = Log(
    accepted: seq<Event>,        // put in the channel, in order
    received: seq<Event>,        // taken out by the worker, in order
    abandoned: seq<Event>,       // left in the channel when the worker went
    offered: multiset<Event>,    // `enqueue` calls that had to end in the channel or as a drop
    slotted: multiset<Event>,    // those that got a channel slot
    lost: multiset<Event>,       // those that were dropped
    replayCut: bool)             // the replay task found the worker gone

  datatype State = State(
    capacity: nat,
    hasSender: bool,
    channel: seq<Event>,
    depth: nat,
    dropped: nat,
    producers: seq<Producer>,
    replay: Replay,
    rest: seq<Event>,
    worker: Worker,
    log: Log)

  datatype Step =
    | Enqueue(p: nat, event: Event, notify: bool, registration: Registration)
    | RaiseDepth(p: nat)
    | TrySend(p: nat)
    | LowerDepth(p: nat)
    | CountDrop(p: nat)
    | ReplayReserve
    | ReplayRaise
    | ReplaySend
    | Receive
    | WorkerLower
    | WorkerDone
    | WorkerGoes

  function Start(capacity: nat, hasSender: bool, producers: nat, pending: seq<Event>): State {
    State(capacity, hasSender, [], 0, 0, seq(producers, _ => Idle), Waiting, pending, Receiving,
          Log([], [], [], multiset{}, multiset{}, multiset{}, false))
  }

  function Permits(s: State): nat {
    if s.replay == Reserved || s.replay == ReplayCounted then 1 else 0
  }

  /** A slot that is neither filled nor reserved. */
  predicate FreeSlot(s: State) {
    |s.channel| + Permits(s) < s.capacity
  }

  predicate Enabled(s: State, step: Step) {
    match step
    case Enqueue(p, _, _, _) => p < |s.producers| && s.producers[p].Idle?
    case RaiseDepth(p) => p < |s.producers| && s.producers[p].Eligible?
    case TrySend(p) => p < |s.producers| && s.producers[p].Counted?
    case LowerDepth(p) => p < |s.producers| && s.producers[p].Refused?
    case CountDrop(p) => p < |s.producers| && s.producers[p].Uncounted?
    case ReplayReserve => s.replay == Waiting && s.rest != [] && (s.worker.Gone? || FreeSlot(s))
    case ReplayRaise => s.replay == Reserved && s.rest != []
    case ReplaySend => s.replay == ReplayCounted && s.rest != []
    case Receive => s.worker.Receiving? && s.channel != []
    case WorkerLower => s.worker.Took?
    case WorkerDone => s.worker.Delivering?
    case WorkerGoes => s.worker.Receiving? || s.worker.Delivering?
  }

  function Lowered(depth: nat): nat {
    if depth == 0 then 0 else depth - 1
  }

  /** `event` put in the channel; nobody reads it any more once the worker is gone. */
  function Sent(s: State, event: Event): State {
    var log := s.log.(accepted := s.log.accepted + [event]);
    if s.worker.Gone? then s.(log := log.(abandoned := log.abandoned + [event]))
    else s.(channel := s.channel + [event], log := log)
  }

  function Offered(s: State, event: Event): State {
    s.(log := s.log.(offered := s.log.offered + multiset{event}))
  }

  function Dropped(s: State, event: Event): State {
    s.(dropped := s.dropped + 1, log := s.log.(lost := s.log.lost + multiset{event}))
  }

  function At(s: State, p: nat, producer: Producer): State
    requires p < |s.producers|
  {
    s.(producers := s.producers[p := producer])
  }

  function Next(s: State, step: Step): State
    requires Enabled(s, step)
  {
    match step
    case Enqueue(p, e, notify, registration) =>
      if !notify || registration == Declines then s
      else if registration == Fails || !s.hasSender then Dropped(Offered(s, e), e)
      else At(Offered(s, e), p, Eligible(e))
    case RaiseDepth(p) => At(s, p, Counted(s.producers[p].event)).(depth := s.depth + 1)
    case TrySend(p) =>
      var e := s.producers[p].event;
      if s.worker.Gone? || !FreeSlot(s) then At(s, p, Refused(e))
      else
        var sent := Sent(s, e);
        At(sent, p, Idle).(log := sent.log.(slotted := s.log.slotted + multiset{e}))
    case LowerDepth(p) => At(s, p, Uncounted(s.producers[p].event)).(depth := Lowered(s.depth))
    case CountDrop(p) => At(Dropped(s, s.producers[p].event), p, Idle)
    case ReplayReserve =>
      if s.worker.Gone?
      then s.(replay := Finished, dropped := s.dropped + 1, log := s.log.(replayCut := true))
      else s.(replay := Reserved)
    case ReplayRaise => s.(replay := ReplayCounted, depth := s.depth + 1)
    case ReplaySend => Sent(s, s.rest[0]).(replay := Waiting, rest := s.rest[1..])
    case Receive =>
      s.(worker := Took(s.channel[0]), channel := s.channel[1..],
         log := s.log.(received := s.log.received + [s.channel[0]]))
    case WorkerLower => s.(worker := Delivering(s.worker.event), depth := Lowered(s.depth))
    case WorkerDone => s.(worker := Receiving)
    case WorkerGoes => s.(worker := Gone, channel := [], log := s.log.(abandoned := s.log.abandoned + s.channel))
  }

  /** The state after a run, or None when some step of it was not possible. */
  function After(s: State, steps: seq<Step>): Option<State>
    decreases steps
  {
    if steps == [] then Some(s)
    else
      var before := After(s, steps[..|steps| - 1]);
      if before.None? || !Enabled(before.value, steps[|steps| - 1]) then None
      else Some(Next(before.value, steps[|steps| - 1]))
  }

  // ----- What every step keeps -----

  /** 1 between raising the depth for an event and settling it in the channel or lowering
      the depth again. */
  function Weight(p: Producer): nat {
    if p.Counted? || p.Refused? then 1 else 0
  }

  function InFlight(ps: seq<Producer>): nat {
    if ps == [] then 0 else InFlight(ps[..|ps| - 1]) + Weight(ps[|ps| - 1])
  }

  function Holds(p: Producer, e: Event): nat {
    if !p.Idle? && p.event == e then 1 else 0
  }

  /** How many `enqueue` calls for `e` are still running. */
  function Held(ps: seq<Producer>, e: Event): nat {
    if ps == [] then 0 else Held(ps[..|ps| - 1], e) + Holds(ps[|ps| - 1], e)
  }

  lemma {:induction false} UpdateProducer(ps: seq<Producer>, i: nat, p: Producer, e: Event)
    requires i < |ps|
    ensures InFlight(ps[i := p]) + Weight(ps[i]) == InFlight(ps) + Weight(p)
    ensures Held(ps[i := p], e) + Holds(ps[i], e) == Held(ps, e) + Holds(p, e)
  {
    var n := |ps| - 1;
    if i == n {
      assert ps[i := p][..n] == ps[..n];
    } else {
      UpdateProducer(ps[..n], i, p, e);
      assert ps[i := p][..n] == ps[..n][i := p];
    }
  }

  /** The depth counts the channel plus every task between a counter change and its
      channel operation. */
  predicate DepthExact(s: State) {
    s.depth == |s.channel| + |s.log.abandoned| + InFlight(s.producers)
               + (if s.replay == ReplayCounted then 1 else 0)
               + (if s.worker.Took? then 1 else 0)
  }

  /** Every call that had to settle `e` has it in a channel slot, has dropped it, or is
      still running. */
  predicate Settled(s: State, e: Event) {
    s.log.offered[e] == s.log.slotted[e] + s.log.lost[e] + Held(s.producers, e)
  }

  /** The drop counter counts the drops. */
  predicate DropsCounted(s: State) {
    && s.dropped == |s.log.lost| + (if s.log.replayCut then 1 else 0)
    && (s.log.replayCut ==> s.replay == Finished)
    && (s.replay == Finished ==> s.log.replayCut)
  }

  /** Events leave the channel in the order they entered it and none is lost in it. */
  predicate Ordered(s: State) {
    && s.log.accepted == s.log.received + s.channel + s.log.abandoned
    && (s.worker.Gone? ==> s.channel == [])
    && (!s.worker.Gone? ==> s.log.abandoned == [])
  }

  predicate Bounded(s: State) {
    s.worker.Gone? || |s.channel| + Permits(s) <= s.capacity
  }

  predicate Inv(s: State) {
    DepthExact(s) && DropsCounted(s) && Ordered(s) && Bounded(s)
  }

  lemma {:induction false} AllIdle(ps: seq<Producer>, e: Event)
    requires forall i :: 0 <= i < |ps| ==> ps[i].Idle?
    ensures InFlight(ps) == 0 && Held(ps, e) == 0
  {
    if ps != [] {
      AllIdle(ps[..|ps| - 1], e);
    }
  }

  predicate ProducerStep(step: Step) {
    step.Enqueue? || step.RaiseDepth? || step.TrySend? || step.LowerDepth? || step.CountDrop?
  }

  lemma DropKeepsInv(s: State, event: Event, e: Event)
    requires Inv(s)
    ensures Inv(Dropped(Offered(s, event), event))
    ensures Settled(s, e) ==> Settled(Dropped(Offered(s, event), event), e)
  {
  }

  lemma OfferKeepsInv(s: State, p: nat, event: Event, e: Event)
    requires Inv(s) && p < |s.producers| && s.producers[p].Idle?
    ensures Inv(At(Offered(s, event), p, Eligible(event)))
    ensures Settled(s, e) ==> Settled(At(Offered(s, event), p, Eligible(event)), e)
  {
    UpdateProducer(s.producers, p, Eligible(event), e);
  }

  lemma EnqueueKeepsInv(s: State, step: Step, e: Event)
    requires Inv(s) && Enabled(s, step) && step.Enqueue?
    ensures Inv(Next(s, step))
    ensures Settled(s, e) ==> Settled(Next(s, step), e)
  {
    DropKeepsInv(s, step.event, e);
    OfferKeepsInv(s, step.p, step.event, e);
  }

  lemma RefusalKeepsInv(s: State, p: nat, e: Event)
    requires Inv(s) && p < |s.producers| && s.producers[p].Counted?
    ensures Inv(At(s, p, Refused(s.producers[p].event)))
    ensures Settled(s, e) ==> Settled(At(s, p, Refused(s.producers[p].event)), e)
  {
    UpdateProducer(s.producers, p, Refused(s.producers[p].event), e);
  }

  lemma SlotKeepsInv(s: State, p: nat, e: Event)
    requires Inv(s) && Enabled(s, TrySend(p)) && !s.worker.Gone? && FreeSlot(s)
    ensures Inv(Next(s, TrySend(p)))
    ensures Settled(s, e) ==> Settled(Next(s, TrySend(p)), e)
  {
    var event := s.producers[p].event;
    UpdateProducer(s.producers, p, Idle, e);
    assert s.log.accepted + [event] == s.log.received + (s.channel + [event]) + [];
  }

  lemma TrySendKeepsInv(s: State, step: Step, e: Event)
    requires Inv(s) && Enabled(s, step) && step.TrySend?
    ensures Inv(Next(s, step))
    ensures Settled(s, e) ==> Settled(Next(s, step), e)
  {
    if !s.worker.Gone? && FreeSlot(s) {
      SlotKeepsInv(s, step.p, e);
    } else {
      RefusalKeepsInv(s, step.p, e);
    }
  }

  lemma CountingKeepsInv(s: State, step: Step, e: Event)
    requires Inv(s) && Enabled(s, step) && (step.RaiseDepth? || step.LowerDepth? || step.CountDrop?)
    ensures Inv(Next(s, step))
    ensures Settled(s, e) ==> Settled(Next(s, step), e)
  {
    UpdateProducer(s.producers, step.p, Next(s, step).producers[step.p], e);
  }

  lemma ReplayKeepsInv(s: State, step: Step, e: Event)
    requires Inv(s) && Enabled(s, step) && (step.ReplayReserve? || step.ReplayRaise? || step.ReplaySend?)
    ensures Inv(Next(s, step))
    ensures Settled(s, e) ==> Settled(Next(s, step), e)
  {
  }

  lemma WorkerKeepsInv(s: State, step: Step, e: Event)
    requires Inv(s) && Enabled(s, step) && (step.Receive? || step.WorkerLower? || step.WorkerDone? || step.WorkerGoes?)
    ensures Inv(Next(s, step))
    ensures Settled(s, e) ==> Settled(Next(s, step), e)
  {
    if step.Receive? {
      assert s.channel == [s.channel[0]] + s.channel[1..];
    }
  }

  lemma TaskStepKeepsInv(s: State, step: Step, e: Event)
    requires Inv(s) && Enabled(s, step) && !ProducerStep(step)
    ensures Inv(Next(s, step))
    ensures Settled(s, e) ==> Settled(Next(s, step), e)
  {
    if step.ReplayReserve? || step.ReplayRaise? || step.ReplaySend? {
      ReplayKeepsInv(s, step, e);
    } else {
      WorkerKeepsInv(s, step, e);
    }
  }

  lemma {:induction false} RunKeepsInv(s0: State, steps: seq<Step>, e: Event)
    requires Inv(s0) && Settled(s0, e) && After(s0, steps).Some?
    ensures Inv(After(s0, steps).value) && Settled(After(s0, steps).value, e)
    decreases steps
  {
    if steps != [] {
      var n := |steps| - 1;
      RunKeepsInv(s0, steps[..n], e);
      var s := After(s0, steps[..n]).value;
      if steps[n].Enqueue? {
        EnqueueKeepsInv(s, steps[n], e);
      } else if steps[n].TrySend? {
        TrySendKeepsInv(s, steps[n], e);
      } else if ProducerStep(steps[n]) {
        CountingKeepsInv(s, steps[n], e);
      } else {
        TaskStepKeepsInv(s, steps[n], e);
      }
    }
  }

  /** Some run, with any capacity, producers and events to replay, ends in `s`. */
  ghost predicate Reachable(s: State) {
    exists capacity, hasSender, producers, pending, steps ::
      After(Start(capacity, hasSender, producers, pending), steps) == Some(s)
  }

  /** The invariant holds in every reachable state. */
  lemma ReachableInv(s: State, e: Event)
    requires Reachable(s)
    ensures Inv(s) && Settled(s, e)
  {
    var capacity, hasSender, producers, pending, steps :|
      After(Start(capacity, hasSender, producers, pending), steps) == Some(s);
    var s0 := Start(capacity, hasSender, producers, pending);
    AllIdle(s0.producers, e);
    RunKeepsInv(s0, steps, e);
  }

  // ----- What follows for every reachable state -----

  lemma {:induction false} InFlightCovers(ps: seq<Producer>, i: nat)
    requires i < |ps|
    ensures Weight(ps[i]) <= InFlight(ps) <= |ps|
  {
    var n := |ps| - 1;
    if i < n {
      InFlightCovers(ps[..n], i);
    } else if n > 0 {
      InFlightCovers(ps[..n], 0);
    }
  }

  /** The saturating decrement never meets a zero: lowering the depth always undoes an
      earlier raise. */
  lemma LoweringNeverSaturates(s: State, step: Step)
    requires Reachable(s) && Enabled(s, step) && (step.LowerDepth? || step.WorkerLower?)
    ensures Next(s, step).depth + 1 == s.depth
  {
    ReachableInv(s, "");
    if step.LowerDepth? {
      InFlightCovers(s.producers, step.p);
    }
  }

  /** While the worker lives the reported depth is the channel's length plus everyone
      between a counter change and its channel operation. So it exceeds the capacity by
      at most the producers in between and one event the worker has just taken. */
  lemma DepthTracksChannel(s: State)
    requires Reachable(s) && !s.worker.Gone?
    ensures |s.channel| <= s.capacity
    ensures s.depth == |s.channel| + InFlight(s.producers)
                       + (if s.replay == ReplayCounted then 1 else 0) + (if s.worker.Took? then 1 else 0)
    ensures s.depth <= s.capacity + InFlight(s.producers) + 1
  {
    ReachableInv(s, "");
  }

  lemma OneMore(s0: State, steps: seq<Step>, s: State, step: Step)
    requires After(s0, steps) == Some(s) && Enabled(s, step)
    ensures After(s0, steps + [step]) == Some(Next(s, step))
  {
    assert (steps + [step])[..|steps|] == steps;
  }

  lemma ReachableStep(s: State, step: Step)
    requires Reachable(s) && Enabled(s, step)
    ensures Reachable(Next(s, step))
  {
    var capacity, hasSender, producers, pending, steps :|
      After(Start(capacity, hasSender, producers, pending), steps) == Some(s);
    OneMore(Start(capacity, hasSender, producers, pending), steps, s, step);
  }

  /** The depth can pass the capacity: a producer has raised it for an event the full channel
      has no slot for. */
  lemma DepthCanExceedCapacity(a: Event, b: Event) returns (s: State)
    ensures Reachable(s) && !s.worker.Gone? && s.capacity < s.depth
  {
    s := Start(1, true, 2, []);
    assert After(s, []) == Some(s);
    s := FillSlot(s, 0, a);
    ReachableStep(s, Enqueue(1, b, true, Accepts));
    s := Next(s, Enqueue(1, b, true, Accepts));
    ReachableStep(s, RaiseDepth(1));
    s := Next(s, RaiseDepth(1));
  }

  /** One undisturbed `enqueue` takes a free slot. */
  lemma FillSlot(s: State, p: nat, e: Event) returns (after: State)
    requires Reachable(s) && p < |s.producers| && s.producers[p].Idle? && s.hasSender && !s.worker.Gone? && FreeSlot(s)
    ensures Reachable(after)
    ensures after == s.(channel := s.channel + [e], depth := s.depth + 1, log := after.log)
  {
    var s1 := Next(s, Enqueue(p, e, true, Accepts));
    ReachableStep(s, Enqueue(p, e, true, Accepts));
    var s2 := Next(s1, RaiseDepth(p));
    ReachableStep(s1, RaiseDepth(p));
    after := Next(s2, TrySend(p));
    ReachableStep(s2, TrySend(p));
    assert after.producers == s.producers;
  }

  /** The channel has taken the events of settled calls and the replayed ones, and no other. */
  predicate SlotsFilled(accepted: seq<Event>, slotted: multiset<Event>, rest: seq<Event>, pending: seq<Event>) {
    && |rest| <= |pending| && rest == pending[|pending| - |rest|..]
    && multiset(accepted) == slotted + multiset(pending[..|pending| - |rest|])
  }

  lemma ReplayFillsSlot(accepted: seq<Event>, slotted: multiset<Event>, rest: seq<Event>, pending: seq<Event>)
    requires rest != [] && SlotsFilled(accepted, slotted, rest, pending)
    ensures SlotsFilled(accepted + [rest[0]], slotted, rest[1..], pending)
  {
    var k := |pending| - |rest|;
    assert rest[0] == pending[k];
    assert pending[..k + 1] == pending[..k] + [pending[k]];
  }

  lemma CallFillsSlot(accepted: seq<Event>, slotted: multiset<Event>, rest: seq<Event>, pending: seq<Event>, event: Event)
    requires SlotsFilled(accepted, slotted, rest, pending)
    ensures SlotsFilled(accepted + [event], slotted + multiset{event}, rest, pending)
  {
  }

  lemma OtherStepsFillNothing(s: State, step: Step)
    requires Enabled(s, step) && !step.ReplaySend? && !(step.TrySend? && !s.worker.Gone? && FreeSlot(s))
    ensures var after := Next(s, step);
            after.log.accepted == s.log.accepted && after.log.slotted == s.log.slotted && after.rest == s.rest
  {
  }

  lemma StepFillsSlots(s: State, step: Step, pending: seq<Event>)
    requires SlotsFilled(s.log.accepted, s.log.slotted, s.rest, pending) && Enabled(s, step)
    ensures var after := Next(s, step);
            SlotsFilled(after.log.accepted, after.log.slotted, after.rest, pending)
  {
    if step.ReplaySend? {
      ReplayFillsSlot(s.log.accepted, s.log.slotted, s.rest, pending);
    } else if step.TrySend? && !s.worker.Gone? && FreeSlot(s) {
      CallFillsSlot(s.log.accepted, s.log.slotted, s.rest, pending, s.producers[step.p].event);
    } else {
      OtherStepsFillNothing(s, step);
    }
  }

  lemma {:induction false} RunFillsSlots(s0: State, steps: seq<Step>, pending: seq<Event>)
    requires SlotsFilled(s0.log.accepted, s0.log.slotted, s0.rest, pending) && After(s0, steps).Some?
    ensures var s := After(s0, steps).value;
            SlotsFilled(s.log.accepted, s.log.slotted, s.rest, pending)
    decreases steps
  {
    if steps != [] {
      var n := |steps| - 1;
      RunFillsSlots(s0, steps[..n], pending);
      StepFillsSlots(After(s0, steps[..n]).value, steps[n], pending);
    }
  }

  /** The events of `enqueue` calls that notify and are not declined by their registration. */
  function OfferedBy(steps: seq<Step>): multiset<Event> {
    if steps == [] then multiset{}
    else
      var n := |steps| - 1;
      OfferedBy(steps[..n])
      + if steps[n].Enqueue? && steps[n].notify && steps[n].registration != Declines then multiset{steps[n].event}
        else multiset{}
  }

  lemma StepOffers(s: State, step: Step)
    requires Enabled(s, step)
    ensures Next(s, step).log.offered
         == s.log.offered + if step.Enqueue? && step.notify && step.registration != Declines then multiset{step.event}
                            else multiset{}
  {
  }

  lemma {:induction false} RunOffers(s0: State, steps: seq<Step>)
    requires s0.log.offered == multiset{} && After(s0, steps).Some?
    ensures After(s0, steps).value.log.offered == OfferedBy(steps)
    decreases steps
  {
    if steps != [] {
      var n := |steps| - 1;
      RunOffers(s0, steps[..n]);
      StepOffers(After(s0, steps[..n]).value, steps[n]);
    }
  }

  /** The events of calls that cannot reach the channel: their registration failed, or there is
      no worker to send to. */
  function DroppedBy(steps: seq<Step>, hasSender: bool): multiset<Event> {
    if steps == [] then multiset{}
    else
      var n := |steps| - 1;
      DroppedBy(steps[..n], hasSender)
      + if steps[n].Enqueue? && steps[n].notify
           && (steps[n].registration == Fails || (steps[n].registration == Accepts && !hasSender))
        then multiset{steps[n].event} else multiset{}
  }

  lemma StepDrops(s: State, step: Step)
    requires Enabled(s, step)
    ensures Next(s, step).hasSender == s.hasSender
    ensures s.log.lost + (if step.Enqueue? && step.notify
                             && (step.registration == Fails || (step.registration == Accepts && !s.hasSender))
                          then multiset{step.event} else multiset{})
         <= Next(s, step).log.lost
  {
  }

  /** A call that cannot reach the channel is a counted drop. */
  lemma {:induction false} RunDrops(s0: State, steps: seq<Step>)
    requires After(s0, steps).Some?
    ensures After(s0, steps).value.hasSender == s0.hasSender
    ensures DroppedBy(steps, s0.hasSender) <= After(s0, steps).value.log.lost
    decreases steps
  {
    if steps != [] {
      var n := |steps| - 1;
      RunDrops(s0, steps[..n]);
      StepDrops(After(s0, steps[..n]).value, steps[n]);
    }
  }

  lemma OffersSettled(s: State)
    requires Reachable(s) && forall i :: 0 <= i < |s.producers| ==> s.producers[i].Idle?
    ensures s.log.offered == s.log.slotted + s.log.lost
  {
    forall e: Event
      ensures s.log.offered[e] == s.log.slotted[e] + s.log.lost[e]
    {
      ReachableInv(s, e);
      AllIdle(s.producers, e);
    }
  }

  /** Once no `enqueue` is running, each call that had to settle its event ended in exactly one
      channel slot or one counted drop: what the worker received, what waits and what it left
      behind is, event by event, the offers without the drops, plus what was replayed. */
  lemma EveryOfferSettledOnce(capacity: nat, hasSender: bool, producers: nat, pending: seq<Event>, steps: seq<Step>, s: State)
    requires After(Start(capacity, hasSender, producers, pending), steps) == Some(s)
    requires forall i :: 0 <= i < |s.producers| ==> s.producers[i].Idle?
    ensures |s.rest| <= |pending|
    ensures OfferedBy(steps) + multiset(pending[..|pending| - |s.rest|])
         == multiset(s.log.received + s.channel + s.log.abandoned) + s.log.lost
    ensures s.dropped == |s.log.lost| + (if s.log.replayCut then 1 else 0)
  {
    RunFillsFromStart(capacity, hasSender, producers, pending, steps, s);
    RunOffers(Start(capacity, hasSender, producers, pending), steps);
    OffersSettled(s);
    DropsAndOrder(s);
    var replayed := multiset(pending[..|pending| - |s.rest|]);
    Balance(s.log.offered, s.log.slotted, s.log.lost, multiset(s.log.accepted), replayed);
  }

  lemma RunFillsFromStart(capacity: nat, hasSender: bool, producers: nat, pending: seq<Event>, steps: seq<Step>, s: State)
    requires After(Start(capacity, hasSender, producers, pending), steps) == Some(s)
    ensures Reachable(s) && SlotsFilled(s.log.accepted, s.log.slotted, s.rest, pending)
  {
    StartFillsNothing(capacity, hasSender, producers, pending);
    RunFillsSlots(Start(capacity, hasSender, producers, pending), steps, pending);
  }

  lemma DropsAndOrder(s: State)
    requires Reachable(s)
    ensures s.dropped == |s.log.lost| + (if s.log.replayCut then 1 else 0)
    ensures s.log.accepted == s.log.received + s.channel + s.log.abandoned
  {
    ReachableInv(s, "");
  }

  lemma StartFillsNothing(capacity: nat, hasSender: bool, producers: nat, pending: seq<Event>)
    ensures var s := Start(capacity, hasSender, producers, pending);
            SlotsFilled(s.log.accepted, s.log.slotted, s.rest, pending)
  {
    assert pending[0..] == pending && pending[..0] == [];
  }

  lemma Balance(offered: multiset<Event>, slotted: multiset<Event>, lost: multiset<Event>,
                accepted: multiset<Event>, replayed: multiset<Event>)
    requires offered == slotted + lost && accepted == slotted + replayed
    ensures offered + replayed == accepted + lost
  {
  }

  /** The worker receives events in the order they were accepted, and every accepted event
      is received, waiting, or was left behind when the worker went. */
  lemma ReceivedInOrder(s: State)
    requires Reachable(s)
    ensures s.log.accepted == s.log.received + (s.channel + s.log.abandoned)
    ensures s.log.received <= s.log.accepted
  {
    ReachableInv(s, "");
    assert s.log.received + s.channel + s.log.abandoned == s.log.received + (s.channel + s.log.abandoned);
  }
}

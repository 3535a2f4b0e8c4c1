/**
 Merging a service poll with the previous one: failed polls keep the last collected
 values, marked by age, and CPU usage is computed against the last collected sample.
 */
module ServiceHistory {
  import opened Options
  import opened CpuUsage

  datatype State = Live | Delayed | Stale | Unavailable | Error

  /** A cgroup sample; `other` stands for the counters no merge looks at. */
  datatype Resource = Resource(collectedAt: nat, cpuUsec: nat, milliPercent: Option<nat>, other: seq<nat>)

  datatype Semantic = Semantic(kind: string, values: seq<nat>)

  datatype Health = Health(
    name: string, state: State, lastSuccessAt: Option<string>, errorCode: Option<string>,
    unit: Option<string>, collectedAt: Option<nat>, resourceState: Option<State>,
    semanticState: Option<State>, resources: Option<Resource>, semantic: Option<Semantic>)

  // ----- One service, one poll -----

  function ElapsedMs(prior: Resource, sample: Resource): nat {
    SaturatingSub(sample.collectedAt, prior.collectedAt)
  }

  /** The new sample with its usage since the prior one, when time has passed. */
  function WithUsage(prior: Resource, sample: Resource): Resource {
    var elapsed := ElapsedMs(prior, sample);
    if elapsed == 0 then sample
    else sample.(milliPercent := Some(SaturatingMul(SaturatingSub(sample.cpuUsec, prior.cpuUsec), 100) / elapsed))
  }

  function AgeMs(collectedAt: Option<nat>, now: nat): nat {
    if collectedAt.None? then U64_MAX else SaturatingSub(now, collectedAt.value)
  }

  /** A raw poll result merged with the service's previous entry. */
  function Merged(previous: Option<Health>, raw: Health, now: nat, staleAfter: nat): Health {
    if previous.None? then raw
    else
      var o := previous.value;
      var polled := if o.resources.Some? && raw.resources.Some?
                    then raw.(resources := Some(WithUsage(o.resources.value, raw.resources.value))) else raw;
      if raw.state == Live then polled
      else polled.(
        resources := if polled.resources.None? then o.resources else polled.resources,
        semantic := if polled.semantic.None? then o.semantic else polled.semantic,
        lastSuccessAt := o.lastSuccessAt,
        state := if AgeMs(o.collectedAt, now) >= staleAfter then Stale else Delayed,
        collectedAt := o.collectedAt)
  }

  /** The entry a lookup by name finds: the last one listed. */
  function Named(entries: seq<Health>, name: string): Option<Health> {
    if entries == [] then None
    else if entries[|entries| - 1].name == name then Some(entries[|entries| - 1])
    else Named(entries[..|entries| - 1], name)
  }

  method ByName(previous: seq<Health>) returns (byName: map<string, Health>)
    ensures forall name :: (if name in byName then Some(byName[name]) else None) == Named(previous, name)
  {
    byName := map[];
    var k := 0;
    while k < |previous|
      invariant 0 <= k <= |previous|
      invariant forall name :: (if name in byName then Some(byName[name]) else None) == Named(previous[..k], name)
    {
      assert previous[..k + 1][..k] == previous[..k];
      byName := byName[previous[k].name := previous[k]];
      k := k + 1;
    }
    assert previous[..k] == previous;
  }

  /** Updates one entry field by field. */
  method MergeOne(prior: Health, raw: Health, now: nat, staleAfter: nat) returns (snapshot: Health)
    ensures snapshot == Merged(Some(prior), raw, now, staleAfter)
  {
    snapshot := raw;
    if prior.resources.Some? && snapshot.resources.Some? {
      snapshot := snapshot.(resources := Some(WithUsage(prior.resources.value, snapshot.resources.value)));
    }
    if snapshot.state == Live {
      return;
    }
    if snapshot.resources.None? {
      snapshot := snapshot.(resources := prior.resources);
    }
    if snapshot.semantic.None? {
      snapshot := snapshot.(semantic := prior.semantic);
    }
    snapshot := snapshot.(lastSuccessAt := prior.lastSuccessAt);
    var age := AgeMs(prior.collectedAt, now);
    snapshot := snapshot.(state := if age >= staleAfter then Stale else Delayed);
    snapshot := snapshot.(collectedAt := prior.collectedAt);
  }

  /** Merges every entry of `current` in place with its namesake in `previous`. */
  method MergeServiceHistory(previous: seq<Health>, current: array<Health>, now: nat, staleAfter: nat)
    modifies current
    ensures forall i :: 0 <= i < current.Length ==>
              current[i] == Merged(Named(previous, old(current[i]).name), old(current[i]), now, staleAfter)
  {
    var byName := ByName(previous);
    var i := 0;
    while i < current.Length
      invariant 0 <= i <= current.Length
      invariant forall j :: 0 <= j < i ==>
                  current[j] == Merged(Named(previous, old(current[j]).name), old(current[j]), now, staleAfter)
      invariant forall j :: i <= j < current.Length ==> current[j] == old(current[j])
    {
      var snapshot := current[i];
      if snapshot.name in byName {
        current[i] := MergeOne(byName[snapshot.name], snapshot, now, staleAfter);
      }
      i := i + 1;
    }
  }

  // ----- Every poll of every service -----

  /** One round of polls, and the clock when it is merged. */
  datatype Round = Round(raw: seq<Health>, now: nat)

  function MergedRound(previous: seq<Health>, round: Round, staleAfter: nat): seq<Health> {
    seq(|round.raw|, i requires 0 <= i < |round.raw| =>
      Merged(Named(previous, round.raw[i].name), round.raw[i], round.now, staleAfter))
  }

  /** The health list after all rounds, each merged with the list before it. */
  function AfterRounds(rounds: seq<Round>, staleAfter: nat): seq<Health> {
    if rounds == [] then []
    else MergedRound(AfterRounds(rounds[..|rounds| - 1], staleAfter), rounds[|rounds| - 1], staleAfter)
  }

  lemma {:induction false} NamedMerged(previous: seq<Health>, round: Round, name: string, staleAfter: nat)
    ensures var found := Named(round.raw, name);
            Named(MergedRound(previous, round, staleAfter), name)
            == if found.None? then None
               else Some(Merged(Named(previous, name), found.value, round.now, staleAfter))
    decreases |round.raw|
  {
    if round.raw != [] {
      var n := |round.raw| - 1;
      var shorter := round.(raw := round.raw[..n]);
      NamedMerged(previous, shorter, name, staleAfter);
      assert MergedRound(previous, round, staleAfter)[..n] == MergedRound(previous, shorter, staleAfter);
    }
  }

  /** What a lookup finds after one more round. */
  lemma NamedAfter(rounds: seq<Round>, round: Round, name: string, staleAfter: nat)
    ensures var found := Named(round.raw, name);
            Named(AfterRounds(rounds + [round], staleAfter), name)
            == if found.None? then None
               else Some(Merged(Named(AfterRounds(rounds, staleAfter), name), found.value, round.now, staleAfter))
  {
    assert (rounds + [round])[..|rounds|] == rounds;
    NamedMerged(AfterRounds(rounds, staleAfter), round, name, staleAfter);
  }

  /** One service's result in one round. */
  datatype Poll = Poll(raw: Health, now: nat)

  /** What is served for a service polled in every round since the first of `polls`. */
  function Served(polls: seq<Poll>, staleAfter: nat): Health
    requires polls != []
  {
    var n := |polls| - 1;
    if n == 0 then polls[0].raw
    else Merged(Some(Served(polls[..n], staleAfter)), polls[n].raw, polls[n].now, staleAfter)
  }

  lemma ServedAppend(polls: seq<Poll>, poll: Poll, staleAfter: nat)
    ensures var previous := if polls == [] then None else Some(Served(polls, staleAfter));
            Served(polls + [poll], staleAfter) == Merged(previous, poll.raw, poll.now, staleAfter)
  {
    assert (polls + [poll])[..|polls|] == polls;
  }

  predicate ListedThroughout(rounds: seq<Round>, name: string) {
    forall k :: 0 <= k < |rounds| ==> Named(rounds[k].raw, name).Some?
  }

  function PollsOf(rounds: seq<Round>, name: string): (polls: seq<Poll>)
    requires ListedThroughout(rounds, name)
    ensures |polls| == |rounds|
  {
    if rounds == [] then []
    else
      var n := |rounds| - 1;
      PollsOf(rounds[..n], name) + [Poll(Named(rounds[n].raw, name).value, rounds[n].now)]
  }

  lemma LastRoundSplits(before: seq<Round>, rounds: seq<Round>)
    requires rounds != []
    ensures before + rounds == before + rounds[..|rounds| - 1] + [rounds[|rounds| - 1]]
  {
  }

  lemma UnlistedIsForgotten(before: seq<Round>, name: string, staleAfter: nat)
    requires before == [] || Named(before[|before| - 1].raw, name).None?
    ensures Named(AfterRounds(before, staleAfter), name) == None
  {
    if before != [] {
      var m := |before| - 1;
      assert before == before[..m] + [before[m]];
      NamedAfter(before[..m], before[m], name, staleAfter);
    }
  }

  /** After any rounds, from one that does not list a service the lookup finds nothing,
      and from then on the service is served as the fold of its own polls alone. */
  lemma {:induction false} ServesOwnPolls(before: seq<Round>, rounds: seq<Round>, name: string, staleAfter: nat)
    requires before == [] || Named(before[|before| - 1].raw, name).None?
    requires ListedThroughout(rounds, name)
    ensures Named(AfterRounds(before + rounds, staleAfter), name)
         == if rounds == [] then None else Some(Served(PollsOf(rounds, name), staleAfter))
    decreases |rounds|
  {
    if rounds == [] {
      assert before + rounds == before;
      UnlistedIsForgotten(before, name, staleAfter);
    } else {
      var n := |rounds| - 1;
      var earlier := PollsOf(rounds[..n], name);
      var poll := Poll(Named(rounds[n].raw, name).value, rounds[n].now);
      ServesOwnPolls(before, rounds[..n], name, staleAfter);
      LastRoundSplits(before, rounds);
      NamedAfter(before + rounds[..n], rounds[n], name, staleAfter);
      ServedAppend(earlier, poll, staleAfter);
    }
  }

  // ----- What a failed poll keeps -----

  /** `a` is the last live poll, or the first poll when none after it is live. */
  predicate IsAnchor(polls: seq<Poll>, a: nat) {
    && a < |polls|
    && (a == 0 || polls[a].raw.state == Live)
    && forall j :: a < j < |polls| ==> polls[j].raw.state != Live
  }

  lemma {:induction false} AnchorExists(polls: seq<Poll>) returns (a: nat)
    requires polls != []
    ensures IsAnchor(polls, a)
  {
    var n := |polls| - 1;
    if n == 0 || polls[n].raw.state == Live {
      a := n;
    } else {
      a := AnchorExists(polls[..n]);
    }
  }

  /** The served collection and success times are those of the last live poll. */
  lemma {:induction false} KeepsAnchorTimes(polls: seq<Poll>, a: nat, staleAfter: nat)
    requires IsAnchor(polls, a)
    ensures Served(polls, staleAfter).collectedAt == polls[a].raw.collectedAt
    ensures Served(polls, staleAfter).lastSuccessAt == polls[a].raw.lastSuccessAt
    decreases |polls|
  {
    var n := |polls| - 1;
    if a < n {
      KeepsAnchorTimes(polls[..n], a, staleAfter);
    }
  }

  /** A service that is not live is stale exactly when its last live poll is old enough. */
  lemma StaleExactlyByAge(polls: seq<Poll>, a: nat, staleAfter: nat)
    requires |polls| >= 2 && IsAnchor(polls, a)
    ensures var last, collected := polls[|polls| - 1], polls[a].raw.collectedAt;
            Served(polls, staleAfter).state
            == if last.raw.state == Live then Live
               else if (if collected.None? then staleAfter <= 0xFFFF_FFFF_FFFF_FFFF
                        else staleAfter == 0 || collected.value + staleAfter <= last.now) then Stale
               else Delayed
  {
    if a < |polls| - 1 {
      KeepsAnchorTimes(polls[..|polls| - 1], a, staleAfter);
    }
  }

  /** Under a clock that does not run backwards, stale stays stale until a live poll. */
  lemma StalePersists(polls: seq<Poll>, k: nat, staleAfter: nat)
    requires 2 <= k <= |polls|
    requires Served(polls[..k], staleAfter).state == Stale
    requires forall j :: k <= j < |polls| ==> polls[j].raw.state != Live
    requires forall i, j :: 0 <= i < j < |polls| ==> polls[i].now <= polls[j].now
    ensures Served(polls, staleAfter).state == Stale
  {
    var a := AnchorExists(polls[..k]);
    StaleExactlyByAge(polls[..k], a, staleAfter);
    assert IsAnchor(polls, a);
    StaleExactlyByAge(polls, a, staleAfter);
  }

  /** `s` is the last poll that decides a carried value: it has one of its own, or it is
      live, or it is the first. */
  predicate IsSource(polls: seq<Poll>, s: nat, has: Poll -> bool) {
    && s < |polls|
    && (s == 0 || polls[s].raw.state == Live || has(polls[s]))
    && forall j :: s < j < |polls| ==> polls[j].raw.state != Live && !has(polls[j])
  }

  /** Semantic values are those of the last poll that collected any or was live. */
  lemma {:induction false} KeepsLastSemantic(polls: seq<Poll>, s: nat, staleAfter: nat)
    requires IsSource(polls, s, (p: Poll) => p.raw.semantic.Some?)
    ensures Served(polls, staleAfter).semantic == polls[s].raw.semantic
    decreases |polls|
  {
    var n := |polls| - 1;
    if s < n {
      KeepsLastSemantic(polls[..n], s, staleAfter);
    }
  }

  /** Resource counters are those of the last poll that collected any or was live. */
  lemma {:induction false} KeepsLastResources(polls: seq<Poll>, s: nat, staleAfter: nat)
    requires IsSource(polls, s, (p: Poll) => p.raw.resources.Some?)
    ensures var kept, raw := Served(polls, staleAfter).resources, polls[s].raw.resources;
            && kept.Some? == raw.Some?
            && (kept.Some? ==> kept.value.(milliPercent := None) == raw.value.(milliPercent := None))
    decreases |polls|
  {
    var n := |polls| - 1;
    if s < n {
      KeepsLastResources(polls[..n], s, staleAfter);
    }
  }

  // ----- What a poll decides by itself -----

  /** The name, error, unit and partial states served are the last poll's own, and a live poll
      is served as it is but for the usage of its sample. */
  lemma ServesPollItself(polls: seq<Poll>, staleAfter: nat)
    requires polls != []
    ensures var raw, served := polls[|polls| - 1].raw, Served(polls, staleAfter);
            && served.name == raw.name && served.errorCode == raw.errorCode && served.unit == raw.unit
            && served.resourceState == raw.resourceState && served.semanticState == raw.semanticState
            && (raw.state == Live ==> served.(resources := raw.resources) == raw)
  {
  }

  /** The lookup by name finds the last entry with that name, if there is one. */
  lemma {:induction false} NamedIsLast(entries: seq<Health>, name: string)
    ensures Named(entries, name).None? <==> forall k :: 0 <= k < |entries| ==> entries[k].name != name
    ensures Named(entries, name).Some? ==>
              exists k :: 0 <= k < |entries| && entries[k] == Named(entries, name).value && entries[k].name == name
                          && forall j :: k < j < |entries| ==> entries[j].name != name
  {
    if entries != [] && entries[|entries| - 1].name != name {
      var earlier := entries[..|entries| - 1];
      NamedIsLast(earlier, name);
      if Named(earlier, name).Some? {
        var k :| 0 <= k < |earlier| && earlier[k] == Named(earlier, name).value && earlier[k].name == name
                 && forall j :: k < j < |earlier| ==> earlier[j].name != name;
        assert entries[k] == earlier[k];
      }
    }
  }

  // ----- CPU usage over a run -----

  /** The usage of a sample on the numbers: a hundred times the growth, at most 2^64 - 1, over
      the elapsed time; no usage without elapsed time, and none where the counter fell. */
  lemma UsageOnNumbers(prior: Resource, sample: Resource)
    ensures var grown := if sample.cpuUsec >= prior.cpuUsec then sample.cpuUsec - prior.cpuUsec else 0;
            var scaled := if 100 * grown <= 0xFFFF_FFFF_FFFF_FFFF then 100 * grown else 0xFFFF_FFFF_FFFF_FFFF;
            WithUsage(prior, sample)
            == if sample.collectedAt <= prior.collectedAt then sample
               else sample.(milliPercent := Some(scaled / (sample.collectedAt - prior.collectedAt)))
  {
  }

  /** The samples collected since the last live poll without any, in order. */
  function Collected(polls: seq<Poll>): seq<Resource> {
    if polls == [] then []
    else
      var n := |polls| - 1;
      var r := polls[n].raw.resources;
      if r.Some? then Collected(polls[..n]) + [r.value]
      else if polls[n].raw.state == Live then [] else Collected(polls[..n])
  }

  /** Each served usage is computed against the last sample actually collected, however
      many polls failed in between; a live poll without a sample starts afresh. */
  lemma {:induction false} UsageAgainstLastCollected(polls: seq<Poll>, staleAfter: nat)
    requires polls != []
    ensures var c := Collected(polls);
            Served(polls, staleAfter).resources
            == if c == [] then None
               else if |c| == 1 then Some(c[0])
               else Some(WithUsage(c[|c| - 2], c[|c| - 1]))
    decreases |polls|
  {
    var n := |polls| - 1;
    if n > 0 {
      UsageAgainstLastCollected(polls[..n], staleAfter);
    } else {
      assert Collected(polls[..0]) == [];
    }
  }
}

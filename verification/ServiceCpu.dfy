/** The CPU usage of a service over a whole run: what the reported percentages add up to. */
module ServiceCpu {
  import opened Options
  import opened CpuUsage
  import opened ServiceHistory

  /** Collection times and usage counters do not run backwards. */
  predicate Monotone(s: seq<Resource>) {
    forall i, j :: 0 <= i < j < |s| ==> s[i].collectedAt <= s[j].collectedAt && s[i].cpuUsec <= s[j].cpuUsec
  }

  /** No percentage saturates 64 bits. */
  predicate Fits(s: seq<Resource>) {
    forall i :: 0 <= i < |s| - 1 ==> (s[i + 1].cpuUsec - s[i].cpuUsec) * 100 <= U64_MAX
  }

  /** Reported percentage times elapsed time for one pair of samples. */
  function PairWork(a: Resource, b: Resource): nat {
    if ElapsedMs(a, b) == 0 then 0 else WithUsage(a, b).milliPercent.value * ElapsedMs(a, b)
  }

  /** The same, summed over consecutive samples. */
  function Work(s: seq<Resource>): nat {
    if |s| < 2 then 0
    else Work(s[..|s| - 1]) + PairWork(s[|s| - 2], s[|s| - 1])
  }

  /** Usage that grew between two samples with the same collection time. */
  function Unseen(s: seq<Resource>): nat {
    if |s| < 2 then 0
    else
      var a, b := s[|s| - 2], s[|s| - 1];
      Unseen(s[..|s| - 1]) + if ElapsedMs(a, b) == 0 then SaturatingSub(b.cpuUsec, a.cpuUsec) else 0
  }

  function Growth(s: seq<Resource>): int
    requires s != []
  {
    s[|s| - 1].cpuUsec - s[0].cpuUsec
  }

  function Elapsed(s: seq<Resource>): int
    requires s != []
  {
    s[|s| - 1].collectedAt - s[0].collectedAt
  }

  lemma FloorTimes(x: nat, e: nat)
    requires e > 0
    ensures x - e < x / e * e <= x
  {
    assert x == x / e * e + x % e;
  }

  lemma PairTelescopes(a: Resource, b: Resource)
    requires a.collectedAt <= b.collectedAt && a.cpuUsec <= b.cpuUsec
    requires (b.cpuUsec - a.cpuUsec) * 100 <= U64_MAX
    ensures var e, d := b.collectedAt - a.collectedAt, b.cpuUsec - a.cpuUsec;
            if e == 0 then PairWork(a, b) == 0 else 100 * d - e < PairWork(a, b) <= 100 * d
  {
    var e, d := b.collectedAt - a.collectedAt, b.cpuUsec - a.cpuUsec;
    if e > 0 {
      FloorTimes(d * 100, e);
    }
  }

  /** The percentages telescope: up to rounding of less than the elapsed time they add
      up to a hundred times the usage growth, less what grew in no time at all. */
  lemma {:induction false} Telescopes(s: seq<Resource>)
    requires s != [] && Monotone(s) && Fits(s)
    ensures var seen := 100 * (Growth(s) - Unseen(s));
            && Work(s) <= seen
            && (if Elapsed(s) == 0 then Work(s) == seen else seen - Work(s) < Elapsed(s))
    decreases |s|
  {
    if |s| >= 2 {
      var n := |s| - 1;
      var t := s[..n];
      assert Fits(t) && Monotone(t);
      Telescopes(t);
      PairTelescopes(s[n - 1], s[n]);
    }
  }

  /** At most a hundred times the growth, and short of it by less than the elapsed time. */
  predicate WithinRounding(s: seq<Resource>)
    requires s != []
  {
    Work(s) <= 100 * Growth(s) && 100 * Growth(s) - Work(s) < Elapsed(s)
  }

  predicate Increasing(times: seq<nat>) {
    forall i :: 0 <= i < |times| - 1 ==> times[i] < times[i + 1]
  }

  /** Samples collected at the given times whose counters are monotone and fit. */
  predicate SamplesAt(s: seq<Resource>, times: seq<nat>) {
    && |s| == |times|
    && (forall i :: 0 <= i < |s| ==> s[i].collectedAt == times[i])
    && Monotone(s)
    && Fits(s)
  }

  lemma {:induction false} IncreasingSeesAll(s: seq<Resource>, times: seq<nat>)
    requires SamplesAt(s, times) && Increasing(times)
    ensures Unseen(s) == 0
    decreases |s|
  {
    if |s| >= 2 {
      var n := |s| - 1;
      assert times[n - 1] < times[n - 1 + 1];
      IncreasingSeesAll(s[..n], times[..n]);
    }
  }

  lemma {:induction false} FlatWorksNothing(s: seq<Resource>)
    requires forall i :: 0 <= i < |s| - 1 ==>
               s[i + 1].cpuUsec == s[i].cpuUsec || s[i + 1].collectedAt == s[i].collectedAt
    ensures Work(s) == 0
    decreases |s|
  {
    if |s| >= 2 {
      var n := |s| - 1;
      FlatWorksNothing(s[..n]);
      assert s[n - 1 + 1].cpuUsec == s[n - 1].cpuUsec || s[n - 1 + 1].collectedAt == s[n - 1].collectedAt;
      if ElapsedMs(s[n - 1], s[n]) > 0 {
        assert WithUsage(s[n - 1], s[n]).milliPercent == Some(0 / ElapsedMs(s[n - 1], s[n]));
      }
    }
  }

  /** When two samples share a collection time, usage that grew between them is lost. */
  lemma RepeatedTimeLosesUsage(times: seq<nat>, at: nat) returns (s: seq<Resource>)
    requires at + 1 < |times| && times[at] == times[at + 1]
    requires forall i, j :: 0 <= i < j < |times| ==> times[i] <= times[j]
    requires times[|times| - 1] - times[0] + 100 <= U64_MAX
    ensures SamplesAt(s, times) && s != [] && !WithinRounding(s)
  {
    var usage := (times[|times| - 1] - times[0]) / 100 + 1;
    s := Jump(times, at, usage);
    JumpIsSamples(times, at, usage);
    FlatWorksNothing(s);
  }

  /** Samples at the given times whose counter jumps once, after sample `at`. */
  function Jump(times: seq<nat>, at: nat, usage: nat): (s: seq<Resource>)
    ensures |s| == |times|
    ensures forall k :: 0 <= k < |s| ==> s[k].collectedAt == times[k] && s[k].cpuUsec == (if k <= at then 0 else usage)
  {
    seq(|times|, k requires 0 <= k < |times| => Resource(times[k], if k <= at then 0 else usage, None, []))
  }

  lemma JumpIsSamples(times: seq<nat>, at: nat, usage: nat)
    requires forall i, j :: 0 <= i < j < |times| ==> times[i] <= times[j]
    requires 100 * usage <= U64_MAX
    ensures SamplesAt(Jump(times, at, usage), times)
  {
  }

  /** The bound holds for every counter run collected at given times if and only if no
      two consecutive collection times are equal. */
  lemma RoundingBoundExactlyWhenTimesIncrease(times: seq<nat>)
    requires |times| >= 2
    requires forall i, j :: 0 <= i < j < |times| ==> times[i] <= times[j]
    requires times[|times| - 1] - times[0] + 100 <= U64_MAX
    ensures Increasing(times) <==> forall s :: s != [] && SamplesAt(s, times) ==> WithinRounding(s)
  {
    if Increasing(times) {
      assert times[0] < times[0 + 1];
      assert times[0] < times[|times| - 1];
      forall s | s != [] && SamplesAt(s, times)
        ensures WithinRounding(s)
      {
        Telescopes(s);
        IncreasingSeesAll(s, times);
      }
    } else {
      var i :| 0 <= i < |times| - 1 && times[i] >= times[i + 1];
      var s := RepeatedTimeLosesUsage(times, i);
    }
  }

  // ----- The percentages actually served -----

  /** Served percentage times the time since the last collected sample, summed over the
      polls that collected one. */
  function ServedWork(polls: seq<Poll>, staleAfter: nat): nat {
    if polls == [] then 0
    else
      var n := |polls| - 1;
      var earlier, raw := Collected(polls[..n]), polls[n].raw.resources;
      var served := Served(polls, staleAfter).resources;
      ServedWork(polls[..n], staleAfter)
      + if raw.Some? && earlier != [] && served.Some? && served.value.milliPercent.Some?
        then served.value.milliPercent.value * ElapsedMs(earlier[|earlier| - 1], raw.value) else 0
  }

  /** The polls of a service with a cgroup: a live poll has collected its resources, and
      the collector leaves the percentage to the merge. */
  predicate CgroupPolls(polls: seq<Poll>) {
    forall k :: 0 <= k < |polls| ==>
      && (polls[k].raw.state == Live ==> polls[k].raw.resources.Some?)
      && (polls[k].raw.resources.Some? ==> polls[k].raw.resources.value.milliPercent.None?)
  }

  lemma {:induction false} ServedWorkIsWork(polls: seq<Poll>, staleAfter: nat)
    requires CgroupPolls(polls)
    ensures ServedWork(polls, staleAfter) == Work(Collected(polls))
    decreases |polls|
  {
    if polls != [] {
      var n := |polls| - 1;
      var earlier := Collected(polls[..n]);
      ServedWorkIsWork(polls[..n], staleAfter);
      UsageAgainstLastCollected(polls, staleAfter);
      if polls[n].raw.resources.Some? {
        var c := Collected(polls);
        assert c == earlier + [polls[n].raw.resources.value];
        assert c[..|c| - 1] == earlier;
      }
    }
  }

  /** Over any run of polls with gaps, the served percentages add up to a hundred times
      the usage growth, short by less than the elapsed time, when the collection times
      of the collected samples increase. */
  lemma ServedUsageTelescopes(polls: seq<Poll>, times: seq<nat>, staleAfter: nat)
    requires CgroupPolls(polls) && |times| >= 2
    requires SamplesAt(Collected(polls), times) && Increasing(times)
    ensures var c := Collected(polls);
            && c != []
            && ServedWork(polls, staleAfter) <= 100 * Growth(c)
            && 100 * Growth(c) - ServedWork(polls, staleAfter) < Elapsed(c)
  {
    var c := Collected(polls);
    ServedWorkIsWork(polls, staleAfter);
    Telescopes(c);
    IncreasingSeesAll(c, times);
    assert times[0] < times[0 + 1];
    assert c[0].collectedAt < c[1].collectedAt <= c[|c| - 1].collectedAt;
  }
}

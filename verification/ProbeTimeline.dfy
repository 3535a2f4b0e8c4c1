/** The continuous probe: each recorded sample updates the availability totals and the
    count of consecutive successes that `WaitHealthy` relies on. */
module ProbeTimeline {
  import opened Availability

  /** Length of the all-success suffix of a history. */
  function HealthySuffix(h: seq<Sample>, expected: int): nat {
    if h != [] && Succeeded(h[|h| - 1], expected) then 1 + HealthySuffix(h[..|h| - 1], expected) else 0
  }

  /** The suffix length is the largest number of last samples that all succeeded. */
  lemma {:induction false} HealthySuffixCounts(h: seq<Sample>, expected: int, n: nat)
    requires n <= |h|
    ensures n <= HealthySuffix(h, expected) <==>
              forall k :: |h| - n <= k < |h| ==> Succeeded(h[k], expected)
    decreases h
  {
    if n > 0 {
      HealthySuffixCounts(h[..|h| - 1], expected, n - 1);
    }
  }

  /** Three samples newer than the caller's mark, the last three recorded, all succeeded. */
  predicate Healthy(h: seq<Sample>, after: nat, expected: int) {
    |h| >= after + 3 && forall k :: |h| - 3 <= k < |h| ==> h[k].exitCode == 0 && h[k].status == expected
  }

  /** What happened by one check of the waiting loop. */
  datatype Wake = Wake(recorded: seq<Sample>, probeFailed: bool, expired: bool)

  datatype WaitResult = Waiting | Ready | TimedOut | Raised

  /** The history after the first `k` turns. */
  function SeenAfter(h: seq<Sample>, wakes: seq<Wake>, k: nat): seq<Sample>
    requires k <= |wakes|
  {
    if k == 0 then h else SeenAfter(h, wakes, k - 1) + wakes[k - 1].recorded
  }

  /** None of the first `n` turns finds the probe healthy. */
  predicate NeverHealthy(h: seq<Sample>, wakes: seq<Wake>, n: nat, after: nat, expected: int)
    requires n <= |wakes|
  {
    n == 0 || (NeverHealthy(h, wakes, n - 1, after, expected) && !Healthy(SeenAfter(h, wakes, n), after, expected))
  }

  class Timeline {
    const availability: ProbeAvailability
    var consecutiveSuccesses: nat
    var maxScheduleLagMs: int
    /** Every sample recorded so far. */
    ghost var history: seq<Sample>

    constructor (expectedStatus: int)
      ensures Valid() && history == [] && fresh(availability)
      ensures availability.expectedStatus == expectedStatus
    {
      availability := new ProbeAvailability(expectedStatus);
      consecutiveSuccesses, maxScheduleLagMs := 0, 0;
      history := [];
    }

    ghost predicate Valid()
      reads this, availability
    {
      && availability.Current() == After(history, availability.expectedStatus)
      && consecutiveSuccesses == HealthySuffix(history, availability.expectedStatus)
    }

    /** The recording step of the probe loop. */
    method Record(s: Sample, scheduledMs: int)
      requires Valid()
      modifies this, availability
      ensures Valid() && history == old(history) + [s]
      ensures maxScheduleLagMs == Max(old(maxScheduleLagMs), Max(0, s.startedMs - scheduledMs))
    {
      availability.Observe(s);
      maxScheduleLagMs := Max(maxScheduleLagMs, Max(0, s.startedMs - scheduledMs));
      if s.exitCode == 0 && s.status == availability.expectedStatus {
        consecutiveSuccesses := consecutiveSuccesses + 1;
      } else {
        consecutiveSuccesses := 0;
      }
      history := history + [s];
      assert history[..|history| - 1] == old(history);
    }

    method RecordAll(samples: seq<Sample>)
      requires Valid()
      modifies this, availability
      ensures Valid() && history == old(history) + samples
    {
      var k := 0;
      while k < |samples|
        invariant 0 <= k <= |samples|
        invariant Valid() && history == old(history) + samples[..k]
      {
        Record(samples[k], samples[k].startedMs);
        k := k + 1;
      }
    }

    /** The check the waiting loop makes. */
    method Check(after: nat) returns (ok: bool)
      requires Valid()
      ensures ok <==> Healthy(history, after, availability.expectedStatus)
    {
      ok := availability.samples >= after + 3 && consecutiveSuccesses >= 3;
      CountsPartition(history, availability.expectedStatus, 0);
      if |history| >= 3 {
        HealthySuffixCounts(history, availability.expectedStatus, 3);
      }
    }

    /** One turn of the waiting loop: deadline first, then the probe's error, then the check. */
    method Turn(after: nat, wake: Wake) returns (r: WaitResult)
      requires Valid()
      modifies this, availability
      ensures Valid() && history == old(history) + wake.recorded
      ensures r == TimedOut <==> wake.expired
      ensures r == Raised <==> !wake.expired && wake.probeFailed
      ensures r == Ready <==> !wake.expired && !wake.probeFailed
                              && Healthy(history, after, availability.expectedStatus)
    {
      RecordAll(wake.recorded);
      if wake.expired {
        return TimedOut;
      }
      if wake.probeFailed {
        return Raised;
      }
      var ok := Check(after);
      return if ok then Ready else Waiting;
    }

    /** Waits until the probe is healthy, its thread fails or the deadline passes. `wakes`
        says what the loop finds at each turn; the deadline has passed after the last. */
    method WaitHealthy(after: nat, wakes: seq<Wake>) returns (r: WaitResult, ghost turns: nat)
      requires Valid()
      modifies this, availability
      ensures Valid() && turns <= |wakes| && r != Waiting
      ensures history == SeenAfter(old(history), wakes, if turns < |wakes| then turns + 1 else turns)
      ensures NeverHealthy(old(history), wakes, turns, after, availability.expectedStatus)
      ensures r == Ready ==> Healthy(history, after, availability.expectedStatus)
      ensures r == TimedOut ==> turns == |wakes| || wakes[turns].expired
      ensures r == Raised ==> turns < |wakes| && wakes[turns].probeFailed
    {
      turns := 0;
      var k := 0;
      r := Waiting;
      while k < |wakes| && r == Waiting
        invariant 0 <= k <= |wakes| && turns == (if r == Waiting then k else k - 1) >= 0
        invariant Valid()
        invariant history == SeenAfter(old(history), wakes, k)
        invariant NeverHealthy(old(history), wakes, turns, after, availability.expectedStatus)
        invariant r == Ready ==> Healthy(history, after, availability.expectedStatus)
        invariant r == TimedOut ==> wakes[k - 1].expired
        invariant r == Raised ==> wakes[k - 1].probeFailed
      {
        r := Turn(after, wakes[k]);
        k := k + 1;
        if r == Waiting {
          turns := k;
        }
      }
      if r == Waiting {
        r := TimedOut;
      }
    }

    method CurrentMaxOutageMs(completedMs: int) returns (ms: int)
      requires Valid()
      ensures ms == FinishedOutage(After(history, availability.expectedStatus), completedMs)
    {
      var t := availability.Finish(completedMs);
      ms := t.maxOutageMs;
    }
  }

  /** The consecutive counter is positive exactly when there are samples and no outage
      is open. */
  lemma PositiveExactlyWhenNoOpenOutage(h: seq<Sample>, expected: int)
    ensures HealthySuffix(h, expected) > 0 <==>
              h != [] && After(h, expected).outageStartedMs.None?
  {
    var i := OpenOutage(h, expected);
  }
}

/**
 Availability of the public probe: an incremental accumulator of statuses and outage
 time, against the failing runs of the whole sample history.
 */
module Availability {
  import opened Options

  datatype Sample = Sample(startedMs: int, completedMs: int, status: int, exitCode: int)

  predicate Succeeded(s: Sample, expected: int) {
    s.exitCode == 0 && s.status == expected
  }

  datatype Totals = Totals(
    samples: nat, successes: nat, failures: nat, statusCounts: map<int, nat>,
    maxOutageMs: int, finalStatus: int, outageStartedMs: Option<int>)

  const NO_SAMPLES := Totals(0, 0, 0, map[], 0, 0, None)

  function Max(a: int, b: int): int {
    if a >= b then a else b
  }

  function CountOf(counts: map<int, nat>, status: int): nat {
    if status in counts then counts[status] else 0
  }

  /** The totals after one more sample. */
  function Observed(t: Totals, s: Sample, expected: int): Totals {
    var seen := t.(samples := t.samples + 1,
                   statusCounts := t.statusCounts[s.status := CountOf(t.statusCounts, s.status) + 1],
                   finalStatus := s.status);
    if Succeeded(s, expected) then
      var up := seen.(successes := t.successes + 1);
      if t.outageStartedMs.None? then up
      else up.(maxOutageMs := Max(t.maxOutageMs, s.completedMs - t.outageStartedMs.value), outageStartedMs := None)
    else
      var down := seen.(failures := t.failures + 1);
      if t.outageStartedMs.Some? then down else down.(outageStartedMs := Some(s.startedMs))
  }

  /** The longest outage reported at `completedMs`. */
  function FinishedOutage(t: Totals, completedMs: int): int {
    if t.outageStartedMs.None? then t.maxOutageMs
    else Max(t.maxOutageMs, completedMs - t.outageStartedMs.value)
  }

  class ProbeAvailability {
    const expectedStatus: int
    var samples: nat
    var successes: nat
    var failures: nat
    var statusCounts: map<int, nat>
    var maxOutageMs: int
    var finalStatus: int
    var outageStartedMs: Option<int>

    constructor (expectedStatus: int)
      ensures this.expectedStatus == expectedStatus && Current() == NO_SAMPLES
    {
      this.expectedStatus := expectedStatus;
      samples, successes, failures := 0, 0, 0;
      statusCounts := map[];
      maxOutageMs, finalStatus := 0, 0;
      outageStartedMs := None;
    }

    function Current(): Totals
      reads this
    {
      Totals(samples, successes, failures, statusCounts, maxOutageMs, finalStatus, outageStartedMs)
    }

    method Observe(s: Sample)
      modifies this
      ensures Current() == Observed(old(Current()), s, expectedStatus)
    {
      samples := samples + 1;
      statusCounts := statusCounts[s.status := CountOf(statusCounts, s.status) + 1];
      finalStatus := s.status;
      if Succeeded(s, expectedStatus) {
        successes := successes + 1;
        if outageStartedMs.Some? {
          maxOutageMs := Max(maxOutageMs, s.completedMs - outageStartedMs.value);
          outageStartedMs := None;
        }
      } else {
        failures := failures + 1;
        if outageStartedMs.None? {
          outageStartedMs := Some(s.startedMs);
        }
      }
    }

    /** Reads the summary without changing what later reads report. */
    method Finish(completedMs: int) returns (t: Totals)
      ensures t == Current().(maxOutageMs := FinishedOutage(Current(), completedMs))
    {
      var outage := maxOutageMs;
      if outageStartedMs.Some? {
        outage := Max(outage, completedMs - outageStartedMs.value);
      }
      t := Current().(maxOutageMs := outage);
    }
  }

  // ----- The whole history -----

  /** The totals after a sample history. */
  function After(h: seq<Sample>, expected: int): Totals {
    if h == [] then NO_SAMPLES
    else Observed(After(h[..|h| - 1], expected), h[|h| - 1], expected)
  }

  /** How many samples succeeded. */
  function SuccessCount(h: seq<Sample>, expected: int): nat {
    if h == [] then 0
    else SuccessCount(h[1..], expected) + if h[0].exitCode == 0 && h[0].status == expected then 1 else 0
  }

  /** How many samples carried `status`. */
  function StatusCount(h: seq<Sample>, status: int): nat {
    if h == [] then 0
    else StatusCount(h[1..], status) + if h[0].status == status then 1 else 0
  }

  lemma {:induction false} CountsAppend(h: seq<Sample>, s: Sample, expected: int, status: int)
    ensures SuccessCount(h + [s], expected) == SuccessCount(h, expected) + if Succeeded(s, expected) then 1 else 0
    ensures StatusCount(h + [s], status) == StatusCount(h, status) + if s.status == status then 1 else 0
  {
    if h == [] {
      assert h + [s] == [s];
    } else {
      CountsAppend(h[1..], s, expected, status);
      assert (h + [s])[1..] == h[1..] + [s];
    }
  }

  lemma {:induction false} SuccessesCounted(h: seq<Sample>, expected: int)
    ensures var t := After(h, expected);
            t.samples == |h| == t.successes + t.failures && t.successes == SuccessCount(h, expected)
  {
    if h != [] {
      var n := |h| - 1;
      SuccessesCounted(h[..n], expected);
      CountsAppend(h[..n], h[n], expected, 0);
      assert h[..n] + [h[n]] == h;
    }
  }

  lemma {:induction false} StatusesCounted(h: seq<Sample>, expected: int, status: int)
    ensures var t := After(h, expected);
            && CountOf(t.statusCounts, status) == StatusCount(h, status)
            && (h != [] ==> t.finalStatus == h[|h| - 1].status)
  {
    if h != [] {
      var n := |h| - 1;
      StatusesCounted(h[..n], expected, status);
      CountsAppend(h[..n], h[n], expected, status);
      assert h[..n] + [h[n]] == h;
    }
  }

  /** The counts partition the samples and the status table counts each status. */
  lemma {:induction false} CountsPartition(h: seq<Sample>, expected: int, status: int)
    ensures var t := After(h, expected);
            && t.samples == |h| == t.successes + t.failures
            && t.successes == SuccessCount(h, expected)
            && CountOf(t.statusCounts, status) == StatusCount(h, status)
            && (h != [] ==> t.finalStatus == h[|h| - 1].status)
  {
    SuccessesCounted(h, expected);
    StatusesCounted(h, expected, status);
  }

  /** Samples `i..j` are a maximal run of failures; it ends at sample `j` or at the end. */
  predicate FailingRun(h: seq<Sample>, i: int, j: int, expected: int) {
    && 0 <= i < j <= |h|
    && (forall k :: i <= k < j ==> h[k].exitCode != 0 || h[k].status != expected)
    && (i > 0 ==> h[i - 1].exitCode == 0 && h[i - 1].status == expected)
    && (j < |h| ==> h[j].exitCode == 0 && h[j].status == expected)
  }

  /** From the start of the run's first failure to the completion of the next success,
      or to the time of reading when there is none. */
  function RunMs(h: seq<Sample>, i: int, j: int, completedMs: int): int
    requires 0 <= i < j <= |h|
  {
    (if j < |h| then h[j].completedMs else completedMs) - h[i].startedMs
  }

  /** The open outage, if any, is the failing run at the end of the history. */
  lemma {:induction false} OpenOutage(h: seq<Sample>, expected: int) returns (i: int)
    ensures var t := After(h, expected);
            && (t.outageStartedMs.Some? <==> h != [] && !Succeeded(h[|h| - 1], expected))
            && (t.outageStartedMs.Some? ==>
                  FailingRun(h, i, |h|, expected) && t.outageStartedMs == Some(h[i].startedMs))
  {
    i := 0;
    if h != [] {
      var n := |h| - 1;
      i := OpenOutage(h[..n], expected);
      if !Succeeded(h[n], expected) && After(h[..n], expected).outageStartedMs.None? {
        i := n;
      }
    }
  }

  /** Two maximal runs with the same end are the same run. */
  lemma RunStartUnique(h: seq<Sample>, i: int, i': int, j: int, expected: int)
    requires FailingRun(h, i, j, expected) && FailingRun(h, i', j, expected)
    ensures i == i'
  {
  }

  /** A run that ends before the last sample is a run of the shorter history, and one
      that the last sample closes was its open run. */
  lemma RunOfPrefix(h: seq<Sample>, i: int, j: int, expected: int)
    requires h != [] && 0 <= j < |h|
    ensures var n := |h| - 1;
            FailingRun(h, i, j, expected) <==>
              FailingRun(h[..n], i, j, expected) && (j == n ==> Succeeded(h[n], expected))
  {
  }

  /** Every run closed by a success is within the recorded maximum, and the maximum is
      zero or one of them. */
  lemma {:induction false} ClosedOutages(h: seq<Sample>, expected: int) returns (wi: int, wj: int)
    ensures var m := After(h, expected).maxOutageMs;
            && m >= 0
            && (forall i, j :: j < |h| && FailingRun(h, i, j, expected) ==> RunMs(h, i, j, 0) <= m)
            && (m > 0 ==> wj < |h| && FailingRun(h, wi, wj, expected) && RunMs(h, wi, wj, 0) == m)
  {
    wi, wj := 0, 0;
    if h != [] {
      var n := |h| - 1;
      var shorter := h[..n];
      var before := After(shorter, expected);
      var m := After(h, expected).maxOutageMs;
      wi, wj := ClosedOutages(shorter, expected);
      var open := OpenOutage(shorter, expected);
      if before.maxOutageMs > 0 {
        RunOfPrefix(h, wi, wj, expected);
      }
      var closes := Succeeded(h[n], expected) && before.outageStartedMs.Some?;
      if closes {
        RunOfPrefix(h, open, n, expected);
        if m > before.maxOutageMs {
          wi, wj := open, n;
        }
      }
      forall i, j | j < |h| && FailingRun(h, i, j, expected)
        ensures RunMs(h, i, j, 0) <= m
      {
        RunOfPrefix(h, i, j, expected);
        if j == n {
          RunStartUnique(shorter, i, open, n, expected);
        }
      }
    }
  }

  /** The reported outage is the longest failing run of the history: no run is longer,
      and it is one of them unless it is zero. */
  lemma FinishReportsLongestOutage(h: seq<Sample>, expected: int, completedMs: int)
    ensures var m := FinishedOutage(After(h, expected), completedMs);
            && m >= 0
            && (forall i, j :: FailingRun(h, i, j, expected) ==> RunMs(h, i, j, completedMs) <= m)
            && (m > 0 ==> exists i, j :: FailingRun(h, i, j, expected) && RunMs(h, i, j, completedMs) == m)
  {
    var t := After(h, expected);
    var m := FinishedOutage(t, completedMs);
    var wi, wj := ClosedOutages(h, expected);
    var open := OpenOutage(h, expected);
    forall i, j | FailingRun(h, i, j, expected)
      ensures RunMs(h, i, j, completedMs) <= m
    {
      if j == |h| {
        assert !Succeeded(h[j - 1], expected);
        RunStartUnique(h, i, open, j, expected);
      }
    }
    if m > 0 {
      if t.outageStartedMs.Some? && m == completedMs - t.outageStartedMs.value {
        assert FailingRun(h, open, |h|, expected) && RunMs(h, open, |h|, completedMs) == m;
      } else {
        assert FailingRun(h, wi, wj, expected) && RunMs(h, wi, wj, completedMs) == m;
      }
    }
  }

  lemma {:induction false} CountZeroMeansNone(h: seq<Sample>, expected: int)
    requires After(h, expected).failures == 0
    ensures forall k :: 0 <= k < |h| ==> Succeeded(h[k], expected)
  {
    if h != [] {
      CountZeroMeansNone(h[..|h| - 1], expected);
    }
  }

  /** Without failures no outage is reported, whenever it is read. */
  lemma NoFailureNoOutage(h: seq<Sample>, expected: int, completedMs: int)
    requires After(h, expected).failures == 0
    ensures FinishedOutage(After(h, expected), completedMs) == 0
  {
    CountZeroMeansNone(h, expected);
    FinishReportsLongestOutage(h, expected, completedMs);
  }
}

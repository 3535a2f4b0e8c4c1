/**
 The sliding-window login limiter: a deque of admission times whose front is popped
 as it expires, against counting every admission ever made.
 */
module LoginLimiter {

  /** A monotonic clock reading in nanoseconds. */
  type Instant = nat

  /** Sixty seconds. */
  const WINDOW: nat := 60_000_000_000

  function Age(attempt: Instant, now: Instant): nat {
    if now >= attempt then now - attempt else 0
  }

  // ----- The reference: count all past admissions -----

  /** How many of `admitted` are under sixty seconds old, in nanoseconds. */
  function Recent(admitted: seq<Instant>, now: Instant): nat {
    if admitted == [] then 0
    else (if now < admitted[0] + 60_000_000_000 then 1 else 0) + Recent(admitted[1..], now)
  }

  /** How many of `admitted` fall in the half-open window starting at `from`. */
  function InWindow(admitted: seq<Instant>, from: Instant): nat {
    if admitted == [] then 0
    else (if from <= admitted[0] < from + 60_000_000_000 then 1 else 0) + InWindow(admitted[1..], from)
  }

  /** The calls that were admitted. */
  function Admitted(calls: seq<Instant>, decisions: seq<bool>): seq<Instant>
    requires |decisions| == |calls|
  {
    if calls == [] then []
    else (if decisions[0] then [calls[0]] else []) + Admitted(calls[1..], decisions[1..])
  }

  /** The reference decision for each call. */
  function CountedDecisions(limit: nat, admitted: seq<Instant>, calls: seq<Instant>): (d: seq<bool>)
    ensures |d| == |calls|
    decreases calls
  {
    if calls == [] then []
    else
      var ok := Recent(admitted, calls[0]) < limit;
      [ok] + CountedDecisions(limit, if ok then admitted + [calls[0]] else admitted, calls[1..])
  }

  // ----- The deque -----

  function DropExpired(attempts: seq<Instant>, now: Instant): seq<Instant> {
    if attempts != [] && Age(attempts[0], now) >= WINDOW then DropExpired(attempts[1..], now) else attempts
  }

  /** The decisions the limiter makes, starting from a deque. */
  function Decisions(limit: nat, attempts: seq<Instant>, calls: seq<Instant>): (d: seq<bool>)
    ensures |d| == |calls|
    decreases calls
  {
    if calls == [] then []
    else
      var kept := DropExpired(attempts, calls[0]);
      var ok := |kept| < limit;
      [ok] + Decisions(limit, if ok then kept + [calls[0]] else kept, calls[1..])
  }

  class LoginRateLimiter {
    const limit: nat
    var attempts: seq<Instant>

    constructor (limit: nat)
      ensures this.limit == limit && attempts == []
    {
      this.limit := limit;
      attempts := [];
    }

    method AllowAt(now: Instant) returns (ok: bool)
      modifies this
      ensures ok <==> |DropExpired(old(attempts), now)| < limit
      ensures var kept := DropExpired(old(attempts), now);
              attempts == if ok then kept + [now] else kept
    {
      while attempts != [] && Age(attempts[0], now) >= WINDOW
        invariant DropExpired(attempts, now) == DropExpired(old(attempts), now)
        decreases |attempts|
      {
        attempts := attempts[1..];
      }
      if |attempts| >= limit {
        return false;
      }
      attempts := attempts + [now];
      return true;
    }

    /** Serving calls one by one yields the decisions of the deque function. */
    method Serve(calls: seq<Instant>) returns (decisions: seq<bool>)
      modifies this
      ensures decisions == Decisions(limit, old(attempts), calls)
    {
      decisions := [];
      var k := 0;
      while k < |calls|
        invariant 0 <= k <= |calls|
        invariant decisions + Decisions(limit, attempts, calls[k..]) == Decisions(limit, old(attempts), calls)
      {
        ghost var before := Decisions(limit, attempts, calls[k..]);
        var ok := AllowAt(calls[k]);
        ghost var rest := Decisions(limit, attempts, calls[k + 1..]);
        assert calls[k..][1..] == calls[k + 1..];
        assert before == [ok] + rest;
        assert decisions + ([ok] + rest) == decisions + [ok] + rest;
        decisions := decisions + [ok];
        k := k + 1;
      }
    }
  }

  // ----- The deque decides as the count does -----

  predicate Nondecreasing(s: seq<Instant>, from: Instant) {
    s == [] || (from <= s[0] && Nondecreasing(s[1..], s[0]))
  }

  /** All of `s` is in order and none of it lies after `clock`. */
  predicate Ordered(s: seq<Instant>, clock: Instant) {
    && (forall i :: 0 <= i < |s| ==> s[i] <= clock)
    && (forall i, j :: 0 <= i < j < |s| ==> s[i] <= s[j])
  }

  lemma {:induction false} RecentConcat(a: seq<Instant>, b: seq<Instant>, now: Instant)
    ensures Recent(a + b, now) == Recent(a, now) + Recent(b, now)
  {
    if a == [] {
      assert a + b == b;
    } else {
      RecentConcat(a[1..], b, now);
      assert (a + b)[1..] == a[1..] + b;
    }
  }

  lemma {:induction false} RecentIfAllYoung(s: seq<Instant>, now: Instant)
    requires forall i :: 0 <= i < |s| ==> Age(s[i], now) < WINDOW
    ensures Recent(s, now) == |s|
  {
    if s != [] {
      RecentIfAllYoung(s[1..], now);
    }
  }

  lemma {:induction false} RecentIfAllOld(s: seq<Instant>, now: Instant)
    requires forall i :: 0 <= i < |s| ==> Age(s[i], now) >= WINDOW
    ensures Recent(s, now) == 0
  {
    if s != [] {
      RecentIfAllOld(s[1..], now);
    }
  }

  /** The deque holds the youngest admissions and everything it dropped has expired. */
  ghost predicate Tracks(attempts: seq<Instant>, dropped: seq<Instant>, clock: Instant) {
    && Ordered(dropped + attempts, clock)
    && forall i :: 0 <= i < |dropped| ==> Age(dropped[i], clock) >= WINDOW
  }

  /** Popping at a later reading keeps the relation and leaves exactly the recent ones. */
  lemma {:induction false} DropKeepsTrack(attempts: seq<Instant>, dropped: seq<Instant>, clock: Instant, now: Instant)
    returns (gone: seq<Instant>)
    requires Tracks(attempts, dropped, clock) && clock <= now
    ensures Tracks(DropExpired(attempts, now), gone, now)
    ensures gone + DropExpired(attempts, now) == dropped + attempts
    ensures |DropExpired(attempts, now)| == Recent(dropped + attempts, now)
    decreases |attempts|
  {
    var all := dropped + attempts;
    assert forall i :: 0 <= i < |dropped| ==> dropped[i] == all[i];
    if attempts != [] && Age(attempts[0], now) >= WINDOW {
      var more := dropped + [attempts[0]];
      assert more + attempts[1..] == all;
      assert forall i :: 0 <= i < |dropped| ==> more[i] == dropped[i];
      gone := DropKeepsTrack(attempts[1..], more, now, now);
    } else {
      gone := dropped;
      assert forall i :: 0 <= i < |attempts| ==> attempts[i] == all[|dropped| + i];
      assert attempts != [] ==> all[|dropped|] == attempts[0];
      RecentConcat(dropped, attempts, now);
      RecentIfAllOld(dropped, now);
      RecentIfAllYoung(attempts, now);
    }
  }

  lemma {:induction false} TracksRun(limit: nat, attempts: seq<Instant>, dropped: seq<Instant>,
                                     clock: Instant, calls: seq<Instant>)
    requires Tracks(attempts, dropped, clock) && Nondecreasing(calls, clock)
    ensures Decisions(limit, attempts, calls) == CountedDecisions(limit, dropped + attempts, calls)
    decreases calls
  {
    if calls != [] {
      var now := calls[0];
      var gone := DropKeepsTrack(attempts, dropped, clock, now);
      var kept := DropExpired(attempts, now);
      if |kept| < limit {
        assert gone + (kept + [now]) == dropped + attempts + [now];
        TracksRun(limit, kept + [now], gone, now, calls[1..]);
      } else {
        TracksRun(limit, kept, gone, now, calls[1..]);
      }
    }
  }

  /** For every nondecreasing call sequence the front-popping deque decides exactly as
      counting all past admissions under sixty seconds old. */
  lemma DequeDecidesAsCount(limit: nat, calls: seq<Instant>)
    requires Nondecreasing(calls, 0)
    ensures Decisions(limit, [], calls) == CountedDecisions(limit, [], calls)
  {
    TracksRun(limit, [], [], 0, calls);
  }

  lemma {:induction false} CountedAt(limit: nat, admitted: seq<Instant>, calls: seq<Instant>, k: nat)
    requires k < |calls|
    ensures var d := CountedDecisions(limit, admitted, calls);
            d[k] <==> Recent(admitted + Admitted(calls[..k], d[..k]), calls[k]) < limit
    decreases calls
  {
    var d := CountedDecisions(limit, admitted, calls);
    if k == 0 {
      assert admitted + Admitted(calls[..0], d[..0]) == admitted;
    } else {
      var next := if d[0] then admitted + [calls[0]] else admitted;
      CountedAt(limit, next, calls[1..], k - 1);
      assert calls[..k][1..] == calls[1..][..k - 1] && d[..k][1..] == d[1..][..k - 1];
      assert admitted + Admitted(calls[..k], d[..k]) == next + Admitted(calls[1..][..k - 1], d[1..][..k - 1]);
    }
  }

  /** A call is refused only when `limit` earlier admissions are under sixty seconds old. */
  lemma RefusesOnlyWhenFull(limit: nat, calls: seq<Instant>, k: nat)
    requires Nondecreasing(calls, 0) && k < |calls|
    ensures var d := Decisions(limit, [], calls);
            && |d| == |calls|
            && (d[k] <==> Recent(Admitted(calls[..k], d[..k]), calls[k]) < limit)
  {
    DequeDecidesAsCount(limit, calls);
    CountedAt(limit, [], calls, k);
    var d := Decisions(limit, [], calls);
    assert [] + Admitted(calls[..k], d[..k]) == Admitted(calls[..k], d[..k]);
  }

  // ----- No window holds more than the limit -----

  lemma {:induction false} WindowIsRecent(admitted: seq<Instant>, from: Instant, now: Instant)
    requires from <= now < from + WINDOW
    ensures InWindow(admitted, from) <= Recent(admitted, now)
  {
    if admitted != [] {
      WindowIsRecent(admitted[1..], from, now);
    }
  }

  lemma {:induction false} InWindowAppend(admitted: seq<Instant>, from: Instant, now: Instant)
    ensures InWindow(admitted + [now], from)
         == InWindow(admitted, from) + if from <= now < from + WINDOW then 1 else 0
  {
    if admitted == [] {
      assert admitted + [now] == [now];
    } else {
      InWindowAppend(admitted[1..], from, now);
      assert (admitted + [now])[1..] == admitted[1..] + [now];
    }
  }

  lemma {:induction false} WindowBoundKept(limit: nat, admitted: seq<Instant>, calls: seq<Instant>, from: Instant)
    requires InWindow(admitted, from) <= limit
    ensures InWindow(admitted + Admitted(calls, CountedDecisions(limit, admitted, calls)), from) <= limit
    decreases calls
  {
    var d := CountedDecisions(limit, admitted, calls);
    if calls == [] {
      assert admitted + Admitted(calls, d) == admitted;
    } else {
      var now := calls[0];
      if d[0] {
        InWindowAppend(admitted, from, now);
        if from <= now < from + WINDOW {
          WindowIsRecent(admitted, from, now);
        }
        WindowBoundKept(limit, admitted + [now], calls[1..], from);
        assert admitted + Admitted(calls, d) == admitted + [now] + Admitted(calls[1..], d[1..]);
      } else {
        WindowBoundKept(limit, admitted, calls[1..], from);
        assert admitted + Admitted(calls, d) == admitted + Admitted(calls[1..], d[1..]);
      }
    }
  }

  /** No half-open sixty-second window ever holds more than `limit` admissions. */
  lemma NoWindowExceedsLimit(limit: nat, calls: seq<Instant>, from: Instant)
    requires Nondecreasing(calls, 0)
    ensures var d := Decisions(limit, [], calls);
            |d| == |calls| && InWindow(Admitted(calls, d), from) <= limit
  {
    DequeDecidesAsCount(limit, calls);
    WindowBoundKept(limit, [], calls, from);
    var d := Decisions(limit, [], calls);
    assert [] + Admitted(calls, d) == Admitted(calls, d);
  }
}

/**
 Every request that may issue a session passes the login limiter first. So no second sees
 enough of them to push a new session out of the table.
 */
module IssueRate {
  import opened AuthRuns
  import opened AuthSessions
  import opened LoginLimiter
  import opened SessionStore

  /** The largest limit a configuration may set. */
  const MAX_LIMIT: nat := 60

  /** When the limiter admitted requests, over one life of the process. */
  function Admissions(limit: nat, calls: seq<Instant>): seq<Instant> {
    Admitted(calls, Decisions(limit, [], calls))
  }

  /** Every issuing step is a request of its own that was admitted: `ticket[i]` is its place among
      the admissions. */
  predicate Admits(limit: nat, calls: seq<Instant>, steps: seq<Step>, ticket: seq<int>) {
    && Nondecreasing(calls, 0) && |ticket| == |steps|
    && (forall i :: 0 <= i < |steps| && Issuing(steps[i]) ==> 0 <= ticket[i] < |Admissions(limit, calls)|)
    && (forall i, j :: 0 <= i < j < |steps| && Issuing(steps[i]) && Issuing(steps[j]) ==> ticket[i] != ticket[j])
  }

  /** The requests that read second `t` from the wall clock were admitted within two minutes
      of each other. */
  predicate Timely(limit: nat, calls: seq<Instant>, steps: seq<Step>, ticket: seq<int>, t: int, from: Instant)
    requires Admits(limit, calls, steps, ticket)
  {
    forall i :: i in IssuesIn(steps, t) ==> from <= Admissions(limit, calls)[ticket[i]] < from + 2 * WINDOW
  }

  /** The session requests so far came through a limiter that a configuration allows, and those
      of second `t` in time. */
  predicate Limited(limit: nat, calls: seq<Instant>, steps: seq<Step>, ticket: seq<int>, t: int, from: Instant) {
    limit <= MAX_LIMIT && Admits(limit, calls, steps, ticket) && Timely(limit, calls, steps, ticket, t, from)
  }

  // ----- Counting -----

  function WindowSet(admitted: seq<Instant>, from: Instant): set<int> {
    set i | 0 <= i < |admitted| && from <= admitted[i] < from + WINDOW
  }

  lemma {:induction false} WindowSetCounts(admitted: seq<Instant>, from: Instant)
    ensures |WindowSet(admitted, from)| == InWindow(admitted, from)
  {
    if admitted != [] {
      var n := |admitted| - 1;
      var earlier := admitted[..n];
      WindowSetCounts(earlier, from);
      InWindowAppend(earlier, from, admitted[n]);
      assert admitted == earlier + [admitted[n]];
      assert WindowSet(admitted, from)
          == WindowSet(earlier, from) + if from <= admitted[n] < from + WINDOW then {n} else {};
    }
  }

  lemma {:induction false} OneToOne(some: set<int>, ticket: seq<int>, places: set<int>)
    requires forall i :: i in some ==> 0 <= i < |ticket| && ticket[i] in places
    requires forall i, j :: i in some && j in some && i != j ==> ticket[i] != ticket[j]
    ensures |some| <= |places|
    decreases some
  {
    if some != {} {
      var i := Pick(some);
      OneToOne(some - {i}, ticket, places - {ticket[i]});
    }
  }

  lemma Pick<T>(s: set<T>) returns (x: T)
    requires s != {}
    ensures x in s
  {
    x :| x in s;
  }

  lemma TwoSets(a: set<int>, b: set<int>)
    ensures |a + b| <= |a| + |b|
  {
    assert a + b == a + (b - a);
  }

  /** A second sees at most as many issues as the limiter admits in two windows. */
  lemma SecondWithinTwoWindows(limit: nat, calls: seq<Instant>, steps: seq<Step>, ticket: seq<int>, t: int, from: Instant)
    requires Admits(limit, calls, steps, ticket) && Timely(limit, calls, steps, ticket, t, from)
    ensures |IssuesIn(steps, t)| <= 2 * limit
  {
    var admitted := Admissions(limit, calls);
    var first, second := WindowSet(admitted, from), WindowSet(admitted, from + WINDOW);
    OneToOne(IssuesIn(steps, t), ticket, first + second);
    TwoSets(first, second);
    WindowSetCounts(admitted, from);
    WindowSetCounts(admitted, from + WINDOW);
    NoWindowExceedsLimit(limit, calls, from);
    NoWindowExceedsLimit(limit, calls, from + WINDOW);
  }

  // ----- What follows for sessions -----

  /** Behind the limiter and under a clock that does not run backwards, every committed login
      and enrolment leaves its session in the table. */
  lemma LimitedLoginKeepsSession(c: Crypto, states: seq<State>, steps: seq<Step>, step: Step,
                                 limit: nat, calls: seq<Instant>, ticket: seq<int>, from: Instant)
    requires Run(c, states, steps) && Grants(c, states[|steps|], step) && NotAfter(steps, step.now)
    requires Limited(limit, calls, steps, ticket, step.now, from)
    ensures forall s' :: Next(c, states[|steps|], step, s') ==> SessionDigest(c, step.raw) in s'.db.sessions
  {
    SecondWithinTwoWindows(limit, calls, steps, ticket, step.now, from);
    forall s' | Next(c, states[|steps|], step, s')
      ensures SessionDigest(c, step.raw) in s'.db.sessions
    {
      GrantedStays(c, states, steps, step, s');
    }
  }

  /** And the initial administrator is stored with all codes and a session, or not at all. */
  lemma LimitedEnrolmentIsTogether(c: Crypto, states: seq<State>, steps: seq<Step>, step: Step,
                                   limit: nat, calls: seq<Instant>, ticket: seq<int>, from: Instant)
    requires Run(c, states, steps) && step.Enroll? && NotAfter(steps, step.now)
    requires Limited(limit, calls, steps, ticket, step.now, from)
    ensures forall s' :: Next(c, states[|steps|], step, s') ==>
              if Grants(c, states[|steps|], step) then Together(c, step, s') else s' == states[|steps|]
  {
    SecondWithinTwoWindows(limit, calls, steps, ticket, step.now, from);
    forall s' | Next(c, states[|steps|], step, s')
      ensures if Grants(c, states[|steps|], step) then Together(c, step, s') else s' == states[|steps|]
    {
      EnrolsTogetherOrNothing(c, states, steps, step, s');
    }
  }
}

/**
 What the interleaved runs of `AuthRuns` do to sessions: which cookies are good, which new
 rows are sure to stay, and how the three entry points agree.
 */
module AuthSessions {
  import opened AuthRuns
  import opened Clocks
  import opened Cookies
  import opened Digests
  import opened Faults
  import opened Options
  import opened SessionStore
  import opened SessionTable
  import History = SessionHistory

  // ----- The session table's history -----

  /** What a step does to the session table. */
  function TableOp(c: Crypto, s: State, step: Step): History.Op {
    match step
    case FinishAuthenticate(t, now, fault) =>
      if fault == FaultBefore || t >= |s.threads| || !s.threads[t].SetupRead? then History.Untouched
      else History.Lookup(s.threads[t].cookie, now)
    case Look(cookie, now, fault) => if fault == FaultBefore then History.Untouched else History.Lookup(cookie, now)
    case LogoutOne(cookie, fails) => if fails then History.Untouched else History.Logout(cookie)
    case RevokeActor(actor, fails) => if fails then History.Untouched else History.Revoke(actor)
    case _ =>
      if Grants(c, s, step) then History.Issue(SessionDigest(c, step.raw), GrantedRow(c, s, step), !step.Enroll?)
      else History.Untouched
  }

  function TableOps(c: Crypto, states: seq<State>, steps: seq<Step>): (ops: seq<History.Op>)
    requires |states| == |steps| + 1
    ensures |ops| == |steps| && forall i :: 0 <= i < |steps| ==> ops[i] == TableOp(c, states[i], steps[i])
  {
    seq(|steps|, i requires 0 <= i < |steps| => TableOp(c, states[i], steps[i]))
  }

  function Tables(states: seq<State>): (tables: seq<Sessions>)
    ensures |tables| == |states| && forall i :: 0 <= i < |states| ==> tables[i] == states[i].db.sessions
  {
    seq(|states|, i requires 0 <= i < |states| => states[i].db.sessions)
  }

  lemma StepIsTableChange(c: Crypto, s: State, step: Step, s': State)
    requires Next(c, s, step, s')
    ensures History.Step(s.db.sessions, TableOp(c, s, step), s'.db.sessions)
  {
    if Grants(c, s, step) {
      assert Issues(c, s, step, s');
    }
  }

  /** Step by step, the sessions of an interleaved run are the run of its table changes. */
  lemma RunIsSessionHistory(c: Crypto, states: seq<State>, steps: seq<Step>)
    requires Run(c, states, steps)
    ensures History.Run(Tables(states), TableOps(c, states, steps))
  {
    forall i | 0 <= i < |steps|
      ensures History.Step(Tables(states)[i], TableOps(c, states, steps)[i], Tables(states)[i + 1])
    {
      StepIsTableChange(c, states[i], steps[i], states[i + 1]);
    }
  }

  lemma SessionsBounded(c: Crypto, states: seq<State>, steps: seq<Step>)
    requires Run(c, states, steps)
    ensures |states[|steps|].db.sessions| <= 128
  {
    RunIsSessionHistory(c, states, steps);
    History.TableBounded(Tables(states), TableOps(c, states, steps));
  }

  // ----- Which cookies are good -----

  /** No clock reading of the run is later than `t`. */
  predicate NotAfter(steps: seq<Step>, t: int) {
    forall i :: 0 <= i < |steps| ==> steps[i].CheckLogin? || steps[i].ReadSetup? || steps[i].LogoutOne? || steps[i].RevokeActor?
                                     || steps[i].now <= t
  }

  /** Insertion `j` dropped the row of `d` to keep the table within its limit. */
  ghost predicate EvictedAt(c: Crypto, states: seq<State>, steps: seq<Step>, j: nat, d: Digest)
    requires j < |steps| < |states|
  {
    && Grants(c, states[j], steps[j])
    && (d in Room(states[j], steps[j]) || d == SessionDigest(c, steps[j].raw))
    && d !in states[j + 1].db.sessions
  }

  /** Step `i` issued a session for `raw`, under twelve hours before `t`, which since then was
      neither logged out, revoked with its actor, nor evicted. */
  ghost predicate GoodSince(c: Crypto, states: seq<State>, steps: seq<Step>, i: int, raw: string, t: int)
    requires |states| == |steps| + 1
  {
    && 0 <= i < |steps| && Grants(c, states[i], steps[i]) && steps[i].raw == raw
    && t - steps[i].now < 43_200 && t < I64_MAX
    && (forall j :: i < j < |steps| ==> steps[j] != LogoutOne(SessionDigest(c, raw), false))
    && (forall j :: i < j < |steps| ==> steps[j] != RevokeActor(Actor(states[i], steps[i]), false))
    && (forall j :: i <= j < |steps| ==> !EvictedAt(c, states, steps, j, SessionDigest(c, raw)))
  }

  lemma CancelsAsSteps(c: Crypto, s: State, step: Step, d: Digest, row: Session)
    ensures History.Cancels(TableOp(c, s, step), d, row)
       <==> step == LogoutOne(d, false) || step == RevokeActor(row.actor, false)
  {
  }

  lemma EvictsAsSteps(c: Crypto, states: seq<State>, steps: seq<Step>, j: nat, d: Digest)
    requires j < |steps| && |states| == |steps| + 1
    ensures History.Evicts(states[j].db.sessions, TableOp(c, states[j], steps[j]), states[j + 1].db.sessions, d)
       <==> EvictedAt(c, states, steps, j, d)
  {
  }

  /** Good by the steps is good by the table's history. */
  lemma GoodIsUndisturbed(c: Crypto, states: seq<State>, steps: seq<Step>, i: nat, raw: string, t: int)
    requires |states| == |steps| + 1 && i < |steps| && Grants(c, states[i], steps[i]) && steps[i].raw == raw
    ensures var row := GrantedRow(c, states[i], steps[i]);
            GoodSince(c, states, steps, i, raw, t) <==>
              && t < row.expiresAt
              && History.Undisturbed(Tables(states), TableOps(c, states, steps), i, SessionDigest(c, raw), row)
  {
    var row, d, ops, tables := GrantedRow(c, states[i], steps[i]), SessionDigest(c, raw), TableOps(c, states, steps), Tables(states);
    forall j | i <= j < |steps|
      ensures History.Evicts(tables[j], ops[j], tables[j + 1], d) <==> EvictedAt(c, states, steps, j, d)
      ensures History.Cancels(ops[j], d, row) <==> steps[j] == LogoutOne(d, false) || steps[j] == RevokeActor(row.actor, false)
    {
      EvictsAsSteps(c, states, steps, j, d);
      CancelsAsSteps(c, states[j], steps[j], d, row);
    }
  }

  lemma HistoryNotAfter(c: Crypto, states: seq<State>, steps: seq<Step>, t: int)
    requires |states| == |steps| + 1 && NotAfter(steps, t)
    ensures History.NotAfter(TableOps(c, states, steps), t)
  {
  }

  /** A good session is found. */
  lemma GoodIsFound(c: Crypto, states: seq<State>, steps: seq<Step>, i: int, raw: string, t: int)
    requires Run(c, states, steps) && NotAfter(steps, t) && GoodSince(c, states, steps, i, raw, t)
    ensures Find(states[|steps|].db.sessions, SessionDigest(c, raw), t) == Some(GrantedRow(c, states[i], steps[i]))
  {
    var d, ops, tables := SessionDigest(c, raw), TableOps(c, states, steps), Tables(states);
    var row := GrantedRow(c, states[i], steps[i]);
    RunIsSessionHistory(c, states, steps);
    HistoryNotAfter(c, states, steps, t);
    GoodIsUndisturbed(c, states, steps, i, raw, t);
    assert History.Issues(ops[i], d, row);
    assert History.Alive(tables, ops, d, row, t);
    History.TableRefinesHistory(tables, ops, d, row, t);
  }

  /** What is found was issued and is good since. */
  lemma FoundIsGood(c: Crypto, states: seq<State>, steps: seq<Step>, raw: string, t: int) returns (i: nat)
    requires CollisionFree(c) && Run(c, states, steps) && NotAfter(steps, t)
    requires Find(states[|steps|].db.sessions, SessionDigest(c, raw), t).Some?
    ensures GoodSince(c, states, steps, i, raw, t)
  {
    var d, ops, tables := SessionDigest(c, raw), TableOps(c, states, steps), Tables(states);
    var row := Find(states[|steps|].db.sessions, d, t).value;
    RunIsSessionHistory(c, states, steps);
    HistoryNotAfter(c, states, steps, t);
    History.TableRefinesHistory(tables, ops, d, row, t);
    i :| 0 <= i < |ops| && History.Issues(ops[i], d, row) && History.Undisturbed(tables, ops, i, d, row);
    assert ops[i] == TableOp(c, states[i], steps[i]);
    IssueIsGrant(c, states[i], steps[i], raw, row);
    GoodIsUndisturbed(c, states, steps, i, raw, t);
  }

  lemma IssueIsGrant(c: Crypto, s: State, step: Step, raw: string, row: Session)
    requires CollisionFree(c) && History.Issues(TableOp(c, s, step), SessionDigest(c, raw), row)
    ensures Grants(c, s, step) && step.raw == raw && row == GrantedRow(c, s, step)
  {
    assert SessionDigest(c, step.raw) == SessionDigest(c, raw);
  }

  /** Over every interleaving with clock readings up to `t`: the cookie printed for `raw`,
      sent back among other cookies, resumes a session at `t` if and only if some login or
      enrolment committed `raw` less than twelve hours ago and it was since then neither
      logged out, revoked nor evicted; and then it resumes that actor. */
  lemma ResumesExactlyWhileGood(c: Crypto, states: seq<State>, steps: seq<Step>, t: int, raw: string, secure: bool,
                                before: seq<Cookie>, after: seq<Cookie>)
    requires CollisionFree(c) && Run(c, states, steps) && NotAfter(steps, t)
    requires IsToken(raw)
    requires forall o :: o in before ==> WellFormed(o) && !IsSessionName(o.name)
    requires forall o :: o in after ==> WellFormed(o)
    ensures Stored(SessionCookie(raw, secure)).Some?
    ensures var header := Some(Header(before + [Stored(SessionCookie(raw, secure)).value] + after));
            var resumed := Resume(c, states[|steps|].db, header, t);
            && (resumed.Some? <==> exists i :: GoodSince(c, states, steps, i, raw, t))
            && forall i :: GoodSince(c, states, steps, i, raw, t) ==>
                 && resumed.Some?
                 && resumed.value.0 == CsrfToken(c, raw)
                 && resumed.value.1.actor == Actor(states[i], steps[i])
                 && resumed.value.1.via == Via(steps[i])
                 && resumed.value.1.expiresIn
                    == if steps[i].now + 43_200 <= I64_MAX then 43_200 - (t - steps[i].now) else I64_MAX - t
  {
    RunKeepsInv(c, states, steps);
    IssuedCookieWorks(c, states[|steps|].db, raw, secure, before, after, t);
    if Find(states[|steps|].db.sessions, SessionDigest(c, raw), t).Some? {
      var i := FoundIsGood(c, states, steps, raw, t);
    }
    forall i | GoodSince(c, states, steps, i, raw, t)
      ensures Find(states[|steps|].db.sessions, SessionDigest(c, raw), t) == Some(GrantedRow(c, states[i], steps[i]))
    {
      GoodIsFound(c, states, steps, i, raw, t);
    }
  }

  // ----- Which new sessions are sure to stay -----

  lemma RoomBounded(c: Crypto, states: seq<State>, steps: seq<Step>, step: Step)
    requires Run(c, states, steps) && Issuing(step)
    ensures |Room(states[|steps|], step)| <= MAX_SESSIONS
  {
    SessionsBounded(c, states, steps);
    SubmapSmaller(Room(states[|steps|], step), states[|steps|].db.sessions);
  }

  lemma GrantedIsNext(c: Crypto, s: State, step: Step, sessions: Sessions)
    requires Grants(c, s, step)
    requires Inserted(Room(s, step), sessions, SessionDigest(c, step.raw), GrantedRow(c, s, step))
    ensures Next(c, s, step, Granted(s, step, sessions)) && Granted(s, step, sessions).db.sessions == sessions
  {
    assert Issues(c, s, step, Granted(s, step, sessions));
  }

  /** In every reachable state, the session of a committed login or enrolment is sure to be in
      the table afterwards if and only if the table has room: fewer than 128 rows, or one that
      was issued in an earlier second. */
  lemma GrantedStaysExactlyWithRoom(c: Crypto, states: seq<State>, steps: seq<Step>, step: Step)
    requires Run(c, states, steps) && Grants(c, states[|steps|], step)
    ensures var s := states[|steps|];
            (forall s' :: Next(c, s, step, s') ==> SessionDigest(c, step.raw) in s'.db.sessions)
            <==> HasRoom(Room(s, step), step.now)
  {
    var s, d := states[|steps|], SessionDigest(c, step.raw);
    var room, row := Room(s, step), GrantedRow(c, s, step);
    RoomBounded(c, states, steps, step);
    RowStaysExactlyWithRoom(room, d, row);
    if HasRoom(room, step.now) {
      forall s' | Next(c, s, step, s')
        ensures d in s'.db.sessions
      {
        assert Issues(c, s, step, s');
      }
    } else {
      GrantedIsNext(c, s, step, room);
      assert d !in Granted(s, step, room).db.sessions;
    }
  }

  /** Account, all codes unused, and the first session. */
  predicate Together(c: Crypto, step: Step, s: State)
    requires step.Enroll?
  {
    && s.db.account == Some(step.account)
    && s.db.codes == FreshCodes(step.digests) && |s.db.codes| == |step.digests|
    && SessionDigest(c, step.raw) in s.db.sessions
  }

  lemma EnrollStoresAccountAndCodes(c: Crypto, s: State, step: Step, s': State)
    requires step.Enroll? && Grants(c, s, step) && s.db.codes == map[]
    requires s' == Granted(s, step, s'.db.sessions)
    ensures s'.db.account == Some(step.account)
    ensures s'.db.codes == FreshCodes(step.digests) && |s'.db.codes| == |step.digests|
  {
    EnrollAccountsCodes(step.digests);
    assert s'.db.codes == FreshCodes(step.digests);
  }

  /** An enrolment changes nothing or commits account and codes. It is sure to store the
      session together with them if and only if the table has room for it. */
  lemma EnrolsAllOrNothing(c: Crypto, states: seq<State>, steps: seq<Step>, step: Step)
    requires Run(c, states, steps) && step.Enroll?
    ensures var s := states[|steps|];
            if Grants(c, s, step) then
              && ((forall s' :: Next(c, s, step, s') ==> Together(c, step, s')) <==> HasRoom(s.db.sessions, step.now))
              && (forall s' :: Next(c, s, step, s') ==>
                    && s'.db.account == Some(step.account)
                    && s'.db.codes == FreshCodes(step.digests) && |s'.db.codes| == |step.digests|)
            else
              forall s' :: Next(c, s, step, s') ==> s' == s
  {
    var s := states[|steps|];
    RunKeepsInv(c, states, steps);
    if Grants(c, s, step) {
      forall s' | Next(c, s, step, s')
        ensures && s'.db.account == Some(step.account)
                && s'.db.codes == FreshCodes(step.digests) && |s'.db.codes| == |step.digests|
      {
        assert Issues(c, s, step, s');
        EnrollStoresAccountAndCodes(c, s, step, s');
      }
      GrantedStaysExactlyWithRoom(c, states, steps, step);
    }
  }

  // ----- A second that is not overrun -----

  /** The steps that set out to issue a session in second `t`. */
  function IssuesIn(steps: seq<Step>, t: int): set<int> {
    set i | 0 <= i < |steps| && Issuing(steps[i]) && steps[i].now == t
  }

  /** Every row goes back to a step that issued it when it says. */
  lemma {:induction false} RowIssuedBy(c: Crypto, states: seq<State>, steps: seq<Step>, d: Digest) returns (i: nat)
    requires Run(c, states, steps) && d in states[|steps|].db.sessions
    ensures i < |steps| && Issuing(steps[i]) && SessionDigest(c, steps[i].raw) == d
    ensures steps[i].now == states[|steps|].db.sessions[d].issuedAt
    decreases |steps|
  {
    if steps != [] {
      var n := |steps| - 1;
      assert Next(c, states[n], steps[n], states[n + 1]);
      RowOrigin(c, states[n], steps[n], states[n + 1], d);
      if d in states[n].db.sessions && states[n + 1].db.sessions[d] == states[n].db.sessions[d] {
        i := RowIssuedBy(c, states[..n + 1], steps[..n], d);
      } else {
        i := n;
      }
    }
  }

  /** The step would issue a session under this digest. */
  predicate Draws(c: Crypto, step: Step, d: Digest) {
    Issuing(step) && SessionDigest(c, step.raw) == d
  }

  /** The digests those steps issue are no more than the steps. */
  lemma {:induction false} DigestsWithinSteps(c: Crypto, steps: seq<Step>, some: set<int>, digests: set<Digest>)
    requires forall i :: i in some ==> 0 <= i < |steps|
    requires forall d :: d in digests ==> exists i :: i in some && Draws(c, steps[i], d)
    ensures |digests| <= |some|
    decreases digests
  {
    if digests != {} {
      var d :| d in digests;
      var i :| i in some && Draws(c, steps[i], d);
      forall e | e in digests - {d}
        ensures exists j :: j in some - {i} && Draws(c, steps[j], e)
      {
        var j :| j in some && Draws(c, steps[j], e);
        assert j in some - {i};
      }
      DigestsWithinSteps(c, steps, some - {i}, digests - {d});
    }
  }

  /** A table whose rows are all of second `t` is no larger than what was issued in it. */
  lemma FullOfOneSecond(c: Crypto, states: seq<State>, steps: seq<Step>, rows: Sessions, t: int)
    requires Run(c, states, steps)
    requires forall d :: d in rows ==> d in states[|steps|].db.sessions && states[|steps|].db.sessions[d].issuedAt == t
    ensures |rows| <= |IssuesIn(steps, t)|
  {
    forall d | d in rows.Keys
      ensures exists i :: i in IssuesIn(steps, t) && Draws(c, steps[i], d)
    {
      var i := RowIssuedBy(c, states, steps, d);
      assert i in IssuesIn(steps, t);
    }
    DigestsWithinSteps(c, steps, IssuesIn(steps, t), rows.Keys);
  }

  /** Under a clock that does not run backwards, fewer than 128 issues in a second leave room. */
  lemma QuietSecondHasRoom(c: Crypto, states: seq<State>, steps: seq<Step>, step: Step)
    requires Run(c, states, steps) && Issuing(step) && NotAfter(steps, step.now)
    requires |IssuesIn(steps, step.now)| < MAX_SESSIONS
    ensures HasRoom(Room(states[|steps|], step), step.now)
  {
    var room := Room(states[|steps|], step);
    if !HasRoom(room, step.now) {
      forall d | d in room
        ensures d in states[|steps|].db.sessions && states[|steps|].db.sessions[d].issuedAt == step.now
      {
        var i := RowIssuedBy(c, states, steps, d);
      }
      FullOfOneSecond(c, states, steps, room, step.now);
    }
  }

  /** Over every interleaving under a clock that does not run backwards, the session of a
      committed login or enrolment is in the table afterwards, unless 128 others were set out
      to be issued in the same second. */
  lemma GrantedStays(c: Crypto, states: seq<State>, steps: seq<Step>, step: Step, s': State)
    requires Run(c, states, steps) && Grants(c, states[|steps|], step) && Next(c, states[|steps|], step, s')
    requires NotAfter(steps, step.now) && |IssuesIn(steps, step.now)| < MAX_SESSIONS
    ensures SessionDigest(c, step.raw) in s'.db.sessions
  {
    QuietSecondHasRoom(c, states, steps, step);
    GrantedStaysExactlyWithRoom(c, states, steps, step);
  }

  /** And so an enrolment stores account, codes and session all together or nothing. */
  lemma EnrolsTogetherOrNothing(c: Crypto, states: seq<State>, steps: seq<Step>, step: Step, s': State)
    requires Run(c, states, steps) && step.Enroll? && Next(c, states[|steps|], step, s')
    requires NotAfter(steps, step.now) && |IssuesIn(steps, step.now)| < MAX_SESSIONS
    ensures if Grants(c, states[|steps|], step) then Together(c, step, s') else s' == states[|steps|]
  {
    EnrolsAllOrNothing(c, states, steps, step);
    if Grants(c, states[|steps|], step) {
      GrantedStays(c, states, steps, step, s');
    }
  }

  // ----- A clock that is set back -----

  /** A token of its own for each number. */
  function Raw(k: nat): string {
    seq(k, _ => 'a')
  }

  ghost predicate FilledUpTo(c: Crypto, s: State, n: nat) {
    && s == State(Db(None, map[], s.db.sessions), [], 0, [])
    && |s.db.sessions| == n
    && forall d :: d in s.db.sessions ==>
         && 0 < s.db.sessions[d].issuedAt && 60 * MAX_SESSIONS < s.db.sessions[d].expiresAt
         && exists k: nat :: k < n && d == SessionDigest(c, Raw(k))
  }

  lemma FillOne(c: Crypto, s: State, n: nat) returns (s': State)
    requires CollisionFree(c) && FilledUpTo(c, s, n) && n < MAX_SESSIONS
    ensures Next(c, s, BreakGlassLogin(Raw(n), 60 * (n + 1), false), s') && FilledUpTo(c, s', n + 1)
  {
    var step := BreakGlassLogin(Raw(n), 60 * (n + 1), false);
    var d := SessionDigest(c, Raw(n));
    NewRaw(c, s, n);
    assert Room(s, step) == s.db.sessions;
    var sessions := s.db.sessions[d := GrantedRow(c, s, step)];
    assert sessions.Keys == s.db.sessions.Keys + {d};
    GrantedIsNext(c, s, step, sessions);
    s' := Granted(s, step, sessions);
  }

  lemma NewRaw(c: Crypto, s: State, n: nat)
    requires CollisionFree(c) && FilledUpTo(c, s, n)
    ensures SessionDigest(c, Raw(n)) !in s.db.sessions
  {
    forall k: nat | k < n
      ensures SessionDigest(c, Raw(k)) != SessionDigest(c, Raw(n))
    {
      assert |Raw(k)| == k && |Raw(n)| == n;
    }
  }

  lemma {:induction false} OneMore(c: Crypto, states: seq<State>, steps: seq<Step>, step: Step, s': State)
    requires Run(c, states, steps) && Next(c, states[|steps|], step, s')
    ensures Run(c, states + [s'], steps + [step])
  {
  }

  /** `n` break-glass logins, one a minute. */
  function Logins(n: nat): (steps: seq<Step>)
    ensures |steps| == n
  {
    if n == 0 then [] else Logins(n - 1) + [BreakGlassLogin(Raw(n - 1), 60 * n, false)]
  }

  lemma {:induction false} FillNone(c: Crypto) returns (states: seq<State>)
    ensures Run(c, states, Logins(0)) && FilledUpTo(c, states[0], 0)
  {
    states := [State(Db(None, map[], map[]), [], 0, [])];
  }

  lemma {:induction false} FillMore(c: Crypto, earlier: seq<State>, n: nat) returns (states: seq<State>)
    requires CollisionFree(c) && n < MAX_SESSIONS
    requires Run(c, earlier, Logins(n)) && FilledUpTo(c, earlier[n], n)
    ensures Run(c, states, Logins(n + 1)) && FilledUpTo(c, states[n + 1], n + 1)
  {
    var step := BreakGlassLogin(Raw(n), 60 * (n + 1), false);
    assert Logins(n + 1) == Logins(n) + [step];
    var last := FillOne(c, earlier[n], n);
    OneMore(c, earlier, Logins(n), step, last);
    states := earlier + [last];
  }

  lemma {:induction false} Fill(c: Crypto, n: nat) returns (states: seq<State>)
    requires CollisionFree(c) && n <= MAX_SESSIONS
    ensures Run(c, states, Logins(n)) && FilledUpTo(c, states[n], n)
  {
    if n == 0 {
      states := FillNone(c);
    } else {
      var earlier := Fill(c, n - 1);
      states := FillMore(c, earlier, n - 1);
    }
  }

  /** The clock must not run backwards: after 128 break-glass logins, one a minute, it is set
      back and the administrator enrols. The enrolment commits, and whichever row trimming
      takes, the new session is gone. */
  lemma ClockSetBackLosesSession(c: Crypto, account: Account, digests: seq<Digest>) returns (states: seq<State>)
    requires CollisionFree(c) && Storable(map[], digests)
    ensures Run(c, states, Logins(MAX_SESSIONS))
    ensures var s, step := states[MAX_SESSIONS], Enroll(account, digests, Raw(MAX_SESSIONS), 0, false);
            && (exists s' :: Next(c, s, step, s'))
            && forall s' :: Next(c, s, step, s') ==>
                 s'.db.account == Some(account) && SessionDigest(c, Raw(MAX_SESSIONS)) !in s'.db.sessions
  {
    var n: nat := MAX_SESSIONS;
    states := Fill(c, n);
    var s, step := states[n], Enroll(account, digests, Raw(n), 0, false);
    NewRaw(c, s, n);
    var d, row := SessionDigest(c, step.raw), GrantedRow(c, s, step);
    RowStaysExactlyWithRoom(s.db.sessions, d, row);
    GrantedIsNext(c, s, step, s.db.sessions);
    forall s' | Next(c, s, step, s')
      ensures s'.db.account == Some(account) && d !in s'.db.sessions
    {
      assert Issues(c, s, step, s');
      AllLaterDropsRow(s.db.sessions, s'.db.sessions, d, row);
    }
  }

  // ----- Agreement of the entry points -----

  /** In every reachable state the three entry points agree on the identity behind a cookie,
      although only `authenticate` looks at whether setup is required. */
  lemma EntryPointsAgree(c: Crypto, states: seq<State>, steps: seq<Step>, cookieHeader: Option<string>, now: int)
    requires CollisionFree(c) && Run(c, states, steps)
    ensures var db := states[|steps|].db;
            var resumed := Resume(c, db, cookieHeader, now);
            if resumed.None? then
              && Authenticate(c, db, cookieHeader, now) == None
              && forall csrf :: Authorize(c, db, cookieHeader, csrf, now) == None
            else
              && Authenticate(c, db, cookieHeader, now) == Some(resumed.value.1)
              && forall csrf :: Authorize(c, db, cookieHeader, Some(csrf), now)
                             == (if csrf == resumed.value.0 then Some(resumed.value.1) else None)
  {
    RunKeepsInv(c, states, steps);
    var db := states[|steps|].db;
    var resumed := Resume(c, db, cookieHeader, now);
    if resumed.Some? {
      forall csrf ensures Authorize(c, db, cookieHeader, Some(csrf), now)
                       == (if csrf == resumed.value.0 then Some(resumed.value.1) else None) {
        CsrfAcceptedExactlyFromResume(c, db, cookieHeader, csrf, now);
      }
    }
  }

  /** Thread `t` is between the two calls of `authenticate`. */
  predicate Pending(s: State, t: nat) {
    t < |s.threads| && s.threads[t].SetupRead?
  }

  /** What `authenticate` answers when its second call comes now. */
  function SplitAnswer(s: State, t: nat, now: int): Option<Identity>
    requires Pending(s, t)
  {
    AuthenticateRow(s.threads[t].required, Find(s.db.sessions, s.threads[t].cookie, now), now)
  }

  /** The identity `resume` answers now for a cookie with that digest. */
  function ResumedIdentity(s: State, cookie: Digest, now: int): Option<Identity> {
    var row := Find(s.db.sessions, cookie, now);
    if row.None? then None else Some(IdentityOf(row.value, now))
  }

  lemma ResumedIdentityIsResume(c: Crypto, s: State, cookieHeader: Option<string>, now: int)
    requires Token(cookieHeader).Some?
    ensures var resumed := Resume(c, s.db, cookieHeader, now);
            ResumedIdentity(s, SessionDigest(c, Token(cookieHeader).value), now)
            == if resumed.None? then None else Some(resumed.value.1)
  {
  }

  /** Every pending `authenticate` goes back to the last reading its thread made. */
  lemma {:induction false} ReadingExists(c: Crypto, states: seq<State>, steps: seq<Step>, t: nat) returns (k: nat)
    requires Run(c, states, steps) && Pending(states[|steps|], t)
    ensures k < |steps| && steps[k] == ReadSetup(t, states[|steps|].threads[t].cookie)
    ensures states[|steps|].threads[t].required == states[k].db.account.None?
    ensures forall i :: k < i < |steps| ==> !(steps[i].ReadSetup? && steps[i].t == t)
    decreases |steps|
  {
    if steps != [] {
      var n := |steps| - 1;
      assert Next(c, states[n], steps[n], states[n + 1]);
      if steps[n].ReadSetup? && steps[n].t == t {
        k := n;
      } else {
        k := ReadingExists(c, states[..n + 1], steps[..n], t);
      }
    }
  }

  /** The row of `d`, if there is one, is a break-glass session. */
  predicate BreakGlassAt(s: State, d: Digest) {
    d in s.db.sessions ==> s.db.sessions[d].via == BreakGlass
  }

  lemma {:induction false} NotDrawnStaysBreakGlass(c: Crypto, states: seq<State>, steps: seq<Step>, k: nat, d: Digest)
    requires Run(c, states, steps) && k <= |steps| && BreakGlassAt(states[k], d)
    requires forall i :: k <= i < |steps| ==> !Draws(c, steps[i], d)
    ensures BreakGlassAt(states[|steps|], d)
    decreases |steps|
  {
    if k < |steps| {
      var n := |steps| - 1;
      NotDrawnStaysBreakGlass(c, states[..n + 1], steps[..n], k, d);
      assert Next(c, states[n], steps[n], states[n + 1]);
      if d in states[n + 1].db.sessions {
        RowOrigin(c, states[n], steps[n], states[n + 1], d);
      }
    }
  }

  /** A token is drawn at random when its session is issued and returned only after the
      commit, so no request presents its digest before. */
  ghost predicate TokensFresh(c: Crypto, steps: seq<Step>) {
    forall k, i :: 0 <= k < i < |steps| && steps[k].ReadSetup? ==> !Draws(c, steps[i], steps[k].cookie)
  }

  /** Steps `k` and `i`: a request presents `d` before there is an account, and only later is a
      session drawn under it. */
  predicate Guessed(c: Crypto, states: seq<State>, steps: seq<Step>, k: int, i: int, d: Digest) {
    && 0 <= k < i < |steps| <= |states|
    && steps[k].ReadSetup? && steps[k].cookie == d && states[k].db.account.None? && Draws(c, steps[i], d)
  }

  /** Whatever the tokens, an answer that is not `resume`'s was given to a cookie presented
      before its session was drawn, and the enrolment committed in between. */
  lemma SplitDiffersOnlyIfGuessed(c: Crypto, states: seq<State>, steps: seq<Step>, t: nat, now: int)
    requires Run(c, states, steps) && Pending(states[|steps|], t)
    ensures var s := states[|steps|];
            SplitAnswer(s, t, now) != ResumedIdentity(s, s.threads[t].cookie, now) ==>
              && s.db.account.Some?
              && exists k, i :: Guessed(c, states, steps, k, i, s.threads[t].cookie)
  {
    var d := states[|steps|].threads[t].cookie;
    var k := ReadingExists(c, states, steps, t);
    RunKeepsInv(c, states[..k + 1], steps[..k]);
    RunKeepsInv(c, states, steps);
    if states[k].db.account.None? {
      assert BreakGlassAt(states[k], d);
      if i :| k <= i < |steps| && Draws(c, steps[i], d) {
        assert Guessed(c, states, steps, k, i, d);
      } else {
        NotDrawnStaysBreakGlass(c, states, steps, k, d);
      }
    }
  }

  /** `authenticate` makes two repository calls with any other requests in between; still it
      always answers as `resume` would at the second. */
  lemma SplitAuthenticateAgrees(c: Crypto, states: seq<State>, steps: seq<Step>, t: nat, cookieHeader: Option<string>, now: int)
    requires Run(c, states, steps) && TokensFresh(c, steps) && Pending(states[|steps|], t)
    requires Token(cookieHeader).Some? && SessionDigest(c, Token(cookieHeader).value) == states[|steps|].threads[t].cookie
    ensures var resumed := Resume(c, states[|steps|].db, cookieHeader, now);
            SplitAnswer(states[|steps|], t, now) == if resumed.None? then None else Some(resumed.value.1)
  {
    ResumedIdentityIsResume(c, states[|steps|], cookieHeader, now);
    SplitDiffersOnlyIfGuessed(c, states, steps, t, now);
  }

  /** Freshness aside, a cookie whose session was there at the first call is never refused
      for setup at the second. */
  lemma HeldCookieIsNotRefused(c: Crypto, states: seq<State>, steps: seq<Step>, t: nat, k: nat, now: int)
    requires Run(c, states, steps) && Pending(states[|steps|], t)
    requires k < |steps| && steps[k].ReadSetup? && steps[k].t == t
    requires forall i :: k < i < |steps| ==> !(steps[i].ReadSetup? && steps[i].t == t)
    requires !BreakGlassAt(states[k], steps[k].cookie)
    ensures SplitAnswer(states[|steps|], t, now) == ResumedIdentity(states[|steps|], steps[k].cookie, now)
  {
    var last := ReadingExists(c, states, steps, t);
    assert last == k;
    RunKeepsInv(c, states[..k + 1], steps[..k]);
  }

  /** What freshness rules out: a request that presents a cookie before its token is drawn, with
      the first enrolment between its two calls, is refused a session that `resume` accepts. */
  lemma GuessedTokenIsRefused(c: Crypto, account: Account, raw: string) returns (states: seq<State>, steps: seq<Step>)
    ensures Run(c, states, steps) && !TokensFresh(c, steps)
    ensures var s := states[|steps|];
            && Pending(s, 0)
            && SplitAnswer(s, 0, 0) == None
            && ResumedIdentity(s, s.threads[0].cookie, 0).Some?
  {
    var d, step := SessionDigest(c, raw), Enroll(account, [], raw, 0, false);
    var s0 := State(Db(None, map[], map[]), [Idle], 0, []);
    var s1 := At(s0, 0, SetupRead(d, true));
    var s2 := Granted(s1, step, map[d := GrantedRow(c, s1, step)]);
    GrantedIsNext(c, s1, step, s2.db.sessions);
    states, steps := [s0, s1, s2], [ReadSetup(0, d), step];
    assert Next(c, s0, steps[0], s1);
    assert Draws(c, steps[1], steps[0].cookie);
  }
}

/**
 Local administrator authentication as interleaved steps: enrolment, password logins with
 TOTP or a recovery code, break-glass sessions and cookie checks share one database, and
 each step is one repository call.
 */
module AuthRuns {
  import opened Digests
  import opened Faults
  import opened Options
  import opened SessionTable
  import opened SessionStore

  /** Where a request is between two repository calls. */
  datatype Thread =
    | Idle
    | Verified(account: Account)                      // `login` after the password and factor checks
    | SetupRead(cookie: Digest, required: bool)       // `authenticate` after reading `setup_required`

  datatype State = State(
    db: Db,
    threads: seq<Thread>,
    commits: nat,                // trace: committed initial-administrator transactions
    recovered: seq<Digest>)      // trace: codes of committed recovery logins

  /** `fails` is a storage error that rolls the transaction back. */
  datatype Step =
    | Enroll(account: Account, digests: seq<Digest>, raw: string, now: int, fails: bool)
    | CheckLogin(t: nat)
    | TotpLogin(t: nat, raw: string, now: int, fails: bool)
    | RecoveryLogin(t: nat, code: Digest, raw: string, now: int, fails: bool)
    | BreakGlassLogin(raw: string, now: int, fails: bool)
    | ReadSetup(t: nat, cookie: Digest)
    | FinishAuthenticate(t: nat, now: int, fault: Fault)
    | Look(cookie: Digest, now: int, fault: Fault)
    | LogoutOne(cookie: Digest, fails: bool)
    | RevokeActor(actor: string, fails: bool)

  function At(s: State, t: nat, thread: Thread): State
    requires t < |s.threads|
  {
    s.(threads := s.threads[t := thread])
  }

  // ----- Issuing a session -----

  /** The steps that insert a session. */
  predicate Issuing(step: Step) {
    step.Enroll? || step.TotpLogin? || step.RecoveryLogin? || step.BreakGlassLogin?
  }

  predicate Ready(s: State, step: Step)
    requires Issuing(step)
  {
    step.TotpLogin? || step.RecoveryLogin? ==> step.t < |s.threads| && s.threads[step.t].Verified?
  }

  function Actor(s: State, step: Step): string
    requires Issuing(step) && Ready(s, step)
  {
    match step
    case Enroll(account, _, _, _, _) => account.username
    case TotpLogin(t, _, _, _) => s.threads[t].account.username
    case RecoveryLogin(t, _, _, _, _) => s.threads[t].account.username
    case BreakGlassLogin(_, _, _) => "break-glass"
  }

  function Via(step: Step): Method
    requires Issuing(step)
  {
    match step
    case Enroll(_, _, _, _, _) => PasswordTotp
    case TotpLogin(_, _, _, _) => PasswordTotp
    case RecoveryLogin(_, _, _, _, _) => PasswordRecovery
    case BreakGlassLogin(_, _, _) => BreakGlass
  }

  /** The table the new row is inserted into. */
  function Room(s: State, step: Step): Sessions
    requires Issuing(step)
  {
    if step.Enroll? then s.db.sessions else Purged(s.db.sessions, step.now)
  }

  /** The step's transaction commits. */
  predicate Grants(c: Crypto, s: State, step: Step) {
    && Issuing(step) && Ready(s, step) && !step.fails && SessionDigest(c, step.raw) !in Room(s, step)
    && (step.Enroll? ==> s.db.account.None? && Storable(s.db.codes, step.digests))
    && (step.RecoveryLogin? ==> step.code in s.db.codes && s.db.codes[step.code].None?)
  }

  function GrantedRow(c: Crypto, s: State, step: Step): Session
    requires Issuing(step) && Ready(s, step)
  {
    PreparedRow(c, step.raw, Actor(s, step), Via(step), step.now)
  }

  /** The state after a committed issue that left `sessions`. */
  function Granted(s: State, step: Step, sessions: Sessions): State
    requires Issuing(step) && Ready(s, step)
  {
    match step
    case Enroll(account, digests, _, _, _) =>
      s.(db := Db(Some(account), s.db.codes + FreshCodes(digests), sessions), commits := s.commits + 1)
    case TotpLogin(t, _, _, _) =>
      At(s, t, Idle).(db := s.db.(sessions := sessions))
    case RecoveryLogin(t, code, _, now, _) =>
      At(s, t, Idle).(db := Db(s.db.account, s.db.codes[code := Some(now)], sessions),
                      recovered := s.recovered + [code])
    case BreakGlassLogin(_, _, _) =>
      s.(db := s.db.(sessions := sessions))
  }

  function Refused(s: State, step: Step): State
    requires Issuing(step) && Ready(s, step)
  {
    if step.TotpLogin? || step.RecoveryLogin? then At(s, step.t, Idle) else s
  }

  ghost predicate Issues(c: Crypto, s: State, step: Step, s': State)
    requires Issuing(step)
  {
    && Ready(s, step)
    && if Grants(c, s, step) then
         && Inserted(Room(s, step), s'.db.sessions, SessionDigest(c, step.raw), GrantedRow(c, s, step))
         && s' == Granted(s, step, s'.db.sessions)
       else
         s' == Refused(s, step)
  }

  // ----- Runs -----

  function WithSessions(s: State, sessions: Sessions): State {
    s.(db := s.db.(sessions := sessions))
  }

  ghost predicate Next(c: Crypto, s: State, step: Step, s': State) {
    match step
    case Enroll(_, _, _, _, _) => Issues(c, s, step, s')
    case TotpLogin(_, _, _, _) => Issues(c, s, step, s')
    case RecoveryLogin(_, _, _, _, _) => Issues(c, s, step, s')
    case BreakGlassLogin(_, _, _) => Issues(c, s, step, s')
    case CheckLogin(t) =>
      && t < |s.threads| && s.threads[t].Idle? && s.db.account.Some?
      && s' == At(s, t, Verified(s.db.account.value))
    case ReadSetup(t, cookie) =>
      && t < |s.threads| && s.threads[t].Idle?
      && s' == At(s, t, SetupRead(cookie, s.db.account.None?))
    case FinishAuthenticate(t, now, fault) =>
      && t < |s.threads| && s.threads[t].SetupRead?
      && s' == WithSessions(At(s, t, Idle), Swept(s.db.sessions, now, fault))
    case Look(_, now, fault) => s' == WithSessions(s, Swept(s.db.sessions, now, fault))
    case LogoutOne(cookie, fails) =>
      s' == if fails then s else WithSessions(s, s.db.sessions - {cookie})
    case RevokeActor(actor, fails) =>
      s' == if fails then s else WithSessions(s, WithoutActor(s.db.sessions, actor))
  }

  predicate Fresh(s: State) {
    && s.db == Db(None, map[], map[])
    && (forall i :: 0 <= i < |s.threads| ==> s.threads[i].Idle?)
    && s.commits == 0 && s.recovered == []
  }

  ghost predicate Run(c: Crypto, states: seq<State>, steps: seq<Step>) {
    && |states| == |steps| + 1
    && Fresh(states[0])
    && forall i :: 0 <= i < |steps| ==> Next(c, states[i], steps[i], states[i + 1])
  }

  // ----- What every step keeps -----

  /** Without an account there is nothing but break-glass sessions. */
  predicate AccountFirst(s: State) {
    && s.commits == (if s.db.account.Some? then 1 else 0)
    && (s.db.account.None? ==>
          s.db.codes == map[] && s.recovered == [] && OnlyBreakGlass(s.db.sessions))
  }

  /** What a login checked is still the account. */
  predicate LoginsCurrent(s: State) {
    forall i :: 0 <= i < |s.threads| && s.threads[i].Verified? ==> s.db.account == Some(s.threads[i].account)
  }

  function Unused(codes: Codes): set<Digest> {
    set d | d in codes && codes[d].None?
  }

  /** The used codes are those of the committed recovery logins, each of them once. */
  predicate CodesAccounted(s: State) {
    && NoDuplicates(s.recovered)
    && (forall d :: d in s.recovered ==> d in s.db.codes && s.db.codes[d].Some?)
    && |Unused(s.db.codes)| + |s.recovered| == |s.db.codes|
  }

  ghost predicate AllGenuine(c: Crypto, sessions: Sessions) {
    forall d :: d in sessions ==> Genuine(c, d, sessions[d])
  }

  ghost predicate Inv(c: Crypto, s: State) {
    AccountFirst(s) && LoginsCurrent(s) && CodesAccounted(s) && AllGenuine(c, s.db.sessions)
  }

  predicate OnlyBreakGlass(sessions: Sessions) {
    forall d :: d in sessions ==> sessions[d].via == BreakGlass
  }

  lemma BreakGlassStays(c: Crypto, s: State, step: Step, s': State)
    requires OnlyBreakGlass(s.db.sessions) && s.db.account.None? && LoginsCurrent(s)
    requires Next(c, s, step, s') && s'.db.account.None?
    ensures OnlyBreakGlass(s'.db.sessions)
  {
  }

  lemma StepKeepsLogins(c: Crypto, s: State, step: Step, s': State)
    requires LoginsCurrent(s) && Next(c, s, step, s')
    ensures LoginsCurrent(s')
  {
  }

  lemma StepKeepsAccount(c: Crypto, s: State, step: Step, s': State)
    requires AccountFirst(s) && LoginsCurrent(s) && Next(c, s, step, s')
    ensures AccountFirst(s')
  {
    if s'.db.account.None? {
      assert s.db.account.None?;
      BreakGlassStays(c, s, step, s');
    }
  }

  /** Every row after a step was there before or is the one the step issued. */
  lemma RowOrigin(c: Crypto, s: State, step: Step, s': State, d: Digest)
    requires Next(c, s, step, s') && d in s'.db.sessions
    ensures || (d in s.db.sessions && s'.db.sessions[d] == s.db.sessions[d])
            || (Grants(c, s, step) && d == SessionDigest(c, step.raw) && s'.db.sessions[d] == GrantedRow(c, s, step))
  {
    if Issuing(step) && Grants(c, s, step) {
      assert Issues(c, s, step, s');
    }
  }

  lemma StepKeepsGenuine(c: Crypto, s: State, step: Step, s': State)
    requires AllGenuine(c, s.db.sessions) && Next(c, s, step, s')
    ensures AllGenuine(c, s'.db.sessions)
  {
    forall d | d in s'.db.sessions
      ensures Genuine(c, d, s'.db.sessions[d])
    {
      RowOrigin(c, s, step, s', d);
    }
  }

  lemma EnrollAccountsCodes(digests: seq<Digest>)
    requires Storable(map[], digests)
    ensures var codes := map[] + FreshCodes(digests);
            |Unused(codes)| == |codes| == |digests|
  {
    StorableMeansNew(map[], digests);
    FreshCodesHold(digests);
    var codes: Codes := map[] + FreshCodes(digests);
    assert codes == FreshCodes(digests);
    assert Unused(codes) == codes.Keys;
  }

  lemma UseAccountsCode(codes: Codes, code: Digest, now: int)
    requires code in codes && codes[code].None?
    ensures var after := codes[code := Some(now)];
            |after| == |codes| && |Unused(after)| + 1 == |Unused(codes)|
  {
    var after := codes[code := Some(now)];
    assert after.Keys == codes.Keys;
    assert Unused(codes) == Unused(after) + {code};
  }

  lemma StepKeepsCodes(c: Crypto, s: State, step: Step, s': State)
    requires AccountFirst(s) && CodesAccounted(s) && Next(c, s, step, s')
    ensures CodesAccounted(s')
  {
    if Grants(c, s, step) {
      match step {
        case Enroll(_, digests, _, _, _) =>
          EnrollAccountsCodes(digests);
        case RecoveryLogin(_, code, _, now, _) =>
          UseAccountsCode(s.db.codes, code, now);
          assert s'.recovered[..|s.recovered|] == s.recovered;
        case _ =>
      }
    }
  }

  /** The invariant holds in every state of every run. */
  lemma {:induction false} RunKeepsInv(c: Crypto, states: seq<State>, steps: seq<Step>)
    requires Run(c, states, steps)
    ensures Inv(c, states[|steps|])
    decreases |steps|
  {
    if steps != [] {
      var n := |steps| - 1;
      RunKeepsInv(c, states[..n + 1], steps[..n]);
      assert Next(c, states[n], steps[n], states[n + 1]);
      StepKeepsAccount(c, states[n], steps[n], states[n + 1]);
      StepKeepsLogins(c, states[n], steps[n], states[n + 1]);
      StepKeepsCodes(c, states[n], steps[n], states[n + 1]);
      StepKeepsGenuine(c, states[n], steps[n], states[n + 1]);
    }
  }

  // ----- Enrolment and recovery codes -----

  /** Over every interleaving the initial administrator is created at most once; until
      then there are no codes and no sessions but break-glass ones. */
  lemma EnrolsAtMostOnce(c: Crypto, states: seq<State>, steps: seq<Step>)
    requires Run(c, states, steps)
    ensures var s := states[|steps|];
            && s.commits <= 1
            && (s.commits == 1 <==> s.db.account.Some?)
            && (s.commits == 0 ==> s.db.codes == map[] && OnlyBreakGlass(s.db.sessions))
  {
    RunKeepsInv(c, states, steps);
  }

  /** Unused codes plus committed recovery logins is always the number of codes stored, and
      no code pays for two logins. */
  lemma RecoveryCodesConserved(c: Crypto, states: seq<State>, steps: seq<Step>)
    requires Run(c, states, steps)
    ensures var s := states[|steps|];
            |Unused(s.db.codes)| + |s.recovered| == |s.db.codes| && NoDuplicates(s.recovered)
  {
    RunKeepsInv(c, states, steps);
  }
}

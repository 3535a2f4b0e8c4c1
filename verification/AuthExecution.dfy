/** The steps of `AuthRuns` are what the repository's calls do. */
module AuthExecution {
  import opened AuthRuns
  import opened Results
  import opened SessionStore
  import opened SessionTable

  /** The request is at the point where it makes this call. */
  predicate Possible(s: State, step: Step) {
    match step
    case CheckLogin(t) => t < |s.threads| && s.threads[t].Idle? && s.db.account.Some?
    case TotpLogin(t, _, _, _) => t < |s.threads| && s.threads[t].Verified?
    case RecoveryLogin(t, _, _, _, _) => t < |s.threads| && s.threads[t].Verified?
    case ReadSetup(t, _) => t < |s.threads| && s.threads[t].Idle?
    case FinishAuthenticate(t, _, _) => t < |s.threads| && s.threads[t].SetupRead?
    case _ => true
  }

  method PerformEnroll(c: Crypto, repository: AuthRepository, s: State, step: Step) returns (s': State)
    requires repository.Current() == s.db && step.Enroll?
    modifies repository
    ensures repository.Current() == s'.db && Next(c, s, step, s')
  {
    var row := PreparedRow(c, step.raw, step.account.username, PasswordTotp, step.now);
    var r := repository.CreateInitialAdminAndSession(step.account, step.digests, SessionDigest(c, step.raw), row, step.fails);
    s' := s.(db := repository.Current());
    if r == Ok(true) {
      s' := s'.(commits := s.commits + 1);
    }
  }

  method PerformTotpLogin(c: Crypto, repository: AuthRepository, s: State, step: Step) returns (s': State)
    requires repository.Current() == s.db && step.TotpLogin? && Possible(s, step)
    modifies repository
    ensures repository.Current() == s'.db && Next(c, s, step, s')
  {
    var row := PreparedRow(c, step.raw, s.threads[step.t].account.username, PasswordTotp, step.now);
    var r := repository.InsertSession(SessionDigest(c, step.raw), row, step.fails);
    s' := At(s, step.t, Idle).(db := repository.Current());
  }

  method PerformRecoveryLogin(c: Crypto, repository: AuthRepository, s: State, step: Step) returns (s': State)
    requires repository.Current() == s.db && step.RecoveryLogin? && Possible(s, step)
    modifies repository
    ensures repository.Current() == s'.db && Next(c, s, step, s')
  {
    var row := PreparedRow(c, step.raw, s.threads[step.t].account.username, PasswordRecovery, step.now);
    var r := repository.ConsumeRecoveryCodeAndInsertSession(step.code, step.now, SessionDigest(c, step.raw), row, step.fails);
    s' := At(s, step.t, Idle).(db := repository.Current());
    if r == Ok(true) {
      s' := s'.(recovered := s.recovered + [step.code]);
    }
  }

  method PerformBreakGlass(c: Crypto, repository: AuthRepository, s: State, step: Step) returns (s': State)
    requires repository.Current() == s.db && step.BreakGlassLogin?
    modifies repository
    ensures repository.Current() == s'.db && Next(c, s, step, s')
  {
    var row := PreparedRow(c, step.raw, "break-glass", BreakGlass, step.now);
    var r := repository.InsertSession(SessionDigest(c, step.raw), row, step.fails);
    s' := s.(db := repository.Current());
  }

  method PerformCheck(c: Crypto, repository: AuthRepository, s: State, step: Step) returns (s': State)
    requires repository.Current() == s.db && !Issuing(step) && Possible(s, step)
    modifies repository
    ensures repository.Current() == s'.db && Next(c, s, step, s')
  {
    s' := s;
    match step {
      case CheckLogin(t) =>
        s' := At(s, t, Verified(repository.account.value));
      case ReadSetup(t, cookie) =>
        var configured := repository.IsConfigured(false);
        s' := At(s, t, SetupRead(cookie, !configured.value));
      case FinishAuthenticate(t, now, fault) =>
        var r := repository.FindSession(s.threads[t].cookie, now, fault);
        s' := At(s, t, Idle);
      case Look(cookie, now, fault) =>
        var r := repository.FindSession(cookie, now, fault);
      case LogoutOne(cookie, fails) =>
        var r := repository.DeleteSession(cookie, fails);
      case RevokeActor(actor, fails) =>
        var r := repository.DeleteActorSessions(actor, fails);
    }
    s' := s'.(db := repository.Current());
  }

  /** Makes the repository call of a step on a repository in the step's state. */
  method Perform(c: Crypto, repository: AuthRepository, s: State, step: Step) returns (s': State)
    requires repository.Current() == s.db && Possible(s, step)
    modifies repository
    ensures repository.Current() == s'.db && Next(c, s, step, s')
  {
    match step {
      case Enroll(_, _, _, _, _) => s' := PerformEnroll(c, repository, s, step);
      case TotpLogin(_, _, _, _) => s' := PerformTotpLogin(c, repository, s, step);
      case RecoveryLogin(_, _, _, _, _) => s' := PerformRecoveryLogin(c, repository, s, step);
      case BreakGlassLogin(_, _, _) => s' := PerformBreakGlass(c, repository, s, step);
      case _ => s' := PerformCheck(c, repository, s, step);
    }
  }
}

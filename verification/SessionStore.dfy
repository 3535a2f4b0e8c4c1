/** The session entry points: issuing a session and reading it back by cookie through
    `authenticate`, `resume` and `authorize`. */
module SessionStore {
  import opened Faults
  import opened Options
  import opened Results
  import opened Cookies
  import opened Digests
  import opened SessionTable
  import opened SessionHistory

  const SESSION_CONTEXT: string := "vpsguard-session-v2"
  const CSRF_TOKEN_CONTEXT: string := "vpsguard-csrf-token-v2"
  const CSRF_STORE_CONTEXT: string := "vpsguard-csrf-store-v2"

  /** The keyed digest and the text encoding of a digest, as opaque functions. */
  datatype Crypto = Crypto(mac: (string, string) -> Digest, encode: Digest -> string)

  /** No two values share a digest under one context, and no two digests an encoding. */
  ghost predicate CollisionFree(c: Crypto) {
    && (forall k, x, y :: c.mac(k, x) == c.mac(k, y) ==> x == y)
    && (forall d, e :: c.encode(d) == c.encode(e) ==> d == e)
  }

  function SessionDigest(c: Crypto, raw: string): Digest {
    c.mac(SESSION_CONTEXT, raw)
  }

  function CsrfToken(c: Crypto, raw: string): string {
    c.encode(c.mac(CSRF_TOKEN_CONTEXT, raw))
  }

  function CsrfDigest(c: Crypto, token: string): Digest {
    c.mac(CSRF_STORE_CONTEXT, token)
  }

  /** The row stored for a session with raw token `raw`. */
  function PreparedRow(c: Crypto, raw: string, actor: string, via: Method, now: int): Session {
    Session(CsrfDigest(c, CsrfToken(c, raw)), actor, via, now, Expiry(now))
  }

  datatype Identity = Identity(actor: string, via: Method, expiresIn: nat)

  function IdentityOf(row: Session, now: int): Identity {
    Identity(row.actor, row.via, if row.expiresAt >= now then row.expiresAt - now else 0)
  }

  /** The request's session token; the header is None when missing or not text. */
  function Token(cookieHeader: Option<string>): Option<string> {
    if cookieHeader.None? then None else FindSessionCookie(cookieHeader.value)
  }

  /** The row a lookup finds once expired rows are gone. */
  function Find(sessions: Sessions, d: Digest, now: int): Option<Session> {
    if d in Purged(sessions, now) then Some(sessions[d]) else None
  }

  // ----- The three entry points -----

  /** What `authenticate` returns after reading `setupRequired` and then the row. */
  function AuthenticateRow(setupRequired: bool, row: Option<Session>, now: int): Option<Identity> {
    if row.Some? && (!setupRequired || row.value.via == BreakGlass) then Some(IdentityOf(row.value, now)) else None
  }

  function Authenticate(c: Crypto, db: Db, cookieHeader: Option<string>, now: int): Option<Identity> {
    var raw := Token(cookieHeader);
    if raw.None? then None
    else AuthenticateRow(db.account.None?, Find(db.sessions, SessionDigest(c, raw.value), now), now)
  }

  function Authorize(c: Crypto, db: Db, cookieHeader: Option<string>, csrf: Option<string>, now: int): Option<Identity> {
    var raw := Token(cookieHeader);
    if raw.None? || csrf.None? then None
    else
      var row := Find(db.sessions, SessionDigest(c, raw.value), now);
      if row.Some? && CsrfDigest(c, csrf.value) == row.value.csrfDigest
      then Some(IdentityOf(row.value, now)) else None
  }

  function Resume(c: Crypto, db: Db, cookieHeader: Option<string>, now: int): Option<(string, Identity)> {
    var raw := Token(cookieHeader);
    if raw.None? then None
    else
      var row := Find(db.sessions, SessionDigest(c, raw.value), now);
      if row.None? then None else Some((CsrfToken(c, raw.value), IdentityOf(row.value, now)))
  }

  /** The service: entry points over a repository. */
  class Store {
    const repository: AuthRepository
    const crypto: Crypto

    constructor (repository: AuthRepository, crypto: Crypto)
      ensures this.repository == repository && this.crypto == crypto
    {
      this.repository := repository;
      this.crypto := crypto;
    }

    /** Issues a session for a fresh random token; returns the `Set-Cookie` text and the
        CSRF token. */
    method IssueSession(raw: string, actor: string, via: Method, secure: bool, now: int, fails: bool)
      returns (r: Reply<(string, string)>)
      modifies repository
      ensures r.Ok? <==> !fails && SessionDigest(crypto, raw) !in Purged(old(repository.sessions), now)
      ensures r.Err? ==> repository.Current() == old(repository.Current())
      ensures r.Ok? ==>
                && r.value == (SessionCookie(raw, secure), CsrfToken(crypto, raw))
                && repository.account == old(repository.account) && repository.codes == old(repository.codes)
                && Inserted(Purged(old(repository.sessions), now), repository.sessions,
                            SessionDigest(crypto, raw), PreparedRow(crypto, raw, actor, via, now))
    {
      var reply := repository.InsertSession(SessionDigest(crypto, raw), PreparedRow(crypto, raw, actor, via, now), fails);
      if reply.Err? {
        return Err(StoreError);
      }
      return Ok((SessionCookie(raw, secure), CsrfToken(crypto, raw)));
    }

    /** `setupFails` is a storage error on reading whether there is an account. */
    method AuthenticateRequest(cookieHeader: Option<string>, now: int, setupFails: bool, fault: Fault)
      returns (r: Reply<Option<Identity>>)
      modifies repository
      ensures r == if Token(cookieHeader).None? then Ok(None)
                   else if setupFails || fault != NoFault then Err(StoreError)
                   else Ok(Authenticate(crypto, old(repository.Current()), cookieHeader, now))
      ensures repository.Current() == old(repository.Current()).(sessions :=
                if Token(cookieHeader).None? || setupFails then old(repository.sessions)
                else Swept(old(repository.sessions), now, fault))
    {
      var raw := Token(cookieHeader);
      if raw.None? {
        return Ok(None);
      }
      var configured := repository.IsConfigured(setupFails);
      if configured.Err? {
        return Err(StoreError);
      }
      var row := repository.FindSession(SessionDigest(crypto, raw.value), now, fault);
      if row.Err? {
        return Err(StoreError);
      }
      return Ok(AuthenticateRow(!configured.value, row.value, now));
    }

    method AuthorizeRequest(cookieHeader: Option<string>, csrf: Option<string>, now: int, fault: Fault)
      returns (r: Reply<Option<Identity>>)
      modifies repository
      ensures r == if Token(cookieHeader).None? || csrf.None? then Ok(None)
                   else if fault != NoFault then Err(StoreError)
                   else Ok(Authorize(crypto, old(repository.Current()), cookieHeader, csrf, now))
      ensures repository.Current() == old(repository.Current()).(sessions :=
                if Token(cookieHeader).None? || csrf.None? then old(repository.sessions)
                else Swept(old(repository.sessions), now, fault))
    {
      var raw := Token(cookieHeader);
      if raw.None? || csrf.None? {
        return Ok(None);
      }
      var row := repository.FindSession(SessionDigest(crypto, raw.value), now, fault);
      if row.Err? {
        return Err(StoreError);
      }
      if row.value.None? || CsrfDigest(crypto, csrf.value) != row.value.value.csrfDigest {
        return Ok(None);
      }
      return Ok(Some(IdentityOf(row.value.value, now)));
    }

    method ResumeRequest(cookieHeader: Option<string>, now: int, fault: Fault)
      returns (r: Reply<Option<(string, Identity)>>)
      modifies repository
      ensures r == if Token(cookieHeader).None? then Ok(None)
                   else if fault != NoFault then Err(StoreError)
                   else Ok(Resume(crypto, old(repository.Current()), cookieHeader, now))
      ensures repository.Current() == old(repository.Current()).(sessions :=
                if Token(cookieHeader).None? then old(repository.sessions)
                else Swept(old(repository.sessions), now, fault))
    {
      var raw := Token(cookieHeader);
      if raw.None? {
        return Ok(None);
      }
      var row := repository.FindSession(SessionDigest(crypto, raw.value), now, fault);
      if row.Err? {
        return Err(StoreError);
      }
      if row.value.None? {
        return Ok(None);
      }
      return Ok(Some((CsrfToken(crypto, raw.value), IdentityOf(row.value.value, now))));
    }

    /** Deletes the request's own session and returns the text that expires its cookie. */
    method Logout(cookieHeader: Option<string>, secure: bool, fails: bool) returns (r: Reply<Option<string>>)
      modifies repository
      ensures r == if Token(cookieHeader).None? then Ok(None)
                   else if fails then Err(StoreError) else Ok(Some(ExpiredCookie(secure)))
      ensures repository.Current()
           == if Token(cookieHeader).Some? && !fails
              then old(repository.Current()).(sessions := old(repository.sessions) - {SessionDigest(crypto, Token(cookieHeader).value)})
              else old(repository.Current())
    {
      var raw := Token(cookieHeader);
      if raw.None? {
        return Ok(None);
      }
      var deleted := repository.DeleteSession(SessionDigest(crypto, raw.value), fails);
      if deleted.Err? {
        return Err(StoreError);
      }
      return Ok(Some(ExpiredCookie(secure)));
    }

    /** Deletes every session of the request's actor and counts them; a request that is
        refused or fails deletes none that is not expired. */
    method RevokeAll(cookieHeader: Option<string>, now: int, setupFails: bool, fault: Fault, deleteFails: bool)
      returns (r: Reply<Option<nat>>)
      modifies repository
      ensures repository.account == old(repository.account) && repository.codes == old(repository.codes)
      ensures var who := Authenticate(crypto, old(repository.Current()), cookieHeader, now);
              var swept := if Token(cookieHeader).None? || setupFails then old(repository.sessions)
                           else Swept(old(repository.sessions), now, fault);
              if Token(cookieHeader).None? then
                r == Ok(None) && repository.sessions == swept
              else if setupFails || fault != NoFault then
                r == Err(StoreError) && repository.sessions == swept
              else if who.None? then
                r == Ok(None) && repository.sessions == swept
              else if deleteFails then
                r == Err(StoreError) && repository.sessions == swept
              else
                && repository.sessions == WithoutActor(swept, who.value.actor)
                && r.Ok? && r.value.Some? && r.value.value == |swept| - |repository.sessions|
    {
      var who := AuthenticateRequest(cookieHeader, now, setupFails, fault);
      if who.Err? {
        return Err(StoreError);
      }
      if who.value.None? {
        return Ok(None);
      }
      var n := repository.DeleteActorSessions(who.value.value.actor, deleteFails);
      if n.Err? {
        return Err(StoreError);
      }
      return Ok(Some(n.value));
    }
  }

  // ----- Cookies and CSRF tokens of one session -----

  /** The row under `d` was prepared for the raw token whose digest `d` is. */
  ghost predicate Genuine(c: Crypto, d: Digest, row: Session) {
    exists raw :: d == SessionDigest(c, raw) && row.csrfDigest == CsrfDigest(c, CsrfToken(c, raw))
  }

  /** The CSRF token that `resume` returns is accepted by `authorize` for that session, and
      no other token is. */
  lemma CsrfAcceptedExactlyFromResume(c: Crypto, db: Db, cookieHeader: Option<string>, csrf: string, now: int)
    requires CollisionFree(c)
    requires forall d :: d in db.sessions ==> Genuine(c, d, db.sessions[d])
    ensures var resumed := Resume(c, db, cookieHeader, now);
            Authorize(c, db, cookieHeader, Some(csrf), now)
            == if resumed.Some? && csrf == resumed.value.0 then Some(resumed.value.1) else None
  {
    var raw := Token(cookieHeader);
    if raw.Some? {
      var d := SessionDigest(c, raw.value);
      if d in db.sessions {
        var own :| d == SessionDigest(c, own) && db.sessions[d].csrfDigest == CsrfDigest(c, CsrfToken(c, own));
        assert own == raw.value;
      }
    }
  }

  /** The CSRF token of one session is refused with the cookie of every other. */
  lemma CsrfTokensDiffer(c: Crypto, db: Db, raw: string, cookieHeader: Option<string>, now: int)
    requires CollisionFree(c) && Token(cookieHeader) != Some(raw)
    requires forall d :: d in db.sessions ==> Genuine(c, d, db.sessions[d])
    ensures Authorize(c, db, cookieHeader, Some(CsrfToken(c, raw)), now) == None
  {
    var own := Token(cookieHeader);
    if own.Some? {
      assert c.mac(CSRF_TOKEN_CONTEXT, raw) != c.mac(CSRF_TOKEN_CONTEXT, own.value);
      CsrfAcceptedExactlyFromResume(c, db, cookieHeader, CsrfToken(c, raw), now);
    }
  }

  /** From issue to use: the cookie printed for a session, sent back among other cookies,
      resumes that session while it is in the table, and the CSRF token printed with it
      authorizes it. */
  lemma IssuedCookieWorks(c: Crypto, db: Db, raw: string, secure: bool, before: seq<Cookie>, after: seq<Cookie>, now: int)
    requires CollisionFree(c) && IsToken(raw)
    requires forall o :: o in before ==> WellFormed(o) && !IsSessionName(o.name)
    requires forall o :: o in after ==> WellFormed(o)
    requires forall d :: d in db.sessions ==> Genuine(c, d, db.sessions[d])
    ensures Stored(SessionCookie(raw, secure)).Some?
    ensures var header := Some(Header(before + [Stored(SessionCookie(raw, secure)).value] + after));
            var row := Find(db.sessions, SessionDigest(c, raw), now);
            if row.None? then
              Resume(c, db, header, now) == None
            else
              && Resume(c, db, header, now) == Some((CsrfToken(c, raw), IdentityOf(row.value, now)))
              && Authorize(c, db, header, Some(CsrfToken(c, raw)), now) == Some(IdentityOf(row.value, now))
  {
    CookieRoundTrip(raw, secure, before, after);
    var header := Some(Header(before + [Stored(SessionCookie(raw, secure)).value] + after));
    CsrfAcceptedExactlyFromResume(c, db, header, CsrfToken(c, raw), now);
  }
}

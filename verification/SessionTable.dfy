/**
 The administrator tables: one account, its recovery codes and the bounded session
 table, changed by transactions that commit or leave everything as it was.
 */
module SessionTable {
  import opened Digests
  import opened Faults
  import opened Options
  import opened Results

  const MAX_SESSIONS: nat := 128

  datatype Method = PasswordTotp | PasswordRecovery | PamMfa | PamRecovery | BreakGlass

  datatype Session = Session(csrfDigest: Digest, actor: string, via: Method, issuedAt: int, expiresAt: int)

  /** The password verifier and sealed TOTP seed are one opaque `secret` here. */
  datatype Account = Account(username: string, secret: string)

  type Sessions = map<Digest, Session>

  /** For each stored code, when it was used. */
  type Codes = map<Digest, Option<int>>

  datatype Db = Db(account: Option<Account>, codes: Codes, sessions: Sessions)

  datatype StoreError = StoreError

  /** What a repository call returns: an answer, or a storage error. */
  type Reply<T> = Result<T, StoreError>

  // ----- The pieces of a transaction -----

  function Purged(sessions: Sessions, now: int): Sessions {
    map d | d in sessions && sessions[d].expiresAt > now :: sessions[d]
  }

  /** The table once a lookup is over; deleting the expired rows is a statement of its own. */
  function Swept(sessions: Sessions, now: int, fault: Fault): Sessions {
    if fault == FaultBefore then sessions else Purged(sessions, now)
  }

  /** `after` is what trimming may leave of `before`: no more rows than the limit, none
      removed needlessly, and no removed row younger than a kept one. Rows issued in the
      same second may go in any order. */
  ghost predicate Trimmed(before: Sessions, after: Sessions) {
    && (forall d :: d in after ==> d in before && after[d] == before[d])
    && |after| == (if |before| <= MAX_SESSIONS then |before| else MAX_SESSIONS)
    && forall d, e :: d in before && d !in after && e in after ==> before[d].issuedAt <= after[e].issuedAt
  }

  lemma OldestExists(sessions: Sessions) returns (oldest: Digest)
    requires sessions != map[]
    ensures oldest in sessions
    ensures forall e :: e in sessions ==> sessions[oldest].issuedAt <= sessions[e].issuedAt
    decreases |sessions|
  {
    var d :| d in sessions;
    var rest := sessions - {d};
    assert rest.Keys == sessions.Keys - {d};
    oldest := d;
    if rest != map[] {
      var r := OldestExists(rest);
      if sessions[r].issuedAt < sessions[d].issuedAt {
        oldest := r;
      }
    }
    assert forall e :: e in sessions ==> e == d || e in rest;
  }

  /** Deletes the oldest rows above the limit. */
  method TrimSessions(sessions: Sessions) returns (kept: Sessions)
    ensures Trimmed(sessions, kept)
  {
    kept := sessions;
    while |kept| > MAX_SESSIONS
      invariant forall d :: d in kept ==> d in sessions && kept[d] == sessions[d]
      invariant |kept| <= |sessions|
      invariant |kept| == |sessions| || |kept| >= MAX_SESSIONS
      invariant |sessions| <= MAX_SESSIONS ==> kept == sessions
      invariant forall d, e :: d in sessions && d !in kept && e in kept ==> sessions[d].issuedAt <= kept[e].issuedAt
      decreases |kept|
    {
      ghost var some := OldestExists(kept);
      var oldest :| oldest in kept && forall e :: e in kept ==> kept[oldest].issuedAt <= kept[e].issuedAt;
      var next := kept - {oldest};
      assert next.Keys == kept.Keys - {oldest};
      kept := next;
    }
  }

  /** A committed insertion of one row into a table. */
  ghost predicate Inserted(before: Sessions, after: Sessions, d: Digest, row: Session) {
    d !in before && Trimmed(before[d := row], after)
  }

  lemma {:induction false} SameSizeSubset(a: set<Digest>, b: set<Digest>)
    requires a <= b && |a| == |b|
    ensures a == b
    decreases a
  {
    if a == {} {
      assert b == {};
    } else {
      var x :| x in a;
      SameSizeSubset(a - {x}, b - {x});
      assert a == (a - {x}) + {x} && b == (b - {x}) + {x};
    }
  }

  /** There is room for one more row, or one that goes before a row of this second. */
  predicate HasRoom(sessions: Sessions, now: int) {
    |sessions| < 128 || exists e :: e in sessions && sessions[e].issuedAt < now
  }

  lemma RoomKeepsRow(before: Sessions, after: Sessions, d: Digest, row: Session)
    requires Inserted(before, after, d, row) && |before| <= MAX_SESSIONS && HasRoom(before, row.issuedAt)
    ensures d in after
  {
    var full := before[d := row];
    assert full.Keys == before.Keys + {d};
    if d !in after {
      assert after.Keys <= before.Keys;
      SubsetSmaller(after.Keys, before.Keys);
      SameSizeSubset(after.Keys, before.Keys);
    }
  }

  /** An inserted row is sure to stay if and only if there is room for it. Otherwise the
      insertion may leave the table as it was. */
  lemma RowStaysExactlyWithRoom(before: Sessions, d: Digest, row: Session)
    requires d !in before && |before| <= MAX_SESSIONS
    ensures (forall after :: Inserted(before, after, d, row) ==> d in after) <==> HasRoom(before, row.issuedAt)
    ensures !HasRoom(before, row.issuedAt) ==> Inserted(before, before, d, row)
  {
    if HasRoom(before, row.issuedAt) {
      forall after | Inserted(before, after, d, row)
        ensures d in after
      {
        RoomKeepsRow(before, after, d, row);
      }
    } else {
      assert before[d := row].Keys == before.Keys + {d};
      assert Inserted(before, before, d, row);
    }
  }

  /** An inserted row is sure to be dropped if and only if the table is full of rows issued in
      later seconds. */
  lemma RowLostExactlyWhenAllLater(before: Sessions, d: Digest, row: Session)
    requires d !in before && |before| <= MAX_SESSIONS
    ensures (forall after :: Inserted(before, after, d, row) ==> d !in after)
       <==> |before| == MAX_SESSIONS && forall e :: e in before ==> row.issuedAt < before[e].issuedAt
  {
    var full := before[d := row];
    assert full.Keys == before.Keys + {d};
    if |before| < MAX_SESSIONS {
      assert Inserted(before, full, d, row);
    } else if e :| e in before && before[e].issuedAt <= row.issuedAt {
      var after := OldRowGoes(before, d, row, e);
    } else {
      forall after | Inserted(before, after, d, row)
        ensures d !in after
      {
        AllLaterDropsRow(before, after, d, row);
      }
    }
  }

  lemma OldRowGoes(before: Sessions, d: Digest, row: Session, e: Digest) returns (after: Sessions)
    requires d !in before && |before| == MAX_SESSIONS && e in before && before[e].issuedAt <= row.issuedAt
    ensures Inserted(before, after, d, row) && d in after
  {
    var full := before[d := row];
    var oldest := OldestExists(before);
    after := full - {oldest};
    assert full.Keys == before.Keys + {d};
    assert after.Keys == full.Keys - {oldest};
  }

  lemma AllLaterDropsRow(before: Sessions, after: Sessions, d: Digest, row: Session)
    requires Inserted(before, after, d, row) && |before| == MAX_SESSIONS
    requires forall e :: e in before ==> row.issuedAt < before[e].issuedAt
    ensures d !in after
  {
    var full := before[d := row];
    assert full.Keys == before.Keys + {d};
    if forall e :: e in before ==> e in after {
      if d in after {
        assert full.Keys <= after.Keys;
        SubsetSmaller(full.Keys, after.Keys);
      }
    }
  }

  function FreshCodes(digests: seq<Digest>): Codes {
    if digests == [] then map[] else FreshCodes(digests[..|digests| - 1])[digests[|digests| - 1] := None]
  }

  predicate NoDuplicates(digests: seq<Digest>) {
    digests == [] || (NoDuplicates(digests[..|digests| - 1]) && digests[|digests| - 1] !in digests[..|digests| - 1])
  }

  lemma {:induction false} FreshCodesHold(digests: seq<Digest>)
    ensures forall d :: d in FreshCodes(digests) <==> d in digests
    ensures forall d :: d in digests ==> FreshCodes(digests)[d] == None
    ensures NoDuplicates(digests) ==> |FreshCodes(digests)| == |digests|
  {
    if digests != [] {
      var n := |digests| - 1;
      var shorter := FreshCodes(digests[..n]);
      FreshCodesHold(digests[..n]);
      assert FreshCodes(digests).Keys == shorter.Keys + {digests[n]};
      assert forall d :: d in digests <==> d in digests[..n] || d == digests[n];
    }
  }

  lemma InShorterOrLast(digests: seq<Digest>)
    requires digests != []
    ensures forall c :: c in digests <==> c in digests[..|digests| - 1] || c == digests[|digests| - 1]
  {
    assert digests == digests[..|digests| - 1] + [digests[|digests| - 1]];
  }

  /** No insertion of these codes, one row at a time, repeats a key. */
  predicate Storable(codes: Codes, digests: seq<Digest>) {
    digests == [] ||
    var n := |digests| - 1;
    Storable(codes, digests[..n]) && digests[n] !in codes + FreshCodes(digests[..n])
  }

  lemma {:induction false} StorableMeansNew(codes: Codes, digests: seq<Digest>)
    ensures Storable(codes, digests) <==> NoDuplicates(digests) && forall c :: c in digests ==> c !in codes
  {
    if digests != [] {
      var n := |digests| - 1;
      var shorter := digests[..n];
      StorableMeansNew(codes, shorter);
      FreshCodesHold(shorter);
      InShorterOrLast(digests);
    }
  }

  lemma {:induction false} StorablePrefix(codes: Codes, digests: seq<Digest>, k: nat)
    requires k <= |digests| && Storable(codes, digests)
    ensures Storable(codes, digests[..k])
  {
    var n := |digests| - 1;
    if k <= n {
      StorablePrefix(codes, digests[..n], k);
      assert digests[..n][..k] == digests[..k];
    } else {
      assert digests[..k] == digests;
    }
  }

  /** Adds the codes one row at a time; a repeated key is an error. */
  method StoreCodes(codes: Codes, digests: seq<Digest>) returns (r: Reply<Codes>)
    ensures r.Ok? <==> Storable(codes, digests)
    ensures r.Ok? ==> r.value == codes + FreshCodes(digests)
  {
    var stored := codes;
    var k := 0;
    while k < |digests|
      invariant 0 <= k <= |digests|
      invariant Storable(codes, digests[..k])
      invariant stored == codes + FreshCodes(digests[..k])
    {
      assert digests[..k + 1][..k] == digests[..k];
      if digests[k] in stored {
        if Storable(codes, digests) {
          StorablePrefix(codes, digests, k + 1);
        }
        return Err(StoreError);
      }
      stored := stored[digests[k] := None];
      k := k + 1;
    }
    assert digests[..k] == digests;
    return Ok(stored);
  }

  // ----- The repository -----

  class AuthRepository {
    var account: Option<Account>
    var codes: Codes
    var sessions: Sessions

    constructor ()
      ensures Current() == Db(None, map[], map[])
    {
      account := None;
      codes := map[];
      sessions := map[];
    }

    function Current(): Db
      reads this
    {
      Db(account, codes, sessions)
    }

    method IsConfigured(fails: bool) returns (r: Reply<bool>)
      ensures r == if fails then Err(StoreError) else Ok(account.Some?)
    {
      if fails {
        return Err(StoreError);
      }
      return Ok(account.Some?);
    }

    /** Stores the first administrator, the recovery codes and the first session together.
        `fails` is any storage error before the commit. */
    method CreateInitialAdminAndSession(newAccount: Account, digests: seq<Digest>, d: Digest, row: Session, fails: bool)
      returns (r: Reply<bool>)
      modifies this
      ensures r != Ok(true) ==> Current() == old(Current())
      ensures r == Ok(false) <==> !fails && old(account).Some?
      ensures r == Ok(true) <==>
                !fails && old(account).None? && Storable(old(codes), digests) && d !in old(sessions)
      ensures r == Ok(true) ==>
                && account == Some(newAccount)
                && codes == old(codes) + FreshCodes(digests)
                && Inserted(old(sessions), sessions, d, row)
    {
      if fails {
        return Err(StoreError);
      }
      if account.Some? {
        return Ok(false);
      }
      var stored := StoreCodes(codes, digests);
      if stored.Err? {
        return Err(StoreError);
      }
      if d in sessions {
        return Err(StoreError);
      }
      var kept := TrimSessions(sessions[d := row]);
      account, codes, sessions := Some(newAccount), stored.value, kept;
      return Ok(true);
    }

    /** Uses up one recovery code and inserts the session it pays for. */
    method ConsumeRecoveryCodeAndInsertSession(code: Digest, now: int, d: Digest, row: Session, fails: bool)
      returns (r: Reply<bool>)
      modifies this
      ensures r != Ok(true) ==> Current() == old(Current())
      ensures r == Ok(false) <==> !fails && !(code in old(codes) && old(codes)[code].None?)
      ensures r == Ok(true) <==>
                && !fails && code in old(codes) && old(codes)[code].None?
                && d !in Purged(old(sessions), row.issuedAt)
      ensures r == Ok(true) ==>
                && account == old(account)
                && codes == old(codes)[code := Some(now)]
                && Inserted(Purged(old(sessions), row.issuedAt), sessions, d, row)
    {
      if fails {
        return Err(StoreError);
      }
      if !(code in codes && codes[code].None?) {
        return Ok(false);
      }
      var live := Purged(sessions, row.issuedAt);
      if d in live {
        return Err(StoreError);
      }
      var kept := TrimSessions(live[d := row]);
      codes, sessions := codes[code := Some(now)], kept;
      return Ok(true);
    }

    method InsertSession(d: Digest, row: Session, fails: bool) returns (r: Reply<()>)
      modifies this
      ensures r.Ok? <==> !fails && d !in Purged(old(sessions), row.issuedAt)
      ensures r.Err? ==> Current() == old(Current())
      ensures r.Ok? ==>
                && account == old(account) && codes == old(codes)
                && Inserted(Purged(old(sessions), row.issuedAt), sessions, d, row)
    {
      var live := Purged(sessions, row.issuedAt);
      if fails || d in live {
        return Err(StoreError);
      }
      sessions := TrimSessions(live[d := row]);
      return Ok(());
    }

    /** Deletes expired rows, then reads one. */
    method FindSession(d: Digest, now: int, fault: Fault) returns (r: Reply<Option<Session>>)
      modifies this
      ensures Current() == old(Current()).(sessions := Swept(old(sessions), now, fault))
      ensures r == if fault == NoFault then Ok(if d in sessions then Some(sessions[d]) else None) else Err(StoreError)
    {
      if fault == FaultBefore {
        return Err(StoreError);
      }
      sessions := Purged(sessions, now);
      if fault == FaultAfter {
        return Err(StoreError);
      }
      return Ok(if d in sessions then Some(sessions[d]) else None);
    }

    method DeleteSession(d: Digest, fails: bool) returns (r: Reply<bool>)
      modifies this
      ensures fails ==> r == Err(StoreError) && Current() == old(Current())
      ensures !fails ==>
                && Current() == old(Current()).(sessions := old(sessions) - {d})
                && r == Ok(d in old(sessions))
    {
      if fails {
        return Err(StoreError);
      }
      r := Ok(d in sessions);
      sessions := sessions - {d};
    }

    method DeleteActorSessions(actor: string, fails: bool) returns (r: Reply<nat>)
      modifies this
      ensures fails ==> r == Err(StoreError) && Current() == old(Current())
      ensures !fails ==>
                && Current() == old(Current()).(sessions := WithoutActor(old(sessions), actor))
                && r.Ok? && r.value == |old(sessions)| - |sessions|
    {
      if fails {
        return Err(StoreError);
      }
      var kept := WithoutActor(sessions, actor);
      SubmapSmaller(kept, sessions);
      var deleted: nat := |sessions| - |kept|;
      sessions := kept;
      return Ok(deleted);
    }
  }

  function WithoutActor(sessions: Sessions, actor: string): Sessions {
    map d | d in sessions && sessions[d].actor != actor :: sessions[d]
  }

  lemma SubmapSmaller(small: Sessions, large: Sessions)
    requires forall d :: d in small ==> d in large
    ensures |small| <= |large|
  {
    assert small.Keys <= large.Keys;
    SubsetSmaller(small.Keys, large.Keys);
  }

  lemma {:induction false} SubsetSmaller(a: set<Digest>, b: set<Digest>)
    requires a <= b
    ensures |a| <= |b|
    decreases a
  {
    if a != {} {
      var x :| x in a;
      SubsetSmaller(a - {x}, b - {x});
    }
  }
}

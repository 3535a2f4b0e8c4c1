/** The session table over whole runs, against the history of what was issued, logged
    out, revoked and evicted. */
module SessionHistory {
  import opened Clocks
  import opened Digests
  import opened SessionTable

  const SESSION_TTL: nat := 12 * 60 * 60

  /** When a session issued at `now` expires. */
  function Expiry(now: int): int {
    Later(now, SESSION_TTL)
  }

  /** What a call does to the session table. Every insertion deletes expired rows first
      except the one that comes with the initial administrator. */
  datatype Op =
    | Issue(digest: Digest, row: Session, purges: bool)
    | Lookup(digest: Digest, now: int)
    | Logout(digest: Digest)
    | Revoke(actor: string)
    | Untouched

  /** The table an insertion starts from. */
  function Base(s: Sessions, op: Op): Sessions
    requires op.Issue?
  {
    if op.purges then Purged(s, op.row.issuedAt) else s
  }

  ghost predicate Step(s: Sessions, op: Op, s': Sessions) {
    match op
    case Issue(d, row, _) => Inserted(Base(s, op), s', d, row)
    case Lookup(_, now) => s' == Purged(s, now)
    case Logout(d) => s' == s - {d}
    case Revoke(actor) => s' == WithoutActor(s, actor)
    case Untouched => s' == s
  }

  /** `states` are the tables before, between and after the changes, from an empty one. */
  ghost predicate Run(states: seq<Sessions>, ops: seq<Op>) {
    && |states| == |ops| + 1
    && states[0] == map[]
    && forall i :: 0 <= i < |ops| ==> Step(states[i], ops[i], states[i + 1])
  }

  /** No change was made at a clock reading later than `t`. */
  predicate NotAfter(ops: seq<Op>, t: int) {
    forall i :: 0 <= i < |ops| ==>
      && (ops[i].Issue? ==> ops[i].row.issuedAt <= t)
      && (ops[i].Lookup? ==> ops[i].now <= t)
  }

  /** Change `op` dropped the row of `d` to keep the table within its limit. */
  predicate Evicts(s: Sessions, op: Op, s': Sessions, d: Digest) {
    op.Issue? && d in Base(s, op)[op.digest := op.row] && d !in s'
  }

  predicate Issues(op: Op, d: Digest, row: Session) {
    op.Issue? && op.digest == d && op.row == row
  }

  predicate Cancels(op: Op, d: Digest, row: Session) {
    op == Logout(d) || op == Revoke(row.actor)
  }

  /** From its issue at change `i` on, the session was neither logged out, revoked with
      its actor, nor evicted. */
  ghost predicate Undisturbed(states: seq<Sessions>, ops: seq<Op>, i: nat, d: Digest, row: Session)
    requires |states| == |ops| + 1
  {
    && (forall j :: i <= j < |ops| ==> !Evicts(states[j], ops[j], states[j + 1], d))
    && (forall j :: i < j < |ops| ==> !Cancels(ops[j], d, row))
  }

  /** By the history, the session is good at time `t`. */
  ghost predicate Alive(states: seq<Sessions>, ops: seq<Op>, d: Digest, row: Session, t: int)
    requires |states| == |ops| + 1
  {
    t < row.expiresAt && exists i :: 0 <= i < |ops| && Issues(ops[i], d, row) && Undisturbed(states, ops, i, d, row)
  }

  /** By the table, the session is good at time `t`. */
  predicate InTable(s: Sessions, d: Digest, row: Session, t: int) {
    d in s && s[d] == row && t < row.expiresAt
  }

  // ----- One more change -----

  lemma UndisturbedAfterChange(states: seq<Sessions>, ops: seq<Op>, i: nat, d: Digest, row: Session)
    requires |states| == |ops| + 1 && i < |ops| - 1
    ensures var n := |ops| - 1;
            Undisturbed(states, ops, i, d, row) <==>
              && Undisturbed(states[..n + 1], ops[..n], i, d, row)
              && !Evicts(states[n], ops[n], states[n + 1], d)
              && !Cancels(ops[n], d, row)
  {
    var n := |ops| - 1;
    if Undisturbed(states, ops, i, d, row) {
      assert !Evicts(states[n], ops[n], states[n + 1], d);
    }
  }

  lemma AliveBeforeAndAfter(states: seq<Sessions>, ops: seq<Op>, i: nat, d: Digest, row: Session)
    requires |states| == |ops| + 1 && i < |ops|
    ensures var n := |ops| - 1;
            Issues(ops[i], d, row) && Undisturbed(states, ops, i, d, row) <==>
              && !Evicts(states[n], ops[n], states[n + 1], d)
              && (if i == n then Issues(ops[n], d, row)
                  else Issues(ops[..n][i], d, row) && Undisturbed(states[..n + 1], ops[..n], i, d, row)
                       && !Cancels(ops[n], d, row))
  {
    if i < |ops| - 1 {
      UndisturbedAfterChange(states, ops, i, d, row);
    }
  }

  lemma AliveAfterChange(states: seq<Sessions>, ops: seq<Op>, d: Digest, row: Session, t: int)
    requires |states| == |ops| + 1 && ops != []
    ensures var n := |ops| - 1;
            Alive(states, ops, d, row, t) <==>
              && !Evicts(states[n], ops[n], states[n + 1], d)
              && ((t < row.expiresAt && Issues(ops[n], d, row))
                  || (Alive(states[..n + 1], ops[..n], d, row, t) && !Cancels(ops[n], d, row)))
  {
    var n := |ops| - 1;
    if Alive(states, ops, d, row, t) {
      var i :| 0 <= i < |ops| && Issues(ops[i], d, row) && Undisturbed(states, ops, i, d, row);
      AliveBeforeAndAfter(states, ops, i, d, row);
    } else {
      AliveBeforeAndAfter(states, ops, n, d, row);
      if Alive(states[..n + 1], ops[..n], d, row, t) {
        var i :| 0 <= i < n && Issues(ops[..n][i], d, row) && Undisturbed(states[..n + 1], ops[..n], i, d, row);
        AliveBeforeAndAfter(states, ops, i, d, row);
      }
    }
  }

  lemma TableAfterChange(s: Sessions, op: Op, s': Sessions, d: Digest, row: Session, t: int)
    requires Step(s, op, s')
    requires op.Issue? ==> op.row.issuedAt <= t
    requires op.Lookup? ==> op.now <= t
    ensures InTable(s', d, row, t) <==>
              && !Evicts(s, op, s', d)
              && ((t < row.expiresAt && Issues(op, d, row))
                  || (InTable(s, d, row, t) && !Cancels(op, d, row)))
  {
    if op.Issue? {
      var base := Base(s, op);
      assert InTable(s, d, row, t) ==> d in base && base[d] == row;
    }
  }

  // ----- The table is the history -----

  /** For every run, the table holds exactly the sessions that the history says are good:
      issued, not yet expired, and since then neither logged out, revoked nor evicted. */
  lemma {:induction false} TableRefinesHistory(states: seq<Sessions>, ops: seq<Op>, d: Digest, row: Session, t: int)
    requires Run(states, ops) && NotAfter(ops, t)
    ensures InTable(states[|ops|], d, row, t) <==> Alive(states, ops, d, row, t)
    decreases |ops|
  {
    if ops != [] {
      var n := |ops| - 1;
      TableRefinesHistory(states[..n + 1], ops[..n], d, row, t);
      AliveAfterChange(states, ops, d, row, t);
      TableAfterChange(states[n], ops[n], states[n + 1], d, row, t);
    }
  }

  /** A lookup at time `t` finds a row exactly when the history says it is good. */
  lemma FoundExactlyWhenAlive(states: seq<Sessions>, ops: seq<Op>, d: Digest, row: Session, t: int)
    requires Run(states, ops) && NotAfter(ops, t)
    ensures var left := Purged(states[|ops|], t);
            d in left && left[d] == row <==> Alive(states, ops, d, row, t)
  {
    TableRefinesHistory(states, ops, d, row, t);
  }

  // ----- The limit -----

  /** The table never exceeds its limit. */
  lemma {:induction false} TableBounded(states: seq<Sessions>, ops: seq<Op>)
    requires Run(states, ops)
    ensures |states[|ops|]| <= MAX_SESSIONS
    decreases |ops|
  {
    if ops != [] {
      var n := |ops| - 1;
      TableBounded(states[..n + 1], ops[..n]);
      assert Step(states[n], ops[n], states[n + 1]);
      match ops[n] {
        case Issue(_, _, _) =>
        case _ =>
          SubmapSmaller(states[n + 1], states[n]);
      }
    }
  }

  /** Each insertion evicts at most one row, and none younger than a row it keeps. */
  lemma EvictsAtMostOne(states: seq<Sessions>, ops: seq<Op>, k: nat, d: Digest, e: Digest)
    requires Run(states, ops) && k < |ops|
    requires Evicts(states[k], ops[k], states[k + 1], d)
    ensures Evicts(states[k], ops[k], states[k + 1], e) ==> d == e
    ensures e in states[k + 1] ==>
              Base(states[k], ops[k])[ops[k].digest := ops[k].row][d].issuedAt <= states[k + 1][e].issuedAt
  {
    TableBounded(states[..k + 1], ops[..k]);
    var s, op, s' := states[k], ops[k], states[k + 1];
    assert Step(s, op, s');
    var base := Base(s, op);
    SubmapSmaller(base, s);
    var full := base[op.digest := op.row];
    assert full.Keys == base.Keys + {op.digest};
    if Evicts(s, op, s', e) && d != e {
      assert s'.Keys <= full.Keys - {d} - {e};
      SubsetSmaller(s'.Keys, full.Keys - {d} - {e});
    }
  }
}

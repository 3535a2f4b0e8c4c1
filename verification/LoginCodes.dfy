/**
 The one-slot store of single-use login codes. Only a digest of the code is kept; a wrong
 guess does not discard it, a new code replaces it.
 */
module LoginCodes {
  import opened Digests
  import opened Options

  datatype Credential = Credential(digest: Digest, expiresAt: int)

  datatype Event =
    | Issue(code: string, now: int, ttl: nat)
    | Consume(candidate: string, now: int)

  function SlotAfter(digest: string -> Digest, slot: Option<Credential>, e: Event): Option<Credential> {
    match e
    case Issue(code, now, ttl) => Some(Credential(digest(code), now + ttl))
    case Consume(_, now) =>
      if slot.None? || slot.value.expiresAt <= now || Accepts(digest, slot, e) then None else slot
  }

  predicate Accepts(digest: string -> Digest, slot: Option<Credential>, e: Event) {
    && e.Consume? && slot.Some?
    && e.now < slot.value.expiresAt && digest(e.candidate) == slot.value.digest
  }

  function Slot(digest: string -> Digest, history: seq<Event>): Option<Credential> {
    if history == [] then None
    else
      var n := |history| - 1;
      SlotAfter(digest, Slot(digest, history[..n]), history[n])
  }

  class BootstrapStore {
    const digest: string -> Digest
    var credential: Option<Credential>
    ghost var history: seq<Event>

    ghost predicate Valid()
      reads this
    {
      credential == Slot(digest, history)
    }

    constructor (digest: string -> Digest)
      ensures Valid() && history == [] && this.digest == digest
    {
      this.digest, credential, history := digest, None, [];
    }

    /** Replaces whatever code there was. */
    method IssueCode(code: string, now: int, ttl: nat)
      requires Valid()
      modifies this
      ensures Valid() && history == old(history) + [Issue(code, now, ttl)]
    {
      credential := Some(Credential(digest(code), now + ttl));
      history := history + [Issue(code, now, ttl)];
    }

    /** Accepts a candidate exactly when it is the pending code of the whole history, as long
        as the clock does not run backwards; otherwise by what is in the slot. */
    method ConsumeAt(candidate: string, now: int) returns (accepted: bool)
      requires Valid()
      modifies this
      ensures Valid() && history == old(history) + [Consume(candidate, now)]
      ensures accepted <==> Accepts(digest, old(credential), Consume(candidate, now))
      ensures InOrder(history) ==>
                (accepted <==> exists i :: PendingSince(digest, old(history), i, candidate, now))
    {
      if InOrder(history + [Consume(candidate, now)]) {
        AcceptsExactlyPending(digest, history, candidate, now);
      }
      accepted := false;
      if credential.Some? {
        if credential.value.expiresAt <= now {
          credential := None;
        } else if digest(candidate) == credential.value.digest {
          credential := None;
          accepted := true;
        }
      }
      history := history + [Consume(candidate, now)];
    }
  }

  // ----- The slot refines the history -----

  /** Readings of the clock do not run backwards. */
  predicate InOrder(history: seq<Event>) {
    forall i, j :: 0 <= i < j < |history| ==> history[i].now <= history[j].now
  }

  /** Event `i` issued the candidate, which is unexpired, and since then nothing was issued
      and the code was not presented. */
  predicate PendingSince(digest: string -> Digest, history: seq<Event>, i: int, candidate: string, now: int) {
    && 0 <= i < |history| && history[i].Issue?
    && digest(candidate) == digest(history[i].code) && now < history[i].now + history[i].ttl
    && forall j :: i < j < |history| ==> history[j].Consume? && digest(history[j].candidate) != digest(history[i].code)
  }

  /** What an occupied slot holds was issued and has been neither replaced nor presented. */
  lemma {:induction false} OccupiedMeansPending(digest: string -> Digest, history: seq<Event>) returns (i: nat)
    requires Slot(digest, history).Some?
    ensures i < |history| && history[i].Issue?
    ensures Slot(digest, history).value == Credential(digest(history[i].code), history[i].now + history[i].ttl)
    ensures forall j :: i < j < |history| ==>
              history[j].Consume? && digest(history[j].candidate) != digest(history[i].code)
  {
    var n := |history| - 1;
    if history[n].Issue? {
      i := n;
    } else {
      i := OccupiedMeansPending(digest, history[..n]);
    }
  }

  /** A pending code is in the slot. */
  lemma {:induction false} PendingIsHeld(digest: string -> Digest, history: seq<Event>, i: int, candidate: string, now: int)
    requires PendingSince(digest, history, i, candidate, now)
    requires InOrder(history) && forall j :: 0 <= j < |history| ==> history[j].now <= now
    ensures Slot(digest, history) == Some(Credential(digest(history[i].code), history[i].now + history[i].ttl))
    decreases |history|
  {
    var n := |history| - 1;
    if i < n {
      PendingIsHeld(digest, history[..n], i, candidate, now);
    }
  }

  /** Under a clock that does not run backwards, the slot accepts a candidate if and only if
      it is the last code issued, unexpired, and was not presented since. */
  lemma AcceptsExactlyPending(digest: string -> Digest, history: seq<Event>, candidate: string, now: int)
    requires InOrder(history + [Consume(candidate, now)])
    ensures Accepts(digest, Slot(digest, history), Consume(candidate, now))
       <==> exists i :: PendingSince(digest, history, i, candidate, now)
  {
    var whole := history + [Consume(candidate, now)];
    assert forall j :: 0 <= j < |history| ==> history[j] == whole[j];
    assert whole[|history|].now == now;
    if Accepts(digest, Slot(digest, history), Consume(candidate, now)) {
      var i := OccupiedMeansPending(digest, history);
      assert PendingSince(digest, history, i, candidate, now);
    }
    if i :| PendingSince(digest, history, i, candidate, now) {
      PendingIsHeld(digest, history, i, candidate, now);
    }
  }

  function Accepted(digest: string -> Digest, history: seq<Event>): nat {
    if history == [] then 0
    else
      var n := |history| - 1;
      Accepted(digest, history[..n]) + if Accepts(digest, Slot(digest, history[..n]), history[n]) then 1 else 0
  }

  function Issued(history: seq<Event>): nat {
    if history == [] then 0
    else
      var n := |history| - 1;
      Issued(history[..n]) + if history[n].Issue? then 1 else 0
  }

  /** Whatever the clock does, every accepted code and the one in the slot were issued once. */
  lemma {:induction false} AcceptedWithinIssued(digest: string -> Digest, history: seq<Event>)
    ensures Accepted(digest, history) + (if Slot(digest, history).Some? then 1 else 0) <= Issued(history)
  {
    if history != [] {
      AcceptedWithinIssued(digest, history[..|history| - 1]);
    }
  }
}

/**
 Delivering one notification: persisted attempts, retries with exponential backoff,
 and a storage whose every call may fail.
 */
module NotificationDelivery {
  import opened Faults
  import opened Options

  const U8_MAX: nat := 255

  /** The largest duration, in nanoseconds. */
  const DURATION_MAX: nat := 0xFFFF_FFFF_FFFF_FFFF * 1_000_000_000 + 999_999_999

  datatype Status = Pending | Delivering | Delivered | Failed

  /** The stored delivery state of one event. */
  datatype Row = Row(status: Status, attempts: nat)

  datatype DeliveryError = Timeout | Transport | Http(code: nat)

  predicate Retryable(e: DeliveryError) {
    match e
    case Timeout => true
    case Transport => true
    case Http(code) => code == 408 || code == 429 || 500 <= code <= 599
  }

  /** What the webhook call came to; `TaskFailed` is a panic in the blocking task. */
  datatype SendResult = Accepted | Rejected(error: DeliveryError) | TaskFailed

  /** What the environment does in one turn of the delivery loop. */
  datatype Turn = Turn(begin: Fault, result: SendResult, recordFails: bool)

  /** What the environment does during one call of `Deliver`. */
  datatype Environment = Environment(register: Fault, turns: nat -> Turn)

  function Narrow(attempts: nat): nat {
    if attempts <= U8_MAX then attempts else U8_MAX
  }

  function Registered(row: Option<Row>): Row {
    if row.None? then Row(Pending, 0) else row.value
  }

  predicate Eligible(row: Row, maxAttempts: nat) {
    row.status != Delivered && row.status != Failed && Narrow(row.attempts) < maxAttempts
  }

  function Begun(row: Row): Row {
    if row.status == Delivered then row else Row(Delivering, row.attempts + 1)
  }

  /** The stored rows, one per event. */
  class NotificationStore {
    var rows: map<string, Row>

    constructor ()
      ensures rows == map[]
    {
      rows := map[];
    }

    function Find(id: string): Option<Row>
      reads this
    {
      if id in rows then Some(rows[id]) else None
    }

    /** Inserts a pending row unless there is one, then reads whether it may be sent. */
    method Register(id: string, maxAttempts: nat, fault: Fault) returns (eligible: Option<bool>)
      modifies this
      ensures rows == if fault == FaultBefore then old(rows) else old(rows)[id := Registered(old(Find(id)))]
      ensures eligible == if fault == NoFault then Some(Eligible(Registered(old(Find(id))), maxAttempts)) else None
    {
      if fault == FaultBefore {
        return None;
      }
      if id !in rows {
        rows := rows[id := Row(Pending, 0)];
      }
      if fault == FaultAfter {
        return None;
      }
      return Some(Eligible(rows[id], maxAttempts));
    }

    /** Counts the attempt and returns its number in eight bits. */
    method Begin(id: string, fault: Fault) returns (attempt: Option<nat>)
      requires id in rows
      modifies this
      ensures fault == FaultBefore ==> attempt.None? && rows == old(rows)
      ensures fault != FaultBefore ==> rows == old(rows)[id := Begun(old(rows)[id])]
      ensures fault == FaultAfter ==> attempt.None?
      ensures fault == NoFault ==> attempt == Some(Narrow(rows[id].attempts))
    {
      if fault == FaultBefore {
        return None;
      }
      if rows[id].status != Delivered {
        rows := rows[id := Row(Delivering, rows[id].attempts + 1)];
      }
      return if fault == FaultAfter then None else Some(Narrow(rows[id].attempts));
    }

    method Record(id: string, status: Status, fails: bool)
      requires id in rows
      modifies this
      ensures rows == if fails then old(rows) else old(rows)[id := old(rows)[id].(status := status)]
    {
      if !fails {
        rows := rows[id := rows[id].(status := status)];
      }
    }
  }

  // ----- One delivery -----

  function Pow2(n: nat): nat {
    if n == 0 then 1 else 2 * Pow2(n - 1)
  }

  /** The backoff multiplier after attempt number `attempt`. */
  function Multiplier(attempt: nat): nat {
    var before := if attempt == 0 then 0 else attempt - 1;
    Pow2(if before <= 10 then before else 10)
  }

  function Backoff(backoff: nat, attempt: nat): nat {
    backoff * Multiplier(attempt)
  }

  function Sleep(backoff: nat, attempt: nat): nat {
    var d := Backoff(backoff, attempt);
    if d <= DURATION_MAX then d else DURATION_MAX
  }

  /** The row, the webhook calls and the sleeping time that a delivery leaves behind. */
  datatype Delivery = Delivery(row: Option<Row>, sends: nat, slept: nat)

  predicate Exhausted(result: SendResult, attempt: nat, maxAttempts: nat) {
    attempt >= maxAttempts || (result.Rejected? && !Retryable(result.error))
  }

  /** The delivery loop from turn `i` on. */
  function Attempts(row: Row, maxAttempts: nat, backoff: nat, turns: nat -> Turn, i: nat): Delivery
    requires maxAttempts <= U8_MAX && row.attempts < maxAttempts && row.status != Delivered
    decreases maxAttempts - row.attempts
  {
    var turn := turns(i);
    var begun := Begun(row);
    var attempt := begun.attempts;
    if turn.begin == FaultBefore then Delivery(Some(row), 0, 0)
    else if turn.begin == FaultAfter then Delivery(Some(begun), 0, 0)
    else if turn.recordFails then Delivery(Some(begun), 1, 0)
    else if turn.result.Accepted? then Delivery(Some(begun.(status := Delivered)), 1, 0)
    else if Exhausted(turn.result, attempt, maxAttempts) then Delivery(Some(begun.(status := Failed)), 1, 0)
    else
      var rest := Attempts(begun.(status := Pending), maxAttempts, backoff, turns, i + 1);
      Delivery(rest.row, rest.sends + 1,
               rest.slept + if turn.result.Rejected? then Sleep(backoff, attempt) else 0)
  }

  function DeliveredOnce(row: Option<Row>, maxAttempts: nat, backoff: nat, env: Environment): Delivery
    requires maxAttempts <= U8_MAX
  {
    if env.register == FaultBefore then Delivery(row, 0, 0)
    else
      var registered := Registered(row);
      if env.register == FaultAfter || !Eligible(registered, maxAttempts) then Delivery(Some(registered), 0, 0)
      else Attempts(registered, maxAttempts, backoff, env.turns, 0)
  }

  class NotificationWorker {
    const store: NotificationStore
    const maxAttempts: nat
    const initialBackoff: nat

    constructor (store: NotificationStore, maxAttempts: nat, initialBackoff: nat)
      requires maxAttempts <= U8_MAX
      ensures this.store == store && this.maxAttempts == maxAttempts && this.initialBackoff == initialBackoff
    {
      this.store := store;
      this.maxAttempts := maxAttempts;
      this.initialBackoff := initialBackoff;
    }

    /** Delivers one event; `sends` counts the webhook calls and `slept` the time asleep. */
    method Deliver(id: string, env: Environment) returns (sends: nat, slept: nat)
      requires maxAttempts <= U8_MAX
      modifies store
      ensures Delivery(store.Find(id), sends, slept)
           == DeliveredOnce(old(store.Find(id)), maxAttempts, initialBackoff, env)
      ensures forall other :: other != id ==> store.Find(other) == old(store.Find(other))
    {
      sends, slept := 0, 0;
      var eligible := store.Register(id, maxAttempts, env.register);
      if eligible.None? || !eligible.value {
        return;
      }
      var i := 0;
      ghost var goal := Attempts(store.rows[id], maxAttempts, initialBackoff, env.turns, 0);
      var again := true;
      while again
        invariant id in store.rows && store.rows == old(store.rows)[id := store.rows[id]]
        invariant again ==> store.rows[id].attempts < maxAttempts && store.rows[id].status != Delivered
        invariant again ==>
                    var rest := Attempts(store.rows[id], maxAttempts, initialBackoff, env.turns, i);
                    goal == Delivery(rest.row, sends + rest.sends, slept + rest.slept)
        invariant !again ==> goal == Delivery(Some(store.rows[id]), sends, slept)
        decreases again, maxAttempts - store.rows[id].attempts
      {
        var sent, pause;
        again, sent, pause := Attempt(id, env.turns(i));
        sends, slept, i := sends + sent, slept + pause, i + 1;
      }
    }

    /** One turn of the loop; `again` says whether another follows. */
    method Attempt(id: string, turn: Turn) returns (again: bool, sent: nat, pause: nat)
      requires id in store.rows && maxAttempts <= U8_MAX
      requires store.rows[id].attempts < maxAttempts && store.rows[id].status != Delivered
      modifies store
      ensures id in store.rows && store.rows == old(store.rows)[id := store.rows[id]]
      ensures var row, begun := old(store.rows[id]), Begun(old(store.rows[id]));
              var exhausted := Exhausted(turn.result, begun.attempts, maxAttempts);
              && again == (turn.begin == NoFault && !turn.recordFails && !turn.result.Accepted? && !exhausted)
              && sent == (if turn.begin == NoFault then 1 else 0)
              && pause == (if again && turn.result.Rejected? then Sleep(initialBackoff, begun.attempts) else 0)
              && store.rows[id]
                 == if turn.begin == FaultBefore then row
                    else if turn.begin == FaultAfter || turn.recordFails then begun
                    else begun.(status := if turn.result.Accepted? then Delivered else if exhausted then Failed else Pending)
    {
      again, sent, pause := false, 0, 0;
      var attempt := store.Begin(id, turn.begin);
      if attempt.None? {
        return;
      }
      sent := 1;
      match turn.result {
        case Accepted =>
          store.Record(id, Delivered, turn.recordFails);
        case Rejected(error) =>
          var exhausted := attempt.value >= maxAttempts || !Retryable(error);
          store.Record(id, if exhausted then Failed else Pending, turn.recordFails);
          if turn.recordFails || exhausted {
            return;
          }
          again, pause := true, Sleep(initialBackoff, attempt.value);
        case TaskFailed =>
          var exhausted := attempt.value >= maxAttempts;
          store.Record(id, if exhausted then Failed else Pending, turn.recordFails);
          again := !turn.recordFails && !exhausted;
      }
    }
  }

  // ----- How much a delivery sends and sleeps -----

  /** The sum of the multipliers after attempts 1 to `n`. */
  function MultiplierSum(n: nat): nat {
    if n == 0 then 0 else MultiplierSum(n - 1) + Multiplier(n)
  }

  /** 2^n - 1 up to eleven attempts, then 1024 more for each. */
  lemma {:induction false} MultiplierSumClosedForm(n: nat)
    ensures n <= 11 ==> MultiplierSum(n) == Pow2(n) - 1
    ensures n >= 11 ==> MultiplierSum(n) == 2047 + 1024 * (n - 11)
  {
    assert Pow2(10) == 1024 && Pow2(11) == 2048 by {
      assert Pow2(4) == 16;
      assert Pow2(8) == 256;
    }
    if n > 0 {
      MultiplierSumClosedForm(n - 1);
    }
  }

  /** A delivery sends at most once per remaining attempt, every send is a persisted
      attempt, and the row never counts more attempts than the limit. */
  lemma {:induction false} SendsWithinRemainingAttempts(row: Row, maxAttempts: nat, backoff: nat, turns: nat -> Turn, i: nat)
    requires maxAttempts <= U8_MAX && row.attempts < maxAttempts && row.status != Delivered
    ensures var d := Attempts(row, maxAttempts, backoff, turns, i);
            d.row.Some? && row.attempts + d.sends <= d.row.value.attempts <= maxAttempts
    decreases maxAttempts - row.attempts
  {
    var turn, begun := turns(i), Begun(row);
    if turn.begin == NoFault && !turn.recordFails && !turn.result.Accepted?
       && !Exhausted(turn.result, begun.attempts, maxAttempts) {
      SendsWithinRemainingAttempts(begun.(status := Pending), maxAttempts, backoff, turns, i + 1);
    }
  }

  /** The final status says how the last send ended, and that it was recorded: delivered if
      and only if the webhook accepted it, failed if and only if it was refused and no attempt
      was left or worth making. */
  lemma {:induction false} StatusTellsLastSend(row: Row, maxAttempts: nat, backoff: nat, turns: nat -> Turn, i: nat)
    requires maxAttempts <= U8_MAX && row.attempts < maxAttempts && row.status != Delivered && row.status != Failed
    ensures var d := Attempts(row, maxAttempts, backoff, turns, i);
            && d.row.Some?
            && (d.row.value.status == Delivered <==>
                  && d.sends > 0 && !turns(i + d.sends - 1).recordFails
                  && turns(i + d.sends - 1).result.Accepted?)
            && (d.row.value.status == Failed <==>
                  && d.sends > 0 && !turns(i + d.sends - 1).recordFails
                  && !turns(i + d.sends - 1).result.Accepted?
                  && Exhausted(turns(i + d.sends - 1).result, row.attempts + d.sends, maxAttempts))
    decreases maxAttempts - row.attempts
  {
    var turn, begun := turns(i), Begun(row);
    if turn.begin == NoFault && !turn.recordFails && !turn.result.Accepted?
       && !Exhausted(turn.result, begun.attempts, maxAttempts) {
      StatusTellsLastSend(begun.(status := Pending), maxAttempts, backoff, turns, i + 1);
    }
  }

  // ----- Exactly what a delivery does -----

  /** The refusals that are not retried: every HTTP status but 408, 429 and 500 to 599. */
  predicate Final(result: SendResult) {
    result.Rejected? && result.error.Http?
    && result.error.code != 408 && result.error.code != 429 && (result.error.code < 500 || 599 < result.error.code)
  }

  /** The loop ends in this turn, which makes attempt number `attempt`. */
  predicate Ends(turn: Turn, attempt: nat, maxAttempts: nat) {
    || turn.begin != NoFault || turn.recordFails || turn.result.Accepted?
    || attempt >= maxAttempts || Final(turn.result)
  }

  /** 2^0 to 2^10. */
  const MULTIPLIERS: seq<nat> := [1, 2, 4, 8, 16, 32, 64, 128, 256, 512, 1024]

  /** The sleep after `n` retried turns from turn `i` on, the first of them attempt `attempt`:
      each refusal is followed by the backoff times 2^(attempt - 1), at most 2^10, cut off at
      the largest duration; a failed task by none. */
  function Slept(turns: nat -> Turn, i: nat, n: nat, attempt: nat, backoff: nat): nat
    requires attempt >= 1
    decreases n
  {
    if n == 0 then 0
    else
      var pause := backoff * MULTIPLIERS[if attempt <= 11 then attempt - 1 else 10];
      (if !turns(i).result.Rejected? then 0 else if pause <= DURATION_MAX then pause else DURATION_MAX)
      + Slept(turns, i + 1, n - 1, attempt + 1, backoff)
  }

  /** What the last turn leaves of a row with `attempts` attempts before it. */
  function LeftBy(turn: Turn, before: Status, attempts: nat): Row {
    if turn.begin == FaultBefore then Row(before, attempts)
    else if turn.begin == FaultAfter || turn.recordFails then Row(Delivering, attempts + 1)
    else Row(if turn.result.Accepted? then Delivered else Failed, attempts + 1)
  }

  lemma MultiplierListed(attempt: nat)
    requires attempt >= 1
    ensures Multiplier(attempt) == MULTIPLIERS[if attempt <= 11 then attempt - 1 else 10]
  {
    PowerListed(if attempt <= 11 then attempt - 1 else 10);
  }

  lemma {:induction false} PowerListed(k: nat)
    requires k <= 10
    ensures Pow2(k) == MULTIPLIERS[k]
  {
    if k > 0 {
      PowerListed(k - 1);
    }
  }

  lemma FinalIsNotRetryable(result: SendResult)
    ensures Final(result) <==> result.Rejected? && !Retryable(result.error)
  {
  }

  /** The loop, about to make attempt `attempt` in turn `i`, makes `n` turns that end in a retry
      and then one that ends it. */
  predicate EndsAfter(turns: nat -> Turn, i: nat, n: nat, attempt: nat, maxAttempts: nat)
    decreases n
  {
    if n == 0 then Ends(turns(i), attempt, maxAttempts)
    else !Ends(turns(i), attempt, maxAttempts) && EndsAfter(turns, i + 1, n - 1, attempt + 1, maxAttempts)
  }

  /** So it ends with the first turn that ends it. */
  lemma {:induction false} EndsAfterFirst(turns: nat -> Turn, i: nat, n: nat, attempt: nat, maxAttempts: nat)
    ensures EndsAfter(turns, i, n, attempt, maxAttempts) <==>
              && Ends(turns(i + n), attempt + n, maxAttempts)
              && forall j :: i <= j < i + n ==> !Ends(turns(j), attempt + (j - i), maxAttempts)
    decreases n
  {
    if n > 0 {
      EndsAfterFirst(turns, i + 1, n - 1, attempt + 1, maxAttempts);
      if forall j :: i <= j < i + n ==> !Ends(turns(j), attempt + (j - i), maxAttempts) {
        assert !Ends(turns(i), attempt + (i - i), maxAttempts);
      }
    }
  }

  lemma {:induction false} EndExists(turns: nat -> Turn, i: nat, attempt: nat, maxAttempts: nat) returns (n: nat)
    requires attempt <= maxAttempts
    ensures attempt + n <= maxAttempts && EndsAfter(turns, i, n, attempt, maxAttempts)
    decreases maxAttempts - attempt
  {
    if Ends(turns(i), attempt, maxAttempts) {
      n := 0;
    } else {
      n := EndExists(turns, i + 1, attempt + 1, maxAttempts);
      n := n + 1;
    }
  }

  /** Every turn of the loop sends, but for a last turn whose begin fails; and the sleep and the
      row are those of these turns. */
  lemma {:induction false} AttemptsExactly(row: Row, maxAttempts: nat, backoff: nat, turns: nat -> Turn, i: nat, n: nat)
    requires maxAttempts <= U8_MAX && row.attempts < maxAttempts && row.status != Delivered
    requires EndsAfter(turns, i, n, row.attempts + 1, maxAttempts)
    ensures Attempts(row, maxAttempts, backoff, turns, i)
         == Delivery(Some(LeftBy(turns(i + n), if n == 0 then row.status else Pending, row.attempts + n)),
                     n + (if turns(i + n).begin == NoFault then 1 else 0),
                     Slept(turns, i, n, row.attempts + 1, backoff))
    decreases n
  {
    if n == 0 {
      LastTurn(row, maxAttempts, backoff, turns, i);
    } else {
      RetriedTurn(row, maxAttempts, backoff, turns, i);
      AttemptsExactly(Row(Pending, row.attempts + 1), maxAttempts, backoff, turns, i + 1, n - 1);
      SleptFirst(turns, i, n, row.attempts + 1, backoff);
    }
  }

  lemma {:induction false} SleptFirst(turns: nat -> Turn, i: nat, n: nat, attempt: nat, backoff: nat)
    requires attempt >= 1 && n >= 1
    ensures Slept(turns, i, n, attempt, backoff)
         == Slept(turns, i, 1, attempt, backoff) + Slept(turns, i + 1, n - 1, attempt + 1, backoff)
  {
    assert Slept(turns, i + 1, 0, attempt + 1, backoff) == 0;
  }

  lemma {:induction false} LastTurn(row: Row, maxAttempts: nat, backoff: nat, turns: nat -> Turn, i: nat)
    requires maxAttempts <= U8_MAX && row.attempts < maxAttempts && row.status != Delivered
    requires Ends(turns(i), row.attempts + 1, maxAttempts)
    ensures Attempts(row, maxAttempts, backoff, turns, i)
         == Delivery(Some(LeftBy(turns(i), row.status, row.attempts)), if turns(i).begin == NoFault then 1 else 0, 0)
  {
    FinalIsNotRetryable(turns(i).result);
  }

  lemma {:induction false} RetriedTurn(row: Row, maxAttempts: nat, backoff: nat, turns: nat -> Turn, i: nat)
    requires maxAttempts <= U8_MAX && row.attempts < maxAttempts && row.status != Delivered
    requires !Ends(turns(i), row.attempts + 1, maxAttempts)
    ensures row.attempts + 1 < maxAttempts
    ensures var rest := Attempts(Row(Pending, row.attempts + 1), maxAttempts, backoff, turns, i + 1);
            Attempts(row, maxAttempts, backoff, turns, i)
            == Delivery(rest.row, rest.sends + 1, rest.slept + Slept(turns, i, 1, row.attempts + 1, backoff))
  {
    FinalIsNotRetryable(turns(i).result);
    MultiplierListed(row.attempts + 1);
    assert Slept(turns, i + 1, 0, row.attempts + 2, backoff) == 0;
  }

  /** A delivery whose registration and turns meet no storage fault sends an event that is not
      finished, at least once, until it is delivered or given up. */
  lemma FaultlessDeliveryFinishes(row: Option<Row>, maxAttempts: nat, backoff: nat, env: Environment)
    requires maxAttempts <= U8_MAX
    requires env.register == NoFault && forall i :: env.turns(i).begin == NoFault && !env.turns(i).recordFails
    requires row.Some? ==> row.value.status != Delivered && row.value.status != Failed
    requires (if row.Some? then row.value.attempts else 0) < maxAttempts
    ensures var d := DeliveredOnce(row, maxAttempts, backoff, env);
            d.sends > 0 && d.row.Some? && (d.row.value.status == Delivered || d.row.value.status == Failed)
  {
    var known := Registered(row);
    var n := EndExists(env.turns, 0, known.attempts + 1, maxAttempts);
    AttemptsExactly(known, maxAttempts, backoff, env.turns, 0, n);
  }

  /** A delivery does nothing but register the event if registering fails, the event is finished
      or its attempts are used up; otherwise it runs the loop from its first turn. */
  lemma DeliversExactlyWhenOpen(row: Option<Row>, maxAttempts: nat, backoff: nat, env: Environment)
    requires maxAttempts <= U8_MAX
    ensures var d, known := DeliveredOnce(row, maxAttempts, backoff, env), if row.Some? then row.value else Row(Pending, 0);
            if env.register == FaultBefore then d == Delivery(row, 0, 0)
            else if env.register == FaultAfter || known.status == Delivered || known.status == Failed
                    || maxAttempts <= known.attempts then d == Delivery(Some(known), 0, 0)
            else d == Attempts(known, maxAttempts, backoff, env.turns, 0)
  {
  }

  /** The longest possible sleep after attempts 1 to `n`. */
  function Allowance(backoff: nat, n: nat): nat {
    if n == 0 then 0 else Allowance(backoff, n - 1) + Backoff(backoff, n)
  }

  lemma {:induction false} AllowanceIsProduct(backoff: nat, n: nat)
    ensures Allowance(backoff, n) == backoff * MultiplierSum(n)
  {
    if n > 0 {
      AllowanceIsProduct(backoff, n - 1);
      Distributes(backoff, MultiplierSum(n - 1), Multiplier(n));
    }
  }

  lemma Distributes(x: nat, a: nat, b: nat)
    ensures x * (a + b) == x * a + x * b
  {
  }

  lemma {:induction false} AllowanceMonotone(backoff: nat, m: nat, n: nat)
    requires m <= n
    ensures Allowance(backoff, m) <= Allowance(backoff, n)
  {
    if m < n {
      AllowanceMonotone(backoff, m, n - 1);
    }
  }

  lemma SleepWithinAllowance(backoff: nat, attempt: nat)
    requires attempt > 0
    ensures Allowance(backoff, attempt - 1) + Sleep(backoff, attempt) <= Allowance(backoff, attempt)
  {
  }

  /** The sleeping time is within the allowance of the attempts still to come. */
  lemma {:induction false} SleepBounded(row: Row, maxAttempts: nat, backoff: nat, turns: nat -> Turn, i: nat)
    requires maxAttempts <= U8_MAX && row.attempts < maxAttempts && row.status != Delivered
    ensures Allowance(backoff, row.attempts) + Attempts(row, maxAttempts, backoff, turns, i).slept
         <= Allowance(backoff, maxAttempts - 1)
    decreases maxAttempts - row.attempts
  {
    AllowanceMonotone(backoff, row.attempts, maxAttempts - 1);
    var turn, begun := turns(i), Begun(row);
    if turn.begin == NoFault && !turn.recordFails && !turn.result.Accepted?
       && !Exhausted(turn.result, begun.attempts, maxAttempts) {
      SleepBounded(begun.(status := Pending), maxAttempts, backoff, turns, i + 1);
      SleepWithinAllowance(backoff, begun.attempts);
    }
  }

  lemma AllowanceClosedForm(backoff: nat, m: nat)
    ensures Allowance(backoff, m) == backoff * if m <= 11 then Pow2(m) - 1 else 2047 + 1024 * (m - 11)
  {
    AllowanceIsProduct(backoff, m);
    MultiplierSumClosedForm(m);
  }

  /** Over a whole delivery: at most `maxAttempts` sends, and sleep at most the backoff
      times 2^m - 1 for m = `maxAttempts` - 1 up to 11, and 2047 + 1024 (m - 11) beyond. */
  lemma DeliveryBounded(row: Option<Row>, maxAttempts: nat, backoff: nat, env: Environment)
    requires 0 < maxAttempts <= U8_MAX
    ensures var d, m := DeliveredOnce(row, maxAttempts, backoff, env), maxAttempts - 1;
            && d.sends <= maxAttempts
            && d.slept <= backoff * if m <= 11 then Pow2(m) - 1 else 2047 + 1024 * (m - 11)
  {
    var registered := Registered(row);
    AllowanceClosedForm(backoff, maxAttempts - 1);
    if env.register == NoFault && Eligible(registered, maxAttempts) {
      SendsWithinRemainingAttempts(registered, maxAttempts, backoff, env.turns, 0);
      SleepBounded(registered, maxAttempts, backoff, env.turns, 0);
    }
  }

  // ----- Restarts -----

  /** The webhook calls for one event over any number of deliveries, each of which may be
      cut short by a storage failure or a crash at any point. */
  function TotalSends(row: Option<Row>, maxAttempts: nat, backoff: nat, runs: seq<Environment>): nat
    requires maxAttempts <= U8_MAX
    decreases runs
  {
    if runs == [] then 0
    else
      var d := DeliveredOnce(row, maxAttempts, backoff, runs[0]);
      d.sends + TotalSends(d.row, maxAttempts, backoff, runs[1..])
  }

  function Remaining(row: Option<Row>, maxAttempts: nat): nat {
    var attempts := Registered(row).attempts;
    if attempts <= maxAttempts then maxAttempts - attempts else 0
  }

  /** Across every restart an event is sent at most once per remaining attempt. */
  lemma {:induction false} TotalSendsBounded(row: Option<Row>, maxAttempts: nat, backoff: nat, runs: seq<Environment>)
    requires maxAttempts <= U8_MAX
    ensures TotalSends(row, maxAttempts, backoff, runs) <= Remaining(row, maxAttempts)
    decreases runs
  {
    if runs != [] {
      var d := DeliveredOnce(row, maxAttempts, backoff, runs[0]);
      TotalSendsBounded(d.row, maxAttempts, backoff, runs[1..]);
      var registered := Registered(row);
      if runs[0].register == NoFault && Eligible(registered, maxAttempts) {
        SendsWithinRemainingAttempts(registered, maxAttempts, backoff, runs[0].turns, 0);
      }
    }
  }

  /** A delivered or given-up event is never sent again. */
  lemma {:induction false} FinishedIsNeverSentAgain(row: Row, maxAttempts: nat, backoff: nat, runs: seq<Environment>)
    requires maxAttempts <= U8_MAX && (row.status == Delivered || row.status == Failed)
    ensures TotalSends(Some(row), maxAttempts, backoff, runs) == 0
    decreases runs
  {
    if runs != [] {
      FinishedIsNeverSentAgain(row, maxAttempts, backoff, runs[1..]);
    }
  }
}

/** The sending half of the transfer load test: parallel sends into slots, a clock-paced loop, a budget check. */
module TransferLoad {
  import opened Prelude
  import opened SendLog

  /**
   * What the environment contributes to one slot: the replies of the node, the order in which the parallel
   * sends complete, and the time that passes. Delays are natural numbers: the clock never runs backwards and
   * a sleep is never cut short.
   */
  datatype Slot = Slot(
    replies: seq<Reply>,
    order: seq<nat>,
    checkDelay: nat,    // until the loop test reads the clock
    startDelay: nat,    // from there to the start of the slot
    sendTime: nat,      // until all sends are settled
    oversleep: nat)     // beyond the requested sleep

  type Environment = nat -> Slot

  predicate GoodSlot(slot: Slot, count: nat) {
    |slot.replies| == count && CompletionOrder(slot.order, count)
  }

  datatype LoadError = InsufficientBalance

  datatype Session = Session(log: seq<TxRecord>, slots: nat, nextNonce: nat)

  /** When the sleep of a slot is over that started at `startTime`. */
  function SlotEnd(startTime: int, slot: Slot): int {
    startTime + slot.sendTime + if slot.sendTime < 1000 then 1000 - slot.sendTime + slot.oversleep else 0
  }

  /** The clock as read by the loop test before slot `k`. */
  function CheckTime(startTime: int, env: Environment, k: nat): int {
    env(k).checkDelay +
    if k == 0 then
      startTime
    else
      SlotEnd(CheckTime(startTime, env, k - 1) + env(k - 1).startDelay, env(k - 1))
  }

  function RepliesOf(env: Environment, n: nat): seq<seq<Reply>> {
    seq(n, k requires 0 <= k < n => env(k).replies)
  }

  function RequiredBalance(durationSeconds: nat, txPerSecond: nat, amount: nat, fee: nat): nat {
    amount * (durationSeconds * txPerSecond) + fee * (durationSeconds * txPerSecond)
  }

  /** A session that the loop can deliver: it stops at the first loop test at or after the end time. */
  predicate SessionOf(session: Session, startTime: int, env: Environment, durationSeconds: nat, txPerSecond: nat,
                      startNonce: nat)
  {
    && session.log == Log(startNonce, txPerSecond, RepliesOf(env, session.slots))
    && session.nextNonce == SlotNonce(startNonce, txPerSecond, session.slots)
    && (forall k: nat :: k < session.slots ==> CheckTime(startTime, env, k) < startTime + durationSeconds * 1000)
    && CheckTime(startTime, env, session.slots) >= startTime + durationSeconds * 1000
  }

  /**
   * One slot. The sends run in parallel and write their slot of a preallocated array when they complete; the
   * order of completion leaves no trace in the result.
   */
  method SendTransactionsInTimeSlot(now: int, slot: Slot, startNonce: nat, count: nat)
    returns (txHashes: seq<TxRecord>, finishedAt: int)
    requires GoodSlot(slot, count)
    ensures txHashes == Delivered(startNonce, slot.replies)
    ensures finishedAt == now + slot.startDelay + if slot.sendTime < 1000 then 1000 + slot.oversleep else slot.sendTime
  {
    var startTime := now + slot.startDelay;
    var slots := new Option<TxRecord>[count](_ => None);
    for k := 0 to count
      invariant forall i :: 0 <= i < count ==>
                  slots[i] == if i in slot.order[..k] && slot.replies[i].Sent?
                              then Some(RecordOf(startNonce, i, slot.replies[i])) else None
    {
      var i := slot.order[k];
      assert slot.order[..k + 1] == slot.order[..k] + [i];
      if slot.replies[i].Sent? {
        slots[i] := Some(RecordOf(startNonce, i, slot.replies[i]));
      }
    }
    assert slot.order[..count] == slot.order;
    EveryoneCompletes(slot.order, count);

    var elapsed := slot.sendTime;
    finishedAt := startTime + elapsed;
    if elapsed < 1000 {
      finishedAt := finishedAt + (1000 - elapsed) + slot.oversleep;
    }

    txHashes := [];
    for i := 0 to count
      invariant txHashes == Delivered(startNonce, slot.replies[..i])
    {
      assert slot.replies[..i + 1][..i] == slot.replies[..i];
      if slots[i].Some? {
        txHashes := txHashes + [slots[i].value];
      }
    }
    assert slot.replies[..count] == slot.replies;
  }

  /** The clock-paced loop. */
  method SendUntil(startTime: int, env: Environment, durationSeconds: nat, txPerSecond: nat, startNonce: nat)
    returns (session: Session)
    requires forall k :: GoodSlot(env(k), txPerSecond)
    ensures SessionOf(session, startTime, env, durationSeconds, txPerSecond, startNonce)
  {
    var endTime := startTime + durationSeconds * 1000;
    var currentNonce := startNonce;
    var allTxHashes: seq<TxRecord> := [];
    var n := 0;
    var now := startTime + env(0).checkDelay;
    while now < endTime
      invariant now == CheckTime(startTime, env, n)
      invariant currentNonce == SlotNonce(startNonce, txPerSecond, n)
      invariant allTxHashes == Log(startNonce, txPerSecond, RepliesOf(env, n))
      invariant forall k: nat :: k < n ==> CheckTime(startTime, env, k) < endTime
      decreases endTime - now
    {
      var txHashes, finishedAt := SendTransactionsInTimeSlot(now, env(n), currentNonce, txPerSecond);
      NextLog(startNonce, txPerSecond, env, n);
      NextSlotNonce(startNonce, txPerSecond, n);
      NextCheckTime(startTime, env, n);
      allTxHashes := allTxHashes + txHashes;
      currentNonce := currentNonce + txPerSecond;
      n := n + 1;
      now := finishedAt + env(n).checkDelay;
    }
    session := Session(allTxHashes, n, currentNonce);
  }

  /** One more slot appends what it delivers. */
  lemma NextLog(startNonce: nat, perSlot: nat, env: Environment, n: nat)
    ensures Log(startNonce, perSlot, RepliesOf(env, n + 1))
         == Log(startNonce, perSlot, RepliesOf(env, n)) + Delivered(SlotNonce(startNonce, perSlot, n), env(n).replies)
  {
    assert RepliesOf(env, n + 1)[..n] == RepliesOf(env, n);
  }

  /** The budget check, and the loop if it passes. */
  method RunLoad(startTime: int, env: Environment, durationSeconds: nat, txPerSecond: nat, startNonce: nat,
                 freeBalance: nat, amount: nat, fee: nat)
    returns (r: Result<Session, LoadError>)
    requires forall k :: GoodSlot(env(k), txPerSecond)
    ensures r == Err(InsufficientBalance) <==>
            freeBalance < RequiredBalance(durationSeconds, txPerSecond, amount, fee)
    ensures r == Err(InsufficientBalance) <==>
            exists debits: seq<nat> ::
              && |debits| == durationSeconds * txPerSecond
              && (forall i :: 0 <= i < |debits| ==> debits[i] <= amount + fee)
              && Sum(debits) > freeBalance
    ensures r.Ok? ==> SessionOf(r.value, startTime, env, durationSeconds, txPerSecond, startNonce)
  {
    var estimatedTotalTx := durationSeconds * txPerSecond;
    var estimatedTotalAmount := amount * estimatedTotalTx;
    var estimatedFees := fee * estimatedTotalTx;
    BudgetIsSharp(freeBalance, estimatedTotalTx, amount, fee);
    if freeBalance < estimatedTotalAmount + estimatedFees {
      return Err(InsufficientBalance);
    }
    var session := SendUntil(startTime, env, durationSeconds, txPerSecond, startNonce);
    r := Ok(session);
  }

  /** The budget falls short exactly if some debits within amount and fee exceed the balance. */
  lemma BudgetIsSharp(freeBalance: nat, total: nat, amount: nat, fee: nat)
    ensures freeBalance < amount * total + fee * total <==>
            exists debits: seq<nat> ::
              && |debits| == total
              && (forall i :: 0 <= i < |debits| ==> debits[i] <= amount + fee)
              && Sum(debits) > freeBalance
  {
    CanExceedExact(total, amount + fee, freeBalance);
    assert amount * total + fee * total == total * (amount + fee);
  }

  /** From one loop test to the next: the delays, the sends, and a sleep for what is left of the second. */
  lemma NextCheckTime(startTime: int, env: Environment, k: nat)
    ensures CheckTime(startTime, env, 0) == startTime + env(0).checkDelay
    ensures CheckTime(startTime, env, k + 1) == CheckTime(startTime, env, k) + env(k).startDelay
              + (if env(k).sendTime < 1000 then 1000 + env(k).oversleep else env(k).sendTime) + env(k + 1).checkDelay
  {
  }

  /** Main result: a session logs exactly the accepted sends of its slots, each with its hash, timestamp and nonce. */
  lemma SessionLogExact(session: Session, startTime: int, env: Environment, durationSeconds: nat,
                        txPerSecond: nat, startNonce: nat, tx: TxRecord)
    requires forall k :: GoodSlot(env(k), txPerSecond)
    requires SessionOf(session, startTime, env, durationSeconds, txPerSecond, startNonce)
    ensures tx in session.log <==>
            exists k, i :: 0 <= k < session.slots && 0 <= i < |env(k).replies|
              && env(k).replies[i] == Sent(tx.hash, tx.timestamp) && tx.nonce == startNonce + k * txPerSecond + i
    ensures session.nextNonce == startNonce + session.slots * txPerSecond
  {
    var slots := RepliesOf(env, session.slots);
    LogExact(startNonce, txPerSecond, slots, tx);
    if k, i :| 0 <= k < session.slots && 0 <= i < |env(k).replies|
               && env(k).replies[i] == Sent(tx.hash, tx.timestamp) && tx.nonce == startNonce + k * txPerSecond + i {
      assert slots[k][i] == Sent(tx.hash, tx.timestamp);
    }
  }

  lemma {:induction false} EverySlotLastsASecond(startTime: int, env: Environment, k: nat)
    ensures CheckTime(startTime, env, k) >= startTime + 1000 * k
  {
    if k > 0 {
      EverySlotLastsASecond(startTime, env, k - 1);
    }
  }

  /** Main result: whatever the clock does, no more slots, transactions and nonces than the budget assumes. */
  lemma LoadIsBounded(session: Session, startTime: int, env: Environment, durationSeconds: nat,
                      txPerSecond: nat, startNonce: nat)
    requires forall k :: GoodSlot(env(k), txPerSecond)
    requires SessionOf(session, startTime, env, durationSeconds, txPerSecond, startNonce)
    ensures session.slots <= durationSeconds
    ensures |session.log| <= session.slots * txPerSecond <= durationSeconds * txPerSecond
    ensures IncreasingNonces(session.log, startNonce, session.nextNonce)
    ensures session.nextNonce <= SlotNonce(startNonce, txPerSecond, durationSeconds)
  {
    if session.slots > 0 {
      EverySlotLastsASecond(startTime, env, session.slots - 1);
    }
    LogIncreases(startNonce, txPerSecond, RepliesOf(env, session.slots));
    MulMonotone(session.slots, durationSeconds, txPerSecond, txPerSecond);
  }

  /** The bound is reached: with no delays and sends that settle within their second, every second gets its slot. */
  lemma {:induction false} PunctualCheckTime(startTime: int, env: Environment, k: nat)
    requires forall j: nat :: j <= k ==>
               env(j).checkDelay == env(j).startDelay == env(j).oversleep == 0 && env(j).sendTime <= 1000
    ensures CheckTime(startTime, env, k) == startTime + 1000 * k
  {
    if k > 0 {
      PunctualCheckTime(startTime, env, k - 1);
    }
  }

  lemma PunctualLoadIsFull(session: Session, startTime: int, env: Environment, durationSeconds: nat,
                           txPerSecond: nat, startNonce: nat)
    requires SessionOf(session, startTime, env, durationSeconds, txPerSecond, startNonce)
    requires forall j: nat :: env(j).checkDelay == env(j).startDelay == env(j).oversleep == 0 && env(j).sendTime <= 1000
    ensures session.slots == durationSeconds
  {
    PunctualCheckTime(startTime, env, session.slots);
    PunctualCheckTime(startTime, env, durationSeconds);
  }

  /**
   * Main result: a balance that passed the check pays for every nonce the loop can use, reported as sent or not,
   * as long as no transaction costs more than the amount plus the quoted fee. `debits` has one entry per nonce.
   */
  lemma BudgetSuffices(session: Session, startTime: int, env: Environment, durationSeconds: nat,
                       txPerSecond: nat, startNonce: nat, freeBalance: nat, amount: nat, fee: nat, debits: seq<nat>)
    requires forall k :: GoodSlot(env(k), txPerSecond)
    requires SessionOf(session, startTime, env, durationSeconds, txPerSecond, startNonce)
    requires freeBalance >= RequiredBalance(durationSeconds, txPerSecond, amount, fee)
    requires |debits| == session.nextNonce - startNonce
    requires forall i :: 0 <= i < |debits| ==> debits[i] <= amount + fee
    ensures Sum(debits) <= freeBalance
  {
    LoadIsBounded(session, startTime, env, durationSeconds, txPerSecond, startNonce);
    SumBound(debits, amount + fee);
    BudgetArithmetic(|debits|, durationSeconds * txPerSecond, amount, fee);
  }

  lemma BudgetArithmetic(n: nat, total: nat, amount: nat, fee: nat)
    requires n <= total
    ensures n * (amount + fee) <= amount * total + fee * total
  {
    MulMonotone(n, total, amount + fee, amount + fee);
  }
}

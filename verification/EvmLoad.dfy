/** The EVM load test: a sequential sender with a fixed number of rounds, and a monitor that works in batches. */
module EvmLoad {
  import opened Prelude
  import opened SendLog

  const GAS_LIMIT: nat := 210_000
  const GAS_PRICE: nat := 100_000_000_000             // 100 gwei, in wei
  const TOKEN_UNIT: nat := 1_000_000_000_000_000_000   // 18 decimals

  /** One round as the environment answers it; fetching the transaction template or the network may throw. */
  datatype Round = SetupFailed | Replies(replies: seq<Reply>)

  datatype LoadError = InsufficientBalance | SetupError

  datatype Session = Session(log: seq<TxRecord>, nextNonce: nat)

  function EstimatedGasCost(txCount: nat): nat {
    GAS_PRICE * GAS_LIMIT * txCount
  }

  /** The estimate counts the configured amount in whole tokens, although the transactions carry no native value. */
  function EstimatedTotalCost(transferTokens: nat, txCount: nat): nat {
    transferTokens * TOKEN_UNIT * txCount + EstimatedGasCost(txCount)
  }

  predicate Refused(balance: nat, transferTokens: nat, txCount: nat) {
    balance < EstimatedTotalCost(transferTokens, txCount)
  }

  predicate GoodRound(round: Round, count: nat) {
    round.Replies? ==> |round.replies| == count
  }

  /** The replies of the first `n` rounds, none of which threw. */
  function RepliesOf(rounds: seq<Round>, n: nat): seq<seq<Reply>>
    requires n <= |rounds| && forall k :: 0 <= k < n ==> rounds[k].Replies?
  {
    seq(n, k requires 0 <= k < n => rounds[k].replies)
  }

  /** A session in which no round threw: the log of all rounds and the nonce after the last one. */
  predicate SessionOf(session: Session, rounds: seq<Round>, txPerSecond: nat, startNonce: nat) {
    && (forall k :: 0 <= k < |rounds| ==> GoodRound(rounds[k], txPerSecond) && rounds[k].Replies?)
    && session.log == Log(startNonce, txPerSecond, RepliesOf(rounds, |rounds|))
    && session.nextNonce == SlotNonce(startNonce, txPerSecond, |rounds|)
  }

  /** The sends of one round, one after the other. */
  method SendTransactions(replies: seq<Reply>, startNonce: nat) returns (txHashes: seq<TxRecord>)
    ensures txHashes == Delivered(startNonce, replies)
  {
    txHashes := [];
    for i := 0 to |replies|
      invariant txHashes == Delivered(startNonce, replies[..i])
    {
      assert replies[..i + 1][..i] == replies[..i];
      if replies[i].Sent? {
        txHashes := txHashes + [TxRecord(replies[i].hash, startNonce + i, replies[i].timestamp)];
      }
    }
    assert replies[..|replies|] == replies;
  }

  /** The rounds, one after the other. The first round that throws ends the test. */
  method SendRounds(rounds: seq<Round>, txPerSecond: nat, startNonce: nat) returns (r: Result<Session, LoadError>)
    requires forall k :: 0 <= k < |rounds| ==> GoodRound(rounds[k], txPerSecond)
    ensures if SetupFailed in rounds then r == Err(SetupError)
            else r.Ok? && SessionOf(r.value, rounds, txPerSecond, startNonce)
  {
    var allTxHashes: seq<TxRecord> := [];
    var currentNonce := startNonce;
    for second := 0 to |rounds|
      invariant forall k :: 0 <= k < second ==> rounds[k].Replies?
      invariant allTxHashes == Log(startNonce, txPerSecond, RepliesOf(rounds, second))
      invariant currentNonce == SlotNonce(startNonce, txPerSecond, second)
    {
      if rounds[second].SetupFailed? {
        return Err(SetupError);
      }
      var txHashes := SendTransactions(rounds[second].replies, currentNonce);
      assert RepliesOf(rounds, second + 1)[..second] == RepliesOf(rounds, second);
      NextSlotNonce(startNonce, txPerSecond, second);
      allTxHashes := allTxHashes + txHashes;
      currentNonce := currentNonce + txPerSecond;
    }
    r := Ok(Session(allTxHashes, currentNonce));
  }

  /** The cost check, and the rounds if it passes. */
  method RunLoad(rounds: seq<Round>, txPerSecond: nat, startNonce: nat, balance: nat, transferTokens: nat)
    returns (r: Result<Session, LoadError>)
    requires forall k :: 0 <= k < |rounds| ==> GoodRound(rounds[k], txPerSecond)
    ensures r == Err(InsufficientBalance) <==> Refused(balance, transferTokens, txPerSecond * |rounds|)
    ensures r == Err(InsufficientBalance) <==>
            balance < (txPerSecond * |rounds|) * (21_000_000_000_000_000 + transferTokens * 1_000_000_000_000_000_000)
    ensures r == Err(SetupError) <==>
            !Refused(balance, transferTokens, txPerSecond * |rounds|) && SetupFailed in rounds
    ensures r.Ok? ==> SessionOf(r.value, rounds, txPerSecond, startNonce)
  {
    var txCount := txPerSecond * |rounds|;
    var estimatedGasCost := GAS_PRICE * GAS_LIMIT * txCount;
    var transferAmount := transferTokens * TOKEN_UNIT;
    EstimateInWei(transferTokens, txCount);
    if balance < transferAmount * txCount + estimatedGasCost {
      return Err(InsufficientBalance);
    }
    r := SendRounds(rounds, txPerSecond, startNonce);
  }

  /** The estimate in figures: 0.021 units of gas money and the tokens as if they were money, for each transaction. */
  lemma EstimateInWei(transferTokens: nat, txCount: nat)
    ensures EstimatedTotalCost(transferTokens, txCount)
         == txCount * (21_000_000_000_000_000 + transferTokens * 1_000_000_000_000_000_000)
  {
    assert GAS_PRICE * GAS_LIMIT == 21_000_000_000_000_000;
    Distribute(txCount, 21_000_000_000_000_000, transferTokens * 1_000_000_000_000_000_000);
  }

  lemma Distribute(n: nat, a: nat, b: nat)
    ensures n * (a + b) == b * n + a * n
  {
  }

  /** Main result: nonces grow strictly inside the window of the test; send `i` of round `k` is logged iff accepted. */
  lemma LogIsComplete(session: Session, rounds: seq<Round>, txPerSecond: nat, startNonce: nat, tx: TxRecord)
    requires SessionOf(session, rounds, txPerSecond, startNonce)
    ensures IncreasingNonces(session.log, startNonce, startNonce + |rounds| * txPerSecond)
    ensures tx in session.log <==>
            exists k, i :: 0 <= k < |rounds| && 0 <= i < txPerSecond
              && rounds[k].replies[i] == Sent(tx.hash, tx.timestamp) && tx.nonce == startNonce + k * txPerSecond + i
  {
    var slots := RepliesOf(rounds, |rounds|);
    assert forall k :: 0 <= k < |rounds| ==> slots[k] == rounds[k].replies;
    LogIncreases(startNonce, txPerSecond, slots);
    LogExact(startNonce, txPerSecond, slots, tx);
    if k, i :| 0 <= k < |rounds| && 0 <= i < txPerSecond && rounds[k].replies[i] == Sent(tx.hash, tx.timestamp)
               && tx.nonce == startNonce + k * txPerSecond + i {
      assert slots[k][i] == Sent(tx.hash, tx.timestamp);
    }
  }

  /** Main result: the gas of all nonces used stays within the gas estimate, so a balance that passed pays for it. */
  lemma GasWithinEstimate(session: Session, rounds: seq<Round>, txPerSecond: nat, startNonce: nat,
                          transferTokens: nat, gasPaid: seq<nat>)
    requires SessionOf(session, rounds, txPerSecond, startNonce)
    requires |gasPaid| == session.nextNonce - startNonce
    requires forall i :: 0 <= i < |gasPaid| ==> gasPaid[i] <= GAS_PRICE * GAS_LIMIT
    ensures Sum(gasPaid) <= EstimatedGasCost(txPerSecond * |rounds|)
    ensures forall balance: nat :: !Refused(balance, transferTokens, txPerSecond * |rounds|) ==> Sum(gasPaid) <= balance
  {
    SumBound(gasPaid, GAS_PRICE * GAS_LIMIT);
    WindowSize(session, rounds, txPerSecond, startNonce);
    EstimateCoversGas(|gasPaid|, transferTokens);
  }

  lemma WindowSize(session: Session, rounds: seq<Round>, txPerSecond: nat, startNonce: nat)
    requires SessionOf(session, rounds, txPerSecond, startNonce)
    ensures session.nextNonce - startNonce == txPerSecond * |rounds|
  {
  }

  lemma EstimateCoversGas(n: nat, transferTokens: nat)
    ensures n * (GAS_PRICE * GAS_LIMIT) == EstimatedGasCost(n) <= EstimatedTotalCost(transferTokens, n)
  {
    MulMonotone(0, transferTokens * TOKEN_UNIT, 0, n);
  }

  /** Corollary of RunLoad: some balance that covers all gas is refused exactly if anything is to be transferred; then
      the very gas estimate is such a balance. */
  lemma CheckOverasksExact(transferTokens: nat, txCount: nat)
    ensures (exists balance :: balance >= EstimatedGasCost(txCount) && Refused(balance, transferTokens, txCount)) <==>
            transferTokens > 0 && txCount > 0
    ensures transferTokens > 0 && txCount > 0 ==> Refused(EstimatedGasCost(txCount), transferTokens, txCount)
  {
    if transferTokens > 0 && txCount > 0 {
      MulMonotone(TOKEN_UNIT, transferTokens * TOKEN_UNIT, 1, txCount);
      assert Refused(EstimatedGasCost(txCount), transferTokens, txCount);
    } else {
      assert transferTokens * TOKEN_UNIT * txCount == 0;
    }
  }

  /** Main result: whenever anything is to be transferred, there is a balance that pays for the gas of every session and
      that the check refuses nevertheless. */
  lemma RefusedThoughSufficient(session: Session, rounds: seq<Round>, txPerSecond: nat, startNonce: nat,
                                transferTokens: nat, gasPaid: seq<nat>)
    requires SessionOf(session, rounds, txPerSecond, startNonce)
    requires |gasPaid| == session.nextNonce - startNonce
    requires forall i :: 0 <= i < |gasPaid| ==> gasPaid[i] <= GAS_PRICE * GAS_LIMIT
    requires transferTokens > 0 && txPerSecond * |rounds| > 0
    ensures var balance := EstimatedGasCost(txPerSecond * |rounds|);
            Sum(gasPaid) <= balance && Refused(balance, transferTokens, txPerSecond * |rounds|)
  {
    GasWithinEstimate(session, rounds, txPerSecond, startNonce, transferTokens, gasPaid);
    CheckOverasksExact(transferTokens, txPerSecond * |rounds|);
  }

  // ---- The monitor ----

  /** What waiting for one transaction brings. A missing receipt makes reading its status throw. */
  datatype WaitOutcome = Receipt(status: int) | NoReceipt | WaitFailed

  predicate Succeeds(outcome: WaitOutcome) {
    outcome == Receipt(1)
  }

  /** The hashes among the first `n` with a successful receipt, and the others. */
  function SuccessfulUpTo(hashes: seq<Hash>, outcomes: seq<WaitOutcome>, n: nat): set<Hash>
    requires |outcomes| == |hashes| && n <= |hashes|
  {
    set i | 0 <= i < n && Succeeds(outcomes[i]) :: hashes[i]
  }

  function FailedUpTo(hashes: seq<Hash>, outcomes: seq<WaitOutcome>, n: nat): set<Hash>
    requires |outcomes| == |hashes| && n <= |hashes|
  {
    set i | 0 <= i < n && !Succeeds(outcomes[i]) :: hashes[i]
  }

  function Confirmed(hashes: seq<Hash>, outcomes: seq<WaitOutcome>, n: nat): nat
    requires |outcomes| == |hashes| && n <= |hashes|
  {
    |SuccessfulUpTo(hashes, outcomes, n)| + |FailedUpTo(hashes, outcomes, n)|
  }

  /** One batch: its waits run concurrently and complete in any order. */
  method MonitorBatch(hashes: seq<Hash>, outcomes: seq<WaitOutcome>, start: nat, order: seq<nat>,
                      successfulBefore: set<Hash>, failedBefore: set<Hash>)
    returns (successful: set<Hash>, failed: set<Hash>)
    requires |outcomes| == |hashes| && start + |order| <= |hashes|
    requires CompletionOrder(order, |order|)
    requires successfulBefore == SuccessfulUpTo(hashes, outcomes, start)
    requires failedBefore == FailedUpTo(hashes, outcomes, start)
    ensures successful == SuccessfulUpTo(hashes, outcomes, start + |order|)
    ensures failed == FailedUpTo(hashes, outcomes, start + |order|)
    ensures forall h :: h in successful <==>
              exists i :: 0 <= i < start + |order| && hashes[i] == h && outcomes[i] == Receipt(1)
    ensures forall h :: h in failed <==>
              exists i :: 0 <= i < start + |order| && hashes[i] == h && outcomes[i] != Receipt(1)
  {
    successful, failed := successfulBefore, failedBefore;
    for k := 0 to |order|
      invariant successful == successfulBefore + Settled(hashes, outcomes, start, order, k, true)
      invariant failed == failedBefore + Settled(hashes, outcomes, start, order, k, false)
    {
      var i := start + order[k];
      OneMoreSettled(hashes, outcomes, start, order, k);
      match outcomes[i]
      case Receipt(status) =>
        if status == 1 {
          successful := successful + {hashes[i]};
        } else {
          failed := failed + {hashes[i]};
        }
      case _ =>
        failed := failed + {hashes[i]};
    }
    WholeBatch(hashes, outcomes, start, order);
    VerdictByReceipt(hashes, outcomes, start + |order|);
  }

  /** The hashes of the first `k` waits to complete, by whether they succeeded. */
  ghost function Settled(hashes: seq<Hash>, outcomes: seq<WaitOutcome>, start: nat, order: seq<nat>, k: nat, ok: bool)
    : set<Hash>
    requires |outcomes| == |hashes| && start + |order| <= |hashes|
    requires CompletionOrder(order, |order|) && k <= |order|
  {
    set j | 0 <= j < k && Succeeds(outcomes[start + order[j]]) == ok :: hashes[start + order[j]]
  }

  lemma OneMoreSettled(hashes: seq<Hash>, outcomes: seq<WaitOutcome>, start: nat, order: seq<nat>, k: nat)
    requires |outcomes| == |hashes| && start + |order| <= |hashes|
    requires CompletionOrder(order, |order|) && k < |order|
    ensures forall ok ::
              Settled(hashes, outcomes, start, order, k + 1, ok) == Settled(hashes, outcomes, start, order, k, ok)
                + if Succeeds(outcomes[start + order[k]]) == ok then {hashes[start + order[k]]} else {}
  {
  }

  /** When all waits of a batch are over, its hashes are accounted for. */
  lemma WholeBatch(hashes: seq<Hash>, outcomes: seq<WaitOutcome>, start: nat, order: seq<nat>)
    requires |outcomes| == |hashes| && start + |order| <= |hashes|
    requires CompletionOrder(order, |order|)
    ensures SuccessfulUpTo(hashes, outcomes, start + |order|)
         == SuccessfulUpTo(hashes, outcomes, start) + Settled(hashes, outcomes, start, order, |order|, true)
    ensures FailedUpTo(hashes, outcomes, start + |order|)
         == FailedUpTo(hashes, outcomes, start) + Settled(hashes, outcomes, start, order, |order|, false)
  {
    EveryoneCompletes(order, |order|);
    forall i | start <= i < start + |order|
      ensures hashes[i] in Settled(hashes, outcomes, start, order, |order|, Succeeds(outcomes[i]))
    {
      var offset: nat := i - start;
      assert offset in order;
      var j :| 0 <= j < |order| && order[j] == offset;
      assert hashes[start + order[j]] == hashes[i];
    }
  }

  /**
   * All batches, one after the other, as far as `maxBatches` of them get; `progress` is the total printed after each.
   * The loop is left exactly if that many batches hold all hashes.
   */
  method MonitorTransactions(hashes: seq<Hash>, batchSize: nat, outcomes: seq<WaitOutcome>, orders: nat -> seq<nat>,
                             maxBatches: nat)
    returns (successful: set<Hash>, failed: set<Hash>, progress: seq<nat>, finished: bool)
    requires |outcomes| == |hashes|
    requires forall i: nat :: i < |hashes| ==> CompletionOrder(orders(i), Min(batchSize, |hashes| - i))
    ensures finished <==> |hashes| <= maxBatches * batchSize
    ensures finished ==> successful == SuccessfulUpTo(hashes, outcomes, |hashes|)
    ensures finished ==> failed == FailedUpTo(hashes, outcomes, |hashes|)
    ensures finished ==> forall h ::
              h in successful <==> exists i :: 0 <= i < |hashes| && hashes[i] == h && outcomes[i] == Receipt(1)
    ensures finished ==> forall h ::
              h in failed <==> exists i :: 0 <= i < |hashes| && hashes[i] == h && outcomes[i] != Receipt(1)
    ensures finished ==> |hashes| <= |progress| * batchSize
    ensures |progress| > 0 ==> (|progress| - 1) * batchSize < |hashes|
    ensures forall k :: 0 <= k < |progress| ==>
              progress[k] == Confirmed(hashes, outcomes, Min((k + 1) * batchSize, |hashes|))
  {
    successful, failed, progress := {}, {}, [];
    var i := 0;
    while i < |hashes| && |progress| < maxBatches
      invariant i == |progress| * batchSize && |progress| <= maxBatches
      invariant |progress| > 0 ==> (|progress| - 1) * batchSize < |hashes|
      invariant successful == SuccessfulUpTo(hashes, outcomes, Min(i, |hashes|))
      invariant failed == FailedUpTo(hashes, outcomes, Min(i, |hashes|))
      invariant forall k :: 0 <= k < |progress| ==>
                  progress[k] == Confirmed(hashes, outcomes, Min((k + 1) * batchSize, |hashes|))
      decreases maxBatches - |progress|
    {
      successful, failed := MonitorBatch(hashes, outcomes, i, orders(i), successful, failed);
      assert i + |orders(i)| == Min(i + batchSize, |hashes|);
      OneMoreBatch(|progress|, batchSize);
      progress := progress + [|successful| + |failed|];
      i := i + batchSize;
    }
    finished := i >= |hashes|;
    MulMonotone(|progress|, maxBatches, batchSize, batchSize);
    VerdictByReceipt(hashes, outcomes, |hashes|);
  }

  /** The verdict of a listed hash is that of its receipts: status 1 or anything else. */
  lemma VerdictByReceipt(hashes: seq<Hash>, outcomes: seq<WaitOutcome>, n: nat)
    requires |outcomes| == |hashes| && n <= |hashes|
    ensures forall h :: h in SuccessfulUpTo(hashes, outcomes, n) <==>
              exists i :: 0 <= i < n && hashes[i] == h && outcomes[i] == Receipt(1)
    ensures forall h :: h in FailedUpTo(hashes, outcomes, n) <==>
              exists i :: 0 <= i < n && hashes[i] == h && outcomes[i] != Receipt(1)
  {
  }

  lemma OneMoreBatch(k: nat, batchSize: nat)
    ensures (k + 1) * batchSize == k * batchSize + batchSize
  {
  }

  /** Corollary of MonitorTransactions: some number of batches holds all hashes, so that the loop ends, exactly for a
      positive batch size or an empty list. */
  lemma MonitorEndsExact(n: nat, batchSize: nat)
    ensures (exists maxBatches: nat :: n <= maxBatches * batchSize) <==> batchSize > 0 || n == 0
  {
    if batchSize > 0 {
      MulMonotone(n, n, 1, batchSize);
      assert n <= n * batchSize;
    } else if n == 0 {
      assert n <= 0 * batchSize;
    } else {
      forall maxBatches: nat ensures maxBatches * batchSize < n {
        assert maxBatches * batchSize == 0;
      }
    }
  }

  /** No hash is listed twice among the first `n`. */
  predicate DistinctUpTo(hashes: seq<Hash>, n: nat)
    requires n <= |hashes|
  {
    Distinct(hashes[..n])
  }

  /**
   * Main result: the two sets are disjoint and their sizes add up to the number of entries exactly when no hash
   * is listed twice. In every case together they hold all hashes.
   */
  lemma PartitionExact(hashes: seq<Hash>, outcomes: seq<WaitOutcome>, n: nat)
    requires |outcomes| == |hashes| && n <= |hashes|
    ensures SuccessfulUpTo(hashes, outcomes, n) + FailedUpTo(hashes, outcomes, n) == Elems(hashes[..n])
    ensures DistinctUpTo(hashes, n) <==>
            && SuccessfulUpTo(hashes, outcomes, n) !! FailedUpTo(hashes, outcomes, n)
            && Confirmed(hashes, outcomes, n) == n
  {
    var ok, bad := SuccessfulUpTo(hashes, outcomes, n), FailedUpTo(hashes, outcomes, n);
    AllAreListed(hashes, outcomes, n);
    DistinctByCount(hashes[..n]);
    if ok !! bad {
      assert |ok + bad| == |ok| + |bad|;
    }
    if Distinct(hashes[..n]) {
      OneVerdictEach(hashes, outcomes, n);
    }
  }

  lemma AllAreListed(hashes: seq<Hash>, outcomes: seq<WaitOutcome>, n: nat)
    requires |outcomes| == |hashes| && n <= |hashes|
    ensures SuccessfulUpTo(hashes, outcomes, n) + FailedUpTo(hashes, outcomes, n) == Elems(hashes[..n])
  {
    var ok, bad := SuccessfulUpTo(hashes, outcomes, n), FailedUpTo(hashes, outcomes, n);
    forall h | h in hashes[..n] ensures h in ok + bad {
      var i :| 0 <= i < n && hashes[..n][i] == h;
      assert hashes[i] in if Succeeds(outcomes[i]) then ok else bad;
    }
  }

  lemma OneVerdictEach(hashes: seq<Hash>, outcomes: seq<WaitOutcome>, n: nat)
    requires |outcomes| == |hashes| && n <= |hashes| && Distinct(hashes[..n])
    ensures SuccessfulUpTo(hashes, outcomes, n) !! FailedUpTo(hashes, outcomes, n)
  {
    forall i, j | 0 <= i < n && 0 <= j < n && Succeeds(outcomes[i]) && !Succeeds(outcomes[j])
      ensures hashes[i] != hashes[j]
    {
      assert hashes[..n][i] == hashes[i] && hashes[..n][j] == hashes[j];
    }
  }

  /** With distinct hashes every batch adds exactly its own size: nothing is skipped or counted twice at a boundary. */
  lemma ProgressIsExact(hashes: seq<Hash>, batchSize: nat, outcomes: seq<WaitOutcome>, k: nat)
    requires |outcomes| == |hashes| && Distinct(hashes)
    ensures Confirmed(hashes, outcomes, Min((k + 1) * batchSize, |hashes|)) == Min((k + 1) * batchSize, |hashes|)
  {
    PartitionExact(hashes, outcomes, Min((k + 1) * batchSize, |hashes|));
  }
}

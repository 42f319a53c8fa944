/** The log of sent transactions, shared by the two load tests, and the arithmetic of their budget checks. */
module SendLog {
  import opened Prelude

  /** How one send ended: accepted by the node, or an error caught and printed. */
  datatype Reply = Sent(hash: Hash, timestamp: int) | SendFailed

  function RecordOf(startNonce: nat, i: nat, reply: Reply): TxRecord
    requires reply.Sent?
  {
    TxRecord(reply.hash, startNonce + i, reply.timestamp)
  }

  /** The accepted sends of one slot in the order of their nonces; send `i` uses nonce `startNonce + i`. */
  function Delivered(startNonce: nat, replies: seq<Reply>): seq<TxRecord> {
    if replies == [] then
      []
    else
      var n := |replies| - 1;
      Delivered(startNonce, replies[..n]) + if replies[n].Sent? then [RecordOf(startNonce, n, replies[n])] else []
  }

  /** Slot `k` of a test: it starts `k * perSlot` nonces after the first one. */
  function SlotNonce(startNonce: nat, perSlot: nat, k: nat): (r: nat)
    ensures r >= startNonce
  {
    startNonce + k * perSlot
  }

  lemma NextSlotNonce(startNonce: nat, perSlot: nat, k: nat)
    ensures SlotNonce(startNonce, perSlot, k + 1) == SlotNonce(startNonce, perSlot, k) + perSlot
  {
  }

  /** The accepted sends of all slots. */
  function Log(startNonce: nat, perSlot: nat, slots: seq<seq<Reply>>): seq<TxRecord> {
    if slots == [] then
      []
    else
      var n := |slots| - 1;
      Log(startNonce, perSlot, slots[..n]) + Delivered(SlotNonce(startNonce, perSlot, n), slots[n])
  }

  /** Nonces grow strictly, so none is used twice, and they all lie in `[lo, hi)`. */
  predicate IncreasingNonces(txs: seq<TxRecord>, lo: nat, hi: nat) {
    && (forall i :: 0 <= i < |txs| ==> lo <= txs[i].nonce < hi)
    && (forall i, j :: 0 <= i < j < |txs| ==> txs[i].nonce < txs[j].nonce)
  }

  /** Main result: a slot logs exactly its accepted sends, each with its own hash, timestamp and nonce. */
  lemma {:induction false} DeliveredExact(startNonce: nat, replies: seq<Reply>, tx: TxRecord)
    ensures tx in Delivered(startNonce, replies) <==>
            exists i :: 0 <= i < |replies| && replies[i] == Sent(tx.hash, tx.timestamp) && tx.nonce == startNonce + i
  {
    if replies != [] {
      var n := |replies| - 1;
      var init := replies[..n];
      DeliveredExact(startNonce, init, tx);
      assert forall i :: 0 <= i < n ==> replies[i] == init[i];
    }
  }

  lemma {:induction false} DeliveredIncreases(startNonce: nat, replies: seq<Reply>)
    ensures IncreasingNonces(Delivered(startNonce, replies), startNonce, startNonce + |replies|)
    ensures |Delivered(startNonce, replies)| <= |replies|
  {
    if replies != [] {
      DeliveredIncreases(startNonce, replies[..|replies| - 1]);
    }
  }

  lemma IncreasingConcat(a: seq<TxRecord>, b: seq<TxRecord>, lo: nat, mid: nat, hi: nat)
    requires lo <= mid <= hi
    requires IncreasingNonces(a, lo, mid) && IncreasingNonces(b, mid, hi)
    ensures IncreasingNonces(a + b, lo, hi)
  {
  }

  /** Main result: over all slots the nonces grow strictly inside one window of `perSlot` nonces per slot. */
  lemma {:induction false} LogIncreases(startNonce: nat, perSlot: nat, slots: seq<seq<Reply>>)
    requires forall k :: 0 <= k < |slots| ==> |slots[k]| == perSlot
    ensures IncreasingNonces(Log(startNonce, perSlot, slots), startNonce, startNonce + |slots| * perSlot)
    ensures |Log(startNonce, perSlot, slots)| <= |slots| * perSlot
  {
    if slots != [] {
      var n := |slots| - 1;
      LogIncreases(startNonce, perSlot, slots[..n]);
      DeliveredIncreases(SlotNonce(startNonce, perSlot, n), slots[n]);
      assert SlotNonce(startNonce, perSlot, n) + perSlot == SlotNonce(startNonce, perSlot, |slots|);
      IncreasingConcat(Log(startNonce, perSlot, slots[..n]), Delivered(SlotNonce(startNonce, perSlot, n), slots[n]),
                       startNonce, SlotNonce(startNonce, perSlot, n), SlotNonce(startNonce, perSlot, |slots|));
    }
  }

  /** Send `i` of slot `k` is the logged transaction. */
  ghost predicate SentAs(startNonce: nat, perSlot: nat, slots: seq<seq<Reply>>, k: nat, tx: TxRecord)
    requires k < |slots|
  {
    exists i :: 0 <= i < |slots[k]| && slots[k][i] == Sent(tx.hash, tx.timestamp)
                && tx.nonce == startNonce + k * perSlot + i
  }

  lemma {:induction false} LogHoldsSends(startNonce: nat, perSlot: nat, slots: seq<seq<Reply>>, tx: TxRecord)
    ensures tx in Log(startNonce, perSlot, slots) <==>
            exists k: nat :: k < |slots| && SentAs(startNonce, perSlot, slots, k, tx)
  {
    if slots != [] {
      var n := |slots| - 1;
      var init := slots[..n];
      LogHoldsSends(startNonce, perSlot, init, tx);
      DeliveredExact(SlotNonce(startNonce, perSlot, n), slots[n], tx);
      assert SentAs(startNonce, perSlot, slots, n, tx) <==>
             tx in Delivered(SlotNonce(startNonce, perSlot, n), slots[n]);
      forall k: nat | k < n
        ensures SentAs(startNonce, perSlot, init, k, tx) <==> SentAs(startNonce, perSlot, slots, k, tx)
      {
        assert init[k] == slots[k];
      }
    }
  }

  /** Main result: the log over all slots holds exactly the accepted sends, each with its hash, timestamp and nonce. */
  lemma LogExact(startNonce: nat, perSlot: nat, slots: seq<seq<Reply>>, tx: TxRecord)
    ensures tx in Log(startNonce, perSlot, slots) <==>
            exists k, i :: 0 <= k < |slots| && 0 <= i < |slots[k]|
              && slots[k][i] == Sent(tx.hash, tx.timestamp) && tx.nonce == startNonce + k * perSlot + i
  {
    LogHoldsSends(startNonce, perSlot, slots, tx);
    if k, i :| 0 <= k < |slots| && 0 <= i < |slots[k]|
               && slots[k][i] == Sent(tx.hash, tx.timestamp) && tx.nonce == startNonce + k * perSlot + i {
      assert SentAs(startNonce, perSlot, slots, k, tx);
    }
  }

  function Sum(s: seq<nat>): nat {
    if s == [] then 0 else Sum(s[..|s| - 1]) + s[|s| - 1]
  }

  lemma {:induction false} SumBound(s: seq<nat>, cap: nat)
    requires forall i :: 0 <= i < |s| ==> s[i] <= cap
    ensures Sum(s) <= |s| * cap
  {
    if s != [] {
      SumBound(s[..|s| - 1], cap);
    }
  }

  lemma {:induction false} SumOfEqual(n: nat, cap: nat)
    ensures Sum(seq(n, _ => cap)) == n * cap
  {
    if n > 0 {
      var s: seq<nat> := seq(n, _ => cap);
      assert s[..n - 1] == seq(n - 1, _ => cap);
      SumOfEqual(n - 1, cap);
    }
  }

  /** `n` payments of at most `cap` each can exceed a balance exactly if `n` times `cap` does. */
  lemma CanExceedExact(n: nat, cap: nat, balance: nat)
    ensures balance < n * cap <==>
            exists payments: seq<nat> ::
              |payments| == n && (forall i :: 0 <= i < n ==> payments[i] <= cap) && Sum(payments) > balance
  {
    if balance < n * cap {
      SumOfEqual(n, cap);
      var payments: seq<nat> := seq(n, _ => cap);
      assert |payments| == n && (forall i :: 0 <= i < n ==> payments[i] <= cap) && Sum(payments) > balance;
    }
    forall payments: seq<nat> | |payments| == n && forall i :: 0 <= i < n ==> payments[i] <= cap
      ensures Sum(payments) <= n * cap
    {
      SumBound(payments, cap);
    }
  }
}

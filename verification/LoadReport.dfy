/** The report of the transfer load test: what its totals mean when the monitor delivers its result. */
module LoadReport {
  import opened Prelude
  import opened SendLog
  import opened TransferLoad
  import opened TxMonitor
  import opened MonitorRuns

  /** Different nonces are signed into transactions with different hashes. */
  predicate HashesFollowNonces(txs: seq<TxRecord>) {
    forall i, j :: 0 <= i < |txs| && 0 <= j < |txs| && txs[i].nonce != txs[j].nonce ==> txs[i].hash != txs[j].hash
  }

  lemma DifferentNoncesDifferentHashes(txs: seq<TxRecord>, lo: nat, hi: nat)
    requires IncreasingNonces(txs, lo, hi) && HashesFollowNonces(txs)
    ensures Distinct(Hashes(txs))
  {
  }

  lemma HashOfMember(txs: seq<TxRecord>, tx: TxRecord)
    requires tx in txs
    ensures tx.hash in Elems(Hashes(txs))
  {
    var i :| 0 <= i < |txs| && txs[i] == tx;
    assert Hashes(txs)[i] == tx.hash;
  }

  /** Successful and failed add up to the length of the log exactly when no hash was logged twice. */
  lemma TotalsAddUpExact(log: seq<TxRecord>, steps: seq<Step>)
    requires Legal(Init(Elems(Hashes(log))), steps)
    requires Run(Init(Elems(Hashes(log))), steps).resolution == Some(ByCallback)
    ensures var s := Run(Init(Elems(Hashes(log))), steps);
            |s.successful| + |s.failed| == |log| <==> Distinct(Hashes(log))
  {
    CallbackResolutionIsFinal(Elems(Hashes(log)), steps, []);
    DistinctByCount(Hashes(log));
  }

  /** Main result: the two totals of a delivered result cover every transaction that the load loop logged. */
  lemma EverySentTransactionIsReported(session: Session, startTime: int, env: Environment, durationSeconds: nat,
                                       txPerSecond: nat, startNonce: nat, steps: seq<Step>)
    requires forall k :: GoodSlot(env(k), txPerSecond)
    requires SessionOf(session, startTime, env, durationSeconds, txPerSecond, startNonce)
    requires HashesFollowNonces(session.log)
    requires Legal(Init(Elems(Hashes(session.log))), steps)
    requires Run(Init(Elems(Hashes(session.log))), steps).resolution == Some(ByCallback)
    ensures var s := Run(Init(Elems(Hashes(session.log))), steps);
            && |s.successful| + |s.failed| == |session.log| <= durationSeconds * txPerSecond
            && forall tx :: tx in session.log ==> (tx.hash in s.successful <==> tx.hash !in s.failed)
  {
    var log := session.log;
    var s := Run(Init(Elems(Hashes(log))), steps);
    LoadIsBounded(session, startTime, env, durationSeconds, txPerSecond, startNonce);
    DifferentNoncesDifferentHashes(log, startNonce, session.nextNonce);
    TotalsAddUpExact(log, steps);
    CallbackResolutionIsFinal(Elems(Hashes(log)), steps, []);
    VerdictsAreSound(Elems(Hashes(log)), steps);
    forall tx | tx in log ensures tx.hash in s.successful <==> tx.hash !in s.failed {
      HashOfMember(log, tx);
      assert tx.hash in s.pending + s.successful + s.failed;
    }
  }
}

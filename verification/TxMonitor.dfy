/**
 * The confirmation monitor of the transfer load test as a state machine. Head callbacks run interleaved;
 * each of them is cut into atomic steps at its `await` points.
 */
module TxMonitor {
  import opened Prelude
  import opened BlockClassifier

  /** Where a head callback is suspended. */
  datatype Wait =
    | AwaitHash                                 // for the hash of block `blockNumber`
    | AwaitBody                                 // for the block itself
    | AwaitEvents(extrinsics: seq<Hash>)        // for the events of that block
    | ScanDone                                  // the loop is over, the closing part is still to run

  /** A head callback in flight: the head it was called with and its loop variable. */
  datatype Scan = Scan(head: nat, blockNumber: int, wait: Wait)

  datatype Resolution = ByCallback | ByTimeout

  /** A block whose extrinsics and events have been read. */
  datatype Reading = Reading(number: int, block: Block)

  /**
   * The shared state, the callbacks in flight, and four history variables that no step consults:
   * the first head delivered, the block numbers processed, those processed with an error at least once,
   * and the blocks read.
   */
  datatype State = State(
    pending: set<Hash>,
    successful: set<Hash>,
    failed: set<Hash>,
    startBlockNumber: int,
    scans: map<nat, Scan>,
    subscribed: bool,
    timerArmed: bool,
    unsubscribed: bool,
    resolution: Option<Resolution>,
    firstHead: Option<nat>,
    attempted: set<int>,
    skipped: set<int>,
    readings: set<Reading>)

  datatype Step =
    | Head(id: nat, head: nat)                              // a new head starts callback `id`
    | HashReturned(id: nat)
    | HashFailed(id: nat)                                   // aborts the callback
    | BodyReturned(id: nat, extrinsics: seq<Hash>)
    | EventsReturned(id: nat, records: seq<EventRecord>)    // classifies the block
    | BlockFailed(id: nat)                                  // the error is swallowed, the scan moves on
    | Finish(id: nat)
    | Subscribed
    | Timeout

  ghost predicate Enabled(s: State, e: Step) {
    match e
    case Head(id, _) => id !in s.scans
    case HashReturned(id) => id in s.scans && s.scans[id].wait.AwaitHash?
    case HashFailed(id) => id in s.scans && s.scans[id].wait.AwaitHash?
    case BodyReturned(id, _) => id in s.scans && s.scans[id].wait.AwaitBody?
    case EventsReturned(id, _) => id in s.scans && s.scans[id].wait.AwaitEvents?
    case BlockFailed(id) => id in s.scans && (s.scans[id].wait.AwaitBody? || s.scans[id].wait.AwaitEvents?)
    case Finish(id) => id in s.scans && s.scans[id].wait.ScanDone?
    case Subscribed => !s.subscribed
    case Timeout => s.timerArmed
  }

  /** The loop test: wait for the next block hash, or leave the loop. */
  function LoopTest(head: nat, blockNumber: int): Scan {
    Scan(head, blockNumber, if blockNumber <= head then AwaitHash else ScanDone)
  }

  function Resolve(r: Option<Resolution>, how: Resolution): Option<Resolution> {
    if r.None? then Some(how) else r
  }

  ghost function OnHead(s: State, id: nat, head: nat): State {
    var start := if s.startBlockNumber == 0 then head - 5 else s.startBlockNumber;
    s.(startBlockNumber := start,
       scans := s.scans[id := LoopTest(head, start)],
       firstHead := if s.firstHead.None? then Some(head) else s.firstHead)
  }

  /** Block `blockNumber` of callback `id` is over; the loop goes on to the next one. */
  ghost function AfterBlock(s: State, id: nat): State
    requires id in s.scans
  {
    var scan := s.scans[id];
    s.(scans := s.scans[id := LoopTest(scan.head, scan.blockNumber + 1)],
       attempted := s.attempted + {scan.blockNumber})
  }

  /** Every pending hash of the block leaves `pending` and gets its verdict. */
  ghost function Classify(s: State, number: int, blk: Block): State {
    s.(pending := (set h | h in s.pending && h !in blk.extrinsics),
       successful := s.successful + (set h | h in s.pending && SucceedsIn(blk, h)),
       failed := s.failed + (set h | h in s.pending && FailsIn(blk, h)),
       readings := s.readings + {Reading(number, blk)})
  }

  ghost function OnFinish(s: State, id: nat): State
    requires id in s.scans
  {
    var done := s.pending == {};
    s.(startBlockNumber := s.scans[id].head + 1,
       scans := s.scans - {id},
       unsubscribed := s.unsubscribed || (done && s.subscribed),
       resolution := if done then Resolve(s.resolution, ByCallback) else s.resolution)
  }

  ghost function Next(s: State, e: Step): State
    requires Enabled(s, e)
  {
    match e
    case Head(id, head) => OnHead(s, id, head)
    case HashReturned(id) => s.(scans := s.scans[id := s.scans[id].(wait := AwaitBody)])
    case HashFailed(id) => s.(scans := s.scans - {id})
    case BodyReturned(id, extrinsics) => s.(scans := s.scans[id := s.scans[id].(wait := AwaitEvents(extrinsics))])
    case EventsReturned(id, records) =>
      var scan := s.scans[id];
      AfterBlock(Classify(s, scan.blockNumber, Block(scan.wait.extrinsics, records)), id)
    case BlockFailed(id) => AfterBlock(s, id).(skipped := s.skipped + {s.scans[id].blockNumber})
    case Finish(id) => OnFinish(s, id)
    case Subscribed => s.(subscribed := true, timerArmed := true)
    case Timeout => s.(timerArmed := false, unsubscribed := true, resolution := Resolve(s.resolution, ByTimeout))
  }

  ghost function Init(submitted: set<Hash>): State {
    State(submitted, {}, {}, 0, map[], false, false, false, None, None, {}, {}, {})
  }

  /** The map from hashes to records; a later record replaces an earlier one with the same hash. */
  function ByHash(txs: seq<TxRecord>): (m: map<Hash, TxRecord>)
    ensures m.Keys == Elems(Hashes(txs))
  {
    if txs == [] then
      map[]
    else
      var last := txs[|txs| - 1];
      assert Hashes(txs) == Hashes(txs[..|txs| - 1]) + [last.hash];
      ElemsOfConcat(Hashes(txs[..|txs| - 1]), [last.hash]);
      ByHash(txs[..|txs| - 1])[last.hash := last]
  }

  /** Each hash is mapped to the last record that has it. */
  lemma {:induction false} ByHashIsLast(txs: seq<TxRecord>, i: nat)
    requires i < |txs| && forall j :: i < j < |txs| ==> txs[j].hash != txs[i].hash
    ensures txs[i].hash in ByHash(txs) && ByHash(txs)[txs[i].hash] == txs[i]
  {
    if i < |txs| - 1 {
      ByHashIsLast(txs[..|txs| - 1], i);
    }
  }

  /** The monitor object: the variables captured by the callbacks, and one method per atomic step. */
  class Monitor {
    var pendingTxs: map<Hash, TxRecord>
    var successful: set<Hash>
    var failed: set<Hash>
    var startBlockNumber: int
    var scans: map<nat, Scan>
    var subscribed: bool
    var timerArmed: bool
    var unsubscribed: bool
    var resolution: Option<Resolution>
    ghost var firstHead: Option<nat>
    ghost var attempted: set<int>
    ghost var skipped: set<int>
    ghost var readings: set<Reading>

    ghost function Abs(): State
      reads this
    {
      State(pendingTxs.Keys, successful, failed, startBlockNumber, scans, subscribed, timerArmed, unsubscribed,
            resolution, firstHead, attempted, skipped, readings)
    }

    constructor (txHashes: seq<TxRecord>)
      ensures Abs() == Init(Elems(Hashes(txHashes)))
      ensures pendingTxs == ByHash(txHashes)
    {
      successful, failed := {}, {};
      startBlockNumber := 0;
      scans := map[];
      subscribed, timerArmed, unsubscribed := false, false, false;
      resolution := None;
      firstHead, attempted, skipped, readings := None, {}, {}, {};
      pendingTxs := map[];
      new;
      for k := 0 to |txHashes|
        invariant pendingTxs == ByHash(txHashes[..k])
        invariant Abs() == Init({}).(pending := pendingTxs.Keys)
      {
        var tx := txHashes[k];
        assert txHashes[..k + 1][..k] == txHashes[..k];
        pendingTxs := pendingTxs[tx.hash := tx];
      }
      assert txHashes[..|txHashes|] == txHashes;
    }

    method NewHead(id: nat, currentBlockNumber: nat)
      requires Enabled(Abs(), Head(id, currentBlockNumber))
      modifies this
      ensures Abs() == Next(old(Abs()), Head(id, currentBlockNumber))
    {
      if startBlockNumber == 0 {
        startBlockNumber := currentBlockNumber - 5;
      }
      scans := scans[id := LoopTest(currentBlockNumber, startBlockNumber)];
      firstHead := if firstHead.None? then Some(currentBlockNumber) else firstHead;
    }

    method GotHash(id: nat)
      requires Enabled(Abs(), HashReturned(id))
      modifies `scans
      ensures Abs() == Next(old(Abs()), HashReturned(id))
    {
      scans := scans[id := scans[id].(wait := AwaitBody)];
    }

    method AbortOnHashError(id: nat)
      requires Enabled(Abs(), HashFailed(id))
      modifies `scans
      ensures Abs() == Next(old(Abs()), HashFailed(id))
    {
      scans := scans - {id};
    }

    method GotBody(id: nat, extrinsics: seq<Hash>)
      requires Enabled(Abs(), BodyReturned(id, extrinsics))
      modifies `scans
      ensures Abs() == Next(old(Abs()), BodyReturned(id, extrinsics))
    {
      scans := scans[id := scans[id].(wait := AwaitEvents(extrinsics))];
    }

    method SkipFailedBlock(id: nat)
      requires Enabled(Abs(), BlockFailed(id))
      modifies `scans, `attempted, `skipped
      ensures Abs() == Next(old(Abs()), BlockFailed(id))
    {
      var scan := scans[id];
      attempted := attempted + {scan.blockNumber};
      skipped := skipped + {scan.blockNumber};
      scans := scans[id := LoopTest(scan.head, scan.blockNumber + 1)];
    }

    /** The synchronous part of processing a block, without suspension from start to end. */
    method GotEvents(id: nat, records: seq<EventRecord>)
      requires Enabled(Abs(), EventsReturned(id, records))
      modifies this
      ensures Abs() == Next(old(Abs()), EventsReturned(id, records))
    {
      var scan := scans[id];
      ghost var blk := Block(scan.wait.extrinsics, records);
      ClassifyExtrinsics(scan.wait.extrinsics, records);
      AllExtrinsics(old(pendingTxs.Keys), blk);
      readings := readings + {Reading(scan.blockNumber, blk)};
      attempted := attempted + {scan.blockNumber};
      scans := scans[id := LoopTest(scan.head, scan.blockNumber + 1)];
    }

    /** Lines up each extrinsic with its events; `old(pendingTxs)` decides which hashes get a verdict. */
    method ClassifyExtrinsics(extrinsics: seq<Hash>, records: seq<EventRecord>)
      modifies `pendingTxs, `successful, `failed
      ensures var blk := Block(extrinsics, records);
              && pendingTxs.Keys == Unseen(old(pendingTxs.Keys), blk, |extrinsics|)
              && successful == old(successful) + Succeeding(old(pendingTxs.Keys), blk, |extrinsics|)
              && failed == old(failed) + Failing(old(pendingTxs.Keys), blk, |extrinsics|)
    {
      ghost var blk := Block(extrinsics, records);
      ghost var before := pendingTxs.Keys;
      var blockEvents := BuildEventIndex(records);
      for index := 0 to |extrinsics|
        invariant pendingTxs.Keys == Unseen(before, blk, index)
        invariant successful == old(successful) + Succeeding(before, blk, index)
        invariant failed == old(failed) + Failing(before, blk, index)
      {
        VerdictsStep(before, blk, index);
        ClassifyOne(index, extrinsics[index], blockEvents, records);
      }
    }

    method ClassifyOne(index: nat, txHash: Hash, blockEvents: map<nat, seq<Event>>, ghost records: seq<EventRecord>)
      requires GetOrEmpty(blockEvents, index) == EventsOf(records, index)
      modifies `pendingTxs, `successful, `failed
      ensures pendingTxs == old(pendingTxs) - {txHash}
      ensures txHash !in old(pendingTxs) ==> successful == old(successful) && failed == old(failed)
      ensures txHash in old(pendingTxs) ==>
                var fails := EventRecord(ApplyExtrinsic(index), ExtrinsicFailed) in records;
                && successful == old(successful) + (if fails then {} else {txHash})
                && failed == old(failed) + (if fails then {txHash} else {})
    {
      if txHash in pendingTxs {
        var events := if index in blockEvents then blockEvents[index] else [];
        EventsOfMember(records, index, ExtrinsicFailed);
        var isSuccess := ScanForFailure(events);
        if isSuccess {
          successful := successful + {txHash};
        } else {
          failed := failed + {txHash};
        }
        pendingTxs := pendingTxs - {txHash};
      }
    }

    method PendingCount() returns (n: nat)
      ensures n == 0 <==> Abs().pending == {}
    {
      n := |pendingTxs|;
      EmptyBySize(pendingTxs);
    }

    method EndScan(id: nat)
      requires Enabled(Abs(), Finish(id))
      modifies `startBlockNumber, `scans, `unsubscribed, `resolution
      ensures Abs() == Next(old(Abs()), Finish(id))
    {
      startBlockNumber, scans := scans[id].head + 1, scans - {id};
      var pendingCount := PendingCount();
      if pendingCount == 0 {
        unsubscribed, resolution := unsubscribed || subscribed, Resolve(resolution, ByCallback);
      }
    }

    method SubscriptionReady()
      requires Enabled(Abs(), Step.Subscribed)
      modifies `subscribed, `timerArmed
      ensures Abs() == Next(old(Abs()), Step.Subscribed)
    {
      subscribed := true;
      timerArmed := true;
    }

    method TimerFired()
      requires Enabled(Abs(), Timeout)
      modifies `timerArmed, `unsubscribed, `resolution
      ensures Abs() == Next(old(Abs()), Timeout)
    {
      timerArmed := false;
      unsubscribed := true;
      resolution := Resolve(resolution, ByTimeout);
    }
  }

  /** The hashes of `p` that the first `n` extrinsics of the block leave undecided, accept and reject. */
  ghost function Unseen(p: set<Hash>, blk: Block, n: nat): set<Hash>
    requires n <= |blk.extrinsics|
  {
    set h | h in p && h !in blk.extrinsics[..n]
  }

  ghost function Succeeding(p: set<Hash>, blk: Block, n: nat): set<Hash>
    requires n <= |blk.extrinsics|
  {
    set h | h in p && h in blk.extrinsics[..n] && SucceedsIn(blk, h)
  }

  ghost function Failing(p: set<Hash>, blk: Block, n: nat): set<Hash>
    requires n <= |blk.extrinsics|
  {
    set h | h in p && h in blk.extrinsics[..n] && FailsIn(blk, h)
  }

  lemma EmptyBySize(m: map<Hash, TxRecord>)
    ensures |m| == 0 <==> m.Keys == {}
  {
    assert |m| == |m.Keys|;
  }

  lemma AllExtrinsics(p: set<Hash>, blk: Block)
    ensures Unseen(p, blk, |blk.extrinsics|) == set h | h in p && h !in blk.extrinsics
    ensures Succeeding(p, blk, |blk.extrinsics|) == set h | h in p && SucceedsIn(blk, h)
    ensures Failing(p, blk, |blk.extrinsics|) == set h | h in p && FailsIn(blk, h)
  {
    assert blk.extrinsics[..|blk.extrinsics|] == blk.extrinsics;
  }

  lemma {:induction false} FirstOccurrence(hashes: seq<Hash>, i: nat)
    requires i < |hashes| && hashes[i] !in hashes[..i]
    ensures FirstIndex(hashes, hashes[i]) == i
  {
    if i > 0 {
      assert hashes[0] in hashes[..i];
      assert hashes[1..][..i - 1] == hashes[..i][1..];
      FirstOccurrence(hashes[1..], i - 1);
    }
  }

  /** Reading one more extrinsic decides its hash if that hash was still undecided, and nothing else. */
  lemma VerdictsStep(p: set<Hash>, blk: Block, n: nat)
    requires n < |blk.extrinsics|
    ensures var h := blk.extrinsics[n];
            var undecided := h in Unseen(p, blk, n);
            && Unseen(p, blk, n + 1) == Unseen(p, blk, n) - {h}
            && Succeeding(p, blk, n + 1)
               == Succeeding(p, blk, n) + (if undecided && !FailureRecorded(blk, n) then {h} else {})
            && Failing(p, blk, n + 1)
               == Failing(p, blk, n) + (if undecided && FailureRecorded(blk, n) then {h} else {})
  {
    var h := blk.extrinsics[n];
    assert blk.extrinsics[..n + 1] == blk.extrinsics[..n] + [h];
    if h in Unseen(p, blk, n) {
      FirstOccurrence(blk.extrinsics, n);
    }
  }
}

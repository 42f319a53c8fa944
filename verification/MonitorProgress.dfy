/** What a head callback achieves when every lookup of a block hash is answered, read errors included. */
module MonitorProgress {
  import opened Prelude
  import opened BlockClassifier
  import opened TxMonitor
  import opened MonitorRuns

  /** The chain knows every block from `lo` to `hi`, apart from those that cannot be read. */
  ghost predicate Holds(chain: map<int, Block>, unreadable: set<int>, lo: int, hi: int) {
    forall b :: lo <= b <= hi && b !in unreadable ==> b in chain
  }

  /** Block `b` as callback `id` meets it: read and classified, or given up after an error. */
  ghost function BlockSteps(id: nat, b: int, chain: map<int, Block>, unreadable: set<int>): seq<Step>
    requires b in unreadable || b in chain
  {
    if b in unreadable then
      [HashReturned(id), BlockFailed(id)]
    else
      [HashReturned(id), BodyReturned(id, chain[b].extrinsics), EventsReturned(id, chain[b].records)]
  }

  /** The steps of callback `id` from block `b` to its end. */
  ghost function ScanSteps(id: nat, b: int, head: nat, chain: map<int, Block>, unreadable: set<int>): seq<Step>
    requires Holds(chain, unreadable, b, head)
    decreases head - b
  {
    if b > head then
      [Finish(id)]
    else
      BlockSteps(id, b, chain, unreadable) + ScanSteps(id, b + 1, head, chain, unreadable)
  }

  /** Some readable block from `lo` to `hi` includes the hash. */
  ghost predicate Included(chain: map<int, Block>, unreadable: set<int>, lo: int, hi: int, h: Hash) {
    exists b :: lo <= b <= hi && b !in unreadable && b in chain && h in chain[b].extrinsics
  }

  /** The state after block `b`. */
  ghost function BlockDone(s: State, id: nat, b: int, chain: map<int, Block>, unreadable: set<int>): State
    requires id in s.scans && (b in unreadable || b in chain)
  {
    if b in unreadable then
      AfterBlock(s, id).(skipped := s.skipped + {s.scans[id].blockNumber})
    else
      AfterBlock(Classify(s, b, chain[b]), id)
  }

  /** The state in which callback `id` is suspended at block `b` as `wait` says. */
  ghost function Suspended(s: State, id: nat, head: nat, b: int, wait: Wait): State {
    s.(scans := s.scans[id := Scan(head, b, wait)])
  }

  lemma HashStep(s: State, id: nat, b: int, head: nat)
    requires id in s.scans && s.scans[id] == LoopTest(head, b) && b <= head
    ensures Enabled(s, HashReturned(id)) && Next(s, HashReturned(id)) == Suspended(s, id, head, b, AwaitBody)
  {
  }

  lemma BodyStep(s: State, id: nat, b: int, head: nat, extrinsics: seq<Hash>)
    requires id in s.scans
    ensures var s1 := Suspended(s, id, head, b, AwaitBody);
            && Enabled(s1, BodyReturned(id, extrinsics))
            && Next(s1, BodyReturned(id, extrinsics)) == Suspended(s, id, head, b, AwaitEvents(extrinsics))
  {
    assert s.scans[id := Scan(head, b, AwaitBody)][id := Scan(head, b, AwaitEvents(extrinsics))]
        == s.scans[id := Scan(head, b, AwaitEvents(extrinsics))];
  }

  lemma EventsStep(s: State, id: nat, b: int, head: nat, blk: Block)
    requires id in s.scans && s.scans[id] == LoopTest(head, b)
    ensures var s2 := Suspended(s, id, head, b, AwaitEvents(blk.extrinsics));
            && Enabled(s2, EventsReturned(id, blk.records))
            && Next(s2, EventsReturned(id, blk.records)) == AfterBlock(Classify(s, b, blk), id)
  {
    assert s.scans[id := Scan(head, b, AwaitEvents(blk.extrinsics))][id := LoopTest(head, b + 1)]
        == s.scans[id := LoopTest(head, b + 1)];
  }

  lemma ReadBlock(s: State, id: nat, b: int, head: nat, blk: Block)
    requires id in s.scans && s.scans[id] == LoopTest(head, b) && b <= head
    ensures var steps := [HashReturned(id), BodyReturned(id, blk.extrinsics), EventsReturned(id, blk.records)];
            Legal(s, steps) && Run(s, steps) == AfterBlock(Classify(s, b, blk), id)
  {
    HashStep(s, id, b, head);
    BodyStep(s, id, b, head, blk.extrinsics);
    EventsStep(s, id, b, head, blk);
    StepsThrough(s, Suspended(s, id, head, b, AwaitBody), Suspended(s, id, head, b, AwaitEvents(blk.extrinsics)),
                 AfterBlock(Classify(s, b, blk), id),
                 HashReturned(id), BodyReturned(id, blk.extrinsics), EventsReturned(id, blk.records));
  }

  lemma FailedStep(s: State, id: nat, b: int, head: nat)
    requires id in s.scans && s.scans[id] == LoopTest(head, b)
    ensures var s1 := Suspended(s, id, head, b, AwaitBody);
            && Enabled(s1, BlockFailed(id))
            && Next(s1, BlockFailed(id)) == AfterBlock(s, id).(skipped := s.skipped + {b})
  {
    assert s.scans[id := Scan(head, b, AwaitBody)][id := LoopTest(head, b + 1)] == s.scans[id := LoopTest(head, b + 1)];
  }

  lemma SkipBlock(s: State, id: nat, b: int, head: nat)
    requires id in s.scans && s.scans[id] == LoopTest(head, b) && b <= head
    ensures var steps := [HashReturned(id), BlockFailed(id)];
            Legal(s, steps) && Run(s, steps) == AfterBlock(s, id).(skipped := s.skipped + {b})
  {
    HashStep(s, id, b, head);
    FailedStep(s, id, b, head);
    OneStep(s, HashReturned(id));
    OneStep(Suspended(s, id, head, b, AwaitBody), BlockFailed(id));
    RunConcat(s, [HashReturned(id)], [BlockFailed(id)]);
    assert [HashReturned(id)] + [BlockFailed(id)] == [HashReturned(id), BlockFailed(id)];
  }

  lemma OneBlock(s: State, id: nat, b: int, head: nat, chain: map<int, Block>, unreadable: set<int>)
    requires id in s.scans && s.scans[id] == LoopTest(head, b) && b <= head
    requires b in unreadable || b in chain
    ensures Legal(s, BlockSteps(id, b, chain, unreadable))
    ensures Run(s, BlockSteps(id, b, chain, unreadable)) == BlockDone(s, id, b, chain, unreadable)
  {
    if b in unreadable {
      SkipBlock(s, id, b, head);
    } else {
      ReadBlock(s, id, b, head, chain[b]);
    }
  }

  /** A readable block of the chain. */
  ghost predicate ReadFrom(r: Reading, chain: map<int, Block>, unreadable: set<int>) {
    r.number !in unreadable && r.number in chain && r.block == chain[r.number]
  }

  /** What a scan of the blocks from `lo` to `head` leaves behind. */
  ghost predicate Scanned(s: State, t: State, id: nat, lo: int, head: nat, chain: map<int, Block>,
                          unreadable: set<int>)
  {
    && t.startBlockNumber == head + 1
    && t.scans == s.scans - {id}
    && t.pending == (set h | h in s.pending && !Included(chain, unreadable, lo, head, h))
    && (forall r :: r in t.readings ==> r in s.readings || ReadFrom(r, chain, unreadable))
    && (t.pending == {} ==> t.resolution.Some?)
    && t.firstHead == s.firstHead
  }

  /** Reading one block and scanning the others amounts to scanning all. */
  lemma ScannedStep(s: State, t: State, id: nat, b: int, head: nat, chain: map<int, Block>, unreadable: set<int>)
    requires id in s.scans && s.scans[id].blockNumber == b && b <= head
    requires b in unreadable || b in chain
    requires Scanned(BlockDone(s, id, b, chain, unreadable), t, id, b + 1, head, chain, unreadable)
    ensures Scanned(s, t, id, b, head, chain, unreadable)
  {
    var s' := BlockDone(s, id, b, chain, unreadable);
    assert s'.scans - {id} == s.scans - {id};
    assert forall h :: Included(chain, unreadable, b, head, h) <==>
        (b !in unreadable && h in chain[b].extrinsics) || Included(chain, unreadable, b + 1, head, h);
  }

  lemma FinishedScan(s: State, id: nat, b: int, head: nat, chain: map<int, Block>, unreadable: set<int>)
    requires id in s.scans && s.scans[id].head == head && b > head
    ensures Scanned(s, OnFinish(s, id), id, b, head, chain, unreadable)
  {
    assert forall h :: !Included(chain, unreadable, b, head, h);
  }

  lemma {:induction false} ScanRuns(s: State, id: nat, b: int, head: nat, chain: map<int, Block>, unreadable: set<int>)
    requires id in s.scans && s.scans[id] == LoopTest(head, b)
    requires Holds(chain, unreadable, b, head)
    ensures Legal(s, ScanSteps(id, b, head, chain, unreadable))
    ensures Scanned(s, Run(s, ScanSteps(id, b, head, chain, unreadable)), id, b, head, chain, unreadable)
    decreases head - b
  {
    if b > head {
      OneStep(s, Finish(id));
      FinishedScan(s, id, b, head, chain, unreadable);
    } else {
      var s' := BlockDone(s, id, b, chain, unreadable);
      OneBlock(s, id, b, head, chain, unreadable);
      ScanRuns(s', id, b + 1, head, chain, unreadable);
      RunConcat(s, BlockSteps(id, b, chain, unreadable), ScanSteps(id, b + 1, head, chain, unreadable));
      ScannedStep(s, Run(s', ScanSteps(id, b + 1, head, chain, unreadable)), id, b, head, chain, unreadable);
    }
  }

  /** The block at which a callback that starts now begins its scan. */
  ghost function ScanBase(s: State, head: nat): int {
    if s.startBlockNumber == 0 then head - 5 else s.startBlockNumber
  }

  ghost function CallbackSteps(s: State, id: nat, head: nat, chain: map<int, Block>, unreadable: set<int>): seq<Step>
    requires Holds(chain, unreadable, ScanBase(s, head), head)
  {
    [Head(id, head)] + ScanSteps(id, ScanBase(s, head), head, chain, unreadable)
  }

  /**
   * Main result: in any state, whatever other callbacks are suspended, a callback whose hash lookups are answered can
   * run to its end. It then has decided exactly the pending hashes of its readable blocks and moved the cursor past
   * its head, past the unreadable blocks too; if nothing is pending any more, the promise is resolved.
   */
  lemma CallbackRunsToEnd(s: State, id: nat, head: nat, chain: map<int, Block>, unreadable: set<int>)
    requires id !in s.scans
    requires Holds(chain, unreadable, ScanBase(s, head), head)
    ensures Legal(s, CallbackSteps(s, id, head, chain, unreadable))
    ensures var t := Run(s, CallbackSteps(s, id, head, chain, unreadable));
            && t.startBlockNumber == head + 1
            && t.pending == (set h | h in s.pending && !Included(chain, unreadable, ScanBase(s, head), head, h))
            && (t.pending == {} ==> t.resolution.Some?)
            && t.scans == s.scans
            && forall r :: r in t.readings ==> r in s.readings || ReadFrom(r, chain, unreadable)
  {
    var start := ScanBase(s, head);
    var s1 := Next(s, Head(id, head));
    ScanRuns(s1, id, start, head, chain, unreadable);
    assert CallbackSteps(s, id, head, chain, unreadable)[1..] == ScanSteps(id, start, head, chain, unreadable);
    assert s1.scans - {id} == s.scans;
  }

  /** A step of a callback in flight. */
  predicate OfCallback(e: Step) {
    e.HashReturned? || e.HashFailed? || e.BodyReturned? || e.EventsReturned? || e.BlockFailed? || e.Finish?
  }

  lemma {:induction false} ScanStepsOfCallback(id: nat, b: int, head: nat, chain: map<int, Block>, unreadable: set<int>)
    requires Holds(chain, unreadable, b, head)
    ensures forall e :: e in ScanSteps(id, b, head, chain, unreadable) ==> OfCallback(e)
    decreases head - b
  {
    if b <= head {
      ScanStepsOfCallback(id, b + 1, head, chain, unreadable);
    }
  }
}

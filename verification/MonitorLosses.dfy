/** Blocks that the monitor passes without reading them, and what becomes of the transactions in them. */
module MonitorLosses {
  import opened Prelude
  import opened BlockClassifier
  import opened TxMonitor
  import opened MonitorRuns
  import opened MonitorProgress

  /** Main result: over a fixed chain a submitted hash is decided exactly if its block has been read, swallowed errors,
      lost blocks and every position of the cursor included. */
  lemma DecidedExact(submitted: set<Hash>, steps: seq<Step>, chain: map<int, Block>, b: int, h: Hash)
    requires Legal(Init(submitted), steps)
    requires FollowsChain(Run(Init(submitted), steps), chain) && IncludedOnce(chain, submitted)
    requires h in submitted && b in chain && h in chain[b].extrinsics
    ensures var s := Run(Init(submitted), steps);
            && (h !in s.pending <==> BlockRead(s, b))
            && (h in s.successful || h in s.failed <==> BlockRead(s, b))
  {
    var s := Run(Init(submitted), steps);
    VerdictsAreSound(submitted, steps);
    assert h in s.pending + s.successful + s.failed;
    if BlockRead(s, b) {
      var r :| r in s.readings && r.number == b;
      assert h in r.block.extrinsics;
    }
    if h in s.successful {
      var r :| r in s.readings && SucceedsIn(r.block, h);
      assert r.number == b;
    }
    if h in s.failed {
      var r :| r in s.readings && FailsIn(r.block, h);
      assert r.number == b;
    }
  }

  /** The cursor and all callbacks in flight are beyond block `b`. */
  ghost predicate Passed(s: State, b: nat) {
    && b < s.startBlockNumber
    && forall id :: id in s.scans ==> b < s.scans[id].blockNumber && b <= s.scans[id].head
  }

  /** No head delivered is older than block `b`. */
  ghost predicate HeadsFrom(steps: seq<Step>, b: nat) {
    forall i :: 0 <= i < |steps| && steps[i].Head? ==> steps[i].head >= b
  }

  lemma {:induction false} PassedStaysPassed(s: State, steps: seq<Step>, b: nat)
    requires Legal(s, steps) && Passed(s, b) && HeadsFrom(steps, b)
    ensures Passed(Run(s, steps), b)
    ensures BlockRead(Run(s, steps), b) <==> BlockRead(s, b)
    decreases |steps|
  {
    if steps != [] {
      var t := Next(s, steps[0]);
      PassedByStep(s, steps[0], b);
      PassedStaysPassed(t, steps[1..], b);
    }
  }

  lemma PassedByStep(s: State, e: Step, b: nat)
    requires Enabled(s, e) && Passed(s, b) && HeadsFrom([e], b)
    ensures Passed(Next(s, e), b)
    ensures BlockRead(Next(s, e), b) <==> BlockRead(s, b)
  {
    var t := Next(s, e);
    assert e.Head? ==> [e][0].head >= b;
    assert s.readings <= t.readings;
    assert forall r :: r in t.readings && r.number == b ==> r in s.readings;
  }

  /**
   * Main result: once the cursor and all scans have passed a block, the fate of its transactions is sealed. Over every
   * later run whose heads are not older than the block they stay pending exactly if the block was not read by then;
   * and then no callback ever delivers a result.
   */
  lemma PassedBlockSealsFate(submitted: set<Hash>, steps: seq<Step>, later: seq<Step>, chain: map<int, Block>,
                             b: nat, h: Hash)
    requires Legal(Init(submitted), steps) && Legal(Run(Init(submitted), steps), later)
    requires Passed(Run(Init(submitted), steps), b) && HeadsFrom(later, b)
    requires FollowsChain(Run(Run(Init(submitted), steps), later), chain) && IncludedOnce(chain, submitted)
    requires h in submitted && b in chain && h in chain[b].extrinsics
    ensures var s := Run(Init(submitted), steps);
            var t := Run(s, later);
            && (h in t.pending <==> !BlockRead(s, b))
            && (!BlockRead(s, b) ==> t.resolution != Some(ByCallback))
  {
    var s := Run(Init(submitted), steps);
    PassedStaysPassed(s, later, b);
    RunConcat(Init(submitted), steps, later);
    DecidedExact(submitted, steps + later, chain, b, h);
    CallbackResolvesOnlyWhenDone(Init(submitted), steps + later);
  }

  /**
   * Main result: a first head number 5 whose callback is aborted, followed by head `next`, loses the blocks below
   * `next - 5` for good: over every later run without older heads their transactions stay pending, and no callback
   * ever delivers a result.
   */
  lemma HeadFiveLosesForGood(submitted: set<Hash>, next: nat, later: seq<Step>, chain: map<int, Block>, b: nat, h: Hash)
    requires b < next - 5
    requires var steps := [Head(0, 5), HashFailed(0), Head(1, next)];
             && Legal(Init(submitted), steps)
             && Legal(Run(Init(submitted), steps), later)
             && FollowsChain(Run(Run(Init(submitted), steps), later), chain)
    requires HeadsFrom(later, b) && IncludedOnce(chain, submitted)
    requires h in submitted && b in chain && h in chain[b].extrinsics
    ensures var t := Run(Run(Init(submitted), [Head(0, 5), HashFailed(0), Head(1, next)]), later);
            h in t.pending && t.resolution != Some(ByCallback)
  {
    var steps := [Head(0, 5), HashFailed(0), Head(1, next)];
    ThreeSteps(Init(submitted), steps[0], steps[1], steps[2]);
    PassedBlockSealsFate(submitted, steps, later, chain, b, h);
  }

  /**
   * Main result: one read error is enough to lose a block. If the first callback cannot read block `b`, the error is
   * swallowed, the cursor passes the block, and its transactions stay pending over every later run without older
   * heads; no callback ever delivers a result.
   */
  lemma SwallowedErrorLosesForGood(submitted: set<Hash>, head: nat, unreadable: set<int>, later: seq<Step>,
                                   chain: map<int, Block>, b: nat, h: Hash)
    requires head - 5 <= b <= head && b in unreadable
    requires Holds(chain, unreadable, head - 5, head)
    requires var steps := CallbackSteps(Init(submitted), 0, head, chain, unreadable);
             && Legal(Init(submitted), steps)
             && Legal(Run(Init(submitted), steps), later)
             && FollowsChain(Run(Run(Init(submitted), steps), later), chain)
    requires HeadsFrom(later, b) && IncludedOnce(chain, submitted)
    requires h in submitted && b in chain && h in chain[b].extrinsics
    ensures var t := Run(Run(Init(submitted), CallbackSteps(Init(submitted), 0, head, chain, unreadable)), later);
            h in t.pending && t.resolution != Some(ByCallback)
  {
    var steps := CallbackSteps(Init(submitted), 0, head, chain, unreadable);
    CallbackRunsToEnd(Init(submitted), 0, head, chain, unreadable);
    assert !BlockRead(Run(Init(submitted), steps), b);
    PassedBlockSealsFate(submitted, steps, later, chain, b, h);
  }

  // ---- Blocks before the first scan ----

  lemma {:induction false} StartsBeyond(s: State, steps: seq<Step>, head: nat, b: nat)
    requires Legal(s, steps) && HeadsFrom(steps, b)
    requires s.firstHead.None? && s.scans == map[] && s.startBlockNumber == 0 && !BlockRead(s, b)
    requires Run(s, steps).firstHead == Some(head) && b < head - 5
    ensures Passed(Run(s, steps), b) && !BlockRead(Run(s, steps), b)
    decreases |steps|
  {
    var t := Next(s, steps[0]);
    assert t.readings == s.readings;
    if steps[0].Head? {
      RunExtends(t, steps[1..]);
      PassedStaysPassed(t, steps[1..], b);
    } else {
      StartsBeyond(t, steps[1..], head, b);
    }
  }

  /** Main result: with first head number `head`, whatever was included more than five blocks before it stays pending
      over every run without older heads, and no callback ever delivers a result. */
  lemma EarlierBlocksAreNeverRead(submitted: set<Hash>, steps: seq<Step>, head: nat, chain: map<int, Block>,
                                  b: nat, h: Hash)
    requires Legal(Init(submitted), steps) && HeadsFrom(steps, b)
    requires Run(Init(submitted), steps).firstHead == Some(head) && b < head - 5
    requires FollowsChain(Run(Init(submitted), steps), chain) && IncludedOnce(chain, submitted)
    requires h in submitted && b in chain && h in chain[b].extrinsics
    ensures var s := Run(Init(submitted), steps);
            h in s.pending && s.resolution != Some(ByCallback)
  {
    StartsBeyond(Init(submitted), steps, head, b);
    PassedBlockSealsFate(submitted, steps, [], chain, b, h);
  }

  // ---- What can still be decided ----

  /** The blocks that callbacks have fetched without their events are those of the chain. */
  ghost predicate BodiesFollowChain(s: State, chain: map<int, Block>) {
    forall id :: id in s.scans && s.scans[id].wait.AwaitEvents? ==>
      && s.scans[id].blockNumber in chain
      && s.scans[id].wait.extrinsics == chain[s.scans[id].blockNumber].extrinsics
  }

  /** Some later run over the chain, without heads older than block `b`, decides the hash. */
  ghost predicate CanStillDecide(s: State, chain: map<int, Block>, b: nat, h: Hash) {
    exists later ::
      && Legal(s, later) && HeadsFrom(later, b)
      && FollowsChain(Run(s, later), chain)
      && h !in Run(s, later).pending
  }

  /** All blocks from `lo` to `hi` but `b`. */
  ghost function AllBut(lo: int, hi: int, b: int): (r: set<int>)
    ensures forall k :: k in r <==> lo <= k <= hi && k != b
    decreases hi - lo
  {
    if lo > hi then {} else AllBut(lo, hi - 1, b) + if hi == b then {} else {hi}
  }

  lemma FreshId(scans: map<nat, Scan>)
    ensures exists id: nat :: id !in scans
  {
    if forall id: nat :: id in scans {
      SmallerIds(scans.Keys, |scans.Keys| + 1);
    }
  }

  /** A set that holds the first `n` numbers has at least `n` elements. */
  lemma SmallerIds(ids: set<nat>, n: nat)
    requires forall id: nat :: id < n ==> id in ids
    ensures |ids| >= n
  {
    assert UpTo(n) <= ids;
    SubsetCount(UpTo(n), ids);
  }

  lemma HeadsFromConcat(a: seq<Step>, c: seq<Step>, b: nat)
    requires HeadsFrom(a, b) && HeadsFrom(c, b)
    ensures HeadsFrom(a + c, b)
  {
  }

  lemma CallbackStepsHaveNoHeads(steps: seq<Step>, b: nat)
    requires forall e :: e in steps ==> OfCallback(e)
    ensures HeadsFrom(steps, b)
  {
    assert forall i :: 0 <= i < |steps| ==> OfCallback(steps[i]);
  }

  /** What a later run can decide, its own later runs included, can still be decided now. */
  lemma DecideLater(s: State, steps: seq<Step>, chain: map<int, Block>, b: nat, h: Hash)
    requires Legal(s, steps) && HeadsFrom(steps, b)
    requires CanStillDecide(Run(s, steps), chain, b, h)
    ensures CanStillDecide(s, chain, b, h)
  {
    var t := Run(s, steps);
    var later :| Legal(t, later) && HeadsFrom(later, b) && FollowsChain(Run(t, later), chain)
                 && h !in Run(t, later).pending;
    RunConcat(s, steps, later);
    HeadsFromConcat(steps, later, b);
  }

  /** With the cursor not beyond the block, a new callback reads it. */
  lemma NewCallbackDecides(s: State, chain: map<int, Block>, b: nat, h: Hash)
    requires s.startBlockNumber <= b && FollowsChain(s, chain)
    requires b in chain && h in chain[b].extrinsics
    ensures CanStillDecide(s, chain, b, h)
  {
    FreshId(s.scans);
    var id: nat :| id !in s.scans;
    var unreadable := AllBut(ScanBase(s, b), b, b);
    CallbackRunsToEnd(s, id, b, chain, unreadable);
    var later := CallbackSteps(s, id, b, chain, unreadable);
    assert Included(chain, unreadable, ScanBase(s, b), b, h);
    ScanStepsOfCallback(id, ScanBase(s, b), b, chain, unreadable);
    CallbackStepsHaveNoHeads(ScanSteps(id, ScanBase(s, b), b, chain, unreadable), b);
    HeadsFromConcat([Head(id, b)], ScanSteps(id, ScanBase(s, b), b, chain, unreadable), b);
  }

  /** A callback that waits for a block hash, or is past its loop, can run to its end and read just block `b`. */
  lemma ScanCanEnd(s: State, id: nat, chain: map<int, Block>, b: nat)
    requires id in s.scans && s.scans[id] == LoopTest(s.scans[id].head, s.scans[id].blockNumber)
    requires FollowsChain(s, chain) && b in chain
    ensures exists steps ::
              && Legal(s, steps) && HeadsFrom(steps, b)
              && FollowsChain(Run(s, steps), chain)
              && Run(s, steps).startBlockNumber == s.scans[id].head + 1
              && (s.scans[id].blockNumber <= b <= s.scans[id].head ==>
                    forall h :: h in chain[b].extrinsics ==> h !in Run(s, steps).pending)
  {
    var lo, head := s.scans[id].blockNumber, s.scans[id].head;
    var unreadable := AllBut(lo, head, b);
    ScanRuns(s, id, lo, head, chain, unreadable);
    var steps := ScanSteps(id, lo, head, chain, unreadable);
    ScanStepsOfCallback(id, lo, head, chain, unreadable);
    CallbackStepsHaveNoHeads(steps, b);
    if lo <= b <= head {
      forall h | h in chain[b].extrinsics ensures h !in Run(s, steps).pending {
        assert Included(chain, unreadable, lo, head, h);
      }
    }
  }

  /** A callback at or before block `b`, with a head not before it, reads the block. */
  lemma ScanDecides(s: State, id: nat, chain: map<int, Block>, b: nat, h: Hash)
    requires id in s.scans && s.scans[id] == LoopTest(s.scans[id].head, s.scans[id].blockNumber)
    requires s.scans[id].blockNumber <= b <= s.scans[id].head
    requires FollowsChain(s, chain) && b in chain && h in chain[b].extrinsics
    ensures CanStillDecide(s, chain, b, h)
  {
    ScanCanEnd(s, id, chain, b);
  }

  /** A callback with an older head moves the cursor back to the block or before it when it ends. */
  lemma OldScanDecides(s: State, id: nat, chain: map<int, Block>, b: nat, h: Hash)
    requires id in s.scans && s.scans[id] == LoopTest(s.scans[id].head, s.scans[id].blockNumber)
    requires s.scans[id].head < b
    requires FollowsChain(s, chain) && b in chain && h in chain[b].extrinsics
    ensures CanStillDecide(s, chain, b, h)
  {
    ScanCanEnd(s, id, chain, b);
    var steps :| && Legal(s, steps) && HeadsFrom(steps, b)
                 && FollowsChain(Run(s, steps), chain)
                 && Run(s, steps).startBlockNumber == s.scans[id].head + 1;
    NewCallbackDecides(Run(s, steps), chain, b, h);
    DecideLater(s, steps, chain, b, h);
  }

  /** A callback in the middle of block `b` finishes it. */
  lemma ReadingDecides(s: State, id: nat, chain: map<int, Block>, b: nat, h: Hash)
    requires id in s.scans && s.scans[id].blockNumber == b
    requires s.scans[id].wait.AwaitBody? || s.scans[id].wait.AwaitEvents?
    requires FollowsChain(s, chain) && BodiesFollowChain(s, chain)
    requires b in chain && h in chain[b].extrinsics
    ensures CanStillDecide(s, chain, b, h)
  {
    if s.scans[id].wait.AwaitEvents? {
      OneStep(s, EventsReturned(id, chain[b].records));
      assert HeadsFrom([EventsReturned(id, chain[b].records)], b);
    } else {
      var body := BodyReturned(id, chain[b].extrinsics);
      OneStep(s, body);
      var t := Next(s, body);
      OneStep(t, EventsReturned(id, chain[b].records));
      assert HeadsFrom([EventsReturned(id, chain[b].records)], b);
      assert CanStillDecide(t, chain, b, h);
      assert HeadsFrom([body], b);
      DecideLater(s, [body], chain, b, h);
    }
  }

  /** A callback in the middle of another block can give that up and is back at its loop test. */
  lemma GiveUpBlock(s: State, id: nat)
    requires id in s.scans && (s.scans[id].wait.AwaitBody? || s.scans[id].wait.AwaitEvents?)
    ensures Legal(s, [BlockFailed(id)])
    ensures var t := Run(s, [BlockFailed(id)]);
            && id in t.scans && t.scans[id] == LoopTest(s.scans[id].head, s.scans[id].blockNumber + 1)
            && t.readings == s.readings
  {
    OneStep(s, BlockFailed(id));
  }

  lemma UnpassedScanDecides(s: State, id: nat, chain: map<int, Block>, b: nat, h: Hash)
    requires id in s.scans && ScansInLoop(s)
    requires s.scans[id].blockNumber <= b || s.scans[id].head < b
    requires FollowsChain(s, chain) && BodiesFollowChain(s, chain)
    requires b in chain && h in chain[b].extrinsics
    ensures CanStillDecide(s, chain, b, h)
  {
    var scan := s.scans[id];
    if scan.wait.AwaitHash? || scan.wait.ScanDone? {
      if scan.head < b {
        OldScanDecides(s, id, chain, b, h);
      } else {
        ScanDecides(s, id, chain, b, h);
      }
    } else if scan.blockNumber == b {
      ReadingDecides(s, id, chain, b, h);
    } else {
      GiveUpBlock(s, id);
      var t := Run(s, [BlockFailed(id)]);
      if scan.head < b {
        OldScanDecides(t, id, chain, b, h);
      } else {
        ScanDecides(t, id, chain, b, h);
      }
      assert HeadsFrom([BlockFailed(id)], b);
      DecideLater(s, [BlockFailed(id)], chain, b, h);
    }
  }

  /**
   * Main result: in every reachable state over a fixed chain, a submitted hash can still be decided by some later run
   * without heads older than its block, or is so already, exactly if its block has been read, or the cursor or some
   * callback in flight has not passed it.
   */
  lemma DecidableExact(submitted: set<Hash>, steps: seq<Step>, chain: map<int, Block>, b: nat, h: Hash)
    requires Legal(Init(submitted), steps)
    requires FollowsChain(Run(Init(submitted), steps), chain) && BodiesFollowChain(Run(Init(submitted), steps), chain)
    requires IncludedOnce(chain, submitted)
    requires h in submitted && b in chain && h in chain[b].extrinsics
    ensures var s := Run(Init(submitted), steps);
            CanStillDecide(s, chain, b, h) <==> BlockRead(s, b) || !Passed(s, b)
  {
    var s := Run(Init(submitted), steps);
    RunKeepsScansInLoop(Init(submitted), steps);
    if BlockRead(s, b) {
      DecidedExact(submitted, steps, chain, b, h);
      assert Legal(s, []) && Run(s, []) == s && HeadsFrom([], b);
    } else if s.startBlockNumber <= b {
      NewCallbackDecides(s, chain, b, h);
    } else if !Passed(s, b) {
      var id :| id in s.scans && (s.scans[id].blockNumber <= b || s.scans[id].head < b);
      UnpassedScanDecides(s, id, chain, b, h);
    } else {
      forall later | Legal(s, later) && HeadsFrom(later, b) && FollowsChain(Run(s, later), chain)
        ensures h in Run(s, later).pending
      {
        PassedBlockSealsFate(submitted, steps, later, chain, b, h);
      }
    }
  }
}

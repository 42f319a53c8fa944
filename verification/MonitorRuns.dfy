/** What every run of the monitor keeps: any interleaving of callbacks, errors, subscription and timeout. */
module MonitorRuns {
  import opened Prelude
  import opened BlockClassifier
  import opened TxMonitor

  ghost predicate Legal(s: State, steps: seq<Step>)
    decreases |steps|
  {
    steps == [] || (Enabled(s, steps[0]) && Legal(Next(s, steps[0]), steps[1..]))
  }

  ghost function Run(s: State, steps: seq<Step>): State
    requires Legal(s, steps)
    decreases |steps|
  {
    if steps == [] then s else Run(Next(s, steps[0]), steps[1..])
  }

  lemma {:induction false} RunConcat(s: State, a: seq<Step>, b: seq<Step>)
    requires Legal(s, a) && Legal(Run(s, a), b)
    ensures Legal(s, a + b) && Run(s, a + b) == Run(Run(s, a), b)
    decreases |a|
  {
    if a == [] {
      assert a + b == b;
    } else {
      RunConcat(Next(s, a[0]), a[1..], b);
      assert (a + b)[1..] == a[1..] + b;
    }
  }

  lemma OneStep(s: State, a: Step)
    requires Enabled(s, a)
    ensures Legal(s, [a]) && Run(s, [a]) == Next(s, a)
  {
    var t := Next(s, a);
    assert [a][1..] == [];
    assert Legal(t, []) && Run(t, []) == t;
  }

  lemma ThreeSteps(s: State, a: Step, b: Step, c: Step)
    requires Enabled(s, a) && Enabled(Next(s, a), b) && Enabled(Next(Next(s, a), b), c)
    ensures Legal(s, [a, b, c])
    ensures Run(s, [a, b, c]) == Next(Next(Next(s, a), b), c)
  {
    StepsThrough(s, Next(s, a), Next(Next(s, a), b), Next(Next(Next(s, a), b), c), a, b, c);
  }

  lemma StepsThrough(s: State, s1: State, s2: State, s3: State, a: Step, b: Step, c: Step)
    requires Enabled(s, a) && s1 == Next(s, a)
    requires Enabled(s1, b) && s2 == Next(s1, b)
    requires Enabled(s2, c) && s3 == Next(s2, c)
    ensures Legal(s, [a, b, c]) && Run(s, [a, b, c]) == s3
  {
    OneStep(s, a);
    OneStep(s1, b);
    OneStep(s2, c);
    RunConcat(s1, [b], [c]);
    RunConcat(s, [a], [b] + [c]);
    assert [a] + ([b] + [c]) == [a, b, c];
  }

  /** A callback is past its loop exactly when its loop variable is past its head. */
  ghost predicate ScansInLoop(s: State) {
    forall id :: id in s.scans ==> (s.scans[id].wait.ScanDone? <==> s.scans[id].head < s.scans[id].blockNumber)
  }

  lemma {:induction false} RunKeepsScansInLoop(s: State, steps: seq<Step>)
    requires Legal(s, steps) && ScansInLoop(s)
    ensures ScansInLoop(Run(s, steps))
    decreases |steps|
  {
    if steps != [] {
      RunKeepsScansInLoop(Next(s, steps[0]), steps[1..]);
    }
  }

  // ---- Every submitted hash is in exactly one of the three sets, and verdicts rest on what was read ----

  ghost predicate Partitioned(s: State, submitted: set<Hash>) {
    && s.pending !! s.successful
    && s.pending !! s.failed
    && s.successful !! s.failed
    && s.pending + s.successful + s.failed == submitted
  }

  ghost predicate ReadAsFailed(s: State, h: Hash) {
    exists r :: r in s.readings && FailsIn(r.block, h)
  }

  ghost predicate ReadAsSuccessful(s: State, h: Hash) {
    exists r :: r in s.readings && SucceedsIn(r.block, h)
  }

  ghost predicate Evidenced(s: State) {
    && (forall h :: h in s.failed ==> ReadAsFailed(s, h))
    && (forall h :: h in s.successful ==> ReadAsSuccessful(s, h))
    && (forall r, h :: r in s.readings && h in r.block.extrinsics ==> h !in s.pending)
  }

  lemma StepKeepsVerdicts(s: State, e: Step, submitted: set<Hash>)
    requires Enabled(s, e) && Partitioned(s, submitted) && Evidenced(s)
    ensures Partitioned(Next(s, e), submitted) && Evidenced(Next(s, e))
  {
  }

  lemma {:induction false} RunKeepsVerdicts(s: State, steps: seq<Step>, submitted: set<Hash>)
    requires Legal(s, steps) && Partitioned(s, submitted) && Evidenced(s)
    ensures Partitioned(Run(s, steps), submitted) && Evidenced(Run(s, steps))
    decreases |steps|
  {
    if steps != [] {
      StepKeepsVerdicts(s, steps[0], submitted);
      RunKeepsVerdicts(Next(s, steps[0]), steps[1..], submitted);
    }
  }

  /**
   * Main result: when the events of a block arrive, a hash pending until then is decided by the record of its own
   * extrinsic: it fails if a failure is recorded for the position at which the block first lists it, and succeeds
   * otherwise. Hashes that the block does not list keep their place.
   */
  lemma VerdictIsRecorded(s: State, id: nat, records: seq<EventRecord>, h: Hash)
    requires Enabled(s, EventsReturned(id, records))
    requires h in s.pending && h !in s.successful && h !in s.failed
    ensures var t := Next(s, EventsReturned(id, records));
            var extrinsics := s.scans[id].wait.extrinsics;
            && (h in t.pending <==> h !in extrinsics)
            && (h !in extrinsics ==> h !in t.successful && h !in t.failed)
            && forall i: nat :: i < |extrinsics| && extrinsics[i] == h && h !in extrinsics[..i] ==>
                 && (h in t.failed <==> EventRecord(ApplyExtrinsic(i), ExtrinsicFailed) in records)
                 && (h in t.successful <==> EventRecord(ApplyExtrinsic(i), ExtrinsicFailed) !in records)
  {
    var extrinsics := s.scans[id].wait.extrinsics;
    forall i: nat | i < |extrinsics| && extrinsics[i] == h && h !in extrinsics[..i]
      ensures FirstIndex(extrinsics, h) == i
    {
      FirstOccurrence(extrinsics, i);
    }
  }

  /** Main result: in every reachable state the three sets partition the submitted hashes, and every verdict rests on a
      block read in which the extrinsic is, or is not, recorded as failed. No hash of a block read is pending. */
  lemma VerdictsAreSound(submitted: set<Hash>, steps: seq<Step>)
    requires Legal(Init(submitted), steps)
    ensures Partitioned(Run(Init(submitted), steps), submitted)
    ensures Evidenced(Run(Init(submitted), steps))
    ensures var s := Run(Init(submitted), steps);
            && s.pending + s.successful + s.failed == submitted
            && s.pending !! s.successful !! s.failed
            && (forall h :: h in s.failed ==> exists r, i: nat ::
                  && r in s.readings && i < |r.block.extrinsics| && r.block.extrinsics[i] == h
                  && EventRecord(ApplyExtrinsic(i), ExtrinsicFailed) in r.block.records)
            && (forall h :: h in s.successful ==> exists r, i: nat ::
                  && r in s.readings && i < |r.block.extrinsics| && r.block.extrinsics[i] == h
                  && EventRecord(ApplyExtrinsic(i), ExtrinsicFailed) !in r.block.records)
            && (forall r, h :: r in s.readings && h in r.block.extrinsics ==> h !in s.pending)
  {
    RunKeepsVerdicts(Init(submitted), steps, submitted);
    var s := Run(Init(submitted), steps);
    forall h | h in s.failed
      ensures exists r, i: nat ::
                && r in s.readings && i < |r.block.extrinsics| && r.block.extrinsics[i] == h
                && EventRecord(ApplyExtrinsic(i), ExtrinsicFailed) in r.block.records
    {
      var r :| r in s.readings && FailsIn(r.block, h);
      assert r.block.extrinsics[FirstIndex(r.block.extrinsics, h)] == h;
    }
    forall h | h in s.successful
      ensures exists r, i: nat ::
                && r in s.readings && i < |r.block.extrinsics| && r.block.extrinsics[i] == h
                && EventRecord(ApplyExtrinsic(i), ExtrinsicFailed) !in r.block.records
    {
      var r :| r in s.readings && SucceedsIn(r.block, h);
      assert r.block.extrinsics[FirstIndex(r.block.extrinsics, h)] == h;
    }
  }

  /** A failed hash lookup ends its callback and changes nothing else. */
  lemma AbortedCallbackIsGone(s: State, id: nat)
    requires Enabled(s, HashFailed(id))
    ensures var t := Next(s, HashFailed(id));
            && id !in t.scans
            && (forall other :: other != id ==>
                  && (other in t.scans <==> other in s.scans)
                  && (other in s.scans ==> t.scans[other] == s.scans[other]))
            && t.(scans := s.scans) == s
  {
  }

  // ---- What has been read and processed ----

  /** Some step `i` of a run, taken in the state that the steps before it lead to, meets `p`. */
  ghost predicate Ever(s: State, steps: seq<Step>, p: (State, Step) -> bool)
    requires Legal(s, steps)
  {
    exists i: nat :: i < |steps| && Legal(s, steps[..i]) && p(Run(s, steps[..i]), steps[i])
  }

  /** The events of a block arrive at a callback that waits for them with the extrinsics of that block. */
  ghost function Reads(r: Reading): (State, Step) -> bool {
    (t: State, e: Step) =>
      && e.EventsReturned? && Enabled(t, e)
      && t.scans[e.id].blockNumber == r.number
      && r.block == Block(t.scans[e.id].wait.extrinsics, e.records)
  }

  /** A callback gives up on block `b` after an error. */
  ghost function GivesUp(b: int): (State, Step) -> bool {
    (t: State, e: Step) => e.BlockFailed? && Enabled(t, e) && t.scans[e.id].blockNumber == b
  }

  /** A callback is over with block `b`, with or without an error. */
  ghost function Processes(b: int): (State, Step) -> bool {
    (t: State, e: Step) =>
      (e.EventsReturned? || e.BlockFailed?) && Enabled(t, e) && t.scans[e.id].blockNumber == b
  }

  lemma {:induction false} PrefixIsLegal(s: State, steps: seq<Step>, i: nat)
    requires Legal(s, steps) && i <= |steps|
    ensures Legal(s, steps[..i])
    ensures i < |steps| ==> Enabled(Run(s, steps[..i]), steps[i])
    decreases i
  {
    if i > 0 {
      assert steps[..i][1..] == steps[1..][..i - 1];
      PrefixIsLegal(Next(s, steps[0]), steps[1..], i - 1);
    }
  }

  lemma EverFirstOrLater(s: State, steps: seq<Step>, p: (State, Step) -> bool)
    requires Legal(s, steps) && steps != []
    ensures Ever(s, steps, p) <==> p(s, steps[0]) || Ever(Next(s, steps[0]), steps[1..], p)
  {
    var t, rest := Next(s, steps[0]), steps[1..];
    assert steps[..0] == [];
    forall i: nat | i < |rest|
      ensures Legal(s, steps[..i + 1]) && Legal(t, rest[..i]) && Run(s, steps[..i + 1]) == Run(t, rest[..i])
    {
      assert steps[..i + 1][1..] == rest[..i];
      PrefixIsLegal(s, steps, i + 1);
    }
    if i: nat :| i < |steps| && Legal(s, steps[..i]) && p(Run(s, steps[..i]), steps[i]) {
      if i > 0 {
        assert Run(s, steps[..i - 1 + 1]) == Run(t, rest[..i - 1]) && rest[i - 1] == steps[i];
      }
    }
    if i: nat :| i < |rest| && Legal(t, rest[..i]) && p(Run(t, rest[..i]), rest[i]) {
      assert Run(s, steps[..i + 1]) == Run(t, rest[..i]) && rest[i] == steps[i + 1];
    }
  }

  lemma StepHistory(s: State, e: Step, r: Reading, b: int)
    requires Enabled(s, e)
    ensures r in Next(s, e).readings <==> r in s.readings || Reads(r)(s, e)
    ensures b in Next(s, e).skipped <==> b in s.skipped || GivesUp(b)(s, e)
    ensures b in Next(s, e).attempted <==> b in s.attempted || Processes(b)(s, e)
  {
  }

  /** Main result: what the three history variables hold is exactly what happened in the run: the blocks read with the
      extrinsics and records that arrived, the blocks given up on, and the blocks some callback was over with. */
  lemma {:induction false} HistoryExact(s: State, steps: seq<Step>, r: Reading, b: int)
    requires Legal(s, steps)
    ensures r in Run(s, steps).readings <==> r in s.readings || Ever(s, steps, Reads(r))
    ensures b in Run(s, steps).skipped <==> b in s.skipped || Ever(s, steps, GivesUp(b))
    ensures b in Run(s, steps).attempted <==> b in s.attempted || Ever(s, steps, Processes(b))
    decreases |steps|
  {
    if steps != [] {
      HistoryExact(Next(s, steps[0]), steps[1..], r, b);
      StepHistory(s, steps[0], r, b);
      EverFirstOrLater(s, steps, Reads(r));
      EverFirstOrLater(s, steps, GivesUp(b));
      EverFirstOrLater(s, steps, Processes(b));
    }
  }

  // ---- Verdicts and the resolution are final ----

  ghost predicate Extends(s: State, t: State) {
    && t.pending <= s.pending
    && s.successful <= t.successful
    && s.failed <= t.failed
    && s.attempted <= t.attempted
    && s.readings <= t.readings
    && (s.resolution.Some? ==> t.resolution == s.resolution)
    && (s.firstHead.Some? ==> t.firstHead == s.firstHead)
  }

  lemma {:induction false} RunExtends(s: State, steps: seq<Step>)
    requires Legal(s, steps)
    ensures Extends(s, Run(s, steps))
    decreases |steps|
  {
    if steps != [] {
      var t := Next(s, steps[0]);
      assert Extends(s, t);
      RunExtends(t, steps[1..]);
    }
  }

  lemma {:induction false} NothingPendingNothingChanges(s: State, steps: seq<Step>)
    requires Legal(s, steps) && s.pending == {}
    ensures var t := Run(s, steps); t.pending == {} && t.successful == s.successful && t.failed == s.failed
    decreases |steps|
  {
    if steps != [] {
      var t := Next(s, steps[0]);
      assert t.pending == {} && t.successful == s.successful && t.failed == s.failed;
      NothingPendingNothingChanges(t, steps[1..]);
    }
  }

  lemma {:induction false} CallbackResolvesOnlyWhenDone(s: State, steps: seq<Step>)
    requires Legal(s, steps)
    requires s.resolution == Some(ByCallback) ==> s.pending == {}
    ensures Run(s, steps).resolution == Some(ByCallback) ==> Run(s, steps).pending == {}
    decreases |steps|
  {
    if steps != [] {
      CallbackResolvesOnlyWhenDone(Next(s, steps[0]), steps[1..]);
    }
  }

  /**
   * Main result: a result delivered by a head callback is complete (the sizes add up to the number of
   * different hashes) and no later step of a callback still in flight, or of the timer, changes it.
   */
  lemma CallbackResolutionIsFinal(submitted: set<Hash>, steps: seq<Step>, later: seq<Step>)
    requires Legal(Init(submitted), steps)
    requires Legal(Run(Init(submitted), steps), later)
    requires Run(Init(submitted), steps).resolution == Some(ByCallback)
    ensures var s := Run(Init(submitted), steps);
            && s.pending == {}
            && |s.successful| + |s.failed| == |submitted|
            && var t := Run(s, later);
               t.successful == s.successful && t.failed == s.failed && t.resolution == Some(ByCallback)
  {
    var s := Run(Init(submitted), steps);
    VerdictsAreSound(submitted, steps);
    CallbackResolvesOnlyWhenDone(Init(submitted), steps);
    assert submitted == s.successful + s.failed;
    NothingPendingNothingChanges(s, later);
    RunExtends(s, later);
  }

  // ---- No block below the cursor is left out ----

  ghost predicate Covered(s: State, base: int) {
    forall b :: base <= b < s.startBlockNumber ==> b in s.attempted
  }

  ghost predicate ScanCovered(s: State, base: int, scan: Scan) {
    && (scan.wait.ScanDone? <==> scan.head < scan.blockNumber)
    && forall b :: base <= b < scan.blockNumber ==> b in s.attempted
  }

  /** Nothing happened yet, or the cursor is away from its sentinel and every scan starts in covered ground. */
  ghost predicate CoverInv(s: State, head: nat) {
    if s.firstHead.None? then
      s.startBlockNumber == 0 && s.scans == map[]
    else
      s.firstHead == Some(head) ==>
        && s.startBlockNumber != 0
        && Covered(s, head - 5)
        && forall id :: id in s.scans ==> ScanCovered(s, head - 5, s.scans[id])
  }

  lemma StepKeepsScanCover(s: State, e: Step, base: int, id: nat)
    requires Enabled(s, e) && s.startBlockNumber != 0 && Covered(s, base)
    requires id in s.scans ==> ScanCovered(s, base, s.scans[id])
    requires id in Next(s, e).scans
    ensures ScanCovered(Next(s, e), base, Next(s, e).scans[id])
  {
    assert s.attempted <= Next(s, e).attempted;
  }

  lemma StepKeepsCursorCover(s: State, e: Step, base: int)
    requires Enabled(s, e) && s.startBlockNumber != 0 && Covered(s, base)
    requires e.Finish? ==> ScanCovered(s, base, s.scans[e.id])
    ensures Next(s, e).startBlockNumber != 0 && Covered(Next(s, e), base)
  {
    assert s.attempted <= Next(s, e).attempted;
  }

  lemma FirstHeadCovers(s: State, e: Step, head: nat)
    requires Enabled(s, e) && s.firstHead.None? && CoverInv(s, head) && head != 5
    ensures CoverInv(Next(s, e), head)
  {
  }

  lemma StepKeepsCover(s: State, e: Step, head: nat)
    requires Enabled(s, e) && CoverInv(s, head) && head != 5
    ensures CoverInv(Next(s, e), head)
  {
    var t := Next(s, e);
    if s.firstHead.None? {
      FirstHeadCovers(s, e, head);
    } else if s.firstHead == Some(head) {
      StepKeepsCursorCover(s, e, head - 5);
      forall id | id in t.scans ensures ScanCovered(t, head - 5, t.scans[id]) {
        StepKeepsScanCover(s, e, head - 5, id);
      }
    }
  }

  lemma {:induction false} RunKeepsCover(s: State, steps: seq<Step>, head: nat)
    requires Legal(s, steps) && CoverInv(s, head) && head != 5
    ensures CoverInv(Run(s, steps), head)
    decreases |steps|
  {
    if steps != [] {
      StepKeepsCover(s, steps[0], head);
      RunKeepsCover(Next(s, steps[0]), steps[1..], head);
    }
  }

  ghost predicate AlwaysCoveredFrom(head: nat) {
    forall submitted, steps ::
      Legal(Init(submitted), steps) && Run(Init(submitted), steps).firstHead == Some(head) ==>
        Covered(Run(Init(submitted), steps), head - 5)
  }

  /**
   * With first head 5 the cursor gets the value 0, which the next callback takes for "not initialised":
   * if the first callback is aborted, the blocks it was to scan are never scanned.
   */
  lemma HeadFiveLosesBlocks()
    ensures !AlwaysCoveredFrom(5)
  {
    var s0 := Init({});
    var steps := [Head(0, 5), HashFailed(0), Head(1, 20)];
    ThreeSteps(s0, steps[0], steps[1], steps[2]);
    var s3 := Run(s0, steps);
    assert s3.firstHead == Some(5) && s3.startBlockNumber == 15 && 0 !in s3.attempted;
  }

  /** Main result: every block between the first scan base and the cursor is processed, exactly unless the
      first head delivered is number 5. Late callbacks that move the cursor back and aborted scans included. */
  lemma CoverageExact(head: nat)
    ensures AlwaysCoveredFrom(head) <==> head != 5
  {
    if head == 5 {
      HeadFiveLosesBlocks();
    } else {
      forall submitted, steps | Legal(Init(submitted), steps) && Run(Init(submitted), steps).firstHead == Some(head)
        ensures Covered(Run(Init(submitted), steps), head - 5)
      {
        RunKeepsCover(Init(submitted), steps, head);
      }
    }
  }

  // ---- A fixed chain: what is below the cursor is decided, and the schedule does not matter ----

  ghost predicate FollowsChain(s: State, chain: map<int, Block>) {
    forall r :: r in s.readings ==> r.number in chain && chain[r.number] == r.block
  }

  ghost predicate BlockRead(s: State, b: int) {
    exists r :: r in s.readings && r.number == b
  }

  ghost predicate ReadOrSkipped(s: State) {
    forall b :: b in s.attempted && b !in s.skipped ==> BlockRead(s, b)
  }

  lemma {:induction false} RunReadsOrSkips(s: State, steps: seq<Step>)
    requires Legal(s, steps) && ReadOrSkipped(s)
    ensures ReadOrSkipped(Run(s, steps))
    decreases |steps|
  {
    if steps != [] {
      var e, t := steps[0], Next(s, steps[0]);
      forall b | b in t.attempted && b !in t.skipped ensures BlockRead(t, b) {
        if b in s.attempted {
          var r :| r in s.readings && r.number == b;
          assert r in t.readings;
        } else {
          assert e.EventsReturned?;
          var scan := s.scans[e.id];
          assert Reading(b, Block(scan.wait.extrinsics, e.records)) in t.readings;
        }
      }
      RunReadsOrSkips(t, steps[1..]);
    }
  }

  /** Main result: a submitted hash in a block below the cursor has its verdict, unless that block was given up on
      after an error and never read. */
  lemma BelowCursorIsDecided(submitted: set<Hash>, steps: seq<Step>, chain: map<int, Block>, head: nat, b: int, h: Hash)
    requires Legal(Init(submitted), steps)
    requires var s := Run(Init(submitted), steps);
             && s.firstHead == Some(head) && head != 5
             && FollowsChain(s, chain)
             && head - 5 <= b < s.startBlockNumber
    requires h in submitted && b in chain && h in chain[b].extrinsics
    ensures var s := Run(Init(submitted), steps);
            if BlockRead(s, b) then h in s.successful || h in s.failed else b in s.skipped
  {
    var s := Run(Init(submitted), steps);
    RunKeepsCover(Init(submitted), steps, head);
    assert b in s.attempted;
    RunReadsOrSkips(Init(submitted), steps);
    VerdictsAreSound(submitted, steps);
    if BlockRead(s, b) {
      var r :| r in s.readings && r.number == b;
      assert h in r.block.extrinsics;
      assert h in s.pending + s.successful + s.failed;
    }
  }

  /** No submitted extrinsic is included in two blocks; others, such as inherents, may be. */
  ghost predicate IncludedOnce(chain: map<int, Block>, submitted: set<Hash>) {
    forall a, b, h ::
      (h in submitted && a in chain && b in chain && h in chain[a].extrinsics && h in chain[b].extrinsics) ==> a == b
  }

  lemma VerdictsAgree(submitted: set<Hash>, steps: seq<Step>, others: seq<Step>, chain: map<int, Block>, h: Hash)
    requires Legal(Init(submitted), steps) && FollowsChain(Run(Init(submitted), steps), chain)
    requires Legal(Init(submitted), others) && FollowsChain(Run(Init(submitted), others), chain)
    requires IncludedOnce(chain, submitted)
    ensures !(h in Run(Init(submitted), steps).successful && h in Run(Init(submitted), others).failed)
  {
    VerdictsAreSound(submitted, steps);
    VerdictsAreSound(submitted, others);
  }

  /** Main result: over one chain, all complete runs deliver the same result, however their steps interleave. */
  lemma ResultIsScheduleIndependent(submitted: set<Hash>, steps: seq<Step>, others: seq<Step>, chain: map<int, Block>)
    requires Legal(Init(submitted), steps) && FollowsChain(Run(Init(submitted), steps), chain)
    requires Legal(Init(submitted), others) && FollowsChain(Run(Init(submitted), others), chain)
    requires Run(Init(submitted), steps).pending == {} && Run(Init(submitted), others).pending == {}
    requires IncludedOnce(chain, submitted)
    ensures Run(Init(submitted), steps).successful == Run(Init(submitted), others).successful
    ensures Run(Init(submitted), steps).failed == Run(Init(submitted), others).failed
  {
    VerdictsAreSound(submitted, steps);
    VerdictsAreSound(submitted, others);
    var s, t := Run(Init(submitted), steps), Run(Init(submitted), others);
    forall h
      ensures h in s.successful <==> h in t.successful
      ensures h in s.failed <==> h in t.failed
    {
      VerdictsAgree(submitted, steps, others, chain, h);
      VerdictsAgree(submitted, others, steps, chain, h);
      assert h in s.successful + s.failed <==> h in t.successful + t.failed;
    }
  }

  // ---- Chains too young for the look-back of five blocks ----

  /** The node has no block with a negative number, so asking for its hash fails. */
  ghost predicate NoNegativeBlocks(s: State, steps: seq<Step>)
    requires Legal(s, steps)
    decreases |steps|
  {
    steps == [] ||
    (&& (steps[0].HashReturned? ==> s.scans[steps[0].id].blockNumber >= 0)
     && NoNegativeBlocks(Next(s, steps[0]), steps[1..]))
  }

  ghost predicate Stuck(s: State, head: nat) {
    && s.successful == {} && s.failed == {}
    && s.resolution != Some(ByCallback)
    && if s.firstHead.None? then
         s.startBlockNumber == 0 && s.scans == map[]
       else
         s.firstHead == Some(head) ==>
           && s.startBlockNumber == head - 5
           && forall id :: id in s.scans ==> s.scans[id].wait == AwaitHash && s.scans[id].blockNumber == head - 5
  }

  lemma {:induction false} RunStaysStuck(s: State, steps: seq<Step>, head: nat)
    requires Legal(s, steps) && NoNegativeBlocks(s, steps)
    requires head < 5 && Stuck(s, head)
    requires s.firstHead.Some? ==> s.firstHead == Some(head)
    requires Run(s, steps).firstHead == Some(head)
    ensures Stuck(Run(s, steps), head)
    decreases |steps|
  {
    if steps != [] {
      var t := Next(s, steps[0]);
      RunExtends(t, steps[1..]);
      assert Stuck(t, head);
      RunStaysStuck(t, steps[1..], head);
    }
  }

  /** Some run with first head `head` finds a successful transaction. */
  ghost predicate CanConfirmFrom(head: nat) {
    exists submitted, steps ::
      && Legal(Init(submitted), steps)
      && NoNegativeBlocks(Init(submitted), steps)
      && Run(Init(submitted), steps).firstHead == Some(head)
      && Run(Init(submitted), steps).successful != {}
  }

  /** No run with first head `head` gives any verdict, moves the cursor or lets a callback deliver a result. */
  ghost predicate NeverDecidesFrom(head: nat) {
    forall submitted, steps ::
      && Legal(Init(submitted), steps)
      && NoNegativeBlocks(Init(submitted), steps)
      && Run(Init(submitted), steps).firstHead == Some(head) ==>
        var s := Run(Init(submitted), steps);
        && s.successful == {} && s.failed == {}
        && s.startBlockNumber == head - 5
        && s.resolution != Some(ByCallback)
  }

  lemma OldChainConfirms(head: nat, h: Hash)
    requires head >= 5
    ensures CanConfirmFrom(head)
  {
    var s0 := Init({h});
    var steps := [Head(0, head), HashReturned(0), BodyReturned(0, [h]), EventsReturned(0, [])];
    var s1 := Next(s0, steps[0]);
    var s2 := Next(s1, steps[1]);
    var s3 := Next(s2, steps[2]);
    var s4 := Next(s3, steps[3]);
    assert steps[1..][1..] == steps[2..] && steps[2..][1..] == steps[3..] && steps[3..][1..] == [];
    assert Legal(s4, []) && Run(s4, []) == s4 && NoNegativeBlocks(s4, []);
    assert Legal(s3, steps[3..]) && Run(s3, steps[3..]) == s4 && NoNegativeBlocks(s3, steps[3..]);
    assert Legal(s2, steps[2..]) && Run(s2, steps[2..]) == s4 && NoNegativeBlocks(s2, steps[2..]);
    assert Legal(s1, steps[1..]) && Run(s1, steps[1..]) == s4 && NoNegativeBlocks(s1, steps[1..]);
    assert Legal(s0, steps) && Run(s0, steps) == s4 && NoNegativeBlocks(s0, steps);
    assert SucceedsIn(Block([h], []), h);
    assert h in s4.successful;
  }

  /**
   * Main result: when the first head is number 4 or lower the look-back is negative, every callback aborts on
   * its first lookup, and nothing is ever decided or delivered by a callback; from 5 on confirmation is possible.
   */
  lemma ConfirmationPossibleExact(head: nat)
    ensures CanConfirmFrom(head) <==> head >= 5
    ensures NeverDecidesFrom(head) <==> head < 5
  {
    if head >= 5 {
      OldChainConfirms(head, "0x");
    } else {
      forall submitted, steps |
        && Legal(Init(submitted), steps)
        && NoNegativeBlocks(Init(submitted), steps)
        && Run(Init(submitted), steps).firstHead == Some(head)
        ensures Stuck(Run(Init(submitted), steps), head)
      {
        RunStaysStuck(Init(submitted), steps, head);
      }
    }
  }
}

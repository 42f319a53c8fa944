/** How one block is read: events are grouped by extrinsic, and each pending extrinsic gets its verdict. */
module BlockClassifier {
  import opened Prelude

  datatype Phase = ApplyExtrinsic(index: nat) | Initialization | Finalization

  datatype Event = ExtrinsicFailed | OtherEvent(kind: nat)

  datatype EventRecord = EventRecord(phase: Phase, event: Event)

  datatype Block = Block(extrinsics: seq<Hash>, records: seq<EventRecord>)

  /** The events that extrinsic `i` emitted, in the order in which they were recorded. */
  function EventsOf(records: seq<EventRecord>, i: nat): seq<Event> {
    if records == [] then
      []
    else
      var last := records[|records| - 1];
      EventsOf(records[..|records| - 1], i) + if last.phase == ApplyExtrinsic(i) then [last.event] else []
  }

  /** Some record of the block says that extrinsic `i` failed. */
  predicate FailureRecorded(blk: Block, i: nat) {
    EventRecord(ApplyExtrinsic(i), ExtrinsicFailed) in blk.records
  }

  /** The position at which `h` first occurs. */
  function FirstIndex(hashes: seq<Hash>, h: Hash): (i: nat)
    requires h in hashes
    ensures i < |hashes| && hashes[i] == h && h !in hashes[..i]
  {
    if hashes[0] == h then 0 else 1 + FirstIndex(hashes[1..], h)
  }

  /** The block holds `h`, and the extrinsic at its position is recorded as failed. */
  predicate FailsIn(blk: Block, h: Hash) {
    h in blk.extrinsics && FailureRecorded(blk, FirstIndex(blk.extrinsics, h))
  }

  /** The block holds `h`, and no failure is recorded for the extrinsic at its position. */
  predicate SucceedsIn(blk: Block, h: Hash) {
    h in blk.extrinsics && !FailureRecorded(blk, FirstIndex(blk.extrinsics, h))
  }

  /** A failure event is among the events of an extrinsic iff it is recorded under that extrinsic's phase. */
  lemma {:induction false} EventsOfMember(records: seq<EventRecord>, i: nat, e: Event)
    ensures e in EventsOf(records, i) <==> EventRecord(ApplyExtrinsic(i), e) in records
  {
    if records != [] {
      var init, last := records[..|records| - 1], records[|records| - 1];
      EventsOfMember(init, i, e);
      assert records == init + [last];
    }
  }

  /** `at` lists the positions of the records with phase ApplyExtrinsic(i) in ascending order, each of them once. */
  ghost predicate PositionsOf(records: seq<EventRecord>, i: nat, at: seq<nat>) {
    && (forall k :: 0 <= k < |at| ==> at[k] < |records| && records[at[k]].phase == ApplyExtrinsic(i))
    && (forall j, k :: 0 <= j < k < |at| ==> at[j] < at[k])
    && (forall p: nat :: p < |records| && records[p].phase == ApplyExtrinsic(i) ==> p in at)
  }

  /** The events of an extrinsic are the subsequence of its records: none lost, repeated or out of order. */
  lemma {:induction false} EventsOfIsSubsequence(records: seq<EventRecord>, i: nat) returns (at: seq<nat>)
    ensures PositionsOf(records, i, at)
    ensures |EventsOf(records, i)| == |at|
    ensures forall k :: 0 <= k < |at| ==> EventsOf(records, i)[k] == records[at[k]].event
  {
    at := [];
    if records != [] {
      var n := |records| - 1;
      var init := records[..n];
      at := EventsOfIsSubsequence(init, i);
      assert forall p: nat :: p < n ==> init[p] == records[p];
      if records[n].phase == ApplyExtrinsic(i) {
        at := at + [n];
        assert at[|at| - 1] == n;
      }
    }
  }

  /** Main result: the events of an extrinsic are the order-preserving subsequence of the records of its phase. */
  lemma EventsOfExact(records: seq<EventRecord>, i: nat)
    ensures exists at ::
              && PositionsOf(records, i, at)
              && |EventsOf(records, i)| == |at|
              && forall k :: 0 <= k < |at| ==> EventsOf(records, i)[k] == records[at[k]].event
  {
    var at := EventsOfIsSubsequence(records, i);
  }

  /** What `blockEvents.get(i) || []` yields. */
  function GetOrEmpty(index: map<nat, seq<Event>>, i: nat): seq<Event> {
    if i in index then index[i] else []
  }

  /** One pass over the records builds the event index in place. */
  method BuildEventIndex(records: seq<EventRecord>) returns (blockEvents: map<nat, seq<Event>>)
    ensures forall i: nat :: GetOrEmpty(blockEvents, i) == EventsOf(records, i)
    ensures forall i: nat :: i in blockEvents <==> exists e :: EventRecord(ApplyExtrinsic(i), e) in records
  {
    blockEvents := map[];
    for k := 0 to |records|
      invariant forall i: nat :: GetOrEmpty(blockEvents, i) == EventsOf(records[..k], i)
      invariant forall i: nat :: i in blockEvents ==> blockEvents[i] != []
    {
      assert records[..k + 1][..k] == records[..k];
      var record := records[k];
      if record.phase.ApplyExtrinsic? {
        var idx := record.phase.index;
        if idx !in blockEvents {
          blockEvents := blockEvents[idx := []];
        }
        blockEvents := blockEvents[idx := blockEvents[idx] + [record.event]];
      }
    }
    assert records[..|records|] == records;
    forall i: nat ensures i in blockEvents <==> exists e :: EventRecord(ApplyExtrinsic(i), e) in records {
      assert i in blockEvents <==> EventsOf(records, i) != [];
      if i in blockEvents {
        EventsOfMember(records, i, EventsOf(records, i)[0]);
      }
      if e :| EventRecord(ApplyExtrinsic(i), e) in records {
        EventsOfMember(records, i, e);
      }
    }
  }

  /** The early-exit loop over the events of one extrinsic. */
  method ScanForFailure(events: seq<Event>) returns (isSuccess: bool)
    ensures isSuccess <==> ExtrinsicFailed !in events
  {
    isSuccess := true;
    for k := 0 to |events|
      invariant isSuccess && ExtrinsicFailed !in events[..k]
    {
      if events[k].ExtrinsicFailed? {
        isSuccess := false;
        break;
      }
    }
  }
}

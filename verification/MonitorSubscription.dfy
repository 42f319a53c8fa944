/** When the monitor closes its subscription. */
module MonitorSubscription {
  import opened Prelude
  import opened BlockClassifier
  import opened TxMonitor
  import opened MonitorRuns
  import opened MonitorProgress

  /** The timer is set when the subscription comes up; the subscription is closed only with a result delivered. */
  ghost predicate SubscriptionInv(s: State) {
    && (s.timerArmed ==> s.subscribed)
    && (s.unsubscribed ==> s.subscribed && s.resolution.Some?)
    && (s.subscribed && !s.timerArmed ==> s.unsubscribed)
    && (s.resolution == Some(ByTimeout) ==> s.unsubscribed)
  }

  lemma {:induction false} RunKeepsSubscription(s: State, steps: seq<Step>)
    requires Legal(s, steps) && SubscriptionInv(s)
    ensures SubscriptionInv(Run(s, steps))
    decreases |steps|
  {
    if steps != [] {
      var t := Next(s, steps[0]);
      assert SubscriptionInv(t);
      RunKeepsSubscription(t, steps[1..]);
    }
  }

  /** Main result: once the timer has fired a result has been delivered and the subscription is closed, and it is never
      closed without a result. */
  lemma TimerClosesSubscription(submitted: set<Hash>, steps: seq<Step>)
    requires Legal(Init(submitted), steps)
    ensures var s := Run(Init(submitted), steps);
            && (s.subscribed && !s.timerArmed ==> s.unsubscribed && s.resolution.Some?)
            && (s.unsubscribed ==> s.resolution.Some?)
            && (s.resolution == Some(ByTimeout) ==> s.unsubscribed)
  {
    RunKeepsSubscription(Init(submitted), steps);
  }

  /** Main result: the timer is set exactly between the subscription coming up and the one time that it fires. */
  lemma {:induction false} TimerExact(s: State, steps: seq<Step>)
    requires Legal(s, steps) && (s.timerArmed ==> s.subscribed)
    ensures s.subscribed ==> Step.Subscribed !in steps
    ensures Run(s, steps).subscribed <==> s.subscribed || Step.Subscribed in steps
    ensures Run(s, steps).timerArmed <==> (s.timerArmed || Step.Subscribed in steps) && Timeout !in steps
    decreases |steps|
  {
    if steps != [] {
      TimerExact(Next(s, steps[0]), steps[1..]);
      assert steps == [steps[0]] + steps[1..];
    }
  }

  // ---- With nothing pending ----

  /** Step `i` closes the subscription: the timer, or a callback that ends when the subscription is up. */
  ghost predicate Closes(subscribed: bool, steps: seq<Step>, i: nat)
    requires i < |steps|
  {
    steps[i] == Timeout || (steps[i].Finish? && (subscribed || Step.Subscribed in steps[..i]))
  }

  ghost predicate SomeStepCloses(subscribed: bool, steps: seq<Step>) {
    exists i: nat :: i < |steps| && Closes(subscribed, steps, i)
  }

  lemma FirstStepOrLater(subscribed: bool, steps: seq<Step>)
    requires steps != []
    ensures SomeStepCloses(subscribed, steps) <==>
            Closes(subscribed, steps, 0) || SomeStepCloses(subscribed || steps[0] == Step.Subscribed, steps[1..])
  {
    var after := subscribed || steps[0] == Step.Subscribed;
    forall i: nat | i < |steps| - 1
      ensures Closes(after, steps[1..], i) <==> Closes(subscribed, steps, i + 1)
    {
      assert steps[..i + 1] == [steps[0]] + steps[1..][..i];
    }
    if i: nat :| i < |steps| && Closes(subscribed, steps, i) && i > 0 {
      assert Closes(after, steps[1..], i - 1);
    }
  }

  lemma {:induction false} ClosedExact(s: State, steps: seq<Step>)
    requires Legal(s, steps) && s.pending == {}
    ensures Run(s, steps).unsubscribed <==> s.unsubscribed || SomeStepCloses(s.subscribed, steps)
    decreases |steps|
  {
    if steps != [] {
      var t := Next(s, steps[0]);
      assert t.pending == {} && t.subscribed == (s.subscribed || steps[0] == Step.Subscribed);
      assert t.unsubscribed <==> s.unsubscribed || Closes(s.subscribed, steps, 0);
      ClosedExact(t, steps[1..]);
      FirstStepOrLater(s.subscribed, steps);
    }
  }

  /**
   * Main result: a result delivered before the subscription came up leaves it open, and a later run closes it exactly
   * if in that run the timer fires, or a callback ends after the subscription came up.
   */
  lemma EarlyResultClosedExact(submitted: set<Hash>, steps: seq<Step>, later: seq<Step>)
    requires Legal(Init(submitted), steps)
    requires Legal(Run(Init(submitted), steps), later)
    requires Run(Init(submitted), steps).resolution.Some? && !Run(Init(submitted), steps).subscribed
    ensures Run(Init(submitted), steps).resolution == Some(ByCallback)
    ensures !Run(Init(submitted), steps).unsubscribed
    ensures Run(Run(Init(submitted), steps), later).unsubscribed <==>
            exists i: nat :: i < |later| &&
              (later[i] == Timeout || (later[i].Finish? && Step.Subscribed in later[..i]))
  {
    var s := Run(Init(submitted), steps);
    RunKeepsSubscription(Init(submitted), steps);
    CallbackResolvesOnlyWhenDone(Init(submitted), steps);
    assert s.resolution.value == ByCallback;
    ClosedExact(s, later);
    if SomeStepCloses(s.subscribed, later) {
      var i: nat :| i < |later| && Closes(s.subscribed, later, i);
      assert later[i] == Timeout || (later[i].Finish? && Step.Subscribed in later[..i]);
    }
    if i: nat :| i < |later| && (later[i] == Timeout || (later[i].Finish? && Step.Subscribed in later[..i])) {
      assert Closes(s.subscribed, later, i);
    }
  }

  lemma {:induction false} NotSubscribedMeanwhile(s: State, steps: seq<Step>)
    requires Legal(s, steps) && Step.Subscribed !in steps
    ensures Run(s, steps).subscribed == s.subscribed
    decreases |steps|
  {
    if steps != [] {
      assert steps[0] in steps;
      assert forall e :: e in steps[1..] ==> e in steps;
      NotSubscribedMeanwhile(Next(s, steps[0]), steps[1..]);
    }
  }

  /** Main result: whenever the blocks that the first callback scans include all submitted hashes, that callback can
      deliver the complete result before the subscription comes up. */
  lemma EarlyResultIsReachable(submitted: set<Hash>, head: nat, chain: map<int, Block>)
    requires Holds(chain, {}, head - 5, head)
    requires forall h :: h in submitted ==> Included(chain, {}, head - 5, head, h)
    ensures var steps := CallbackSteps(Init(submitted), 0, head, chain, {});
            && Legal(Init(submitted), steps)
            && var s := Run(Init(submitted), steps);
               s.pending == {} && s.resolution == Some(ByCallback) && !s.subscribed && !s.unsubscribed
  {
    var steps := CallbackSteps(Init(submitted), 0, head, chain, {});
    CallbackRunsToEnd(Init(submitted), 0, head, chain, {});
    ScanStepsOfCallback(0, head - 5, head, chain, {});
    assert Step.Subscribed !in steps;
    NotSubscribedMeanwhile(Init(submitted), steps);
    EarlyResultClosedExact(submitted, steps, []);
  }

  /** And a callback can close the subscription long before the timer fires. */
  lemma CallbackClosesBeforeTimer(s: State, id: nat, head: nat)
    requires s.pending == {} && !s.subscribed
    requires id !in s.scans && s.startBlockNumber > head
    ensures var steps := [Step.Subscribed, Head(id, head), Finish(id)];
            && Legal(s, steps)
            && Run(s, steps).unsubscribed && Run(s, steps).timerArmed
  {
    ThreeSteps(s, Step.Subscribed, Head(id, head), Finish(id));
  }
}

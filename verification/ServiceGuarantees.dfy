/**
 * What a caller of the service may rely on, whatever the interleaving.
 */
module ServiceGuarantees {
  import opened Common
  import opened Receivers
  import opened Evaluators
  import opened EvaluatedReceivers
  import opened AttributionRuns
  import opened OwnedServices
  import opened ServiceRuns

  predicate InEvaluations(s: Service, item: Item) {
    item in s.unlocks || s.latest == Some(item) || InHand(s) == Some(item)
  }

  predicate InFrames(s: Service, item: Item) { item in s.frames || InHand(s) == Some(item) }

  /** Step n received a datagram and this is its output. */
  predicate Arrives(s: Service, n: nat, x: Step, item: Item) {
    && x.OwnerReceive? && s.stage == Listening
    && item == Item(n, Handled(s.limits, s.adapter, x.at, x.fedAt, x.peer, x.packet, x.native).1)
  }

  lemma ReceiveCarries(s: Service, n: nat, at: real, fedAt: real, peer: Option<Endpoint>, packet: Packet,
                       native: NativeReply, item: Item)
    requires s.stage == Listening
    ensures var t := ReceivedBy(s, n, at, fedAt, peer, packet, native);
      && (InEvaluations(t, item) ==>
            InEvaluations(s, item) || Arrives(s, n, OwnerReceive(at, fedAt, peer, packet, native), item))
      && (InFrames(t, item) ==> InFrames(s, item) || Arrives(s, n, OwnerReceive(at, fedAt, peer, packet, native), item))
  {
    hide Act, Released, Handled, Commanded, IsUnlock;
    CommandsCarry(s.(adapter := Handled(s.limits, s.adapter, at, fedAt, peer, packet, native).0), item);
  }

  lemma TakeCarries(s: Service, item: Item)
    ensures InEvaluations(FrameTaken(s).0, item) ==> InEvaluations(s, item)
    ensures InFrames(FrameTaken(s).0, item) ==> InFrames(s, item)
    ensures InEvaluations(EvaluationTaken(s).0, item) ==> InEvaluations(s, item)
    ensures InFrames(EvaluationTaken(s).0, item) ==> InFrames(s, item)
    ensures FrameTaken(s).1 == Some(item) ==> InFrames(s, item)
    ensures EvaluationTaken(s).1 == Some(item) ==> InEvaluations(s, item)
  {
  }

  lemma EnqueueCarries(s: Service, item: Item)
    requires s.stage.Sending?
    ensures InEvaluations(Enqueued(s), item) ==> InEvaluations(s, item)
    ensures InFrames(Enqueued(s), item) ==> InFrames(s, item)
  {
    hide IsUnlock;
  }

  lemma CommandsCarry(s: Service, item: Item)
    ensures s.stage == AtTop ==> (InEvaluations(ToppedUp(s), item) ==> InEvaluations(s, item))
                                 && (InFrames(ToppedUp(s), item) ==> InFrames(s, item))
    ensures !InEvaluations(Stopped(s), item) && !InFrames(Stopped(s), item)
  {
    hide Released, Commanded, AccountSessions.LoggedOut;
    CommandedQueues(s);
    CommandedQueues(Discarded(s).(adapter := Released(s.adapter), reset := false));
  }

  /** Each of the places where items wait is as it was, or empty. */
  predicate NothingNew(s: Service, t: Service) {
    && (t.frames == s.frames || t.frames == []) && (t.unlocks == s.unlocks || t.unlocks == [])
    && (t.latest == s.latest || t.latest.None?) && (InHand(t) == InHand(s) || InHand(t).None?)
  }

  lemma NothingNewCarries(s: Service, t: Service, item: Item)
    requires NothingNew(s, t)
    ensures (InEvaluations(t, item) ==> InEvaluations(s, item)) && (InFrames(t, item) ==> InFrames(s, item))
  {
  }

  lemma QuietStep(s: Service, n: nat, x: Step)
    requires !x.OwnerReceive? && !x.OwnerEnqueue? && !x.OwnerTop? && !x.OwnerEnd?
    requires x != CallerTakeFrame && x != CallerTakeEvaluation
    ensures NothingNew(s, Stepped(s, n, x).0) && Stepped(s, n, x).1.None?
  {
    hide Act;
  }

  /** Items enter only by being received; what is taken was there. */
  lemma StepCarries(s: Service, n: nat, x: Step, item: Item)
    ensures var (t, taken) := Stepped(s, n, x);
      && (InEvaluations(t, item) ==> InEvaluations(s, item) || Arrives(s, n, x, item))
      && (InFrames(t, item) ==> InFrames(s, item) || Arrives(s, n, x, item))
      && (taken == Some(item) ==> InEvaluations(s, item) || InFrames(s, item))
  {
    hide InEvaluations, InFrames, Act, ReceivedBy, ToppedUp, Stopped, Restarted, Arrives, FrameTaken, EvaluationTaken,
         Enqueued;
    TakeCarries(s, item);
    CommandsCarry(s, item);
    if x.OwnerReceive? && s.stage == Listening {
      ReceiveCarries(s, n, x.at, x.fedAt, x.peer, x.packet, x.native, item);
    } else if x.OwnerEnqueue? && s.stage.Sending? {
      EnqueueCarries(s, item);
    } else if !x.OwnerReceive? && !x.OwnerEnqueue? && !x.OwnerTop? && !x.OwnerEnd?
              && x != CallerTakeFrame && x != CallerTakeEvaluation {
      QuietStep(s, n, x);
      NothingNewCarries(s, Stepped(s, n, x).0, item);
    }
  }

  predicate ReceivedAt(run: Run, item: Item) {
    && item.arrival < |run.steps|
    && Arrives(run.State(item.arrival), item.arrival, run.steps[item.arrival], item)
  }

  lemma {:induction false} CarriedWasReceived(run: Run, n: nat, item: Item)
    requires n <= |run.steps| && (InEvaluations(run.State(n), item) || InFrames(run.State(n), item))
    ensures item.arrival < n && ReceivedAt(run, item)
  {
    hide Stepped, InEvaluations, InFrames, Arrives;
    if n > 0 {
      StepCarries(run.State(n - 1), n - 1, run.steps[n - 1], item);
      if !Arrives(run.State(n - 1), n - 1, run.steps[n - 1], item) {
        CarriedWasReceived(run, n - 1, item);
      } else {
        ArrivesNow(run, n - 1, item);
      }
    } else {
      NothingCarriedYet(run, item);
    }
  }

  lemma ArrivesNow(run: Run, n: nat, item: Item)
    requires n < |run.steps| && Arrives(run.State(n), n, run.steps[n], item)
    ensures item.arrival == n && ReceivedAt(run, item)
  {
  }

  lemma NothingCarriedYet(run: Run, item: Item)
    ensures !InEvaluations(run.State(0), item) && !InFrames(run.State(0), item)
  {
  }

  // ----- Reset visibility -----

  lemma {:induction false} HorizonPassesRevocations(run: Run, k: nat, n: nat)
    requires k < n <= |run.steps| && run.Revokes(k)
    ensures k < run.Horizon(n)
  {
    if k < n - 1 { HorizonPassesRevocations(run, k, n - 1); }
  }

  /**
   * Reset visibility: whatever a caller takes was received by the owner after every reset, account
   * clearing and change of account that had returned before, in every interleaving.
   */
  lemma TakenSinceEveryRevocation(run: Run, n: nat, k: nat)
    requires run.capacity >= 1 && k < n < |run.steps| && run.Taken(n).Some? && run.Revokes(k)
    ensures k < run.Taken(n).value.arrival < n && ReceivedAt(run, run.Taken(n).value)
  {
    hide Stepped, Arrives, ReceivedAt;
    AlwaysOrdered(run, n);
    HorizonPassesRevocations(run, k, n);
    var item := run.Taken(n).value;
    StepCarries(run.State(n), n, run.steps[n], item);
    CarriedWasReceived(run, n, item);
    TakenIsRecent(run.State(n), n, run.Horizon(n), run.steps[n]);
  }

  lemma TakenIsRecent(s: Service, n: nat, horizon: nat, x: Step)
    requires Ordered(s, n, horizon) && Stepped(s, n, x).1.Some?
    ensures horizon <= Stepped(s, n, x).1.value.arrival
    ensures !s.reset && (x == CallerTakeFrame || x == CallerTakeEvaluation)
  {
    hide Act, Handled, ToppedUp, Stopped, Restarted, ReceivedBy, Enqueued;
    if x == CallerTakeEvaluation { assert Stepped(s, n, x).1.value == Pending(s)[0]; }
  }

  // ----- Delivery order -----

  predicate AllAfter(s: Service, arrival: nat) {
    && (forall i | 0 <= i < |Pending(s)| :: arrival < Pending(s)[i].arrival)
    && (InHand(s).Some? ==> arrival < InHand(s).value.arrival)
  }

  lemma TakingLeavesLater(s: Service, n: nat, horizon: nat)
    requires Ordered(s, n, horizon) && EvaluationTaken(s).1.Some?
    ensures EvaluationTaken(s).1.value.arrival < n
    ensures AllAfter(EvaluationTaken(s).0, EvaluationTaken(s).1.value.arrival)
  {
    var (t, taken) := EvaluationTaken(s);
    assert Pending(s)[0] == taken.value;
    assert Pending(t) == Pending(s)[1..];
  }

  lemma LaterStaysLater(s: Service, n: nat, x: Step, arrival: nat)
    requires AllAfter(s, arrival) && arrival < n
    ensures AllAfter(Stepped(s, n, x).0, arrival)
  {
    hide Stepped, Arrives;
    var t := Stepped(s, n, x).0;
    forall i | 0 <= i < |Pending(t)|
      ensures arrival < Pending(t)[i].arrival
    {
      var item := Pending(t)[i];
      assert InEvaluations(t, item);
      LaterItem(s, n, x, arrival, item);
    }
    if InHand(t).Some? {
      assert InEvaluations(t, InHand(t).value);
      LaterItem(s, n, x, arrival, InHand(t).value);
    }
  }

  lemma LaterItem(s: Service, n: nat, x: Step, arrival: nat, item: Item)
    requires AllAfter(s, arrival) && arrival < n && InEvaluations(Stepped(s, n, x).0, item)
    ensures arrival < item.arrival
  {
    hide Stepped;
    StepCarries(s, n, x, item);
    if InEvaluations(s, item) && InHand(s) != Some(item) { assert item in Pending(s); }
  }

  lemma {:induction false} LaterThroughout(run: Run, n: nat, m: nat)
    requires run.capacity >= 1 && n < m <= |run.steps|
    requires run.steps[n] == CallerTakeEvaluation && run.Taken(n).Some?
    ensures AllAfter(run.State(m), run.Taken(n).value.arrival) && run.Taken(n).value.arrival < n
  {
    hide AllAfter, Ordered;
    AlwaysOrdered(run, n);
    TakingLeavesLater(run.State(n), n, run.Horizon(n));
    if n < m - 1 {
      LaterThroughout(run, n, m - 1);
      LaterStaysLater(run.State(m - 1), m - 1, run.steps[m - 1], run.Taken(n).value.arrival);
    }
  }

  /** Evaluations come out in strictly increasing order of arrival, unlock or not. */
  lemma EvaluationsInOrder(run: Run, n: nat, m: nat)
    requires run.capacity >= 1 && n < m < |run.steps|
    requires run.steps[n] == CallerTakeEvaluation && run.steps[m] == CallerTakeEvaluation
    requires run.Taken(n).Some? && run.Taken(m).Some?
    ensures run.Taken(n).value.arrival < run.Taken(m).value.arrival
  {
    LaterThroughout(run, n, m);
    var s := run.State(m);
    assert run.Taken(m) == EvaluationTaken(s).1;
    assert Pending(s)[0] == run.Taken(m).value;
  }

  // ----- Accounting -----

  /** The step empties both queues: a reset, an account change, a new generation, or the end. */
  predicate Empties(s: Service, x: Step) {
    Enabled(s, x) &&
    match x
    case CallerReset => true
    case CallerClear(_) => true
    case CallerBind(account) => AccountOf(s) != Some(account)
    case OwnerTop => s.reset || CommandsDiscard(s)
    case OwnerEnd => true
    case OwnerStart(_) => true
    case OwnerCheck => s.frameGeneration != Some(Generation(s))
    case OwnerVerify => s.frameGeneration != Some(Generation(s))
    case OwnerReceive(at, fedAt, peer, packet, native) =>
      Handled(s.limits, s.adapter, at, fedAt, peer, packet, native).1.evaluation == Some(Result.Raised)
    case _ => false
  }

  predicate Puts(s: Service, x: Step) {
    x == OwnerEnqueue && s.stage.Sending? && s.stage.item.output.wire.frame.Some? && !s.reset
  }

  /**
   * Frames put, taken and discarded so far, and those counted as dropped before the service was last started;
   * and the same for unlock evaluations.
   */
  datatype Ledger = Ledger(put: nat, taken: nat, discarded: nat, counted: nat)

  function FrameLedger(run: Run, n: nat): Ledger
    requires n <= |run.steps|
  {
    if n == 0 then Ledger(0, 0, 0, 0)
    else
      var g, s, x := FrameLedger(run, n - 1), run.State(n - 1), run.steps[n - 1];
      Ledger(g.put + (if Puts(s, x) then 1 else 0),
             g.taken + (if x == CallerTakeFrame && run.Taken(n - 1).Some? then 1 else 0),
             g.discarded + (if Empties(s, x) then |s.frames| else 0),
             g.counted + (if Starts(s, x) then s.droppedFrames else 0))
  }

  function UnlockLedger(run: Run, n: nat): Ledger
    requires n <= |run.steps|
  {
    if n == 0 then Ledger(0, 0, 0, 0)
    else
      var g, s, x := UnlockLedger(run, n - 1), run.State(n - 1), run.steps[n - 1];
      Ledger(g.put + (if Puts(s, x) && IsUnlock(s.stage.item.output) then 1 else 0),
             g.taken + (if x == CallerTakeEvaluation && run.Taken(n - 1).Some? && IsUnlock(run.Taken(n - 1).value.output)
                        then 1 else 0),
             g.discarded + (if Empties(s, x) then |s.unlocks| else 0),
             g.counted + (if Starts(s, x) then s.droppedEvaluations else 0))
  }

  /** The service is started again, with its counters at zero. */
  predicate Starts(s: Service, x: Step) { x.OwnerStart? && s.stage == Halted }

  predicate Kept(s: Service, t: Service) {
    && t.frames == s.frames && t.unlocks == s.unlocks
    && t.droppedFrames == s.droppedFrames && t.droppedEvaluations == s.droppedEvaluations
  }

  predicate Emptied(s: Service, t: Service) {
    && t.frames == [] && t.unlocks == []
    && t.droppedFrames == s.droppedFrames && t.droppedEvaluations == s.droppedEvaluations
  }

  lemma CommandsKeepOrEmpty(s: Service)
    ensures if CommandsDiscard(s) then Emptied(s, Commanded(s)) else Kept(s, Commanded(s))
    ensures Emptied(s, Stopped(s))
    ensures s.stage == AtTop ==> if s.reset || CommandsDiscard(s) then Emptied(s, ToppedUp(s)) else Kept(s, ToppedUp(s))
  {
    hide Released, Commanded, CommandsDiscard, AccountSessions.LoggedOut;
    CommandedQueues(s);
    CommandedQueues(Discarded(s).(adapter := Released(s.adapter), reset := false));
  }

  lemma OwnerKeepsOrEmpties(s: Service, n: nat, x: Step)
    requires Enabled(s, x) && (x.OwnerTop? || x.OwnerEnd? || x.OwnerReceive?)
    ensures var t := Stepped(s, n, x).0; if Empties(s, x) then Emptied(s, t) else Kept(s, t)
  {
    hide Handled, CommandsDiscard, ToppedUp, Stopped;
    CommandsKeepOrEmpty(s);
    if x.OwnerReceive? {
      CommandsKeepOrEmpty(s.(adapter := Handled(s.limits, s.adapter, x.at, x.fedAt, x.peer, x.packet, x.native).0));
    }
  }

  /** Apart from taking, putting and starting again, a step keeps the queues or empties them. */
  lemma StepKeepsOrEmpties(s: Service, n: nat, x: Step)
    requires x != CallerTakeFrame && x != CallerTakeEvaluation && !Puts(s, x) && !Starts(s, x)
    ensures var t := Stepped(s, n, x).0; if Empties(s, x) then Emptied(s, t) else Kept(s, t)
  {
    if Enabled(s, x) && (x.OwnerTop? || x.OwnerEnd? || x.OwnerReceive?) {
      hide Stepped, Empties, Kept, Emptied;
      OwnerKeepsOrEmpties(s, n, x);
    } else {
      hide Act, Handled, CommandsDiscard, IsUnlock, FrameTaken, EvaluationTaken, ToppedUp, Stopped, Restarted, ReceivedBy;
    }
  }

  lemma StartsWithNothing(s: Service, n: nat, x: Step)
    requires Starts(s, x)
    ensures var t := Stepped(s, n, x).0;
      t.frames == [] && t.unlocks == [] && t.droppedFrames == 0 && t.droppedEvaluations == 0
  {
  }

  lemma PutStep(s: Service, n: nat)
    requires Puts(s, OwnerEnqueue)
    ensures var t := Stepped(s, n, OwnerEnqueue).0;
      && |t.frames| + t.droppedFrames == |s.frames| + s.droppedFrames + 1
      && |t.unlocks| + t.droppedEvaluations
         == |s.unlocks| + s.droppedEvaluations + (if IsUnlock(s.stage.item.output) then 1 else 0)
  {
  }

  /** Every frame put is taken, counted as dropped, discarded by one of those steps, or still queued. */
  lemma {:induction false} FramesAreAccountedFor(run: Run, n: nat)
    requires n <= |run.steps|
    ensures var g := FrameLedger(run, n);
      g.put == g.taken + g.counted + run.State(n).droppedFrames + g.discarded + |run.State(n).frames|
  {
    hide Empties, Puts, Starts, Stepped;
    if n > 0 {
      FramesAreAccountedFor(run, n - 1);
      FrameBalance(run.State(n - 1), n - 1, run.steps[n - 1]);
    }
  }

  lemma FrameBalance(s: Service, n: nat, x: Step)
    ensures var (t, taken) := Stepped(s, n, x);
      (if Puts(s, x) then 1 else 0) + s.droppedFrames + |s.frames|
      == (if x == CallerTakeFrame && taken.Some? then 1 else 0) + t.droppedFrames
         + (if Empties(s, x) then |s.frames| else 0) + (if Starts(s, x) then s.droppedFrames else 0) + |t.frames|
  {
    hide Act, Handled, Commanded, CommandsDiscard, IsUnlock, ToppedUp, Stopped, Restarted;
    if Puts(s, x) { PutStep(s, n); }
    else if Starts(s, x) { StartsWithNothing(s, n, x); }
    else if x != CallerTakeFrame && x != CallerTakeEvaluation { StepKeepsOrEmpties(s, n, x); }
  }

  /** No unlock is lost to routine telemetry: it is taken, counted as dropped, discarded, or still queued. */
  lemma {:induction false} UnlocksAreAccountedFor(run: Run, n: nat)
    requires n <= |run.steps| && run.capacity >= 1
    ensures var g := UnlockLedger(run, n);
      g.put == g.taken + g.counted + run.State(n).droppedEvaluations + g.discarded + |run.State(n).unlocks|
  {
    hide Empties, Puts, Starts, Stepped, IsUnlock, Ordered, Sound;
    if n > 0 {
      UnlocksAreAccountedFor(run, n - 1);
      AlwaysOrdered(run, n - 1);
      UnlockBalance(run.State(n - 1), n - 1, run.Horizon(n - 1), run.steps[n - 1]);
    }
  }

  lemma UnlockBalance(s: Service, n: nat, horizon: nat, x: Step)
    requires Ordered(s, n, horizon)
    ensures var (t, taken) := Stepped(s, n, x);
      (if Puts(s, x) && IsUnlock(s.stage.item.output) then 1 else 0) + s.droppedEvaluations + |s.unlocks|
      == (if x == CallerTakeEvaluation && taken.Some? && IsUnlock(taken.value.output) then 1 else 0)
         + t.droppedEvaluations + (if Empties(s, x) then |s.unlocks| else 0)
         + (if Starts(s, x) then s.droppedEvaluations else 0) + |t.unlocks|
  {
    hide Act, Handled, Commanded, CommandsDiscard, IsUnlock, ToppedUp, Stopped, Restarted, Line;
    if Puts(s, x) { PutStep(s, n); }
    else if Starts(s, x) { StartsWithNothing(s, n, x); }
    else if x != CallerTakeFrame && x != CallerTakeEvaluation { StepKeepsOrEmpties(s, n, x); }
    else if x == CallerTakeEvaluation && !s.reset && s.unlocks != [] { assert IsUnlock(s.unlocks[0].output); }
  }
}

/**
 * What the service must deliver: which frame or evaluation a caller is handed, when nothing
 * is handed out, and that whatever the owner receives reaches the queues.
 */
module ServiceDelivery {
  import opened Common
  import opened Receivers
  import opened Evaluators
  import opened EvaluatedReceivers
  import opened AttributionRuns
  import opened OwnedServices
  import opened ServiceRuns
  import opened ServiceGuarantees
  import AccountRuns
  import AccountSessions

  // ----- Frames come out in order -----

  predicate FramesAfter(s: Service, arrival: nat) {
    && (forall i | 0 <= i < |s.frames| :: arrival < s.frames[i].arrival)
    && (InHand(s).Some? ==> arrival < InHand(s).value.arrival)
  }

  lemma TakingLeavesLaterFrames(s: Service, n: nat, horizon: nat)
    requires Ordered(s, n, horizon) && FrameTaken(s).1.Some?
    ensures FrameTaken(s).1.value.arrival < n && FramesAfter(FrameTaken(s).0, FrameTaken(s).1.value.arrival)
  {
  }

  lemma LaterFramesStayLater(s: Service, n: nat, x: Step, arrival: nat)
    requires FramesAfter(s, arrival) && arrival < n
    ensures FramesAfter(Stepped(s, n, x).0, arrival)
  {
    hide Stepped, Arrives, InFrames;
    var t := Stepped(s, n, x).0;
    forall item | InFrames(t, item)
      ensures arrival < item.arrival
    {
      StepCarries(s, n, x, item);
      LaterFrame(s, n, x, arrival, item);
    }
    forall i | 0 <= i < |t.frames|
      ensures InFrames(t, t.frames[i])
    {
      QueuedIsCarried(t, i);
    }
    if InHand(t).Some? { HeldIsCarried(t); }
  }

  lemma QueuedIsCarried(s: Service, i: nat)
    requires i < |s.frames|
    ensures InFrames(s, s.frames[i])
  {
  }

  lemma HeldIsCarried(s: Service)
    requires InHand(s).Some?
    ensures InFrames(s, InHand(s).value)
  {
  }

  lemma LaterFrame(s: Service, n: nat, x: Step, arrival: nat, item: Item)
    requires FramesAfter(s, arrival) && arrival < n && (InFrames(s, item) || Arrives(s, n, x, item))
    ensures arrival < item.arrival
  {
    hide Handled;
  }

  lemma {:induction false} FramesLaterThroughout(run: Run, n: nat, m: nat)
    requires run.capacity >= 1 && n < m <= |run.steps|
    requires run.steps[n] == CallerTakeFrame && run.Taken(n).Some?
    ensures FramesAfter(run.State(m), run.Taken(n).value.arrival) && run.Taken(n).value.arrival < n
  {
    hide FramesAfter, Ordered;
    AlwaysOrdered(run, n);
    TakingLeavesLaterFrames(run.State(n), n, run.Horizon(n));
    if n < m - 1 {
      FramesLaterThroughout(run, n, m - 1);
      LaterFramesStayLater(run.State(m - 1), m - 1, run.steps[m - 1], run.Taken(n).value.arrival);
    }
  }

  /** Frames come out in strictly increasing order of arrival. */
  lemma FramesInOrder(run: Run, n: nat, m: nat)
    requires run.capacity >= 1 && n < m < |run.steps|
    requires run.steps[n] == CallerTakeFrame && run.steps[m] == CallerTakeFrame
    requires run.Taken(n).Some? && run.Taken(m).Some?
    ensures run.Taken(n).value.arrival < run.Taken(m).value.arrival
  {
    FramesLaterThroughout(run, n, m);
    assert run.Taken(m) == FrameTaken(run.State(m)).1;
  }

  // ----- Which one comes out -----

  /** Some achievement triggered in it. */
  predicate Unlocks(item: Item) {
    && item.output.evaluation.Some? && item.output.evaluation.value.Evaluation?
    && exists i :: 0 <= i < |item.output.evaluation.value.events| && item.output.evaluation.value.events[i].kind == TRIGGERED
  }

  /** What was put and waits to be taken, by the history of the run alone. */
  datatype Waiting = Waiting(frames: seq<Item>, unlocks: seq<Item>, latest: Option<Item>)
  {
    /**
     * Another frame, over a backlog of `capacity` of them; an unlock, unless as many wait; or a newer routine
     * state.
     */
    function With(item: Item, capacity: nat): Waiting {
      Waiting((if |frames| < capacity then frames else []) + [item],
              if Unlocks(item) && |unlocks| < capacity then unlocks + [item] else unlocks,
              if Unlocks(item) then None else Some(item))
    }

    function FirstEvaluation(): Option<Item> { if unlocks != [] then Some(unlocks[0]) else latest }

    function WithoutFirstFrame(): Waiting { if frames == [] then this else this.(frames := frames[1..]) }

    function WithoutFirstEvaluation(): Waiting {
      if unlocks != [] then this.(unlocks := unlocks[1..]) else this.(latest := None)
    }
  }

  function WaitingAt(run: Run, n: nat): Waiting
    requires n <= |run.steps|
  {
    if n == 0 then Waiting([], [], None)
    else
      var w, s, x := WaitingAt(run, n - 1), run.State(n - 1), run.steps[n - 1];
      if Empties(s, x) then Waiting([], [], None)
      else if Puts(s, x) then w.With(s.stage.item, run.capacity)
      else if x == CallerTakeFrame && !ResetPends(run, n - 1) then w.WithoutFirstFrame()
      else if x == CallerTakeEvaluation && !ResetPends(run, n - 1) then w.WithoutFirstEvaluation()
      else w
  }

  /** The owner begins its loop again, or the service is started again. */
  predicate Answers(run: Run, j: nat)
    requires j < |run.steps|
  {
    (run.steps[j] == OwnerTop && run.State(j).stage == AtTop) || Starts(run.State(j), run.steps[j])
  }

  /** Some revocation has not been answered by the owner yet. */
  predicate ResetPends(run: Run, n: nat)
    requires n <= |run.steps|
  {
    exists k: nat :: k < n && run.Revokes(k) && forall j | k < j < n :: !Answers(run, j)
  }

  lemma ResetStep(s: Service, n: nat, x: Step)
    ensures Stepped(s, n, x).0.reset ==
      if RevokedBy(s, x) then true
      else if (x == OwnerTop && s.stage == AtTop) || Starts(s, x) then false else s.reset
  {
    hide Act, Handled, Released, Commanded, AccountSessions.LoggedOut, CommandsDiscard, IsUnlock;
    CommandedQueues(s);
    CommandedQueues(Discarded(s).(adapter := Released(s.adapter), reset := false));
    if x.OwnerReceive? {
      CommandedQueues(s.(adapter := Handled(s.limits, s.adapter, x.at, x.fedAt, x.peer, x.packet, x.native).0));
    }
  }

  /** The pending reset, exactly: a caller revoked, and the owner has not come round since. */
  lemma {:induction false} ResetPendsExactly(run: Run, n: nat)
    requires n <= |run.steps|
    ensures run.State(n).reset <==> ResetPends(run, n)
  {
    hide Stepped, RevokedBy, Starts;
    if n > 0 {
      ResetPendsExactly(run, n - 1);
      ResetStep(run.State(n - 1), n - 1, run.steps[n - 1]);
      if ResetPends(run, n - 1) && !Answers(run, n - 1) {
        var k: nat :| k < n - 1 && run.Revokes(k) && forall j | k < j < n - 1 :: !Answers(run, j);
        assert forall j | k < j < n :: !Answers(run, j);
      }
      if run.Revokes(n - 1) { RevokingIsNoAnswer(run, n - 1); }
    }
  }

  lemma RevokingIsNoAnswer(run: Run, n: nat)
    requires n < |run.steps| && run.Revokes(n)
    ensures !Answers(run, n)
  {
  }

  lemma UnlockMeans(item: Item)
    ensures IsUnlock(item.output) <==> Unlocks(item)
  {
    if item.output.evaluation.Some? && item.output.evaluation.value.Evaluation? {
      var events := item.output.evaluation.value.events;
      if Unlocks(item) {
        var i :| 0 <= i < |events| && events[i].kind == TRIGGERED;
        assert events[i].id in TriggeredIn(events);
      } else {
        assert TriggeredIn(events) == {};
      }
    }
  }

  /** What waits in this state. */
  predicate Holds(s: Service, w: Waiting) { s.frames == w.frames && s.unlocks == w.unlocks && s.latest == w.latest }

  lemma PutWaits(s: Service, n: nat, w: Waiting)
    requires Holds(s, w) && Puts(s, OwnerEnqueue)
    ensures Holds(Stepped(s, n, OwnerEnqueue).0, w.With(s.stage.item, s.capacity))
  {
    hide IsUnlock, Unlocks;
    UnlockMeans(s.stage.item);
  }

  lemma TakeWaits(s: Service, n: nat, w: Waiting)
    requires Holds(s, w)
    ensures Holds(Stepped(s, n, CallerTakeFrame).0, if s.reset then w else w.WithoutFirstFrame())
    ensures Holds(Stepped(s, n, CallerTakeEvaluation).0, if s.reset then w else w.WithoutFirstEvaluation())
  {
  }

  /** Whether the routine state is there too, where the queues are emptied or kept. */
  lemma LatestKeptOrEmptied(s: Service, n: nat, x: Step)
    requires x != CallerTakeFrame && x != CallerTakeEvaluation && !Puts(s, x)
    ensures var t := Stepped(s, n, x).0; t.latest == if Empties(s, x) then None else s.latest
  {
    hide Act, Handled, Released, Commanded, CommandsDiscard, AccountSessions.LoggedOut, IsUnlock;
    CommandedQueues(s);
    CommandedQueues(Discarded(s).(adapter := Released(s.adapter), reset := false));
    if x.OwnerReceive? {
      CommandedQueues(s.(adapter := Handled(s.limits, s.adapter, x.at, x.fedAt, x.peer, x.packet, x.native).0));
    }
  }

  lemma OtherWaits(s: Service, n: nat, x: Step, w: Waiting)
    requires x != CallerTakeFrame && x != CallerTakeEvaluation && !Puts(s, x) && Holds(s, w)
    ensures Holds(Stepped(s, n, x).0, if Empties(s, x) then Waiting([], [], None) else w)
  {
    hide Stepped, Empties;
    LatestKeptOrEmptied(s, n, x);
    if Starts(s, x) {
      StartsWithNothing(s, n, x);
      StartingEmpties(s, x);
    } else {
      StepKeepsOrEmpties(s, n, x);
    }
  }

  lemma StartingEmpties(s: Service, x: Step)
    requires Starts(s, x)
    ensures Empties(s, x)
  {
  }

  lemma PuttingIsEnqueueing(s: Service, x: Step)
    ensures Puts(s, x) ==> x == OwnerEnqueue && !Empties(s, x)
    ensures x == CallerTakeFrame || x == CallerTakeEvaluation ==> !Empties(s, x) && !Puts(s, x)
  {
  }

  /** The queues are, at every moment, what was put since they were last emptied, without what was taken. */
  lemma {:induction false} AlwaysWaiting(run: Run, n: nat)
    requires run.capacity >= 1 && n <= |run.steps|
    ensures Holds(run.State(n), WaitingAt(run, n))
  {
    hide Stepped, Empties, Puts, Waiting.With, ResetPends;
    if n > 0 {
      AlwaysWaiting(run, n - 1);
      ResetPendsExactly(run, n - 1);
      CapacityKept(run, n - 1);
      var s, x, w := run.State(n - 1), run.steps[n - 1], WaitingAt(run, n - 1);
      PuttingIsEnqueueing(s, x);
      if Puts(s, x) {
        PutWaits(s, n - 1, w);
      } else if x == CallerTakeFrame || x == CallerTakeEvaluation {
        TakeWaits(s, n - 1, w);
      } else {
        OtherWaits(s, n - 1, x, w);
      }
    }
  }

  lemma {:induction false} CapacityKept(run: Run, n: nat)
    requires n <= |run.steps|
    ensures run.State(n).capacity == run.capacity
  {
    hide Stepped;
    if n > 0 {
      CapacityKept(run, n - 1);
      StepCapacity(run.State(n - 1), n - 1, run.steps[n - 1]);
    }
  }

  /**
   * What a caller is handed, exactly. A frame: the oldest that was put since the queues were last emptied and not
   * taken since. An evaluation: the oldest unlock of that kind, and without any the newest evaluation, if it is a
   * routine one. And nothing while a revocation has not been answered.
   */
  lemma HandedOutExactly(run: Run, n: nat)
    requires run.capacity >= 1 && n < |run.steps|
    ensures var w, pends := WaitingAt(run, n), ResetPends(run, n);
      && (run.steps[n] == CallerTakeFrame ==>
            run.Taken(n) == if pends || w.frames == [] then None else Some(w.frames[0]))
      && (run.steps[n] == CallerTakeEvaluation ==> run.Taken(n) == if pends then None else w.FirstEvaluation())
  {
    hide ResetPends, WaitingAt;
    AlwaysWaiting(run, n);
    ResetPendsExactly(run, n);
  }

  // ----- What is received is put -----

  predicate IsCaller(x: Step) {
    || x == CallerReset || x.CallerBind? || x.CallerClear? || x.CallerCallback? || x == CallerTakeFrame
    || x == CallerTakeEvaluation
  }

  lemma CallersLeaveTheOwner(s: Service, n: nat, x: Step)
    requires IsCaller(x)
    ensures Stepped(s, n, x).0.stage == s.stage
  {
  }

  lemma {:induction false} StageKept(run: Run, n: nat, m: nat)
    requires n <= m <= |run.steps| && forall k | n <= k < m :: IsCaller(run.steps[k])
    ensures run.State(m).stage == run.State(n).stage
  {
    hide Stepped;
    if n < m {
      StageKept(run, n, m - 1);
      CallersLeaveTheOwner(run.State(m - 1), m - 1, run.steps[m - 1]);
    }
  }

  lemma ArrivingIsHeld(run: Run, n: nat, item: Item)
    requires n < |run.steps| && Arrives(run.State(n), n, run.steps[n], item)
    requires item.output.evaluation != Some(Result.Raised)
    ensures run.State(n + 1).stage == Holding(item)
  {
    hide Handled;
  }

  lemma HeldIsSent(run: Run, n: nat, item: Item)
    requires n < |run.steps| && run.steps[n] == OwnerVerify && run.State(n).stage == Holding(item)
    ensures run.State(n + 1).stage == Sending(item)
  {
  }

  lemma ReceivedIsSent(run: Run, n: nat, i: nat, j: nat, item: Item)
    requires n < i < j < |run.steps| && Arrives(run.State(n), n, run.steps[n], item)
    requires item.output.evaluation != Some(Result.Raised) && run.steps[i] == OwnerVerify
    requires forall k | n < k < j && k != i :: IsCaller(run.steps[k])
    ensures run.State(j).stage == Sending(item)
  {
    hide Arrives, Run.State, IsCaller;
    ArrivingIsHeld(run, n, item);
    StageKept(run, n + 1, i);
    HeldIsSent(run, i, item);
    StageKept(run, i + 1, j);
  }

  /**
   * Nothing that comes in is lost on the way: a frame that the owner received and did not fail on is put as soon as
   * the owner has come to it, whatever callers do meanwhile, unless one of them revoked.
   */
  lemma ReceivedIsPut(run: Run, n: nat, i: nat, j: nat, item: Item)
    requires run.capacity >= 1 && n < i < j < |run.steps|
    requires Arrives(run.State(n), n, run.steps[n], item)
    requires item.output.wire.frame.Some? && item.output.evaluation != Some(Result.Raised)
    requires run.steps[i] == OwnerVerify && run.steps[j] == OwnerEnqueue
    requires forall k | n < k < j && k != i :: IsCaller(run.steps[k])
    ensures run.State(j).stage == Sending(item)
    ensures Puts(run.State(j), run.steps[j]) <==> !ResetPends(run, j)
    ensures !ResetPends(run, j) ==>
      var w := WaitingAt(run, j + 1);
      && w.frames != [] && w.frames[|w.frames| - 1] == item
      && (if Unlocks(item) then item in w.unlocks || |WaitingAt(run, j).unlocks| >= run.capacity else w.latest == Some(item))
  {
    hide Arrives, Run.State, ResetPends, Unlocks, Empties, WaitingAt, Puts, IsCaller, Waiting.With;
    ReceivedIsSent(run, n, i, j, item);
    ResetPendsExactly(run, j);
    SentIsPut(run.State(j), item);
    if !ResetPends(run, j) {
      PuttingIsEnqueueing(run.State(j), run.steps[j]);
      NewestWaits(run, j, item);
    }
  }

  lemma SentIsPut(s: Service, item: Item)
    requires s.stage == Sending(item) && item.output.wire.frame.Some?
    ensures Puts(s, OwnerEnqueue) <==> !s.reset
  {
  }

  lemma NewestWaits(run: Run, j: nat, item: Item)
    requires j < |run.steps| && Puts(run.State(j), run.steps[j]) && run.State(j).stage == Sending(item)
    requires !Empties(run.State(j), run.steps[j])
    ensures WaitingAt(run, j + 1) == WaitingAt(run, j).With(item, run.capacity)
    ensures var w := WaitingAt(run, j + 1);
      && w.frames != [] && w.frames[|w.frames| - 1] == item
      && (if Unlocks(item) then item in w.unlocks || |WaitingAt(run, j).unlocks| >= run.capacity else w.latest == Some(item))
  {
    hide Empties, Puts, ResetPends, Unlocks, Run.State;
    var before := WaitingAt(run, j);
    assert WaitingAt(run, j + 1) == before.With(item, run.capacity);
    assert item in before.unlocks + [item];
  }

  // ----- What callers leave, and how the owner goes round -----

  /** What a call asks the owner to do. */
  function Asked(s: Service, x: Step): seq<Command> {
    match x
    case CallerBind(account) => [BindTo(account)]
    case CallerClear(forget) => if s.profile.Some? || !forget then [Drop(forget)] else []
    case CallerCallback(calls) => if s.profile.Some? then [Callback(calls)] else []
    case _ => []
  }

  /**
   * A call never touches what belongs to the owner: it leaves a command, shows the account it binds or, when it clears,
   * nobody in a new epoch, and pulls the revocation; the receiver, the session and the loop are as they were.
   */
  lemma CallersOnlyAsk(s: Service, n: nat, x: Step)
    requires IsCaller(x)
    ensures var t := Stepped(s, n, x).0;
      && t.adapter == s.adapter && t.profile == s.profile && t.stage == s.stage
      && t.commands == s.commands + Asked(s, x)
      && (t.account, t.epoch) ==
         (match x
          case CallerBind(account) => (Some(account.name), account.epoch)
          case CallerClear(forget) => if s.profile.Some? || !forget then (None, s.epoch + 1) else (s.account, s.epoch)
          case _ => (s.account, s.epoch))
      && t.reset == (s.reset || RevokedBy(s, x))
  {
    assert s.commands + [] == s.commands;
  }

  /** Whether the owner's next datagram ends the thread. */
  predicate Fails(s: Service, x: Step)
    requires x.OwnerReceive?
  {
    Handled(s.limits, s.adapter, x.at, x.fedAt, x.peer, x.packet, x.native).1.evaluation == Some(Result.Raised)
  }

  /**
   * The owner's loop: top, work, check, listen, and with a datagram verify and queue, back to the top; or the end,
   * and a new start.
   */
  lemma OwnerGoesRound(s: Service, n: nat, x: Step)
    requires !IsCaller(x)
    ensures var t := Stepped(s, n, x).0;
      match x
      case OwnerStart(_) => if s.stage == Halted then t.stage == AtTop else t == s
      case OwnerTop => if s.stage == AtTop then t.stage == Working else t == s
      case OwnerEnd => t.stage == Halted && (s.stage == Halted ==> t == s)
      case OwnerWork(action) =>
        t == if s.stage == Working && (action.Advance? || action.Poll? || action.Finish? || action.FinishSet?)
             then s.(adapter := Act(s.limits, s.adapter, action)) else s
      case OwnerCheck => if s.stage == Working then t.stage == Listening && t.adapter == s.adapter else t == s
      case OwnerIdle => t == if s.stage == Listening then s.(stage := AtTop) else s
      case OwnerReceive(at, fedAt, peer, packet, native) =>
        if s.stage != Listening then t == s
        else if Fails(s, x) then t.stage == Halted
        else
          var (a, output) := Handled(s.limits, s.adapter, at, fedAt, peer, packet, native);
          t == s.(adapter := a, stage := Holding(Item(n, output)))
      case OwnerVerify => if s.stage.Holding? then t.stage == Sending(s.stage.item) && t.adapter == s.adapter else t == s
      case OwnerEnqueue => if s.stage.Sending? then t.stage == AtTop && t.adapter == s.adapter else t == s
      case _ => true
  {
    hide Act, Handled, Commanded, Released;
  }

  // ----- What the owner does for callers -----

  /** Commands are obeyed one after another, the last one last. */
  lemma {:induction false} LastIsObeyedLast(s: Service)
    requires s.commands != []
    ensures var n := |s.commands| - 1;
      Commanded(s) == Obeyed(Commanded(s.(commands := s.commands[..n])), s.commands[n])
    decreases |s.commands|
  {
    hide Obeyed;
    var n, first := |s.commands| - 1, s.commands[0];
    var front := s.(commands := s.commands[..n]);
    if n == 0 {
      ObeyedCommands(s, first);
      CommandedQueues(s.(commands := []));
      CommandedQueues(Obeyed(s.(commands := []), first));
      ObeyingLeavesQueue(s.(commands := []), first, []);
      assert s.commands[1..] == [] && s.commands[..0] == [];
    } else {
      var t := Obeyed(s, first).(commands := s.commands[1..]);
      assert t.commands[..n - 1] == front.commands[1..] && front.commands[0] == first;
      ObeyingLeavesQueue(s, first, front.commands);
      LastIsObeyedLast(t);
      assert t.commands[n - 1] == s.commands[n];
    }
  }

  /** What an obeyed binding or clearing leaves. */
  lemma ObeyedLeaves(s: Service, c: Command)
    ensures var t := Obeyed(s, c);
      && (c.BindTo? ==> t.adapter.account == Some(c.account) && t.account == Some(c.account.name) && t.epoch == c.account.epoch)
      && (c.Drop? ==> t.adapter.account.None? && t.account.None?)
      && (c.Drop? && s.profile.Some? ==>
            && t.profile.Some? && t.profile.value.credentials.None? && t.profile.value.context.None?
            && t.profile.value.pending.None?
            && t.profile.value.store == if c.forget then None else s.profile.value.store)
  {
    hide Released;
  }

  /**
   * When the owner comes round it has obeyed every command, and the last one stands: the account that was bound is
   * the receiver's and the one shown, and after a clearing neither has any, nor the session of a profile.
   */
  lemma TopObeysTheLast(s: Service)
    requires s.stage == AtTop && s.commands != []
    ensures var t, c := ToppedUp(s), s.commands[|s.commands| - 1];
      && t.commands == [] && !t.reset
      && (c.BindTo? ==> t.adapter.account == Some(c.account) && t.account == Some(c.account.name) && t.epoch == c.account.epoch)
      && (c.Drop? ==> t.adapter.account.None? && t.account.None?)
      && (c.Drop? && s.profile.Some? ==>
            t.profile.Some? && t.profile.value.credentials.None? && (c.forget ==> t.profile.value.store.None?))
  {
    hide Released, Obeyed, Commanded, Called;
    var from := if s.reset then Discarded(s).(adapter := Released(s.adapter), reset := false) else s;
    CommandedQueues(from);
    LastIsObeyedLast(from);
    var before := Commanded(from.(commands := from.commands[..|from.commands| - 1]));
    ProfileStays(from.(commands := from.commands[..|from.commands| - 1]));
    ObeyedLeaves(before, s.commands[|s.commands| - 1]);
  }

  lemma {:induction false} ProfileStays(s: Service)
    ensures Commanded(s).profile.Some? <==> s.profile.Some?
    decreases |s.commands|
  {
    hide Bound, Unbound, Called, AccountSessions.LoggedOut;
    if s.commands != [] { ProfileStays(Obeyed(s, s.commands[0]).(commands := s.commands[1..])); }
  }

  /** A pending reset is carried out: receiver, list, jobs and native state go, and the account stays. */
  lemma TopCarriesOutReset(s: Service)
    requires s.stage == AtTop && s.reset && s.commands == [] && Accounted(s.adapter)
    ensures var t := ToppedUp(s);
      && !t.reset && t.frames == [] && t.unlocks == [] && t.latest.None?
      && t.adapter.receiver.owner.None? && t.adapter.receiver.pending.None? && t.adapter.receiver.watching.watch.None?
      && t.adapter.evaluator.None? && t.adapter.context.None? && t.adapter.live == 0 && t.adapter.account == s.adapter.account
  {
    ReleasedKeeps(s.adapter);
  }

  /**
   * The end leaves nothing but the counters and what the store holds; starting again begins with that store, and
   * with what callers ask for meanwhile.
   */
  lemma EndLeavesNothing(s: Service, n: nat, now: real)
    requires s.stage != Halted && Accounted(Commanded(s).adapter)
    ensures var t := Stepped(s, n, OwnerEnd).0;
      && t.stage == Halted && t.frames == [] && t.unlocks == [] && t.latest.None? && t.account.None? && t.epoch == 0
      && t.adapter.receiver.owner.None? && t.adapter.evaluator.None? && t.adapter.context.None? && t.adapter.live == 0
      && t.commands == [] && (t.profile.Some? <==> s.profile.Some?)
      && (t.profile.Some? ==> t.profile.value.credentials.None? && t.profile.value.store == Commanded(s).profile.value.store)
      && var again := Stepped(t, n + 1, OwnerStart(now)).0;
         && again.stage == AtTop && again.adapter == Start(now)
         && (again.profile.Some? <==> t.profile.Some?)
         && (again.profile.Some? ==>
               again.profile.value.credentials.None? && again.profile.value.store == t.profile.value.store)
  {
    hide Commanded, Bound;
    ProfileStays(s);
    CommandedQueues(s);
    var c := Commanded(s);
    AccountRuns.UnboundKeeps(c.adapter);
    ReleasedKeeps(c.adapter);
    ReleasedKeeps(Unbound(c.adapter));
  }
}

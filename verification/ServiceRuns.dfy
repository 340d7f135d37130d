/**
 * Every interleaving of callers and owner: what a reset hides, in which order
 * evaluations come out, where every frame goes, and whose evaluations they are.
 */
module ServiceRuns {
  import opened Common
  import opened Receivers
  import opened Evaluators
  import opened EvaluatedReceivers
  import opened AttributionRuns
  import opened OwnedServices

  /** Calling this makes everything received so far invisible. */
  predicate RevokedBy(s: Service, x: Step) {
    || x == CallerReset || (x.CallerClear? && Enabled(s, x))
    || (x.CallerBind? && AccountOf(s) != Some(x.account))
  }

  /** A run of the service, `stored` being what the credential store holds if there is an account profile. */
  datatype Run = Run(limits: Limits, start: real, capacity: nat, stored: Option<Option<AccountSessions.Credentials>>,
                     steps: seq<Step>)
  {
    function State(n: nat): Service
      requires n <= |steps|
    {
      if n == 0 then Begin(limits, capacity, start, stored) else Stepped(State(n - 1), n - 1, steps[n - 1]).0
    }

    /** What step n hands to its caller. */
    function Taken(n: nat): Option<Item>
      requires n < |steps|
    {
      Stepped(State(n), n, steps[n]).1
    }

    /** Step n makes everything received so far invisible. */
    predicate Revokes(n: nat)
      requires n < |steps|
    {
      RevokedBy(State(n), steps[n])
    }

    /** Everything below this index was received before the last revocation. */
    function Horizon(n: nat): nat
      requires n <= |steps|
    {
      if n == 0 then 0 else if Revokes(n - 1) then n else Horizon(n - 1)
    }
  }

  // ----- The queues -----

  predicate Increasing(items: seq<Item>) {
    forall i, j | 0 <= i < j < |items| :: items[i].arrival < items[j].arrival
  }

  predicate Within(items: seq<Item>, low: nat, high: nat) {
    forall i | 0 <= i < |items| :: low <= items[i].arrival < high
  }

  function InHand(s: Service): Option<Item> {
    if s.stage.Holding? || s.stage.Sending? then Some(s.stage.item) else None
  }

  predicate SameGeneration(items: seq<Item>, generation: Option<nat>) {
    forall i | 0 <= i < |items| ::
      items[i].output.wire.frame.Some? && generation == Some(items[i].output.wire.frame.value.generation)
  }

  /** In order of arrival, all of one generation, arrived at or after `low` and before `high`. */
  predicate Line(items: seq<Item>, low: nat, high: nat, generation: Option<nat>) {
    Increasing(items) && Within(items, low, high) && SameGeneration(items, generation)
  }

  lemma LineSuffix(items: seq<Item>, k: nat, low: nat, high: nat, generation: Option<nat>)
    requires Line(items, low, high, generation) && k <= |items|
    ensures Line(items[k..], low, high, generation)
  {
  }

  lemma LinePrefix(items: seq<Item>, more: seq<Item>, low: nat, high: nat, generation: Option<nat>)
    requires Line(items + more, low, high, generation)
    ensures Line(items, low, high, generation)
  {
    assert forall i | 0 <= i < |items| :: (items + more)[i] == items[i];
  }

  lemma LineAppend(items: seq<Item>, item: Item, low: nat, high: nat, generation: Option<nat>)
    requires Line(items, low, high, generation) && Within(items, 0, item.arrival) && low <= item.arrival < high
    requires item.output.wire.frame.Some? && generation == Some(item.output.wire.frame.value.generation)
    ensures Line(items + [item], low, high, generation)
  {
  }

  lemma LineLater(items: seq<Item>, low: nat, high: nat, later: nat, generation: Option<nat>)
    requires Line(items, low, high, generation) && high <= later
    ensures Line(items, low, later, generation)
  {
  }

  function LatestSeq(s: Service): seq<Item> { if s.latest.Some? then [s.latest.value] else [] }

  /** The evaluations in the order in which they would be taken. */
  function Pending(s: Service): seq<Item> { s.unlocks + LatestSeq(s) }

  /**
   * The queues hold only what arrived since the last revocation, in order, in one generation and
   * within capacity; a pending reset means they are empty, and a frame in the owner's hands either
   * arrived since the last revocation or will be withheld by that pending reset.
   */
  predicate Ordered(s: Service, n: nat, horizon: nat) {
    && horizon <= n
    && Line(s.frames, horizon, n, s.frameGeneration) && Line(Pending(s), horizon, n, s.frameGeneration)
    && (s.reset ==> s.frames == [] && Pending(s) == [])
    && (forall i | 0 <= i < |s.unlocks| :: IsUnlock(s.unlocks[i].output))
    && (s.latest.Some? ==> !IsUnlock(s.latest.value.output))
    && |s.frames| <= s.capacity && |s.unlocks| <= s.capacity
    && (InHand(s).Some? ==>
          var item := InHand(s).value;
          && item.arrival < n && (s.reset || horizon <= item.arrival)
          && Within(s.frames, 0, item.arrival) && Within(Pending(s), 0, item.arrival)
          && (item.output.evaluation.Some? ==> item.output.wire.frame.Some?)
          && (item.output.wire.frame.Some? ==> item.output.wire.frame.value.generation == Generation(s)))
    && (s.stage.Sending? ==> s.frameGeneration == Some(Generation(s)) || (s.frames == [] && Pending(s) == []))
  }

  lemma EmptyQueues(s: Service)
    requires s.frames == [] && s.unlocks == [] && s.latest.None?
    ensures Pending(s) == []
  {
  }

  lemma OrderedDiscarded(s: Service, n: nat, horizon: nat)
    requires Ordered(s, n, horizon)
    ensures Ordered(Discarded(s), n, horizon) && Ordered(Checked(s), n, horizon)
  {
    hide Line, Pending;
    EmptyQueues(Discarded(s));
    EmptyLine(horizon, n, None, None);
  }

  /** Any revocation by a caller moves the horizon to now. */
  lemma OrderedRevoked(s: Service, n: nat, horizon: nat)
    requires Ordered(s, n, horizon)
    ensures Ordered(ResetBy(s), n + 1, n + 1)
  {
    hide Line, Pending;
    EmptyQueues(ResetBy(s));
    EmptyLine(n + 1, n + 1, None, None);
  }

  lemma OrderedFrameTaken(s: Service, n: nat, horizon: nat)
    requires Ordered(s, n, horizon)
    ensures Ordered(FrameTaken(s).0, n + 1, horizon)
  {
    hide Line;
    if !s.reset && s.frames != [] { LineSuffix(s.frames, 1, horizon, n, s.frameGeneration); }
    LineLater(FrameTaken(s).0.frames, horizon, n, n + 1, s.frameGeneration);
    LineLater(Pending(s), horizon, n, n + 1, s.frameGeneration);
  }

  lemma OrderedEvaluationTaken(s: Service, n: nat, horizon: nat)
    requires Ordered(s, n, horizon)
    ensures Ordered(EvaluationTaken(s).0, n + 1, horizon)
  {
    hide Line;
    var t := EvaluationTaken(s).0;
    if !s.reset && Pending(s) != [] {
      assert Pending(t) == Pending(s)[1..];
      LineSuffix(Pending(s), 1, horizon, n, s.frameGeneration);
    }
    LineLater(s.frames, horizon, n, n + 1, s.frameGeneration);
    LineLater(Pending(t), horizon, n, n + 1, s.frameGeneration);
  }

  /** Some queued callback leaves another generation behind than the one of the queued frames. */
  predicate CommandsDiscard(s: Service)
    decreases |s.commands|
  {
    s.commands != [] &&
    var c := s.commands[0];
    || (c.Callback? && s.frameGeneration != Some(Generation(CalledBack(s, c.calls))))
    || CommandsDiscard(Obeyed(s, c).(commands := s.commands[1..]))
  }

  /** What obeying commands changes besides the queues. */
  predicate SameQueues(s: Service, t: Service) {
    t == s.(adapter := t.adapter, account := t.account, epoch := t.epoch, profile := t.profile, commands := t.commands)
  }

  /** Obeying commands leaves the queues alone, or discards them for another generation. */
  lemma {:induction false} CommandedQueues(s: Service)
    ensures var t := Commanded(s);
      && t.commands == [] && (s.commands == [] ==> t == s)
      && (if CommandsDiscard(s) then SameQueues(Discarded(s), t) else SameQueues(s, t))
    decreases |s.commands|
  {
    hide Bound, Unbound, Called, AccountSessions.LoggedOut;
    if s.commands != [] {
      var t := Obeyed(s, s.commands[0]).(commands := s.commands[1..]);
      ObeyedQueues(s, s.commands[0]);
      CommandedQueues(t);
    }
  }

  lemma ObeyedQueues(s: Service, c: Command)
    ensures var t := Obeyed(s, c);
      if c.Callback? && s.frameGeneration != Some(Generation(CalledBack(s, c.calls))) then SameQueues(Discarded(s), t)
      else SameQueues(s, t)
  {
    hide Bound, Unbound, Called, AccountSessions.LoggedOut;
  }

  lemma OrderedAfterCommands(s: Service, n: nat, horizon: nat)
    requires Ordered(s, n, horizon) && InHand(s).None?
    ensures Ordered(Commanded(s), n, horizon)
  {
    hide Line, Commanded;
    CommandedQueues(s);
    OrderedDiscarded(s, n, horizon);
    assert InHand(Commanded(s)).None?;
  }

  lemma OrderedTop(s: Service, n: nat, horizon: nat)
    requires Ordered(s, n, horizon) && s.stage == AtTop
    ensures Ordered(ToppedUp(s), n + 1, horizon)
  {
    hide Line, Commanded, Released;
    var c := if s.reset then Discarded(s).(adapter := Released(s.adapter), reset := false) else s;
    OrderedDiscarded(s, n, horizon);
    EmptyQueues(Discarded(s));
    OrderedAfterCommands(c, n, horizon);
    LineLater(Commanded(c).frames, horizon, n, n + 1, Commanded(c).frameGeneration);
    LineLater(Pending(Commanded(c)), horizon, n, n + 1, Commanded(c).frameGeneration);
    CommandedQueues(c);
  }

  lemma OrderedHolding(s: Service, n: nat, horizon: nat, a: Sane, output: EvaluatedOutput)
    requires Ordered(s, n, horizon) && s.stage == Listening
    requires output.evaluation.Some? ==> output.wire.frame.Some?
    requires output.wire.frame.Some? ==> output.wire.frame.value.generation == a.receiver.watching.generation
    ensures Ordered(s.(adapter := a, stage := Holding(Item(n, output))), n + 1, horizon)
  {
    hide Accounted, Line;
    LineLater(s.frames, horizon, n, n + 1, s.frameGeneration);
    LineLater(Pending(s), horizon, n, n + 1, s.frameGeneration);
    LineWithin(s.frames, horizon, n, s.frameGeneration);
    LineWithin(Pending(s), horizon, n, s.frameGeneration);
  }

  lemma LineWithin(items: seq<Item>, low: nat, high: nat, generation: Option<nat>)
    requires Line(items, low, high, generation)
    ensures Within(items, 0, high)
  {
  }

  lemma OrderedReceived(s: Service, n: nat, horizon: nat, at: real, fedAt: real, peer: Option<Endpoint>,
                        packet: Packet, native: NativeReply)
    requires Ordered(s, n, horizon) && s.stage == Listening && Accounted(s.adapter)
    ensures Ordered(ReceivedBy(s, n, at, fedAt, peer, packet, native), n + 1, horizon)
  {
    hide Handled, Stopped, Accounted, Line;
    var (a, output) := Handled(s.limits, s.adapter, at, fedAt, peer, packet, native);
    if output.evaluation == Some(Result.Raised) {
      OrderedStopped(s.(adapter := a), n, horizon);
    } else {
      HandledKeeps(s.limits, s.adapter, at, fedAt, peer, packet, native);
      HandledGeneration(s.limits, s.adapter, at, fedAt, peer, packet, native);
      OrderedHolding(s, n, horizon, a, output);
    }
  }

  lemma OrderedStopped(s: Service, n: nat, horizon: nat)
    requires horizon <= n
    ensures Ordered(Stopped(s), n + 1, horizon) && Stopped(s).stage == Halted
  {
    hide Released, Commanded, Line, AccountSessions.LoggedOut;
    CommandedQueues(s);
    EmptyQueues(Stopped(s));
    EmptyLine(horizon, n + 1, None, None);
  }

  lemma OrderedRestarted(s: Service, n: nat, horizon: nat, now: real)
    requires horizon <= n
    ensures Ordered(Restarted(s, now), n + 1, horizon)
  {
    hide Line;
    EmptyQueues(Restarted(s, now));
    EmptyLine(horizon, n + 1, None, None);
  }

  lemma HandledGeneration(l: Limits, a: Sane, at: real, fedAt: real, peer: Option<Endpoint>, packet: Packet, n: NativeReply)
    requires Accounted(a)
    ensures var (s, output) := Handled(l, a, at, fedAt, peer, packet, n);
      output.wire.frame.Some? ==> output.wire.frame.value.generation == s.receiver.watching.generation
  {
    hide Handled;
    HandledKeeps(l, a, at, fedAt, peer, packet, n);
  }

  lemma FramesLineUp(s: Service, n: nat, horizon: nat, item: Item)
    requires Ordered(s, n, horizon) && s.stage == Sending(item) && s.capacity >= 1
    requires item.output.wire.frame.Some? && !s.reset
    ensures var t := FrameQueued(s, item);
      Line(t.frames, horizon, n + 1, t.frameGeneration) && |t.frames| <= t.capacity
  {
    hide Line;
    var g := FrameQueued(s, item).frameGeneration;
    EmptyLine(horizon, n + 1, s.frameGeneration, g);
    LineLater(s.frames, horizon, n, n + 1, s.frameGeneration);
    LineAppend(if |s.frames| >= s.capacity then [] else s.frames, item, horizon, n + 1, g);
  }

  /** What EvaluationQueued makes of the pending evaluations. */
  predicate PendingLinedUp(t: Service, low: nat, high: nat, generation: Option<nat>) {
    && Line(Pending(t), low, high, generation)
    && (forall i | 0 <= i < |t.unlocks| :: IsUnlock(t.unlocks[i].output))
    && (t.latest.Some? ==> !IsUnlock(t.latest.value.output))
    && |t.unlocks| <= t.capacity
  }

  lemma EvaluationsLineUp(s: Service, n: nat, horizon: nat, item: Item)
    requires Ordered(s, n, horizon) && s.stage == Sending(item)
    requires item.output.wire.frame.Some? && !s.reset
    ensures var f := FrameQueued(s, item); PendingLinedUp(EvaluationQueued(f, item), horizon, n + 1, f.frameGeneration)
  {
    hide Line, IsUnlock;
    var g := FrameQueued(s, item).frameGeneration;
    var t := EvaluationQueued(FrameQueued(s, item), item);
    EmptyLine(horizon, n + 1, s.frameGeneration, g);
    LineLater(Pending(s), horizon, n, n + 1, s.frameGeneration);
    LinePrefix(s.unlocks, LatestSeq(s), horizon, n + 1, s.frameGeneration);
    assert forall i | 0 <= i < |s.unlocks| :: Pending(s)[i] == s.unlocks[i];
    LineAppend(s.unlocks, item, horizon, n + 1, g);
    assert t.latest.None? ==> Pending(t) == t.unlocks;
  }

  lemma OrderedEnqueued(s: Service, n: nat, horizon: nat)
    requires Ordered(s, n, horizon) && s.stage.Sending? && s.capacity >= 1
    ensures Ordered(Enqueued(s), n + 1, horizon)
  {
    hide Line, IsUnlock;
    var item := s.stage.item;
    if item.output.wire.frame.Some? && !s.reset {
      FramesLineUp(s, n, horizon, item);
      EvaluationsLineUp(s, n, horizon, item);
    } else {
      LineLater(s.frames, horizon, n, n + 1, s.frameGeneration);
      LineLater(Pending(s), horizon, n, n + 1, s.frameGeneration);
    }
  }

  lemma EmptyLine(low: nat, high: nat, g: Option<nat>, h: Option<nat>)
    ensures Line([], low, high, g) && Line([], low, high, h)
  {
  }

  lemma StepOrdered(s: Service, n: nat, horizon: nat, x: Step)
    requires Ordered(s, n, horizon) && Accounted(s.adapter) && s.capacity >= 1
    requires !RevokedBy(s, x)
    ensures Ordered(Stepped(s, n, x).0, n + 1, horizon)
  {
    hide Line, Act, Commanded, Stopped, Restarted, ReceivedBy, Enqueued, ToppedUp, FrameTaken, EvaluationTaken, Accounted;
    LineLater(s.frames, horizon, n, n + 1, s.frameGeneration);
    LineLater(Pending(s), horizon, n, n + 1, s.frameGeneration);
    if Enabled(s, x) {
      match x
      case CallerTakeFrame => OrderedFrameTaken(s, n, horizon);
      case CallerTakeEvaluation => OrderedEvaluationTaken(s, n, horizon);
      case OwnerTop => OrderedTop(s, n, horizon);
      case OwnerEnd => OrderedStopped(s, n, horizon);
      case OwnerStart(now) => OrderedRestarted(s, n, horizon, now);
      case OwnerReceive(at, fedAt, peer, packet, native) =>
        OrderedReceived(s, n, horizon, at, fedAt, peer, packet, native);
      case OwnerEnqueue => OrderedEnqueued(s, n, horizon);
      case OwnerCheck => OrderedChecked(s, n, horizon);
      case OwnerVerify => OrderedChecked(s, n, horizon);
      case _ =>
    }
  }

  lemma OrderedChecked(s: Service, n: nat, horizon: nat)
    requires Ordered(s, n, horizon)
    ensures Ordered(Checked(s), n + 1, horizon)
    ensures Checked(s).frameGeneration == Some(Generation(s)) || (Checked(s).frames == [] && Pending(Checked(s)) == [])
  {
    hide Line;
    OrderedDiscarded(s, n, horizon);
    LineLater(Checked(s).frames, horizon, n, n + 1, Checked(s).frameGeneration);
    LineLater(Pending(Checked(s)), horizon, n, n + 1, Checked(s).frameGeneration);
    EmptyQueues(Discarded(s));
  }

  // ----- The receiver and the account session of a profile -----

  /** The adapter is accounted for, and the account session of a profile is in order with it. */
  predicate Sound(s: Service) {
    Accounted(s.adapter) && (s.profile.Some? ==> AccountRuns.Aligned(SessionOf(s)))
  }

  /** The session's own invariant does not depend on what else is done with its receiver. */
  lemma SoundWithAdapter(s: Service, a: Sane)
    requires Sound(s) && Accounted(a)
    ensures Sound(s.(adapter := a))
  {
    hide Accounted;
  }

  lemma SoundWithSession(s: Service, t: AccountSessions.SessionState)
    requires AccountRuns.Aligned(t)
    ensures Sound(WithSession(s, t))
  {
    hide Accounted;
    assert SessionOf(WithSession(s, t)) == t;
  }

  lemma {:induction false} CalledAligned(l: Limits, t: AccountSessions.SessionState, calls: seq<SessionCall>)
    requires AccountRuns.Aligned(t)
    ensures AccountRuns.Aligned(Called(l, t, calls))
  {
    hide AccountRuns.Aligned, AccountRuns.Take;
    if calls != [] {
      CalledAligned(l, t, calls[..|calls| - 1]);
      AccountRuns.TakeAligned(l, Called(l, t, calls[..|calls| - 1]), calls[|calls| - 1]);
    }
  }

  lemma ObeyedSound(s: Service, c: Command)
    requires Sound(s)
    ensures Sound(Obeyed(s, c))
  {
    hide Accounted, AccountRuns.Aligned, Bound, Unbound, Called, AccountSessions.LoggedOut;
    match c
    case BindTo(account) =>
      BindingAccounted(s.adapter, Bind(account));
      BoundSound(s, account);
    case Drop(forget) =>
      BindingAccounted(s.adapter, Unbind);
      if s.profile.Some? {
        AccountRuns.LoggedOutAligned(SessionOf(s), forget, true);
        SoundWithSession(s, AccountSessions.LoggedOut(SessionOf(s), forget, true).0);
      }
    case Callback(calls) =>
      if s.profile.Some? {
        CalledAligned(s.limits, SessionOf(s), calls);
        SoundWithSession(s, Called(s.limits, SessionOf(s), calls));
      }
  }

  lemma BoundSound(s: Service, account: Account)
    requires Sound(s) && Accounted(Bound(s.adapter, account))
    ensures Sound(Obeyed(s, BindTo(account)))
  {
    hide Accounted, Bound;
  }

  lemma BindingAccounted(a: Sane, x: Action)
    requires Accounted(a) && (x.Bind? || x.Unbind?)
    ensures Accounted(if x.Bind? then Bound(a, x.account) else Unbound(a))
  {
    hide Accounted, Released;
    ActKeeps(Limits(1.0, 1.0, 1, true), a, x);
  }

  lemma {:induction false} CommandedSound(s: Service)
    requires Sound(s)
    ensures Sound(Commanded(s))
    decreases |s.commands|
  {
    hide Sound, Obeyed;
    if s.commands != [] {
      ObeyedSound(s, s.commands[0]);
      SameSession(Obeyed(s, s.commands[0]), Obeyed(s, s.commands[0]).(commands := s.commands[1..]));
      CommandedSound(Obeyed(s, s.commands[0]).(commands := s.commands[1..]));
    }
  }

  lemma SameSession(s: Service, t: Service)
    requires Sound(s) && t.adapter == s.adapter && t.profile == s.profile
    ensures Sound(t)
  {
    hide Accounted;
  }

  lemma ReleasedAccounted(a: Sane)
    requires Accounted(a)
    ensures Accounted(Released(a))
  {
    ReleasedKeeps(a);
  }

  lemma ToppedSound(s: Service)
    requires Sound(s) && s.stage == AtTop
    ensures Sound(ToppedUp(s))
  {
    hide Accounted, Released, Sound, Commanded;
    var c := if s.reset then Discarded(s).(adapter := Released(s.adapter), reset := false) else s;
    if s.reset {
      SoundAdapter(s);
      ReleasedAccounted(s.adapter);
      SoundWithAdapter(s, Released(s.adapter));
      SameSession(s.(adapter := Released(s.adapter)), c);
    }
    CommandedSound(c);
    SameSession(Commanded(c), ToppedUp(s));
  }

  lemma SoundAdapter(s: Service)
    requires Sound(s)
    ensures Accounted(s.adapter)
  {
  }

  lemma StoppedSound(s: Service)
    requires Sound(s)
    ensures Sound(Stopped(s))
  {
    hide Accounted, Released, Commanded, AccountRuns.Aligned, AccountSessions.LoggedOut;
    CommandedSound(s);
    var c := Commanded(s);
    if c.profile.Some? {
      AccountRuns.LoggedOutAligned(SessionOf(c), false, true);
      SoundWithSession(c, AccountSessions.LoggedOut(SessionOf(c), false, true).0);
    }
    var off := SignedOff(c);
    ReleasedAccounted(off.adapter);
    SoundWithAdapter(off, Released(off.adapter));
    SameSession(off.(adapter := Released(off.adapter)), Stopped(s));
  }

  lemma BeginSound(limits: Limits, capacity: nat, start: real, stored: Option<Option<AccountSessions.Credentials>>)
    ensures Sound(Begin(limits, capacity, start, stored))
  {
    hide Accounted;
    InitialAccounted(start);
    if stored.Some? { AccountRuns.FreshAligned(start, stored.value); }
  }

  lemma RestartedSound(s: Service, now: real)
    ensures Sound(Restarted(s, now))
  {
    hide Sound, Begin;
    var stored := if s.profile.Some? then Some(s.profile.value.store) else None;
    BeginSound(s.limits, s.capacity, now, stored);
    SameSession(Begin(s.limits, s.capacity, now, stored), Restarted(s, now));
  }

  lemma StepSound(s: Service, n: nat, x: Step)
    requires Sound(s)
    ensures Sound(Stepped(s, n, x).0)
  {
    hide Accounted, Sound, Act, Commanded, Released, Handled, Discarded, FrameTaken, EvaluationTaken, Enqueued, ToppedUp,
         Stopped, Restarted, ReceivedBy;
    SoundAdapter(s);
    var t := Stepped(s, n, x).0;
    if Enabled(s, x) {
      match x
      case OwnerTop => ToppedSound(s);
      case OwnerEnd => StoppedSound(s);
      case OwnerStart(now) => RestartedSound(s, now);
      case OwnerWork(action) =>
        ActKeeps(s.limits, s.adapter, action);
        SoundWithAdapter(s, Act(s.limits, s.adapter, action));
      case OwnerReceive(at, fedAt, peer, packet, native) => ReceivedSound(s, n, at, fedAt, peer, packet, native);
      case _ =>
        TakingKeepsAdapter(s);
        SameSession(s, t);
    }
  }

  lemma ReceivedSound(s: Service, n: nat, at: real, fedAt: real, peer: Option<Endpoint>, packet: Packet, native: NativeReply)
    requires Sound(s) && s.stage == Listening
    ensures Sound(ReceivedBy(s, n, at, fedAt, peer, packet, native))
  {
    hide Accounted, Sound, Handled, Stopped;
    SoundAdapter(s);
    HandledKeeps(s.limits, s.adapter, at, fedAt, peer, packet, native);
    InStepAccounted(Handled(s.limits, s.adapter, at, fedAt, peer, packet, native).0);
    var t := s.(adapter := Handled(s.limits, s.adapter, at, fedAt, peer, packet, native).0);
    SoundWithAdapter(s, t.adapter);
    StoppedSound(t);
    SameSession(t, t.(stage := Holding(Item(n, Handled(s.limits, s.adapter, at, fedAt, peer, packet, native).1))));
  }

  lemma InStepAccounted(a: Adapter)
    requires InStep(a)
    ensures Accounted(a)
  {
  }

  lemma TakingKeepsAdapter(s: Service)
    ensures FrameTaken(s).0.adapter == s.adapter && EvaluationTaken(s).0.adapter == s.adapter
    ensures FrameTaken(s).0.profile == s.profile && EvaluationTaken(s).0.profile == s.profile
    ensures s.stage.Sending? ==> Enqueued(s).adapter == s.adapter && Enqueued(s).profile == s.profile
    ensures Discarded(s).adapter == s.adapter && Discarded(s).profile == s.profile
  {
  }

  lemma {:induction false} AlwaysOrdered(run: Run, n: nat)
    requires n <= |run.steps| && run.capacity >= 1
    ensures Ordered(run.State(n), n, run.Horizon(n)) && Sound(run.State(n))
    ensures run.State(n).capacity == run.capacity && run.State(n).limits == run.limits
  {
    hide Ordered, Sound, Stepped, RevokedBy;
    if n == 0 {
      BeginOrdered(run.limits, run.capacity, run.start, run.stored);
      BeginSound(run.limits, run.capacity, run.start, run.stored);
    } else {
      AlwaysOrdered(run, n - 1);
      var s, x := run.State(n - 1), run.steps[n - 1];
      SoundAdapter(s);
      StepSound(s, n - 1, x);
      StepCapacity(s, n - 1, x);
      if run.Revokes(n - 1) {
        RevokingStep(s, n - 1, run.Horizon(n - 1), x);
      } else {
        StepOrdered(s, n - 1, run.Horizon(n - 1), x);
      }
    }
  }

  lemma BeginOrdered(limits: Limits, capacity: nat, start: real, stored: Option<Option<AccountSessions.Credentials>>)
    ensures Ordered(Begin(limits, capacity, start, stored), 0, 0)
  {
    EmptyQueues(Begin(limits, capacity, start, stored));
  }

  lemma StepCapacity(s: Service, n: nat, x: Step)
    ensures Stepped(s, n, x).0.capacity == s.capacity && Stepped(s, n, x).0.limits == s.limits
  {
    hide Act, Handled, Released, Commanded, AccountSessions.LoggedOut, CommandsDiscard;
    CommandedQueues(s);
    CommandedQueues(Discarded(s).(adapter := Released(s.adapter), reset := false));
    if x.OwnerReceive? {
      CommandedQueues(s.(adapter := Handled(s.limits, s.adapter, x.at, x.fedAt, x.peer, x.packet, x.native).0));
    }
  }

  lemma RevokingStep(s: Service, n: nat, horizon: nat, x: Step)
    requires Ordered(s, n, horizon) && RevokedBy(s, x)
    ensures Ordered(Stepped(s, n, x).0, n + 1, n + 1)
  {
    hide Ordered, Commanded, Handled, Released, Discarded, Stopped, Restarted;
    match x
    case CallerReset => OrderedRevoked(s, n, horizon);
    case CallerClear(forget) => ClearingRevokes(s, n, horizon, forget);
    case CallerBind(account) => BindingRevokes(s, n, horizon, account);
  }

  lemma ClearingRevokes(s: Service, n: nat, horizon: nat, forget: bool)
    requires Ordered(s, n, horizon)
    ensures Ordered(ClearedBy(s, forget), n + 1, n + 1)
  {
    hide Line;
    OrderedRevoked(s, n, horizon);
    SamePending(ResetBy(s), ClearedBy(s, forget));
  }

  lemma BindingRevokes(s: Service, n: nat, horizon: nat, account: Account)
    requires Ordered(s, n, horizon) && AccountOf(s) != Some(account)
    ensures Ordered(BoundBy(s, account), n + 1, n + 1)
  {
    hide Line;
    OrderedRevoked(s, n, horizon);
    SamePending(ResetBy(s), BoundBy(s, account));
  }

  lemma SamePending(s: Service, t: Service)
    requires t.unlocks == s.unlocks && t.latest == s.latest
    ensures Pending(t) == Pending(s)
  {
  }
}

/**
 * The owned service: one UDP owner thread, callers on other threads, one lock.
 * Every step below is atomic because the source holds the lock for it, or
 * because it touches only what the owner thread alone may touch.
 */
module OwnedServices {
  import opened Common
  import opened Receivers
  import opened Evaluators
  import opened EvaluatedReceivers
  import opened AttributionRuns
  import AccountSessions
  import AccountRuns

  /** A received datagram's output, numbered by the step that received it. */
  datatype Item = Item(arrival: nat, output: EvaluatedOutput)

  /** Where the owner thread stands in its loop, and what it has received but not yet queued. */
  datatype Stage =
    | AtTop
    | Working
    | Listening
    | Holding(item: Item)
    | Sending(item: Item)
    | Halted

  /** What a callback may do: any calls on the account session. */
  type SessionCall = x: AccountRuns.Move | !x.Receiver? witness AccountRuns.CancelCurrent

  datatype Command = BindTo(account: Account) | Drop(forget: bool) | Callback(calls: seq<SessionCall>)

  /** `profile` is the account session of a service that has one, with its receiver left out. */
  datatype Service = Service(
    limits: Limits, capacity: nat, reset: bool, frames: seq<Item>, unlocks: seq<Item>, latest: Option<Item>,
    droppedFrames: nat, droppedEvaluations: nat, frameGeneration: Option<nat>,
    account: Option<string>, epoch: nat, commands: seq<Command>, profile: Option<AccountSessions.SessionState>,
    adapter: Sane, stage: Stage)

  predicate IsUnlock(o: EvaluatedOutput) {
    o.evaluation.Some? && o.evaluation.value.Evaluation? && TriggeredIn(o.evaluation.value.events) != {}
  }

  /** Stands for the receiver in a profile; the service's own adapter is the session's receiver. */
  const NO_ADAPTER: Sane := Start(0.0)

  /** A service just started; `stored` is what the credential store of a profile holds. */
  function Begin(limits: Limits, capacity: nat, start: real, stored: Option<Option<AccountSessions.Credentials>>): Service {
    Service(limits, capacity, false, [], [], None, 0, 0, None, None, 0, [],
            if stored.Some? then Some(AccountSessions.SignedOut(NO_ADAPTER, stored.value)) else None, Start(start), AtTop)
  }

  function Discarded(s: Service): Service {
    s.(frameGeneration := None, latest := None, frames := [], unlocks := [])
  }

  // ----- Callers -----

  function ResetBy(s: Service): Service { Discarded(s).(reset := true) }

  function AccountOf(s: Service): Option<Account> {
    if s.account.Some? then Some(Account(s.account.value, s.epoch)) else None
  }

  function BoundBy(s: Service, account: Account): Service {
    (if (s.account, s.epoch) != (Some(account.name), account.epoch) then ResetBy(s) else s)
      .(account := Some(account.name), epoch := account.epoch, commands := s.commands + [BindTo(account)])
  }

  function ClearedBy(s: Service, forget: bool): Service {
    ResetBy(s).(account := None, epoch := s.epoch + 1, commands := s.commands + [Drop(forget)])
  }

  function FrameTaken(s: Service): (r: (Service, Option<Item>)) {
    if s.reset || s.frames == [] then (s, None) else (s.(frames := s.frames[1..]), Some(s.frames[0]))
  }

  function EvaluationTaken(s: Service): (r: (Service, Option<Item>)) {
    if s.reset then (s, None)
    else if s.unlocks != [] then (s.(unlocks := s.unlocks[1..]), Some(s.unlocks[0]))
    else (s.(latest := None), s.latest)
  }

  // ----- The account session of a profile -----

  function SessionOf(s: Service): AccountSessions.SessionState
    requires s.profile.Some?
  {
    s.profile.value.(adapter := s.adapter)
  }

  /** The session has acted on the service's receiver. */
  function WithSession(s: Service, t: AccountSessions.SessionState): Service {
    s.(profile := Some(t.(adapter := NO_ADAPTER)), adapter := t.adapter,
       account := if t.credentials.Some? then Some(t.credentials.value.username) else None, epoch := t.epoch)
  }

  function Called(l: Limits, t: AccountSessions.SessionState, calls: seq<SessionCall>): AccountSessions.SessionState {
    if calls == [] then t
    else AccountRuns.Take(l, Called(l, t, calls[..|calls| - 1]), calls[|calls| - 1]).0
  }

  /** A callback, before the check for another generation that follows it. */
  function CalledBack(s: Service, calls: seq<SessionCall>): Service {
    if s.profile.Some? then WithSession(s, Called(s.limits, SessionOf(s), calls)) else s
  }

  function Dropped(s: Service, forget: bool): Service {
    if s.profile.Some? then WithSession(s, AccountSessions.LoggedOut(SessionOf(s), forget, true).0)
    else s.(adapter := Unbound(s.adapter), account := None)
  }

  // ----- The owner thread -----

  function Generation(s: Service): nat { s.adapter.receiver.watching.generation }

  /** A game switch revokes even a completed, unread old frame. */
  function Checked(s: Service): Service {
    if s.frameGeneration != Some(Generation(s)) then Discarded(s) else s
  }

  function Obeyed(s: Service, c: Command): Service {
    match c
    case BindTo(account) =>
      s.(adapter := Bound(s.adapter, account), account := Some(account.name), epoch := account.epoch)
    case Drop(forget) => Dropped(s, forget)
    case Callback(calls) => Checked(CalledBack(s, calls))
  }

  function Commanded(s: Service): Service
    decreases |s.commands|
  {
    if s.commands == [] then s else Commanded(Obeyed(s, s.commands[0]).(commands := s.commands[1..]))
  }

  lemma ObeyedCommands(s: Service, c: Command)
    requires s.commands != [] && c == s.commands[0]
    ensures Commanded(s) == Commanded(Obeyed(s.(commands := s.commands[1..]), c))
  {
    hide Obeyed;
    ObeyingLeavesQueue(s, c, s.commands[1..]);
  }

  lemma ObeyingLeavesQueue(s: Service, c: Command, commands: seq<Command>)
    ensures Obeyed(s.(commands := commands), c) == Obeyed(s, c).(commands := commands)
  {
    hide Bound, Unbound, Called, AccountSessions.LoggedOut, Checked;
    match c
    case BindTo(_) =>
    case Drop(_) =>
    case Callback(calls) => CheckedLeavesQueue(CalledBack(s, calls), commands);
  }

  lemma CheckedLeavesQueue(s: Service, commands: seq<Command>)
    ensures Checked(s.(commands := commands)) == Checked(s).(commands := commands)
  {
  }

  lemma {:induction false} PlainStaysPlain(s: Service)
    requires s.profile.None?
    ensures Commanded(s).profile.None?
    decreases |s.commands|
  {
    hide Bound, Unbound;
    if s.commands != [] { PlainStaysPlain(Obeyed(s, s.commands[0]).(commands := s.commands[1..])); }
  }

  function ToppedUp(s: Service): Service
    requires s.stage == AtTop
  {
    Commanded(if s.reset then Discarded(s).(adapter := Released(s.adapter), reset := false) else s).(stage := Working)
  }

  /** Unlocked work between two locks: completions, polls and ticks. */
  predicate IsWork(x: Action) { x.Advance? || x.Poll? || x.Finish? || x.FinishSet? }

  function Worked(s: Service, x: Action): Service
    requires s.stage == Working && IsWork(x)
  {
    s.(adapter := Act(s.limits, s.adapter, x))
  }

  /** The account session of a profile signs out before everything is released. */
  function SignedOff(s: Service): Service {
    if s.profile.Some? then WithSession(s, AccountSessions.LoggedOut(SessionOf(s), false, true).0) else s
  }

  /** The end of the owner thread, orderly or not: commands are obeyed, then everything is released. */
  function Stopped(s: Service): Service {
    var c := SignedOff(Commanded(s));
    Discarded(c).(adapter := Released(c.adapter), account := None, epoch := 0, stage := Halted)
  }

  /** Starting again: a new receiver, a new session on the same store, and the commands that are still queued. */
  function Restarted(s: Service, now: real): Service {
    Begin(s.limits, s.capacity, now, if s.profile.Some? then Some(s.profile.value.store) else None)
      .(account := s.account, epoch := s.epoch, commands := s.commands)
  }

  /** An evaluator that cannot be rebuilt ends the owner thread. */
  function ReceivedBy(s: Service, n: nat, at: real, fedAt: real, peer: Option<Endpoint>, packet: Packet,
                      native: NativeReply): Service
    requires s.stage == Listening
  {
    var (a, output) := Handled(s.limits, s.adapter, at, fedAt, peer, packet, native);
    var t := s.(adapter := a);
    if output.evaluation == Some(Result.Raised) then Stopped(t) else t.(stage := Holding(Item(n, output)))
  }

  /** A full frame queue gives up its backlog, and counts it, for the new frame. */
  function FrameQueued(s: Service, item: Item): Service
    requires item.output.wire.frame.Some?
  {
    var full := |s.frames| >= s.capacity;
    s.(droppedFrames := s.droppedFrames + (if full then |s.frames| else 0),
       frames := (if full then [] else s.frames) + [item],
       frameGeneration := Some(item.output.wire.frame.value.generation))
  }

  /** An unlock goes behind the unread unlocks or is counted as dropped; anything else replaces the latest state. */
  function EvaluationQueued(s: Service, item: Item): Service {
    if !IsUnlock(item.output) then s.(latest := Some(item))
    else if |s.unlocks| >= s.capacity then s.(latest := None, droppedEvaluations := s.droppedEvaluations + 1)
    else s.(latest := None, unlocks := s.unlocks + [item])
  }

  /** Queueing under the lock: never while a reset is pending. */
  function Queued(s: Service, item: Item): Service
    requires item.output.wire.frame.Some?
  {
    if s.reset then s else EvaluationQueued(FrameQueued(s, item), item)
  }

  function Enqueued(s: Service): Service
    requires s.stage.Sending?
  {
    (if s.stage.item.output.wire.frame.Some? then Queued(s, s.stage.item) else s).(stage := AtTop)
  }

  datatype Step =
    | CallerReset
    | CallerBind(account: Account)
    | CallerClear(forget: bool)
    | CallerCallback(calls: seq<SessionCall>)
    | CallerTakeFrame
    | CallerTakeEvaluation
    | OwnerStart(now: real)
    | OwnerTop
    | OwnerEnd
    | OwnerWork(action: Action)
    | OwnerCheck
    | OwnerIdle
    | OwnerReceive(at: real, fedAt: real, peer: Option<Endpoint>, packet: Packet, native: NativeReply)
    | OwnerVerify
    | OwnerEnqueue

  /**
   * A caller may step at any time, the owner only in its own order, except that it may be stopped, or an
   * exception may end it, anywhere. Removing credentials and callbacks need a profile; a callback that comes as
   * the thread ends waits for the next one.
   */
  predicate Enabled(s: Service, x: Step) {
    match x
    case CallerClear(forget) => forget ==> s.profile.Some?
    case CallerCallback(_) => s.profile.Some?
    case OwnerStart(_) => s.stage == Halted
    case OwnerTop => s.stage == AtTop
    case OwnerEnd => s.stage != Halted
    case OwnerWork(action) => s.stage == Working && IsWork(action)
    case OwnerCheck => s.stage == Working
    case OwnerIdle => s.stage == Listening
    case OwnerReceive(_, _, _, _, _) => s.stage == Listening
    case OwnerVerify => s.stage.Holding?
    case OwnerEnqueue => s.stage.Sending?
    case _ => true
  }

  /** Step number n; a step that is not enabled does not happen. */
  function Stepped(s: Service, n: nat, x: Step): (r: (Service, Option<Item>)) {
    if !Enabled(s, x) then (s, None)
    else match x
      case CallerReset => (ResetBy(s), None)
      case CallerBind(account) => (BoundBy(s, account), None)
      case CallerClear(forget) => (ClearedBy(s, forget), None)
      case CallerCallback(calls) => (s.(commands := s.commands + [Callback(calls)]), None)
      case CallerTakeFrame => FrameTaken(s)
      case CallerTakeEvaluation => EvaluationTaken(s)
      case OwnerStart(now) => (Restarted(s, now), None)
      case OwnerTop => (ToppedUp(s), None)
      case OwnerEnd => (Stopped(s), None)
      case OwnerWork(action) => (Worked(s, action), None)
      case OwnerCheck => (Checked(s).(stage := Listening), None)
      case OwnerIdle => (s.(stage := AtTop), None)
      case OwnerReceive(at, fedAt, peer, packet, native) => (ReceivedBy(s, n, at, fedAt, peer, packet, native), None)
      case OwnerVerify => (Checked(s).(stage := Sending(s.stage.item)), None)
      case OwnerEnqueue => (Enqueued(s), None)
  }

  /** A service without an account profile. */
  class OwnedService {
    const capacity: nat
    const receiver: EvaluatedReceiver
    var reset: bool
    var frames: seq<Item>
    var unlocks: seq<Item>
    var latest: Option<Item>
    var droppedFrames: nat
    var droppedEvaluations: nat
    var frameGeneration: Option<nat>
    var account: Option<string>
    var epoch: nat
    var commands: seq<Command>
    var stage: Stage

    ghost predicate Valid()
      reads this, receiver, receiver.library, receiver.receiver, receiver.receiver.session,
            receiver.receiver.session.assembler, receiver.evaluator
    {
      receiver.Valid()
    }

    /** No callback is queued: there is no session to hand it to. */
    predicate Plain()
      reads this
    {
      forall i | 0 <= i < |commands| :: !commands[i].Callback?
    }

    ghost function Model(): Service
      requires Valid()
      reads this, receiver, receiver.library, receiver.receiver, receiver.receiver.session,
            receiver.receiver.session.assembler, receiver.evaluator
    {
      Service(receiver.receiver.limits, capacity, reset, frames, unlocks, latest, droppedFrames, droppedEvaluations,
              frameGeneration, account, epoch, commands, None, receiver.Model(), stage)
    }

    constructor (capacity: nat, limits: Limits, now: real)
      requires limits.Valid()
      ensures Valid() && Model() == Begin(limits, capacity, now, None)
    {
      this.capacity := capacity;
      receiver := new EvaluatedReceiver(limits, now);
      reset, frames, unlocks, latest := false, [], [], None;
      droppedFrames, droppedEvaluations, frameGeneration := 0, 0, None;
      account, epoch, commands, stage := None, 0, [], AtTop;
    }

    method DiscardFrame()
      requires Valid()
      modifies this`frameGeneration, this`latest, this`frames, this`unlocks
      ensures Valid() && Model() == Discarded(old(Model()))
    {
      hide EvaluatedReceiver.Valid, EvaluatedReceiver.Model;
      frameGeneration, latest := None, None;
      while frames != []
        invariant Valid() && Model() == old(Model()).(frameGeneration := None, latest := None, frames := frames)
        decreases |frames|
      {
        frames := frames[1..];
      }
      while unlocks != []
        invariant Valid() && Model() == Discarded(old(Model())).(unlocks := unlocks)
        decreases |unlocks|
      {
        unlocks := unlocks[1..];
      }
    }

    // ----- Called from any thread -----

    method Reset()
      requires Valid()
      modifies this
      ensures Valid() && Model() == ResetBy(old(Model()))
    {
      reset := true;
      DiscardFrame();
    }

    /** An identity that no account has is refused before anything changes. */
    method BindAccount(name: string, epoch: nat) returns (bound: bool)
      requires Valid()
      modifies this
      ensures bound <==> AccountSessions.Plain(name, 64) && 1 <= epoch <= AccountSessions.MAX_ID
      ensures Valid() && Model() == if bound then BoundBy(old(Model()), Account(name, epoch)) else old(Model())
    {
      hide EvaluatedReceiver.Valid, EvaluatedReceiver.Model, AccountSessions.Plain;
      if !AccountSessions.Plain(name, 64) || !(1 <= epoch <= AccountSessions.MAX_ID) { return false; }
      if (Some(name), epoch) != (account, this.epoch) {
        reset := true;
        DiscardFrame();
      }
      account, this.epoch := Some(name), epoch;
      commands := commands + [BindTo(Account(name, epoch))];
      return true;
    }

    /** Without a profile there are no credentials to forget, and asking for that changes nothing. */
    method ClearAccount(forget: bool) returns (cleared: bool)
      requires Valid()
      modifies this
      ensures cleared <==> !forget
      ensures Valid() && Model() == if cleared then ClearedBy(old(Model()), forget) else old(Model())
    {
      hide EvaluatedReceiver.Valid, EvaluatedReceiver.Model;
      if forget { return false; }
      reset := true;
      DiscardFrame();
      account, epoch := None, epoch + 1;
      commands := commands + [Drop(forget)];
      return true;
    }

    method TakeFrame() returns (item: Option<Item>)
      requires Valid()
      modifies this`frames
      ensures Valid() && (Model(), item) == FrameTaken(old(Model()))
    {
      if reset || frames == [] { return None; }
      item, frames := Some(frames[0]), frames[1..];
    }

    method TakeEvaluation() returns (item: Option<Item>)
      requires Valid()
      modifies this`unlocks, this`latest
      ensures Valid() && (Model(), item) == EvaluationTaken(old(Model()))
    {
      if reset { return None; }
      if unlocks != [] {
        item, unlocks := Some(unlocks[0]), unlocks[1..];
      } else {
        item, latest := latest, None;
      }
    }

    // ----- Called from the owner thread only -----

    method Obey(command: Command)
      requires Valid() && !command.Callback?
      modifies this`account, this`epoch
      modifies receiver, receiver.library, receiver.receiver, receiver.receiver.session,
               receiver.receiver.session.assembler, receiver.evaluator
      ensures Valid() && Model() == Obeyed(old(Model()), command)
      ensures receiver.evaluator == null || receiver.evaluator == old(receiver.evaluator) || fresh(receiver.evaluator)
      ensures receiver.receiver.session.assembler == null || fresh(receiver.receiver.session.assembler)
              || receiver.receiver.session.assembler == old(receiver.receiver.session.assembler)
    {
      hide Bound, Unbound, EvaluatedReceiver.Valid, EvaluatedReceiver.Model;
      match command {
        case BindTo(a) =>
          receiver.BindAccount(a);
          account, epoch := Some(a.name), a.epoch;
        case Drop(_) =>
          receiver.ClearAccount();
          account := None;
      }
    }

    method DrainCommands()
      requires Valid() && Plain()
      modifies this`account, this`epoch, this`commands
      modifies receiver, receiver.library, receiver.receiver, receiver.receiver.session,
               receiver.receiver.session.assembler, receiver.evaluator
      ensures Valid() && Model() == Commanded(old(Model()))
      ensures receiver.evaluator == null || receiver.evaluator == old(receiver.evaluator) || fresh(receiver.evaluator)
      ensures receiver.receiver.session.assembler == null || fresh(receiver.receiver.session.assembler)
              || receiver.receiver.session.assembler == old(receiver.receiver.session.assembler)
    {
      hide Bound, Unbound, Obeyed, EvaluatedReceiver.Valid, EvaluatedReceiver.Model;
      while commands != []
        invariant Valid() && Plain() && Commanded(Model()) == Commanded(old(Model()))
        invariant receiver.evaluator == null || receiver.evaluator == old(receiver.evaluator) || fresh(receiver.evaluator)
        invariant receiver.receiver.session.assembler == null || fresh(receiver.receiver.session.assembler)
                  || receiver.receiver.session.assembler == old(receiver.receiver.session.assembler)
        decreases |commands|
      {
        ghost var before := Model();
        var command := commands[0];
        commands := commands[1..];
        Obey(command);
        assert Model() == Obeyed(before.(commands := before.commands[1..]), command);
        ObeyedCommands(before, command);
      }
    }

    /** The locked section at the top of the owner's loop. */
    method Top()
      requires Valid() && Plain() && stage == AtTop
      modifies this
      modifies receiver, receiver.library, receiver.receiver, receiver.receiver.session,
               receiver.receiver.session.assembler, receiver.evaluator
      ensures Valid() && Model() == ToppedUp(old(Model()))
    {
      hide Released, Commanded, EvaluatedReceiver.Valid, EvaluatedReceiver.Model;
      if reset {
        receiver.Reset();
        DiscardFrame();
        reset := false;
      }
      DrainCommands();
      stage := Working;
    }

    /** The locked check before listening and again before replying. */
    method CheckGeneration()
      requires Valid()
      modifies this`frameGeneration, this`latest, this`frames, this`unlocks
      ensures Valid() && Model() == Checked(old(Model()))
    {
      if frameGeneration != Some(receiver.receiver.session.generation) {
        DiscardFrame();
      }
    }

    /** The end of the owner thread. */
    method Shutdown()
      requires Valid() && Plain()
      modifies this
      modifies receiver, receiver.library, receiver.receiver, receiver.receiver.session,
               receiver.receiver.session.assembler, receiver.evaluator
      ensures Valid() && Model() == Stopped(old(Model()))
    {
      hide Released, Commanded, Discarded, OwnedService.Valid, OwnedService.Model, EvaluatedReceiver.Valid;
      PlainModel();
      PlainStaysPlain(Model());
      DrainCommands();
      ReleaseAll();
    }

    lemma PlainModel()
      requires Valid()
      ensures Model().profile.None?
    {
    }

    method ReleaseAll()
      requires Valid()
      modifies this
      modifies receiver, receiver.library, receiver.receiver, receiver.receiver.session,
               receiver.receiver.session.assembler, receiver.evaluator
      ensures Valid()
      ensures Model() == Discarded(old(Model())).(adapter := Released(old(Model()).adapter), account := None, epoch := 0,
                                                  stage := Halted)
    {
      hide Released, Commanded, EvaluatedReceiver.Valid, EvaluatedReceiver.Model;
      receiver.Reset();
      DiscardFrame();
      account, epoch, stage := None, 0, Halted;
    }

    method Receive(n: nat, at: real, fedAt: real, peer: Option<Endpoint>, packet: Packet, native: NativeReply)
      requires Valid() && Plain() && stage == Listening
      modifies this
      modifies receiver, receiver.library, receiver.receiver, receiver.receiver.session,
               receiver.receiver.session.assembler, receiver.evaluator
      ensures Valid()
      ensures Model() == ReceivedBy(old(Model()), n, at, fedAt, peer, packet, native)
    {
      hide Handled, Stopped, OwnedService.Valid, OwnedService.Model, EvaluatedReceiver.Valid, EvaluatedReceiver.Model;
      var output := ReceiveDatagram(at, fedAt, peer, packet, native);
      if output.evaluation == Some(Result.Raised) { Shutdown(); } else { Hold(Item(n, output)); }
    }

    method ReceiveDatagram(at: real, fedAt: real, peer: Option<Endpoint>, packet: Packet, native: NativeReply)
      returns (output: EvaluatedOutput)
      requires Valid()
      modifies receiver, receiver.library, receiver.receiver, receiver.receiver.session,
               receiver.receiver.session.assembler, receiver.evaluator
      ensures Valid()
      ensures var (a, out) := Handled(old(Model()).limits, old(Model()).adapter, at, fedAt, peer, packet, native);
        output == out && Model() == old(Model()).(adapter := a)
      ensures receiver.evaluator == null || receiver.evaluator == old(receiver.evaluator) || fresh(receiver.evaluator)
      ensures receiver.receiver.session.assembler == null || fresh(receiver.receiver.session.assembler)
              || receiver.receiver.session.assembler == old(receiver.receiver.session.assembler)
    {
      hide Handled, EvaluatedReceiver.Valid, EvaluatedReceiver.Model;
      output := receiver.Receive(at, fedAt, peer, packet, native);
    }

    method Hold(item: Item)
      requires Valid()
      modifies this`stage
      ensures Valid() && Model() == old(Model()).(stage := Holding(item))
    {
      hide EvaluatedReceiver.Valid, EvaluatedReceiver.Model;
      stage := Holding(item);
    }

    /** The locked section that queues a frame and its evaluation, unless a reset has come in meanwhile. */
    method Enqueue()
      requires Valid() && stage.Sending?
      modifies this
      ensures Valid() && Model() == Enqueued(old(Model()))
    {
      hide FrameQueued, EvaluationQueued;
      var item := stage.item;
      if item.output.wire.frame.Some? && !reset {
        PutFrame(item);
        PutEvaluation(item);
      }
      stage := AtTop;
    }

    method PutFrame(item: Item)
      requires Valid() && item.output.wire.frame.Some?
      modifies this`frames, this`droppedFrames, this`frameGeneration
      ensures Valid() && Model() == FrameQueued(old(Model()), item)
    {
      if |frames| >= capacity {
        droppedFrames := droppedFrames + |frames|;
        frames := [];
      }
      frames := frames + [item];
      frameGeneration := Some(item.output.wire.frame.value.generation);
    }

    method PutEvaluation(item: Item)
      requires Valid()
      modifies this`latest, this`unlocks, this`droppedEvaluations
      ensures Valid() && Model() == EvaluationQueued(old(Model()), item)
    {
      if IsUnlock(item.output) {
        latest := None;
        if |unlocks| < capacity {
          unlocks := unlocks + [item];
        } else {
          droppedEvaluations := droppedEvaluations + 1;
        }
      } else {
        latest := Some(item);
      }
    }
  }
}

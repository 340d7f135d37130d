/**
 * The account session: an epoch/serial commit protocol around a worker whose
 * late results must never sign an account back in.
 */
module AccountSessions {
  import opened Common
  import opened Receivers
  import opened EvaluatedReceivers

  const MAX_ID := 0xFFFFFFFF

  datatype Credentials = Credentials(username: string, token: string)
  {
    predicate Valid() { Plain(username, 64) && Plain(token, 4096) }
  }

  predicate Plain(s: string, limit: nat) {
    1 <= |s| <= limit && forall c | c in s :: c != '\r' && c != '\n' && c != '\0'
  }

  datatype Operation =
    | Login(username: string, password: string)
    | Resume
    | Import
    | FetchSet(context: SetContext)
    | StartSession(context: SetContext)
    | Award(context: SetContext, achievement: nat)
    | Ping(context: SetContext, presence: string)
  {
    /** Operations whose result is a set of credentials. */
    predicate SignsIn() { Login? || Resume? || Import? }
  }

  datatype Task = Task(id: nat, epoch: nat, operation: Operation, credentials: Option<Credentials>)

  datatype SessionInfo = SessionInfo(gameId: nat, started: nat)

  datatype Payload =
    | SignedIn(credentials: Credentials)
    | Set(qualified: QualifiedSet)
    | Started(info: SessionInfo)
    | Awarded(achievement: nat)
    | Pong

  /** `wellFormed` is the verdict of result validation; `payload` is None for a failure. */
  datatype WorkResult = WorkResult(taskId: nat, epoch: nat, wellFormed: bool, payload: Option<Payload>)
  {
    predicate Valid() {
      wellFormed && (payload.Some? && payload.value.SignedIn? ==> payload.value.credentials.Valid())
    }
  }

  datatype Answer = Yes | No | Error

  /** `cancelled` holds the IDs of tasks whose cancel event is set; event 0 precedes every task. */
  datatype SessionState = SessionState(
    epoch: nat, serial: nat, credentials: Option<Credentials>, pending: Option<Task>,
    identification: Option<Job>, context: Option<SetContext>, info: Option<SessionInfo>,
    cancelled: set<nat>, adapter: Sane, store: Option<Credentials>)

  function SignedOut(adapter: Sane, store: Option<Credentials>): SessionState {
    SessionState(0, 0, None, None, None, None, None, {}, adapter, store)
  }

  /** Revokes pending work and live state; stored credentials go only on request, and may fail to. */
  function LoggedOut(s: SessionState, forget: bool, removed: bool): (r: (SessionState, Answer)) {
    var t := s.(cancelled := s.cancelled + {s.serial}, epoch := s.epoch + 1, credentials := None, pending := None,
                identification := None, context := None, info := None, adapter := Unbound(s.adapter));
    if !forget then (t, Yes)
    else if removed then (t.(store := None), Yes)
    else (t, Error)
  }

  /** A new task cancels the previous one; identities past 32 bits are refused before anything changes. */
  function Begun(s: SessionState, operation: Operation, credentials: Option<Credentials>): (r: (SessionState, Option<Task>)) {
    if !(1 <= s.epoch <= MAX_ID && s.serial + 1 <= MAX_ID) then (s, None)
    else
      var task := Task(s.serial + 1, s.epoch, operation, credentials);
      (s.(cancelled := s.cancelled + {s.serial}, serial := s.serial + 1, pending := Some(task)), Some(task))
  }

  predicate ValidLogin(username: string, password: string) {
    Plain(username, 64) && 1 <= |password| <= 4096 && '\0' !in password
  }

  /** Signing in anew first logs out. */
  function BegunSignIn(s: SessionState, operation: Operation): (r: (SessionState, Option<Task>))
    requires operation.SignsIn()
  {
    if operation.Login? && !ValidLogin(operation.username, operation.password) then (s, None)
    else Begun(LoggedOut(s, false, true).0, operation, None)
  }

  predicate ValidGame(gameId: nat, consoleId: nat) { 1 <= gameId <= MAX_ID && consoleId in {12, 21} }

  function BegunSet(s: SessionState, job: Job, gameId: nat, consoleId: nat): (r: (SessionState, Option<Task>)) {
    if s.credentials.None? || !ValidGame(gameId, consoleId) then (s, None)
    else
      var context := SetContext(Account(s.credentials.value.username, s.epoch), job.identity.imageHash, gameId, consoleId);
      var (t, task) := Begun(s, FetchSet(context), s.credentials);
      (if task.Some? then t.(identification := Some(job)) else t, task)
  }

  /** A request for a game; without a context of its own it is for the accepted one. */
  datatype GameRequest =
    | ToStart(given: Option<SetContext>)
    | ToAward(given: Option<SetContext>, achievement: nat)
    | ToPing(given: Option<SetContext>, presence: string)
  {
    predicate Valid() {
      match this
      case ToStart(_) => true
      case ToAward(_, achievement) => 1 <= achievement <= MAX_ID
      case ToPing(_, presence) => |presence| <= 4096 && '\0' !in presence
    }

    function For(context: SetContext): Operation {
      match this
      case ToStart(_) => StartSession(context)
      case ToAward(_, achievement) => Award(context, achievement)
      case ToPing(_, presence) => Ping(context, presence)
    }
  }

  function TargetOf(s: SessionState, request: GameRequest): Option<SetContext> {
    if request.given.Some? then request.given else s.context
  }

  /** The context must be the signed-in account's, in its current epoch. */
  function BegunRequest(s: SessionState, request: GameRequest): (r: (SessionState, Option<Task>)) {
    var target := TargetOf(s, request);
    if s.credentials.None? || target.None? || target.value.account != Account(s.credentials.value.username, s.epoch)
    then (s, None)
    else if !request.Valid() then (s, None)
    else Begun(s, request.For(target.value), s.credentials)
  }

  /** What the caller supplies to accept: its choices, the clock readings, and whether saving works. */
  datatype Commit = Commit(remember: bool, saved: bool, first: real, second: real, third: real)

  predicate Current(s: SessionState, job: Task, result: WorkResult) {
    s.pending == Some(job) && s.serial !in s.cancelled && result.Valid()
    && result.taskId == job.id && result.epoch == s.epoch
  }

  /** The effect of a current result, on a state whose task is already retired. */
  function Committed(l: Limits, s: SessionState, identification: Option<Job>, job: Task, payload: Payload, c: Commit)
    : (r: (SessionState, Answer))
  {
    match job.operation
    case FetchSet(context) =>
      if !payload.Set? || payload.qualified.context != context || identification.None? then (s, No)
      else
        var (a, outcome) := ConcludedSet(l, s.adapter, c.first, c.second, c.third, identification.value, payload.qualified);
        var t := s.(adapter := a);
        (match outcome
         case Accepted => (t.(context := Some(context)), Yes)
         case Ignored => (t, No)
         case Raised => (t, Error))
    case StartSession(context) =>
      if !payload.Started? || payload.info.gameId != context.gameId then (s, No) else (s.(info := Some(payload.info)), Yes)
    case Award(_, achievement) => (s, if payload.Awarded? && payload.achievement == achievement then Yes else No)
    case Ping(_, _) => (s, if payload.Pong? then Yes else No)
    case _ =>
      if !payload.SignedIn? then (s, No)
      else if c.remember && !c.saved then (s, Error)
      else
        (s.(store := if c.remember then Some(payload.credentials) else s.store,
            adapter := Bound(s.adapter, Account(payload.credentials.username, s.epoch)),
            credentials := Some(payload.credentials)), Yes)
  }

  function Retired(s: SessionState): SessionState {
    s.(cancelled := s.cancelled + {s.serial}, pending := None, identification := None)
  }

  /** A result that is not current changes nothing; a current one is used up whatever comes of it. */
  function Settled(l: Limits, s: SessionState, job: Task, result: WorkResult, c: Commit): (r: (SessionState, Answer)) {
    if !Current(s, job, result) then (s, No)
    else if result.payload.None? then (Retired(s), No)
    else Committed(l, Retired(s), s.identification, job, result.payload.value, c)
  }

  /** A task's cancel event. */
  class CancelEvent {
    const id: nat
    var isSet: bool

    constructor (id: nat)
      ensures this.id == id && !isSet
    {
      this.id, isSet := id, false;
    }
  }

  class CredentialStore {
    var stored: Option<Credentials>

    constructor (stored: Option<Credentials>)
      ensures this.stored == stored
    {
      this.stored := stored;
    }
  }

  /** The IDs of the tasks whose event is set. */
  ghost function SetEvents(events: seq<CancelEvent>): set<nat>
    reads events
  {
    set i: nat {:trigger events[i]} | i < |events| && events[i].isSet
  }

  class AccountSession {
    const receiver: EvaluatedReceiver
    const store: CredentialStore
    var epoch: nat
    var serial: nat
    var credentials: Option<Credentials>
    var pending: Option<Task>
    var identification: Option<Job>
    var context: Option<SetContext>
    var info: Option<SessionInfo>
    var cancel: CancelEvent
    ghost var events: seq<CancelEvent>  // every event ever issued, by task ID

    ghost predicate Valid()
      reads this, events, receiver, receiver.library, receiver.receiver, receiver.receiver.session,
            receiver.receiver.session.assembler, receiver.evaluator
    {
      && receiver.Valid()
      && |events| == serial + 1 && events[serial] == cancel
      && forall i | 0 <= i < |events| :: events[i].id == i
    }

    ghost function Model(): SessionState
      requires Valid()
      reads this, events, store, receiver, receiver.library, receiver.receiver, receiver.receiver.session,
            receiver.receiver.session.assembler, receiver.evaluator
    {
      SessionState(epoch, serial, credentials, pending, identification, context, info, SetEvents(events),
                   receiver.Model(), store.stored)
    }

    constructor (receiver: EvaluatedReceiver, store: CredentialStore)
      requires receiver.Valid()
      ensures Valid() && this.receiver == receiver && this.store == store && fresh(events)
      ensures Model() == SignedOut(receiver.Model(), store.stored)
    {
      this.receiver, this.store := receiver, store;
      epoch, serial, credentials, pending, identification, context, info := 0, 0, None, None, None, None, None;
      var first := new CancelEvent(0);
      cancel, events := first, [first];
    }

    /** The objects that the session works on are those it had, or new ones. */
    twostate predicate OnlyNew()
      reads this, receiver, receiver.receiver.session
    {
      && (cancel == old(cancel) || fresh(cancel))
      && (receiver.evaluator == null || receiver.evaluator == old(receiver.evaluator) || fresh(receiver.evaluator))
      && (receiver.receiver.session.assembler == null
          || receiver.receiver.session.assembler == old(receiver.receiver.session.assembler)
          || fresh(receiver.receiver.session.assembler))
    }

    /** Sets the current task's event. */
    method SetCancel()
      requires Valid()
      modifies cancel
      ensures Valid() && Model() == old(Model()).(cancelled := old(SetEvents(events)) + {serial})
    {
      cancel.isSet := true;
    }

    method NewTask(operation: Operation, owned: Option<Credentials>) returns (task: Option<Task>)
      requires Valid()
      modifies this, cancel
      ensures Valid() && (Model(), task) == Begun(old(Model()), operation, owned)
      ensures fresh(cancel) || cancel == old(cancel)
    {
      hide EvaluatedReceiver.Valid, EvaluatedReceiver.Model;
      if !(1 <= epoch <= MAX_ID && serial + 1 <= MAX_ID) { return None; }
      task := Some(Task(serial + 1, epoch, operation, owned));
      NextEvent();
      pending := task;
    }

    /** Sets the current event and issues the next one. */
    method NextEvent()
      requires Valid()
      modifies this`serial, this`cancel, this`events, cancel
      ensures Valid() && fresh(cancel)
      ensures Model() == old(Model()).(cancelled := old(SetEvents(events)) + {old(serial)}, serial := old(serial) + 1)
    {
      hide EvaluatedReceiver.Valid, EvaluatedReceiver.Model;
      cancel.isSet := true;
      cancel := new CancelEvent(serial + 1);
      ghost var before := events;
      events := events + [cancel];
      serial := serial + 1;
      assert forall i | 0 <= i < |before| :: events[i] == before[i];
      assert SetEvents(events) == old(SetEvents(events)) + {old(serial)} by {
        forall i: nat
          ensures i in SetEvents(events) <==> i in old(SetEvents(events)) + {old(serial)}
        {
          if i < |events| { assert events[i].id == i; }
          if i < |before| { assert before[i].id == i; }
        }
      }
    }
  
    /** Ends the epoch: nothing of the account is kept, here or in the receiver. */
    method EndEpoch()
      requires Valid()
      modifies this, receiver, receiver.library, receiver.evaluator, receiver.receiver,
               receiver.receiver.session, receiver.receiver.session.assembler
      ensures Valid() && cancel == old(cancel)
      ensures Model() == old(Model()).(epoch := old(epoch) + 1, credentials := None, pending := None,
                                       identification := None, context := None, info := None,
                                       adapter := Unbound(old(Model()).adapter))
      ensures receiver.evaluator == null || receiver.evaluator == old(receiver.evaluator) || fresh(receiver.evaluator)
      ensures receiver.receiver.session.assembler == null
              || receiver.receiver.session.assembler == old(receiver.receiver.session.assembler)
              || fresh(receiver.receiver.session.assembler)
    {
      hide Unbound, EvaluatedReceiver.Valid, EvaluatedReceiver.Model;
      receiver.ClearAccount();
      epoch := epoch + 1;
      credentials, pending, identification, context, info := None, None, None, None, None;
    }

    /** `removed` tells whether the store can delete its credentials when asked to. */
    method Logout(forget: bool, removed: bool) returns (answer: Answer)
      requires Valid()
      modifies this, cancel, store, receiver, receiver.library, receiver.evaluator, receiver.receiver,
               receiver.receiver.session, receiver.receiver.session.assembler
      ensures Valid() && (Model(), answer) == LoggedOut(old(Model()), forget, removed)
      ensures cancel == old(cancel) && OnlyNew()
    {
      hide Unbound, EvaluatedReceiver.Valid, EvaluatedReceiver.Model;
      SetCancel();
      EndEpoch();
      answer := Yes;
      if forget {
        if removed { store.stored := None; } else { answer := Error; }
      }
    }

    method BeginSignIn(operation: Operation) returns (task: Option<Task>)
      requires Valid() && operation.SignsIn()
      modifies this, cancel, store, receiver, receiver.library, receiver.evaluator, receiver.receiver,
               receiver.receiver.session, receiver.receiver.session.assembler
      ensures Valid() && (Model(), task) == BegunSignIn(old(Model()), operation)
      ensures OnlyNew()
    {
      hide Unbound, LoggedOut, Begun;
      if operation.Login? && !ValidLogin(operation.username, operation.password) { return None; }
      var _ := Logout(false, true);
      task := NewTask(operation, None);
    }

    method BeginSet(job: Job, gameId: nat, consoleId: nat) returns (task: Option<Task>)
      requires Valid()
      modifies this, cancel
      ensures Valid() && (Model(), task) == BegunSet(old(Model()), job, gameId, consoleId)
      ensures OnlyNew()
    {
      hide Begun;
      if credentials.None? || !ValidGame(gameId, consoleId) { return None; }
      var target := SetContext(Account(credentials.value.username, epoch), job.identity.imageHash, gameId, consoleId);
      task := NewTask(FetchSet(target), credentials);
      if task.Some? { identification := Some(job); }
    }

    method BeginRequest(request: GameRequest) returns (task: Option<Task>)
      requires Valid()
      modifies this, cancel
      ensures Valid() && (Model(), task) == BegunRequest(old(Model()), request)
      ensures OnlyNew()
    {
      hide Begun;
      if credentials.None? { return None; }
      var target := if request.given.Some? then request.given else context;
      if target.None? || target.value.account.epoch != epoch || target.value.account.name != credentials.value.username {
        return None;
      }
      if !request.Valid() { return None; }
      task := NewTask(request.For(target.value), credentials);
    }

    /** Persists and activates only a result of the current task in the current epoch. */
    method Accept(job: Task, result: WorkResult, c: Commit) returns (answer: Answer)
      requires Valid()
      modifies this, cancel, store, receiver, receiver.library, receiver.evaluator, receiver.receiver,
               receiver.receiver.session, receiver.receiver.session.assembler
      ensures Valid()
      ensures (Model(), answer) == Settled(receiver.receiver.limits, old(Model()), job, result, c)
      ensures OnlyNew()
    {
      hide ConcludedSet, Bound, Committed, EvaluatedReceiver.Valid, EvaluatedReceiver.Model;
      if pending != Some(job) || cancel.isSet || !result.Valid() || result.taskId != job.id || result.epoch != epoch {
        assert cancel.isSet <==> serial in SetEvents(events);
        return No;
      }
      assert serial !in SetEvents(events);
      var identified := identification;
      SetCancel();
      pending, identification := None, None;
      if result.payload.None? { return No; }
      answer := Apply(identified, job, result.payload.value, c);
    }

    method SignInAs(owner: Credentials)
      requires Valid()
      modifies this, receiver, receiver.library, receiver.evaluator, receiver.receiver,
               receiver.receiver.session, receiver.receiver.session.assembler
      ensures Valid() && store.stored == old(store.stored) && OnlyNew()
      ensures Model() == old(Model()).(adapter := Bound(old(Model()).adapter, Account(owner.username, epoch)),
                                       credentials := Some(owner))
    {
      hide Bound, EvaluatedReceiver.Valid, EvaluatedReceiver.Model;
      receiver.BindAccount(Account(owner.username, epoch));
      credentials := Some(owner);
    }

    /** Hands a qualified set to the receiver; its context becomes the session's when it is published. */
    method Activate(job: Job, qualified: QualifiedSet, c: Commit) returns (answer: Answer)
      requires Valid()
      modifies this, receiver, receiver.library, receiver.evaluator, receiver.receiver,
               receiver.receiver.session, receiver.receiver.session.assembler
      ensures Valid()
      ensures
        var was := old(Model());
        var (a, outcome) := ConcludedSet(receiver.receiver.limits, was.adapter, c.first, c.second, c.third, job, qualified);
        && Model() == was.(adapter := a, context := if outcome == Accepted then Some(qualified.context) else was.context)
        && answer == (match outcome case Accepted => Yes case Ignored => No case Raised => Error)
      ensures OnlyNew()
    {
      hide ConcludedSet, EvaluatedReceiver.Valid, EvaluatedReceiver.Model;
      var outcome := receiver.CompleteSet(c.first, c.second, c.third, job, qualified);
      match outcome
      case Accepted => context := Some(qualified.context); answer := Yes;
      case Ignored => answer := No;
      case Raised => answer := Error;
    }

    method Apply(identified: Option<Job>, job: Task, payload: Payload, c: Commit) returns (answer: Answer)
      requires Valid()
      modifies this, cancel, store, receiver, receiver.library, receiver.evaluator, receiver.receiver,
               receiver.receiver.session, receiver.receiver.session.assembler
      ensures Valid()
      ensures (Model(), answer) == Committed(receiver.receiver.limits, old(Model()), identified, job, payload, c)
      ensures OnlyNew()
    {
      hide ConcludedSet, Bound, EvaluatedReceiver.Valid, EvaluatedReceiver.Model;
      answer := No;
      match job.operation
      case FetchSet(target) =>
        if payload.Set? && payload.qualified.context == target && identified.Some? {
          answer := Activate(identified.value, payload.qualified, c);
        }
      case StartSession(target) =>
        if payload.Started? && payload.info.gameId == target.gameId {
          info := Some(payload.info);
          answer := Yes;
        }
      case Award(_, achievement) => if payload.Awarded? && payload.achievement == achievement { answer := Yes; }
      case Ping(_, _) => if payload.Pong? { answer := Yes; }
      case _ =>
        if payload.SignedIn? {
          if c.remember {
            if !c.saved { return Error; }
            store.stored := Some(payload.credentials);
          }
          SignInAs(payload.credentials);
          answer := Yes;
        }
    }
  }
}

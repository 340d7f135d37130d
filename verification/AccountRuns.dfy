/**
 * Whole runs of the account session: which results are committed, which tasks
 * are cancelled, what a context is bound to, and what the store may hold.
 */
module AccountRuns {
  import opened Common
  import opened WatchLists
  import opened WatchSessions
  import opened Receivers
  import opened EvaluatedReceivers
  import opened AttributionRuns
  import opened AccountSessions

  /** Calls on the session, and whatever is done with its receiver in between, direct bindings included. */
  datatype Step =
    | SignIn(operation: Operation)
    | Qualify(game: Job, gameId: nat, consoleId: nat)
    | Ask(request: GameRequest)
    | Accept(job: Task, result: WorkResult, commit: Commit)
    | Logout(forget: bool, removed: bool)
    | CancelCurrent
    | Receiver(action: Action)

  type Move = x: Step | x.SignIn? ==> x.operation.SignsIn() witness CancelCurrent

  datatype Reply = Task_(task: Option<Task>) | Done(answer: Answer)

  function Take(l: Limits, s: SessionState, x: Move): (r: (SessionState, Reply)) {
    match x
    case SignIn(operation) => var (t, task) := BegunSignIn(s, operation); (t, Task_(task))
    case Qualify(job, gameId, consoleId) => var (t, task) := BegunSet(s, job, gameId, consoleId); (t, Task_(task))
    case Ask(request) => var (t, task) := BegunRequest(s, request); (t, Task_(task))
    case Accept(job, result, commit) => var (t, answer) := Settled(l, s, job, result, commit); (t, Done(answer))
    case Logout(forget, removed) => var (t, answer) := LoggedOut(s, forget, removed); (t, Done(answer))
    case CancelCurrent => (s.(cancelled := s.cancelled + {s.serial}), Done(Yes))
    case Receiver(action) => (s.(adapter := Act(l, s.adapter, action)), Done(Yes))
  }

  /** A session's life, from a fresh receiver and whatever the store held. */
  datatype Life = Life(limits: Limits, start: real, stored: Option<Credentials>, moves: seq<Move>)
  {
    function State(n: nat): SessionState
      requires n <= |moves|
    {
      if n == 0 then SignedOut(Start(start), stored) else Take(limits, State(n - 1), moves[n - 1]).0
    }

    function Reply(n: nat): Reply
      requires n < |moves|
    {
      Take(limits, State(n), moves[n]).1
    }

    /** Call n began this task. */
    predicate BeganAt(n: nat, task: Task)
      requires n < |moves|
    {
      Reply(n) == Task_(Some(task))
    }

    /** Call n accepted this task's result. */
    predicate AcceptedAt(n: nat, task: Task)
      requires n < |moves|
    {
      moves[n].Accept? && moves[n].job == task && Reply(n) == Done(Yes)
    }
  }

  predicate Aligned(s: SessionState) {
    && Accounted(s.adapter)
    && (s.pending.Some? ==> s.pending.value.id == s.serial && s.pending.value.epoch == s.epoch)
    && (forall i: nat | i <= s.serial && i !in s.cancelled :: i == s.serial && (i > 0 ==> s.pending.Some?))
    && (forall i | i in s.cancelled :: i <= s.serial)
    && (s.context.Some? ==>
          s.credentials.Some? && s.context.value.account == Account(s.credentials.value.username, s.epoch))
    && (s.pending.Some? && s.pending.value.operation.FetchSet? ==>
          && s.credentials.Some?
          && s.pending.value.operation.context.account == Account(s.credentials.value.username, s.epoch))
    && (s.pending.Some? && s.pending.value.operation.SignsIn() ==> s.credentials.None?)
  }

  lemma LoggedOutAligned(s: SessionState, forget: bool, removed: bool)
    requires Aligned(s)
    ensures var t := LoggedOut(s, forget, removed).0; Aligned(t) && t.credentials.None? && t.serial in t.cancelled
  {
    hide Unbound;
    UnboundKeeps(s.adapter);
  }

  lemma UnboundKeeps(a: Sane)
    requires Accounted(a)
    ensures Accounted(Unbound(a)) && Unbound(a).account == None
  {
    ReleasedKeeps(a);
  }

  lemma BoundKeeps(a: Sane, account: Account)
    requires Accounted(a)
    ensures Accounted(Bound(a, account)) && Bound(a, account).account == Some(account)
  {
    ReleasedKeeps(a);
  }

  lemma BegunAligned(s: SessionState, operation: Operation, credentials: Option<Credentials>)
    requires Aligned(s)
    requires operation.FetchSet? ==>
      s.credentials.Some? && operation.context.account == Account(s.credentials.value.username, s.epoch)
    requires operation.SignsIn() ==> s.credentials.None?
    ensures Aligned(Begun(s, operation, credentials).0)
  {
  }

  lemma SettledAligned(l: Limits, s: SessionState, job: Task, result: WorkResult, c: Commit)
    requires Aligned(s)
    ensures Aligned(Settled(l, s, job, result, c).0)
  {
    hide ConcludedSet, Bound, Accounted;
    var r := Retired(s);
    assert Aligned(r);
    if Current(s, job, result) && result.payload.Some? {
      var payload := result.payload.value;
      match job.operation
      case FetchSet(context) =>
        if payload.Set? && s.identification.Some? {
          ConcludedSetKeeps(l, r.adapter, c.first, c.second, c.third, s.identification.value, payload.qualified);
          SetStaysAccounted(l, r.adapter, c, s.identification.value, payload.qualified);
        }
      case StartSession(_) =>
      case Award(_, _) =>
      case Ping(_, _) =>
      case _ =>
        if payload.SignedIn? { BoundKeeps(r.adapter, Account(payload.credentials.username, s.epoch)); }
    }
  }

  lemma SetStaysAccounted(l: Limits, a: Sane, c: Commit, job: Job, q: QualifiedSet)
    requires Accounted(a)
    ensures Accounted(ConcludedSet(l, a, c.first, c.second, c.third, job, q).0)
  {
    hide ConcludedSet;
    ConcludedSetKeeps(l, a, c.first, c.second, c.third, job, q);
  }

  lemma TakeAligned(l: Limits, s: SessionState, x: Move)
    requires Aligned(s)
    ensures Aligned(Take(l, s, x).0)
  {
    hide LoggedOut, Begun, Settled, Act, Accounted;
    match x
    case SignIn(operation) =>
      LoggedOutAligned(s, false, true);
      BegunAligned(LoggedOut(s, false, true).0, operation, None);
    case Qualify(job, gameId, consoleId) =>
      if s.credentials.Some? {
        var context := SetContext(Account(s.credentials.value.username, s.epoch), job.identity.imageHash, gameId, consoleId);
        BegunAligned(s, FetchSet(context), s.credentials);
      }
    case Ask(request) =>
      if TargetOf(s, request).Some? { BegunAligned(s, request.For(TargetOf(s, request).value), s.credentials); }
    case Accept(job, result, commit) => SettledAligned(l, s, job, result, commit);
    case Logout(forget, removed) => LoggedOutAligned(s, forget, removed);
    case CancelCurrent =>
    case Receiver(action) => ActKeeps(l, s.adapter, action);
  }

  lemma {:induction false} AlwaysAligned(life: Life, n: nat)
    requires n <= |life.moves|
    ensures Aligned(life.State(n))
  {
    hide Aligned, Take;
    if n > 0 {
      AlwaysAligned(life, n - 1);
      TakeAligned(life.limits, life.State(n - 1), life.moves[n - 1]);
    } else {
      FreshAligned(life.start, life.stored);
    }
  }

  lemma FreshAligned(start: real, stored: Option<Credentials>)
    ensures Aligned(SignedOut(Start(start), stored))
  {
    InitialAccounted(start);
  }

  // ----- One step's effect on the identities -----

  /** Serials and epochs never go back; a pending task is new, unchanged, or gone. */
  predicate Forward(s: SessionState, t: SessionState, reply: Reply) {
    && s.serial <= t.serial && s.epoch <= t.epoch
    && (reply.Task_? && reply.task.Some? ==>
          t.pending == reply.task && t.serial == s.serial + 1 == reply.task.value.id && t.epoch == reply.task.value.epoch)
    && (!(reply.Task_? && reply.task.Some?) ==>
          && t.serial == s.serial && (t.pending == s.pending || t.pending.None?)
          && (t.pending.Some? ==> t.epoch == s.epoch))
  }

  lemma TakeForward(l: Limits, s: SessionState, x: Move)
    ensures var (t, reply) := Take(l, s, x); Forward(s, t, reply)
  {
    hide ConcludedSet, Bound, Unbound, Act;
  }

  lemma AcceptForward(l: Limits, s: SessionState, x: Move)
    requires x.Accept? && Take(l, s, x).1 == Done(Yes)
    ensures s.pending == Some(x.job) && x.job.id == x.result.taskId && s.epoch == x.result.epoch
    ensures var t := Take(l, s, x).0; t.pending.None? && t.epoch == s.epoch && t.serial == s.serial
    ensures s.serial !in s.cancelled && s.serial in Take(l, s, x).0.cancelled
  {
    hide ConcludedSet, Bound, Unbound;
  }

  predicate PendingThroughout(life: Life, m: nat, n: nat, task: Task)
    requires n <= |life.moves|
  {
    forall k: nat | m < k <= n :: life.State(k).pending == Some(task) && life.State(k).epoch == task.epoch
  }

  /** The call that began the pending task. */
  lemma {:induction false} PendingWasBegun(life: Life, n: nat, task: Task) returns (m: nat)
    requires n <= |life.moves| && life.State(n).pending == Some(task)
    ensures m < n && life.BeganAt(m, task) && PendingThroughout(life, m, n, task)
  {
    hide Take, Forward;
    assert n > 0 by { assert life.State(0).pending == None; }
    StepForward(life, n - 1);
    AlwaysAligned(life, n);
    if life.Reply(n - 1).Task_? && life.Reply(n - 1).task.Some? {
      m := n - 1;
      PendingIsBegun(life, m, task);
    } else {
      NotBegunWasPending(life, n - 1, task);
      m := PendingWasBegun(life, n - 1, task);
    }
  }

  lemma StepForward(life: Life, n: nat)
    requires n < |life.moves|
    ensures Forward(life.State(n), life.State(n + 1), life.Reply(n))
  {
    TakeForward(life.limits, life.State(n), life.moves[n]);
  }

  lemma PendingIsBegun(life: Life, m: nat, task: Task)
    requires m < |life.moves| && life.Reply(m).Task_? && life.Reply(m).task.Some?
    requires life.State(m + 1).pending == Some(task)
    ensures life.BeganAt(m, task) && life.State(m + 1).epoch == task.epoch
  {
    StepForward(life, m);
  }

  lemma NotBegunWasPending(life: Life, m: nat, task: Task)
    requires m < |life.moves| && !(life.Reply(m).Task_? && life.Reply(m).task.Some?)
    requires life.State(m + 1).pending == Some(task)
    ensures life.State(m).pending == Some(task) && life.State(m + 1).epoch == life.State(m).epoch
  {
    StepForward(life, m);
  }

  // ----- Commit safety -----

  /** Once begun, a task is either the pending one or never pending again. */
  lemma {:induction false} BegunStaysOwn(life: Life, m: nat, n: nat, task: Task)
    requires m < n <= |life.moves| && life.BeganAt(m, task)
    ensures task.id <= life.State(n).serial
    ensures life.State(n).serial == task.id ==> life.State(n).pending == Some(task) || life.State(n).pending.None?
  {
    hide Take;
    StepForward(life, n - 1);
    if m < n - 1 { BegunStaysOwn(life, m, n - 1, task); }
  }

  lemma {:induction false} OnceRetiredNeverPending(life: Life, m: nat, n: nat, task: Task)
    requires m <= n <= |life.moves|
    requires task.id <= life.State(m).serial && life.State(m).pending != Some(task)
    ensures task.id <= life.State(n).serial && life.State(n).pending != Some(task)
  {
    hide Take;
    if m < n {
      OnceRetiredNeverPending(life, m, n - 1, task);
      StepForward(life, n - 1);
    }
  }

  lemma AcceptedOnce(life: Life, n: nat, k: nat, task: Task)
    requires n < k < |life.moves| && life.AcceptedAt(n, task)
    ensures !life.AcceptedAt(k, task)
  {
    hide Take;
    AcceptedFacts(life, n, task);
    OnceRetiredNeverPending(life, n + 1, k, task);
    if life.AcceptedAt(k, task) { AcceptedFacts(life, k, task); }
  }

  lemma AcceptedFacts(life: Life, n: nat, task: Task)
    requires n < |life.moves| && life.AcceptedAt(n, task)
    ensures life.State(n).pending == Some(task) && life.State(n + 1).pending.None?
    ensures task.id == life.State(n).serial == life.State(n + 1).serial && task.epoch == life.State(n + 1).epoch
  {
    AlwaysAligned(life, n);
    AcceptForward(life.limits, life.State(n), life.moves[n]);
  }

  /** While a task stays pending, no call begins another. */
  lemma NothingBegunMeanwhile(life: Life, m: nat, n: nat, task: Task, k: nat)
    requires m < k < n <= |life.moves| && life.BeganAt(m, task) && PendingThroughout(life, m, n, task)
    ensures !(life.Reply(k).Task_? && life.Reply(k).task.Some?)
  {
    hide Take;
    BegunStaysOwn(life, m, k, task);
    StepForward(life, k);
    AlwaysAligned(life, k + 1);
    assert life.State(k + 1).pending == Some(task);
  }

  /**
   * Commit safety: a result is accepted at most once, and only for a task that was begun, in the
   * epoch that is still current, that has been the pending one at every moment since, and after
   * which no other task was begun.
   */
  lemma AcceptedTaskIsTheLastBegun(life: Life, n: nat, task: Task) returns (m: nat)
    requires n < |life.moves| && life.AcceptedAt(n, task)
    ensures m < n && life.BeganAt(m, task) && PendingThroughout(life, m, n, task)
    ensures forall k: nat | m < k < n :: !(life.Reply(k).Task_? && life.Reply(k).task.Some?)
    ensures task.epoch == life.State(n + 1).epoch
    ensures forall k: nat | k < |life.moves| && k != n :: !life.AcceptedAt(k, task)
  {
    hide Take;
    AcceptedFacts(life, n, task);
    m := PendingWasBegun(life, n, task);
    forall k: nat | m < k < n
      ensures !(life.Reply(k).Task_? && life.Reply(k).task.Some?)
    {
      NothingBegunMeanwhile(life, m, n, task, k);
    }
    forall k: nat | k < |life.moves| && k != n
      ensures !life.AcceptedAt(k, task)
    {
      if n < k { AcceptedOnce(life, n, k, task); }
      else if life.AcceptedAt(k, task) { AcceptedOnce(life, k, n, task); }
    }
  }

  /** Every task that was begun and is not the pending one has been cancelled. */
  lemma SupersededTasksAreCancelled(life: Life, m: nat, n: nat, task: Task)
    requires m < n <= |life.moves| && life.BeganAt(m, task)
    ensures life.State(n).pending == Some(task) || task.id in life.State(n).cancelled
  {
    hide Take;
    AlwaysAligned(life, n);
    BegunStaysOwn(life, m, n, task);
    StepForward(life, m);
  }

  // ----- Whom the contexts name -----

  /** The account that is signed in, in its epoch. */
  function SignedInAs(s: SessionState): Option<Account> {
    if s.credentials.Some? then Some(Account(s.credentials.value.username, s.epoch)) else None
  }

  /** The session's own context always names the signed-in account in its current epoch. */
  lemma ContextsNameTheSignedInAccount(life: Life, n: nat)
    requires n <= |life.moves| && life.State(n).context.Some?
    ensures SignedInAs(life.State(n)) == Some(life.State(n).context.value.account)
  {
    AlwaysAligned(life, n);
  }

  /** Call n made the session sign somebody in or out. */
  predicate SignsInOrOut(life: Life, n: nat)
    requires n < |life.moves|
  {
    match life.moves[n]
    case Logout(_, _) => true
    case SignIn(operation) => operation.Login? ==> ValidLogin(operation.username, operation.password)
    case Accept(job, _, _) => life.AcceptedAt(n, job) && job.operation.SignsIn()
    case _ => false
  }

  /** Since the session last signed in or out, its receiver was last bound directly, and to another account. */
  predicate Diverted(life: Life, n: nat)
    requires n <= |life.moves|
  {
    n > 0 &&
    if SignsInOrOut(life, n - 1) then false
    else match life.moves[n - 1]
      case Receiver(Bind(account)) => SignedInAs(life.State(n - 1)) != Some(account)
      case Receiver(Unbind) => SignedInAs(life.State(n - 1)).Some?
      case _ => Diverted(life, n - 1)
  }

  /** One call's effect on who is signed in and on the receiver's account. */
  lemma AccountStep(life: Life, n: nat)
    requires n < |life.moves| && Aligned(life.State(n))
    ensures var s, t := life.State(n), life.State(n + 1);
      if SignsInOrOut(life, n) then t.adapter.account == SignedInAs(t)
      else
        && SignedInAs(t) == SignedInAs(s)
        && t.adapter.account ==
           (match life.moves[n] case Receiver(Bind(account)) => Some(account) case Receiver(Unbind) => None
            case _ => s.adapter.account)
  {
    hide ConcludedSet, Bound, Unbound, Act, Accounted, Begun;
    var s, x := life.State(n), life.moves[n];
    UnboundKeeps(s.adapter);
    match x
    case Receiver(action) => ActKeeps(life.limits, s.adapter, action);
    case Accept(job, result, commit) => AcceptKeepsAccount(life.limits, s, job, result, commit);
    case SignIn(operation) => BegunKeepsAccount(LoggedOut(s, false, true).0, operation, None);
    case Qualify(game, gameId, consoleId) => QualifyKeepsAccount(s, game, gameId, consoleId);
    case Ask(request) =>
      if TargetOf(s, request).Some? { BegunKeepsAccount(s, request.For(TargetOf(s, request).value), s.credentials); }
    case _ =>
  }

  lemma BegunKeepsAccount(s: SessionState, operation: Operation, credentials: Option<Credentials>)
    ensures var t := Begun(s, operation, credentials).0; SignedInAs(t) == SignedInAs(s) && t.adapter == s.adapter
  {
  }

  lemma QualifyKeepsAccount(s: SessionState, game: Job, gameId: nat, consoleId: nat)
    ensures var t := BegunSet(s, game, gameId, consoleId).0; SignedInAs(t) == SignedInAs(s) && t.adapter == s.adapter
  {
  }

  lemma AcceptKeepsAccount(l: Limits, s: SessionState, job: Task, result: WorkResult, c: Commit)
    requires Accounted(s.adapter)
    ensures var (t, answer) := Settled(l, s, job, result, c);
      if answer == Yes && job.operation.SignsIn() then t.adapter.account == SignedInAs(t)
      else SignedInAs(t) == SignedInAs(s) && t.adapter.account == s.adapter.account
  {
    hide ConcludedSet, Bound, Accounted;
    if Current(s, job, result) && result.payload.Some? {
      match job.operation
      case FetchSet(_) =>
        if result.payload.value.Set? && s.identification.Some? {
          ConcludedSetKeeps(l, s.adapter, c.first, c.second, c.third, s.identification.value, result.payload.value.qualified);
        }
      case StartSession(_) =>
      case Award(_, _) =>
      case Ping(_, _) =>
      case _ =>
        if result.payload.value.SignedIn? {
          BoundKeeps(s.adapter, Account(result.payload.value.credentials.username, s.epoch));
        }
    }
  }

  /**
   * The receiver, exactly: it is bound to the account the session is signed in as if and only if it was not
   * last bound, directly and to another one, after the session signed in or out. A context it holds names
   * the signed-in account under just that condition.
   */
  lemma {:induction false} ReceiverFollowsUnlessDiverted(life: Life, n: nat)
    requires n <= |life.moves|
    ensures var s := life.State(n);
      && (s.adapter.account == SignedInAs(s) <==> !Diverted(life, n))
      && (s.adapter.context.Some? ==>
            (SignedInAs(s) == Some(s.adapter.context.value.account) <==> !Diverted(life, n)))
  {
    hide Take, Aligned, SignsInOrOut;
    AlwaysAligned(life, n);
    AlignedAccounts(life.State(n));
    if n > 0 {
      ReceiverFollowsUnlessDiverted(life, n - 1);
      AlwaysAligned(life, n - 1);
      AccountStep(life, n - 1);
    }
  }

  lemma AlignedAccounts(s: SessionState)
    requires Aligned(s)
    ensures s.adapter.context.Some? ==> s.adapter.account == Some(s.adapter.context.value.account)
  {
  }

  /** The launcher's own way in: the receiver is bound directly, with nobody signed in to the session. */
  function DirectLife(w: Watch, account: Account): Life {
    var console, context := Endpoint(1, 2), SetContext(account, GAME.imageHash, 1, 21);
    Life(BRIEF, 0.0, None, [
      Receiver(Bind(account)),
      Receiver(Handle(0.0, 0.0, Some(console), Control(Some(Identify(console, GAME))), NativeReply({}, [], true, true))),
      Receiver(FinishSet(1.0, 1.0, 1.0, Job(3, GAME), QualifiedSet(context, {7}, "", 1, Some(w), true)))])
  }

  lemma DirectGameIsAskedFor(w: Watch, account: Account)
    ensures var s := DirectLife(w, account).State(2);
      && s.credentials.None? && s.adapter.account == Some(account)
      && s.adapter.receiver.pending == Some(Job(3, GAME)) && s.adapter.receiver.token == 3
      && s.adapter.receiver.pendingSince == 0.0 && s.adapter.receiver.lastActivity == Some(0.0)
      && s.adapter.evaluator.None?
  {
    var life := DirectLife(w, account);
    assert life.State(0) == SignedOut(Start(0.0), None);
    assert life.State(1) == Take(BRIEF, life.State(0), life.moves[0]).0;
    assert life.State(2) == Take(BRIEF, life.State(1), life.moves[1]).0;
  }

  /** And there the receiver holds a context although the session is signed out, for every account and list. */
  lemma DirectBindingDiverts(w: Watch, account: Account)
    requires WellLaidOut(w)
    ensures var life := DirectLife(w, account); var s := life.State(3);
      && s.credentials.None? && s.adapter.context.Some? && s.adapter.context.value.account == account && Diverted(life, 3)
  {
    hide WellLaidOut, Handled, Aligned;
    DirectGameIsAskedFor(w, account);
    var life := DirectLife(w, account);
    var s := life.State(2);
    assert ValidSerial("SLUS_201.74");
    assert Ticked(BRIEF, s.adapter, 1.0) == s.adapter;
    assert life.State(3) == Take(BRIEF, s, life.moves[2]).0;
    ReceiverFollowsUnlessDiverted(life, 3);
  }

  // ----- The credential store -----

  predicate SavedAt(life: Life, k: nat, task: Task)
    requires k < |life.moves|
  {
    life.AcceptedAt(k, task) && task.operation.SignsIn() && life.moves[k].commit.remember
  }

  lemma StoreChangesBySaving(life: Life, n: nat)
    requires n < |life.moves| && life.State(n).store.None? && life.State(n + 1).store.Some?
    ensures life.moves[n].Accept? && SavedAt(life, n, life.moves[n].job)
  {
    hide ConcludedSet, Bound, Unbound, Act;
  }

  /**
   * After a logout that removed the credentials, anything in the store was put there by accepting
   * a sign-in that was itself begun after that logout.
   */
  lemma {:induction false} ForgottenStaysForgotten(life: Life, m: nat, n: nat) returns (b: nat, k: nat, task: Task)
    requires m < n <= |life.moves|
    requires life.moves[m].Logout? && life.moves[m].forget && life.Reply(m) == Done(Yes)
    ensures life.State(n).store.Some? ==>
      m < b < k < n && life.BeganAt(b, task) && SavedAt(life, k, task)
  {
    hide Take;
    b, k, task := 0, 0, Task(0, 0, Resume, None);
    ForgottenAt(life, m);
    if n > m + 1 && life.State(n).store.Some? {
      if life.State(n - 1).store.Some? {
        b, k, task := ForgottenStaysForgotten(life, m, n - 1);
      } else {
        k := n - 1;
        StoreChangesBySaving(life, k);
        task := life.moves[k].job;
        b := AcceptedTaskIsTheLastBegun(life, k, task);
      }
    }
  }

  lemma ForgottenAt(life: Life, m: nat)
    requires m < |life.moves| && life.moves[m].Logout? && life.moves[m].forget && life.Reply(m) == Done(Yes)
    ensures life.State(m + 1).store.None? && life.State(m + 1).pending.None?
  {
  }
}

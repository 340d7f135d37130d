/**
 * What a call on the account session commits, exactly: which requests become tasks,
 * which results are accepted, and what each accepted result leaves behind.
 */
module AccountCommits {
  import opened Common
  import opened WatchSessions
  import opened Receivers
  import opened Evaluators
  import opened EvaluatedReceivers
  import opened AttributionRuns
  import opened AccountSessions
  import opened AccountRuns
  import opened SetPublications

  // ----- Beginning a task -----

  /** There is an identity left for one more task of this epoch. */
  predicate RoomFor(serial: nat, epoch: nat) { 1 <= epoch <= 0xFFFF_FFFF && serial < 0xFFFF_FFFF }

  /** A game of a supported console. */
  predicate IsGame(gameId: nat, consoleId: nat) { 1 <= gameId <= 0xFFFF_FFFF && (consoleId == 12 || consoleId == 21) }

  /** The context that a request is for, when it is the signed-in account's in the current epoch. */
  predicate IsFor(s: SessionState, request: GameRequest, context: SetContext) {
    && (request.given == Some(context) || (request.given.None? && s.context == Some(context)))
    && SignedInAs(s) == Some(context.account)
  }

  /** What a request stands for. */
  predicate Requests(request: GameRequest, context: SetContext, operation: Operation) {
    match request
    case ToStart(_) => operation == StartSession(context)
    case ToAward(_, achievement) => operation == Award(context, achievement) && 1 <= achievement <= 0xFFFF_FFFF
    case ToPing(_, presence) => operation == Ping(context, presence) && |presence| <= 4096 && '\0' !in presence
  }

  /** The call asks for just this. */
  predicate AsksFor(s: SessionState, x: Move, operation: Operation) {
    match x
    case SignIn(wanted) =>
      && operation == wanted
      && (wanted.Login? ==>
            && Plain(wanted.username, 64) && 1 <= |wanted.password| <= 4096 && '\0' !in wanted.password)
    case Qualify(job, gameId, consoleId) =>
      && SignedInAs(s).Some? && IsGame(gameId, consoleId)
      && operation == FetchSet(SetContext(SignedInAs(s).value, job.identity.imageHash, gameId, consoleId))
    case Ask(request) =>
      if request.given.Some? then IsFor(s, request, request.given.value) && Requests(request, request.given.value, operation)
      else s.context.Some? && IsFor(s, request, s.context.value) && Requests(request, s.context.value, operation)
    case _ => false
  }

  /**
   * A call begins a task exactly when it asks for an operation that it may ask for and there is room: the next
   * serial, of the current epoch or for a sign-in of the next, with the signed-in credentials.
   */
  lemma BegunExactly(l: Limits, s: SessionState, x: Move, operation: Operation)
    ensures var (t, reply) := Take(l, s, x);
      var epoch := if x.SignIn? then s.epoch + 1 else s.epoch;
      && (reply.Task_? && reply.task.Some? && reply.task.value.operation == operation
          <==> AsksFor(s, x, operation) && RoomFor(s.serial, epoch))
      && (reply.Task_? && reply.task.Some? ==>
            && reply.task.value == Task(s.serial + 1, epoch, reply.task.value.operation,
                                        if x.SignIn? then None else s.credentials)
            && t.pending == reply.task && s.serial in t.cancelled)
  {
    hide ConcludedSet, Bound, Unbound, Act;
  }

  /** While a set is being fetched, the identified job it is for is remembered. */
  predicate Remembers(s: SessionState) {
    s.pending.Some? && s.pending.value.operation.FetchSet? ==>
      s.identification.Some? && s.identification.value.identity.imageHash == s.pending.value.operation.context.imageHash
  }

  lemma TakeRemembers(l: Limits, s: SessionState, x: Move)
    requires Remembers(s)
    ensures Remembers(Take(l, s, x).0)
  {
    hide ConcludedSet, Bound, Unbound, Act;
  }

  lemma {:induction false} AlwaysRemembers(life: Life, n: nat)
    requires n <= |life.moves|
    ensures Remembers(life.State(n))
  {
    hide Take, Remembers;
    if n > 0 {
      AlwaysRemembers(life, n - 1);
      TakeRemembers(life.limits, life.State(n - 1), life.moves[n - 1]);
    } else {
      NothingToRemember(life.start, life.stored);
    }
  }

  lemma NothingToRemember(start: real, stored: Option<Credentials>)
    ensures Remembers(SignedOut(Start(start), stored))
  {
  }

  // ----- Accepting a result -----

  /** A sound result of the pending task, of the current epoch, that nobody has cancelled. */
  predicate IsCurrent(s: SessionState, job: Task, result: WorkResult) {
    && s.pending == Some(job) && s.serial !in s.cancelled
    && result.taskId == job.id && result.epoch == s.epoch && result.wellFormed
    && (result.payload.Some? && result.payload.value.SignedIn? ==>
          Plain(result.payload.value.credentials.username, 64) && Plain(result.payload.value.credentials.token, 4096))
  }

  /** The payload is what the task's operation asked for, and it can be kept. */
  predicate Fulfils(l: Limits, s: SessionState, operation: Operation, payload: Payload, c: Commit) {
    match operation
    case FetchSet(context) =>
      && payload.Set? && payload.qualified.context == context && s.identification.Some?
      && IsAwaited(s.adapter, s.identification.value, payload.qualified) && IsSound(s.identification.value, payload.qualified)
      && Lasts(l, s.adapter.receiver, c.first) && Lasts(l, s.adapter.receiver, c.second)
      && Lasts(l, s.adapter.receiver, c.third)
    case StartSession(context) => payload.Started? && payload.info.gameId == context.gameId
    case Award(_, achievement) => payload == Awarded(achievement)
    case Ping(_, _) => payload == Pong
    case _ => payload.SignedIn? && (c.remember ==> c.saved)
  }

  /** What an accepted result leaves behind, and nothing else changes; the task of any current result is used up. */
  predicate LeavesBehind(s: SessionState, t: SessionState, job: Task, result: WorkResult, c: Commit, current: bool,
                         accepted: bool)
    requires accepted ==> result.payload.Some?
  {
    && (job.operation.SignsIn() && accepted ==>
          && result.payload.value.SignedIn? && t.credentials == Some(result.payload.value.credentials)
          && t.adapter.account == Some(Account(result.payload.value.credentials.username, s.epoch))
          && t.store == if c.remember then t.credentials else s.store)
    && (!(job.operation.SignsIn() && accepted) ==>
          t.credentials == s.credentials && t.store == s.store && t.adapter.account == s.adapter.account)
    && t.context == (if job.operation.FetchSet? && accepted then Some(job.operation.context) else s.context)
    && (job.operation.FetchSet? && accepted ==> t.adapter.context == t.context)
    && (job.operation.StartSession? && accepted ==> result.payload.value.Started? && t.info == Some(result.payload.value.info))
    && (!(job.operation.StartSession? && accepted) ==> t.info == s.info)
    && t.epoch == s.epoch && t.serial == s.serial
    && t.pending == (if current then None else s.pending)
    && t.cancelled == (if current then s.cancelled + {s.serial} else s.cancelled)
    && (!job.operation.FetchSet? && !(job.operation.SignsIn() && accepted) ==> t.adapter == s.adapter)
  }

  lemma CurrentMeans(s: SessionState, job: Task, result: WorkResult)
    ensures Current(s, job, result) <==> IsCurrent(s, job, result)
  {
  }

  lemma SettledExactly(l: Limits, s: SessionState, job: Task, result: WorkResult, c: Commit)
    requires Accounted(s.adapter)
    ensures var (t, answer) := Settled(l, s, job, result, c);
      var current := IsCurrent(s, job, result);
      && (answer == Yes <==>
            current && result.payload.Some? && Fulfils(l, s, job.operation, result.payload.value, c))
      && LeavesBehind(s, t, job, result, c, current, answer == Yes)
  {
    hide ConcludedSet, Bound, Accounted, Current, IsCurrent, IsAwaited, IsSound, Lasts;
    CurrentMeans(s, job, result);
    AcceptKeepsAccount(l, s, job, result, c);
    if result.payload.Some? && result.payload.value.Set? && job.operation.FetchSet? && s.identification.Some? {
      SetIsPublished(l, s.adapter, c.first, c.second, c.third, s.identification.value, result.payload.value.qualified);
    }
  }

  /**
   * What is accepted, exactly: a sound, current result whose payload is what its task asked for. It leaves behind the
   * credentials, the context or the session information it carries, in the store only when they are to be
   * remembered, and nothing else; a current result that is not accepted uses up its task and leaves nothing.
   */
  lemma AcceptedExactly(life: Life, n: nat)
    requires n < |life.moves| && life.moves[n].Accept?
    ensures var s, t, x := life.State(n), life.State(n + 1), life.moves[n];
      && (life.Reply(n) == Done(Yes) <==>
            && IsCurrent(s, x.job, x.result) && x.result.payload.Some?
            && Fulfils(life.limits, s, x.job.operation, x.result.payload.value, x.commit))
      && LeavesBehind(s, t, x.job, x.result, x.commit, IsCurrent(s, x.job, x.result), life.Reply(n) == Done(Yes))
  {
    hide Settled, IsCurrent, Fulfils, LeavesBehind, Aligned;
    AlwaysAligned(life, n);
    AlignedIsAccounted(life.State(n));
    var x := life.moves[n];
    SettledExactly(life.limits, life.State(n), x.job, x.result, x.commit);
  }

  lemma AlignedIsAccounted(s: SessionState)
    requires Aligned(s)
    ensures Accounted(s.adapter)
  {
  }

  /**
   * From request to commit: an accepted result carries what some earlier call of this epoch asked for, the last
   * call that began anything.
   */
  lemma AcceptedWasAskedFor(life: Life, n: nat) returns (m: nat)
    requires n < |life.moves| && life.moves[n].Accept? && life.Reply(n) == Done(Yes)
    ensures m < n && AsksFor(life.State(m), life.moves[m], life.moves[n].job.operation)
    ensures life.moves[n].result.payload.Some?
    ensures Fulfils(life.limits, life.State(n), life.moves[n].job.operation, life.moves[n].result.payload.value,
                    life.moves[n].commit)
  {
    hide Take, AsksFor, Fulfils, IsCurrent, LeavesBehind;
    AcceptedExactly(life, n);
    var task := life.moves[n].job;
    m := AcceptedTaskIsTheLastBegun(life, n, task);
    BegunExactly(life.limits, life.State(m), life.moves[m], task.operation);
    assert life.Reply(m) == Take(life.limits, life.State(m), life.moves[m]).1;
  }

  /**
   * A logout leaves nothing of the account: not in the session, not in the receiver, and in the store only what is
   * not to be removed, or cannot be.
   */
  lemma LogoutIsComplete(life: Life, n: nat)
    requires n < |life.moves| && life.moves[n].Logout?
    ensures var s, t, x := life.State(n), life.State(n + 1), life.moves[n];
      && t.credentials.None? && t.pending.None? && t.identification.None? && t.context.None? && t.info.None?
      && t.epoch == s.epoch + 1 && t.serial == s.serial && t.cancelled == s.cancelled + {s.serial}
      && t.adapter.account.None? && t.adapter.context.None? && t.adapter.evaluator.None? && t.adapter.live == 0
      && t.adapter.receiver.owner.None? && t.adapter.receiver.pending.None? && t.adapter.receiver.watching.watch.None?
      && t.store == (if x.forget && x.removed then None else s.store)
      && life.Reply(n) == Done(if x.forget && !x.removed then Error else Yes)
  {
    hide Aligned;
    AlwaysAligned(life, n);
    AlignedIsAccounted(life.State(n));
    ReleasedIsEmpty(life.State(n).adapter);
  }
}

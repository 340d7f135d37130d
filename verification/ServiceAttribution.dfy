/**
 * Whose evaluations a caller receives: the account it asked for last, although
 * binding only queues a command that the owner thread obeys some time later.
 */
module ServiceAttribution {
  import opened Common
  import opened Receivers
  import opened Evaluators
  import opened EvaluatedReceivers
  import opened AttributionRuns
  import opened OwnedServices
  import opened ServiceRuns
  import opened ServiceGuarantees

  /** Step n ends the owner thread, in order or by an exception. */
  predicate EndsAt(run: Run, n: nat)
    requires n < |run.steps|
  {
    run.State(n).stage != Halted && run.State(n + 1).stage == Halted
  }

  /** The account of the last call that bound or cleared one since the owner thread last ended. */
  function CallerAccount(run: Run, n: nat): Option<Account>
    requires n <= |run.steps|
  {
    if n == 0 || EndsAt(run, n - 1) then None else Wished(run.State(n - 1), run.steps[n - 1], CallerAccount(run, n - 1))
  }

  /** What a step leaves of the account that callers ask for. */
  function Wished(s: Service, x: Step, account: Option<Account>): Option<Account> {
    match x
    case CallerBind(a) => Some(a)
    case CallerClear(_) => if Enabled(s, x) then None else account
    case _ => account
  }

  /** No account, or this one. */
  predicate Only(a: Option<Account>, account: Option<Account>) { a.None? || a == account }

  predicate HasCallback(commands: seq<Command>) { exists i :: 0 <= i < |commands| && commands[i].Callback? }

  /** Step n is a turn of the owner that obeys a callback. */
  predicate CallsBack(run: Run, n: nat)
    requires n < |run.steps|
  {
    run.steps[n] == OwnerTop && run.State(n).stage == AtTop && HasCallback(run.State(n).commands)
  }

  /**
   * What a callback must leave behind: the receiver is bound to the account the callers asked for last or to
   * none, and so is the account that the service shows, which is whom the session is signed in as.
   */
  predicate Harmless(s: Service, account: Option<Account>) {
    Only(s.adapter.account, account) && Only(AccountOf(s), account)
  }

  /** Every turn so far that obeyed a callback was harmless. */
  predicate HarmlessTurns(run: Run, n: nat)
    requires n <= |run.steps|
  {
    forall k: nat | k < n && CallsBack(run, k) :: Harmless(run.State(k + 1), CallerAccount(run, k + 1))
  }

  /** What the adapter's account will be once these commands are obeyed, as far as binding and clearing go. */
  function Eventually(account: Option<Account>, commands: seq<Command>): Option<Account> {
    if commands == [] then account
    else match commands[|commands| - 1]
      case BindTo(a) => Some(a)
      case Drop(_) => None
      case Callback(_) => Eventually(account, commands[..|commands| - 1])
  }

  /** The item names no account, or this one. */
  predicate Names(item: Item, account: Option<Account>) {
    item.output.context.Some? ==> account == Some(item.output.context.value.account)
  }

  ghost predicate AllName(s: Service, account: Option<Account>) {
    forall item | InEvaluations(s, item) || InFrames(s, item) :: Names(item, account)
  }

  /** Nothing between the callers' wish and the adapter is about to bind it to somebody else. */
  predicate Agreed(s: Service, account: Option<Account>) {
    && Only(s.adapter.account, account)
    && (forall i | 0 <= i < |s.commands| ::
          s.commands[i].Callback? || (account.Some? && s.commands[i] == BindTo(account.value)))
  }

  predicate Idle(s: Service) { s.frames == [] && s.unlocks == [] && s.latest.None? && InHand(s).None? }

  /**
   * The service shows the callers' account or none, and is on its way to it or to none; without a pending
   * reset it has arrived, or has only just been started and holds nothing.
   */
  ghost predicate Faithful(s: Service, account: Option<Account>) {
    && Only(AccountOf(s), account)
    && (if s.stage == Halted then Idle(s) && Only(Eventually(None, s.commands), account)
        else
          && Only(Eventually(s.adapter.account, s.commands), account)
          && (!s.reset ==> AllName(s, account) && (Agreed(s, account) || (s.stage == AtTop && Idle(s)))))
  }

  lemma ObeyedAccount(s: Service, c: Command)
    requires !c.Callback? && Sound(s)
    ensures var t := Obeyed(s, c);
      && t.adapter.account == (if c.BindTo? then Some(c.account) else None) && AccountOf(t) == t.adapter.account
      && SameQueues(s, t)
  {
    hide Accounted, AccountRuns.Aligned, Called;
    ObeyedQueues(s, c);
  }

  lemma {:induction false} CommandedReaches(s: Service)
    requires Sound(s) && !HasCallback(s.commands)
    ensures var t := Commanded(s);
      && t.adapter.account == Eventually(s.adapter.account, s.commands)
      && (s.commands != [] ==> AccountOf(t) == t.adapter.account) && (s.commands == [] ==> t == s)
      && SameQueues(s, t) && t.commands == []
    decreases |s.commands|
  {
    hide Sound, Obeyed;
    if s.commands != [] {
      var c := s.commands[0];
      var t := Obeyed(s, c).(commands := s.commands[1..]);
      ObeyedAccount(s, c);
      ObeyedSound(s, c);
      SameSession(Obeyed(s, c), t);
      CommandedReaches(t);
      if t.commands != [] { assert t.commands[|t.commands| - 1] == s.commands[|s.commands| - 1]; }
    }
  }

  /** The service at the top of a turn, once a pending reset is carried out. */
  function AfterReset(s: Service): Service {
    if s.reset then Discarded(s).(adapter := Released(s.adapter), reset := false) else s
  }

  lemma AfterResetSound(s: Service)
    requires Sound(s)
    ensures Sound(AfterReset(s)) && AfterReset(s).adapter.account == s.adapter.account
  {
    hide Released, Sound, Accounted;
    if s.reset {
      ReleasedAccount(s.adapter);
      SoundAdapter(s);
      ReleasedAccounted(s.adapter);
      SoundWithAdapter(s, Released(s.adapter));
      SameSession(s.(adapter := Released(s.adapter)), AfterReset(s));
    }
  }

  lemma FaithfulTop(s: Service, account: Option<Account>)
    requires Faithful(s, account) && s.stage == AtTop && Sound(s)
    requires HasCallback(s.commands) ==> Harmless(ToppedUp(s), account)
    ensures Faithful(ToppedUp(s), account) && ToppedUp(s).stage == Working
  {
    hide Commanded, Names, Released, Sound, Accounted, HasCallback, CommandsDiscard;
    var c, t := AfterReset(s), ToppedUp(s);
    assert t == Commanded(c).(stage := Working);
    AfterResetSound(s);
    CommandedQueues(c);
    if !HasCallback(s.commands) { CommandedReaches(c); }
    forall item | InEvaluations(t, item) || InFrames(t, item)
      ensures Names(item, account)
    {
      assert InEvaluations(c, item) || InFrames(c, item);
    }
  }

  lemma ReleasedAccount(a: Sane)
    ensures Released(a).account == a.account
  {
  }

  lemma {:induction false} EventuallyAppended(account: Option<Account>, commands: seq<Command>, c: Command)
    ensures Eventually(account, commands + [c])
      == match c case BindTo(a) => Some(a) case Drop(_) => None case Callback(_) => Eventually(account, commands)
  {
  }

  /** A revocation leaves the queues empty and every promise to the owner's next turn. */
  lemma FaithfulCaller(s: Service, n: nat, x: Step, account: Option<Account>)
    requires Faithful(s, account) && Enabled(s, x)
    requires x == CallerReset || x.CallerClear? || x.CallerBind? || x.CallerCallback?
    ensures Faithful(Stepped(s, n, x).0, Wished(s, x, account))
  {
    hide Names;
    match x
    case CallerReset =>
    case CallerClear(forget) => FaithfulCleared(s, forget, account);
    case CallerBind(a) => FaithfulBound(s, a, account);
    case CallerCallback(calls) => FaithfulCallback(s, calls, account);
  }

  lemma FaithfulCleared(s: Service, forget: bool, account: Option<Account>)
    requires Faithful(s, account)
    ensures Faithful(ClearedBy(s, forget), None)
  {
    EventuallyAppended(s.adapter.account, s.commands, Drop(forget));
    EventuallyAppended(None, s.commands, Drop(forget));
  }

  lemma FaithfulBound(s: Service, a: Account, account: Option<Account>)
    requires Faithful(s, account)
    ensures Faithful(BoundBy(s, a), Some(a))
  {
    hide Names;
    EventuallyAppended(s.adapter.account, s.commands, BindTo(a));
    EventuallyAppended(None, s.commands, BindTo(a));
    SameItems(s, BoundBy(s, a));
  }

  lemma FaithfulCallback(s: Service, calls: seq<SessionCall>, account: Option<Account>)
    requires Faithful(s, account)
    ensures Faithful(s.(commands := s.commands + [Callback(calls)]), account)
  {
    hide Names;
    EventuallyAppended(s.adapter.account, s.commands, Callback(calls));
    EventuallyAppended(None, s.commands, Callback(calls));
    SameItems(s, s.(commands := s.commands + [Callback(calls)]));
  }

  /** Nothing is queued or in the owner's hands that was not before. */
  lemma SameItems(s: Service, t: Service)
    requires t.stage == s.stage
    ensures t.frames == s.frames && t.unlocks == s.unlocks && t.latest == s.latest ==>
      forall item :: (InEvaluations(t, item) ==> InEvaluations(s, item)) && (InFrames(t, item) ==> InFrames(s, item))
  {
  }

  lemma FaithfulStopped(s: Service)
    ensures Faithful(Stopped(s), None)
  {
    hide Commanded, Released, AccountSessions.LoggedOut, CommandsDiscard;
    CommandedQueues(s);
  }

  lemma FaithfulReceived(s: Service, n: nat, at: real, fedAt: real, peer: Option<Endpoint>, packet: Packet,
                         native: NativeReply, account: Option<Account>)
    requires Faithful(s, account) && s.stage == Listening && Sound(s)
    ensures var t := ReceivedBy(s, n, at, fedAt, peer, packet, native);
      Faithful(t, if t.stage == Halted then None else account)
  {
    hide Handled, Stopped, Sound, Accounted, Names;
    SoundAdapter(s);
    HandledAttributed(s.limits, s.adapter, at, fedAt, peer, packet, native);
    var (a, output) := Handled(s.limits, s.adapter, at, fedAt, peer, packet, native);
    HandledAccounted(s.limits, s.adapter, at, fedAt, peer, packet, native);
    SoundWithAdapter(s, a);
    var t := ReceivedBy(s, n, at, fedAt, peer, packet, native);
    OrderedStopped(s.(adapter := a), n, n);
    FaithfulStopped(s.(adapter := a));
    if !s.reset && t.stage != Halted {
      NamesWhenever(Item(0, output), Item(n, output), s.adapter.account, account);
      forall item | InEvaluations(t, item) || InFrames(t, item)
        ensures Names(item, account)
      {
        assert InHand(t) == Some(item) || InEvaluations(s, item) || InFrames(s, item);
      }
    }
  }

  lemma NamesWhenever(a: Item, b: Item, bound: Option<Account>, account: Option<Account>)
    requires a.output == b.output && Names(a, bound) && Only(bound, account)
    ensures Names(b, account)
  {
  }

  lemma HandledAccounted(l: Limits, a: Sane, at: real, fedAt: real, peer: Option<Endpoint>, packet: Packet, n: NativeReply)
    requires Accounted(a)
    ensures Accounted(Handled(l, a, at, fedAt, peer, packet, n).0)
  {
    hide Handled;
    HandledKeeps(l, a, at, fedAt, peer, packet, n);
  }

  lemma HandledAttributed(l: Limits, a: Sane, at: real, fedAt: real, peer: Option<Endpoint>, packet: Packet, n: NativeReply)
    requires Accounted(a)
    ensures var (s, output) := Handled(l, a, at, fedAt, peer, packet, n);
      s.account == a.account && Names(Item(0, output), a.account)
  {
    hide Handled;
    HandledKeeps(l, a, at, fedAt, peer, packet, n);
  }

  /** What a step leaves alone that only moves items about. */
  predicate SameAccounts(s: Service, t: Service) {
    && t.commands == s.commands && t.account == s.account && t.epoch == s.epoch
    && t.adapter.account == s.adapter.account && t.reset == s.reset
  }

  predicate MovesItems(x: Step) {
    || x == CallerTakeFrame || x == CallerTakeEvaluation || x.OwnerWork? || x == OwnerCheck || x == OwnerIdle
    || x == OwnerVerify || x == OwnerEnqueue
  }

  lemma TakingKeepsAccounts(s: Service)
    ensures var t := FrameTaken(s).0; SameAccounts(s, t) && t.stage == s.stage && (Idle(s) ==> Idle(t))
    ensures var t := EvaluationTaken(s).0; SameAccounts(s, t) && t.stage == s.stage && (Idle(s) ==> Idle(t))
  {
  }

  lemma QueueingKeepsAccounts(s: Service)
    ensures SameAccounts(s, Checked(s)) && Checked(s).stage == s.stage
    ensures s.stage.Sending? ==> SameAccounts(s, Enqueued(s)) && Enqueued(s).stage == AtTop
  {
  }

  lemma MovingKeepsAccounts(s: Service, n: nat, x: Step)
    requires Enabled(s, x) && MovesItems(x) && Accounted(s.adapter)
    ensures var t := Stepped(s, n, x).0;
      && SameAccounts(s, t) && (t.stage == Halted <==> s.stage == Halted)
      && (s.stage == AtTop || s.stage == Halted ==> t.stage == s.stage && (Idle(s) ==> Idle(t)))
  {
    hide Act, Accounted, FrameTaken, EvaluationTaken, Checked, Enqueued, Idle;
    TakingKeepsAccounts(s);
    QueueingKeepsAccounts(s);
    if x.OwnerWork? { ActKeeps(s.limits, s.adapter, x.action); }
  }

  /** The other steps keep the account and move nothing new into the queues. */
  lemma FaithfulOtherwise(s: Service, n: nat, x: Step, account: Option<Account>)
    requires Faithful(s, account) && Sound(s) && Enabled(s, x) && MovesItems(x)
    ensures Faithful(Stepped(s, n, x).0, account) && (Stepped(s, n, x).0.stage == Halted <==> s.stage == Halted)
  {
    hide Accounted, Names, InEvaluations, InFrames, Sound, Stepped, Enabled, Idle;
    var t := Stepped(s, n, x).0;
    SoundAdapter(s);
    MovingKeepsAccounts(s, n, x);
    if s.stage != Halted && !t.reset {
      forall item | InEvaluations(t, item) || InFrames(t, item)
        ensures Names(item, account)
      {
        StepCarries(s, n, x, item);
        assert !Arrives(s, n, x, item);
      }
    }
  }

  lemma FaithfulRestarted(s: Service, now: real, account: Option<Account>)
    requires Faithful(s, account) && s.stage == Halted
    ensures Faithful(Restarted(s, now), account)
  {
  }

  lemma StepFaithful(s: Service, n: nat, x: Step, account: Option<Account>)
    requires Faithful(s, account) && Sound(s)
    requires x == OwnerTop && s.stage == AtTop && HasCallback(s.commands) ==> Harmless(ToppedUp(s), account)
    ensures var t := Stepped(s, n, x).0;
      Faithful(t, if s.stage != Halted && t.stage == Halted then None else Wished(s, x, account))
  {
    hide Faithful, Sound, Harmless, HasCallback, ToppedUp, Stopped, ReceivedBy, Checked, Enqueued, FrameTaken,
         EvaluationTaken, Restarted;
    if !Enabled(s, x) {
      NotEnabled(s, n, x, account);
    } else if x == CallerReset || x.CallerClear? || x.CallerBind? || x.CallerCallback? {
      FaithfulCaller(s, n, x, account);
      CallersDoNotHalt(s, n, x);
    } else if x == OwnerTop {
      FaithfulTop(s, account);
    } else if x == OwnerEnd {
      FaithfulStopped(s);
      OrderedStopped(s, 0, 0);
    } else if x.OwnerStart? {
      FaithfulRestarted(s, x.now, account);
    } else if x.OwnerReceive? {
      FaithfulReceived(s, n, x.at, x.fedAt, x.peer, x.packet, x.native, account);
    } else {
      FaithfulOtherwise(s, n, x, account);
    }
  }

  lemma CallersDoNotHalt(s: Service, n: nat, x: Step)
    requires x == CallerReset || x.CallerClear? || x.CallerBind? || x.CallerCallback?
    ensures Stepped(s, n, x).0.stage == s.stage
  {
  }

  lemma NotEnabled(s: Service, n: nat, x: Step, account: Option<Account>)
    requires !Enabled(s, x)
    ensures Stepped(s, n, x).0 == s && Wished(s, x, account) == account
  {
  }

  lemma {:induction false} AlwaysFaithful(run: Run, n: nat)
    requires n <= |run.steps| && run.capacity >= 1 && HarmlessTurns(run, n)
    ensures Faithful(run.State(n), CallerAccount(run, n))
  {
    hide Faithful, Sound, Ordered, Stepped, Wished, Harmless;
    if n == 0 {
      BeginFaithful(run.limits, run.capacity, run.start, run.stored);
    } else {
      AlwaysFaithful(run, n - 1);
      AlwaysOrdered(run, n - 1);
      if CallsBack(run, n - 1) { TurnIsHarmless(run, n - 1); }
      StepFaithful(run.State(n - 1), n - 1, run.steps[n - 1], CallerAccount(run, n - 1));
    }
  }

  lemma TurnIsHarmless(run: Run, n: nat)
    requires n < |run.steps| && HarmlessTurns(run, n + 1) && CallsBack(run, n)
    ensures Harmless(ToppedUp(run.State(n)), CallerAccount(run, n))
  {
    hide Commanded, Harmless;
  }

  lemma BeginFaithful(limits: Limits, capacity: nat, start: real, stored: Option<Option<AccountSessions.Credentials>>)
    ensures Faithful(Begin(limits, capacity, start, stored), None)
  {
  }

  /**
   * End-to-end attribution: in every interleaving whose callbacks were harmless, with or without an account
   * profile, an evaluation handed to a caller with a context names the account the callers themselves bound
   * last, even while the owner thread still has binding commands to obey or was cut off between receiving and
   * queueing. HarmlessExactly, in ServiceCallbacks, says that nothing less will do.
   */
  lemma TakenNamesTheCallersAccount(run: Run, n: nat)
    requires run.capacity >= 1 && n < |run.steps| && run.Taken(n).Some? && HarmlessTurns(run, n)
    ensures Names(run.Taken(n).value, CallerAccount(run, n))
  {
    hide Sound, Names, Released, Handled, Act, Commanded, HarmlessTurns;
    var s := run.State(n);
    AlwaysOrdered(run, n);
    AlwaysFaithful(run, n);
    TakenIsRecent(s, n, run.Horizon(n), run.steps[n]);
    StepCarries(s, n, run.steps[n], run.Taken(n).value);
  }

  /** Callbacks or not, a context names the account the receiver was bound to when the datagram came in. */
  lemma TakenNamesTheAccountOnArrival(run: Run, n: nat)
    requires run.capacity >= 1 && n < |run.steps| && run.Taken(n).Some?
    ensures var item := run.Taken(n).value; item.arrival < n && Names(item, run.State(item.arrival).adapter.account)
  {
    hide Sound, Names, Handled, Stepped, Ordered, InEvaluations, InFrames;
    var item := run.Taken(n).value;
    StepCarries(run.State(n), n, run.steps[n], item);
    CarriedWasReceived(run, n, item);
    var m := item.arrival;
    AlwaysOrdered(run, m);
    SoundAdapter(run.State(m));
    var x, s := run.steps[m], run.State(m);
    HandledAttributed(s.limits, s.adapter, x.at, x.fedAt, x.peer, x.packet, x.native);
    NamesWhenever(Item(0, item.output), item, s.adapter.account, s.adapter.account);
  }

  // ----- The account session of a profile -----

  /** A session that is signed in has its receiver bound to somebody. */
  predicate SessionBound(s: AccountSessions.SessionState) {
    AccountRuns.SignedInAs(s).Some? ==> s.adapter.account.Some?
  }

  predicate ProfileBound(s: Service) { s.profile.Some? && SessionBound(SessionOf(s)) }

  lemma TakeBound(l: Limits, s: AccountSessions.SessionState, x: SessionCall)
    requires Accounted(s.adapter) && SessionBound(s)
    ensures SessionBound(AccountRuns.Take(l, s, x).0)
  {
    hide Accounted, AccountSessions.Begun, AccountSessions.BegunSet, AccountSessions.Settled, Unbound;
    match x
    case SignIn(operation) =>
      AccountRuns.BegunKeepsAccount(AccountSessions.LoggedOut(s, false, true).0, operation, None);
    case Qualify(job, gameId, consoleId) => AccountRuns.QualifyKeepsAccount(s, job, gameId, consoleId);
    case Ask(request) =>
      if AccountSessions.TargetOf(s, request).Some? {
        AccountRuns.BegunKeepsAccount(s, request.For(AccountSessions.TargetOf(s, request).value), s.credentials);
      }
    case Accept(job, result, commit) => AccountRuns.AcceptKeepsAccount(l, s, job, result, commit);
    case _ =>
  }

  lemma {:induction false} CalledBound(l: Limits, s: AccountSessions.SessionState, calls: seq<SessionCall>)
    requires AccountRuns.Aligned(s) && SessionBound(s)
    ensures SessionBound(Called(l, s, calls))
  {
    hide AccountRuns.Take, SessionBound;
    if calls != [] {
      var before := calls[..|calls| - 1];
      CalledBound(l, s, before);
      CalledAligned(l, s, before);
      TakeBound(l, Called(l, s, before), calls[|calls| - 1]);
    }
  }

  /** After any command the account that is shown has the receiver bound. */
  lemma ObeyedBound(s: Service, c: Command)
    requires Sound(s) && ProfileBound(s)
    ensures var t := Obeyed(s, c); ProfileBound(t) && (AccountOf(t).Some? ==> t.adapter.account.Some?)
  {
    hide Accounted, AccountRuns.Aligned, Called, Released;
    if c.Callback? { CalledBound(s.limits, SessionOf(s), c.calls); }
  }

  lemma {:induction false} CommandedBound(s: Service)
    requires Sound(s) && ProfileBound(s)
    ensures var t := Commanded(s);
      ProfileBound(t) && (s.commands != [] && AccountOf(t).Some? ==> t.adapter.account.Some?)
    decreases |s.commands|
  {
    hide Sound, Obeyed, SessionBound;
    if s.commands != [] {
      var t := Obeyed(s, s.commands[0]).(commands := s.commands[1..]);
      ObeyedBound(s, s.commands[0]);
      ObeyedSound(s, s.commands[0]);
      SameSession(Obeyed(s, s.commands[0]), t);
      CommandedBound(t);
    }
  }

  lemma StepBound(s: Service, n: nat, x: Step)
    requires Sound(s) && ProfileBound(s)
    ensures ProfileBound(Stepped(s, n, x).0)
  {
    hide Sound, Accounted, Act, Commanded, Handled, Released, Stopped, FrameTaken, EvaluationTaken, Enqueued, ToppedUp,
         ReceivedBy, Restarted, ProfileBound;
    SoundAdapter(s);
    if !Enabled(s, x) { return; }
    var t := Stepped(s, n, x).0;
    match x
    case OwnerTop => ToppedBound(s);
    case OwnerEnd => StoppedBound(s);
    case OwnerStart(now) => RestartedBound(s, now);
    case OwnerWork(action) =>
      ActKeeps(s.limits, s.adapter, action);
      SameBinding(s, t);
    case OwnerReceive(at, fedAt, peer, packet, native) => ReceivedBound(s, n, at, fedAt, peer, packet, native);
    case _ =>
      TakingKeepsAdapter(s);
      SameBinding(s, t);
  }

  lemma SameBinding(s: Service, t: Service)
    requires ProfileBound(s) && t.profile == s.profile && t.adapter.account == s.adapter.account
    ensures ProfileBound(t)
  {
  }

  lemma ToppedBound(s: Service)
    requires Sound(s) && ProfileBound(s) && s.stage == AtTop
    ensures ProfileBound(ToppedUp(s))
  {
    hide Sound, Commanded, Released, ProfileBound;
    AfterResetSound(s);
    SameBinding(s, AfterReset(s));
    CommandedBound(AfterReset(s));
    SameBinding(Commanded(AfterReset(s)), ToppedUp(s));
  }

  lemma RestartedBound(s: Service, now: real)
    requires ProfileBound(s)
    ensures ProfileBound(Restarted(s, now))
  {
  }

  lemma ReceivedBound(s: Service, n: nat, at: real, fedAt: real, peer: Option<Endpoint>, packet: Packet, native: NativeReply)
    requires Accounted(s.adapter) && ProfileBound(s) && s.stage == Listening
    ensures ProfileBound(ReceivedBy(s, n, at, fedAt, peer, packet, native))
  {
    hide Accounted, Handled, Stopped, SessionBound;
    HandledAttributed(s.limits, s.adapter, at, fedAt, peer, packet, native);
    var t := s.(adapter := Handled(s.limits, s.adapter, at, fedAt, peer, packet, native).0);
    SameBinding(s, t);
    if Handled(s.limits, s.adapter, at, fedAt, peer, packet, native).1.evaluation == Some(Result.Raised) {
      StoppedBound(t);
    } else {
      SameBinding(t, ReceivedBy(s, n, at, fedAt, peer, packet, native));
    }
  }

  lemma StoppedBound(s: Service)
    requires ProfileBound(s)
    ensures ProfileBound(Stopped(s))
  {
    hide Commanded, Released;
    ProfileStays(s);
  }

  lemma {:induction false} ProfileStays(s: Service)
    ensures Commanded(s).profile.Some? == s.profile.Some?
    decreases |s.commands|
  {
    hide Obeyed;
    if s.commands != [] {
      ObeyedKeepsProfile(s, s.commands[0]);
      ProfileStays(Obeyed(s, s.commands[0]).(commands := s.commands[1..]));
    }
  }

  lemma ObeyedKeepsProfile(s: Service, c: Command)
    ensures Obeyed(s, c).profile.Some? == s.profile.Some?
  {
    hide Bound, Unbound, Called, AccountSessions.LoggedOut;
  }

  lemma {:induction false} AlwaysBound(run: Run, n: nat)
    requires n <= |run.steps| && run.capacity >= 1 && run.stored.Some?
    ensures ProfileBound(run.State(n))
  {
    hide Stepped, Sound, Ordered, SessionBound;
    if n == 0 {
      BeginsBound(run);
    } else {
      AlwaysBound(run, n - 1);
      AlwaysOrdered(run, n - 1);
      StepBound(run.State(n - 1), n - 1, run.steps[n - 1]);
    }
  }

  lemma BeginsBound(run: Run)
    requires run.stored.Some?
    ensures ProfileBound(run.State(0))
  {
  }

  // ----- Harmless and harmful callbacks -----

  lemma {:induction false} CommandedAppended(s: Service, front: seq<Command>, c: Command)
    ensures Commanded(s.(commands := front + [c])) == Obeyed(Commanded(s.(commands := front)), c)
    decreases |front|
  {
    hide Obeyed;
    if front == [] {
      assert front + [c] == [c] && [c][1..] == [];
      ObeyingLeavesQueue(s, c, [c]);
      ObeyingLeavesQueue(s, c, []);
      assert Commanded(s.(commands := [c])) == Commanded(Obeyed(s.(commands := [c]), c).(commands := []));
    } else {
      var rest := front[1..];
      assert (front + [c])[0] == front[0] && (front + [c])[1..] == rest + [c];
      ObeyingLeavesQueue(s, front[0], front + [c]);
      ObeyingLeavesQueue(s, front[0], front);
      var t := Obeyed(s, front[0]);
      CommandedAppended(t, rest, c);
    }
  }

  /** A callback that ends by logging out is harmless, whatever went before it and whoever was asked for. */
  lemma LogoutIsHarmless(s: Service, calls: seq<SessionCall>, account: Option<Account>)
    requires s.stage == AtTop && s.profile.Some?
    requires s.commands != [] && s.commands[|s.commands| - 1] == Callback(calls)
    requires calls != [] && calls[|calls| - 1].Logout?
    ensures Harmless(ToppedUp(s), account)
  {
    hide Commanded, Released, Unbound, Checked;
    var c, front := AfterReset(s), s.commands[..|s.commands| - 1];
    assert s.commands == front + [Callback(calls)];
    CommandedAppended(c, front, Callback(calls));
    var t := Commanded(c.(commands := front));
    ProfileStays(c.(commands := front));
    LoggedOutLast(t, calls);
  }

  lemma LoggedOutLast(s: Service, calls: seq<SessionCall>)
    requires s.profile.Some? && calls != [] && calls[|calls| - 1].Logout?
    ensures var t := Obeyed(s, Callback(calls)); t.adapter.account.None? && AccountOf(t).None?
  {
    hide Released;
  }

  /**
   * A callback that only looks is harmless exactly when the session is signed in as the callers' last account or
   * nobody.
   */
  lemma LookingIsHarmlessExactly(s: Service, account: Option<Account>)
    requires s.stage == AtTop && s.profile.Some? && !s.reset && s.commands == [Callback([])]
    requires Only(s.adapter.account, account)
    ensures Harmless(ToppedUp(s), account) <==> Only(AccountRuns.SignedInAs(SessionOf(s)), account)
  {
    hide ToppedUp;
    LookingTurn(s);
  }

  /** All that such a callback does is to have the service show the session's account. */
  lemma LookingTurn(s: Service)
    requires s.stage == AtTop && s.profile.Some? && !s.reset && s.commands == [Callback([])]
    ensures ToppedUp(s) == Checked(WithSession(s, SessionOf(s))).(commands := [], stage := Working)
  {
    hide Checked;
    var o := Obeyed(s, s.commands[0]).(commands := s.commands[1..]);
    assert Called(s.limits, SessionOf(s), []) == SessionOf(s);
    assert s.commands[1..] == [];
    assert Commanded(s) == Commanded(o) == o;
  }

  /**
   * Where the receiver is bound to one account while the session of the profile is signed in as another, such a
   * callback makes the service show the session's account; binding that one then hides nothing, and what is
   * taken next names the other.
   */
  lemma CallbackLeavesOldEvaluations(s: Service, n: nat)
    requires s.stage == AtTop && !s.reset && s.commands == [] && s.unlocks != [] && s.profile.Some?
    requires s.frameGeneration == Some(Generation(s))
    requires AccountRuns.SignedInAs(SessionOf(s)).Some? && s.adapter.account != AccountRuns.SignedInAs(SessionOf(s))
    requires s.unlocks[0].output.context.Some? && Names(s.unlocks[0], s.adapter.account)
    ensures var signedIn := AccountRuns.SignedInAs(SessionOf(s)).value;
      var a := Stepped(s, n, CallerCallback([])).0;
      var b := Stepped(a, n + 1, OwnerTop).0;
      var c := Stepped(b, n + 2, CallerBind(signedIn)).0;
      && AccountOf(b) == Some(signedIn) && !c.reset
      && Stepped(c, n + 3, CallerTakeEvaluation).1 == Some(s.unlocks[0])
      && !Names(s.unlocks[0], Some(signedIn))
  {
    hide ToppedUp, Stopped, Handled;
    var a := Stepped(s, n, CallerCallback([])).0;
    assert a.commands == [Callback([])];
    LookingTurn(a);
  }
}

/**
 * Whole runs of the evaluated receiver: an installed list and a live evaluator
 * stand and fall together, and an evaluation is attributed to the account that
 * is bound and the image that is identified when it is made.
 */
module AttributionRuns {
  import opened Common
  import opened WatchLists
  import opened WatchSessions
  import opened Receivers
  import opened ReceiverRuns
  import opened Evaluators
  import opened EvaluatedReceivers

  datatype Action =
    | Bind(account: Account)
    | Unbind
    | ResetAll
    | Advance(at: real)
    | Poll(first: real, second: real)
    | Finish(first: real, second: real, job: Job, verdict: Verdict, ids: set<nat>, activates: bool)
    | FinishSet(first: real, second: real, third: real, job: Job, qualified: QualifiedSet)
    | Handle(at: real, fedAt: real, peer: Option<Endpoint>, packet: Packet, native: NativeReply)

  function Act(l: Limits, a: Sane, x: Action): (r: Sane) {
    match x
    case Bind(account) => Bound(a, account)
    case Unbind => Unbound(a)
    case ResetAll => Released(a)
    case Advance(at) => Ticked(l, a, at)
    case Poll(first, second) => TookJobs(l, a, first, second).0
    case Finish(first, second, job, verdict, ids, activates) =>
      Concluded(l, a, first, second, job, verdict, ids, activates).0
    case FinishSet(first, second, third, job, qualified) => ConcludedSet(l, a, first, second, third, job, qualified).0
    case Handle(at, fedAt, peer, packet, native) => Handled(l, a, at, fedAt, peer, packet, native).0
  }

  /** Holds after every call: one evaluator at most, no other left open, context and account agree. */
  predicate Accounted(a: Adapter) {
    && Consistent(a.receiver)
    && (a.receiver.watching.watch.Some? ==>
          && a.evaluator.Some? && a.evaluator.value.watch == a.receiver.watching.watch.value
          && a.evaluator.value.generation == a.receiver.watching.generation)
    && a.live == (if a.evaluator.Some? then 1 else 0)
    && (a.context.Some? ==> a.evaluator.Some? && a.account == Some(a.context.value.account))
    && (a.context.Some? && a.receiver.watching.watch.Some? ==>
          a.context.value.imageHash == a.receiver.identified.value.imageHash)
  }

  /** A list is installed exactly when a live evaluator of the same list and generation exists. */
  predicate InStep(a: Adapter) {
    Accounted(a) && (a.evaluator.Some? ==> a.receiver.watching.watch.Some?)
  }

  lemma ReconcileRestores(a: Sane, r: ReceiverState)
    requires Accounted(a) && Consistent(r) && SameList(a.receiver, r)
    ensures InStep(Reconciled(a.(receiver := r))) && Reconciled(a.(receiver := r)).account == a.account
  {
  }

  lemma TickedKeeps(l: Limits, a: Sane, now: real)
    requires Accounted(a)
    ensures InStep(Ticked(l, a, now)) && Ticked(l, a, now).account == a.account
  {
    ExpiredKeeps(l, a.receiver, now);
    ReconcileRestores(a, Expired(l, a.receiver, now));
  }

  lemma ReleasedKeeps(a: Sane)
    requires Accounted(a)
    ensures var r := Released(a); InStep(r) && r.evaluator.None? && r.live == 0 && r.context.None? && r.account == a.account
  {
    ReconcileRestores(a, Revoke(a.receiver));
  }

  lemma OfferedKeeps(l: Limits, a: Sane, now: real, job: Job, v: Verdict, ids: set<nat>, activates: bool)
    requires InStep(a) && v.Qualified? && a.receiver.pending == Some(job)
    ensures var (s, outcome) := Offered(l, a, now, job, v, ids, activates);
      && InStep(s) && s.account == a.account && (outcome == Accepted ==> s.context.None? && s.evaluator.Some?)
      && (outcome == Accepted ==> s.receiver.identified == Some(job.identity))
  {
    CompletedKeeps(l, a.receiver, now, job, v);
    ReleasedKeeps(a);
    assert a.evaluator.None?;
  }

  lemma ConcludedKeeps(l: Limits, a: Sane, first: real, second: real, job: Job, v: Verdict, ids: set<nat>, activates: bool)
    requires Accounted(a)
    ensures var (s, outcome) := Concluded(l, a, first, second, job, v, ids, activates);
      && InStep(s) && s.account == a.account
      && (outcome == Accepted && v.Qualified? ==>
            s.context.None? && s.evaluator.Some? && s.receiver.identified == Some(job.identity))
  {
    hide Offered, Ticked;
    TickedKeeps(l, a, first);
    var t := Ticked(l, a, first);
    if t.receiver.pending == Some(job) {
      if v.Qualified? {
        OfferedKeeps(l, t, second, job, v, ids, activates);
      } else {
        CompletedKeeps(l, t.receiver, second, job, v);
        ReconcileRestores(t, Completed(l, t.receiver, second, job, v).0);
      }
    }
  }

  lemma ConcludedSetKeeps(l: Limits, a: Sane, first: real, second: real, third: real, job: Job, q: QualifiedSet)
    requires Accounted(a)
    ensures var s := ConcludedSet(l, a, first, second, third, job, q).0; InStep(s) && s.account == a.account
  {
    hide Concluded, Ticked, Released;
    TickedKeeps(l, a, first);
    var t := Ticked(l, a, first);
    ReleasedKeeps(t);
    CompletedKeeps(l, t.receiver, second, job, Failed);
    if !ForCurrent(t, job, q.context) {
      ReconcileRestores(t, Completed(l, t.receiver, second, job, Failed).0);
    } else {
      ConcludedKeeps(l, t, second, third, job, SetVerdict(q), q.ids, q.activates);
    }
  }

  lemma HandledKeeps(l: Limits, a: Sane, now: real, fedAt: real, peer: Option<Endpoint>, packet: Packet, n: NativeReply)
    requires Accounted(a)
    ensures var (s, output) := Handled(l, a, now, fedAt, peer, packet, n);
      && InStep(s) && s.account == a.account
      && (output.evaluation.Some? <==> output.wire.frame.Some?)
      && (output.evaluation.Some? ==>
            && s.evaluator.Some? && s.receiver.identified.Some?
            && output.wire.frame.value.generation == s.evaluator.value.generation)
      && (output.context.Some? ==> output.evaluation.Some? && output.context == s.context)
  {
    hide Received, Evaluated;
    ReceivedKeeps(l, a.receiver, now, fedAt, peer, packet);
    ReceivedKeepsList(l, a.receiver, now, fedAt, peer, packet);
    var (r, wire) := Received(l, a.receiver, now, fedAt, peer, packet);
    ReconcileRestores(a, r);
    if wire.frame.Some? {
      FrameNeedsFullTransfer(l, a.receiver, now, fedAt, peer, packet);
      var e := Reconciled(a.(receiver := r)).evaluator.value;
      EvaluatedKeepsIdentity(e, CallFor(wire.frame.value, n));
    }
  }

  lemma EvaluatedKeepsIdentity(e: EvaluatorState, c: Call)
    requires e.runtime.Some? && WellLaidOut(e.watch)
    ensures var s := Evaluated(e, c).0; s.watch == e.watch && s.generation == e.generation && s.runtime.Some?
  {
  }

  /**
   * Taking jobs is the one call that can leave the two out of step, and it does exactly when an
   * installed list's lease runs out between its two readings of the clock.
   */
  lemma PollMayLag(l: Limits, a: Sane, first: real, second: real)
    requires Accounted(a)
    ensures var s := TookJobs(l, a, first, second).0;
      var t := Ticked(l, a, first);
      && Accounted(s) && s.account == a.account
      && (InStep(s) <==> !(t.receiver.watching.watch.Some? && LeaseOver(l, t.receiver, second)))
  {
    hide Ticked;
    TickedKeeps(l, a, first);
    var t := Ticked(l, a, first);
    ExpiredKeeps(l, t.receiver, second);
  }

  lemma ActKeeps(l: Limits, a: Sane, x: Action)
    requires Accounted(a)
    ensures Accounted(Act(l, a, x)) && (!x.Poll? ==> InStep(Act(l, a, x)) || Act(l, a, x) == a)
    ensures Act(l, a, x).account ==
      (match x case Bind(account) => Some(account) case Unbind => None case _ => a.account)
  {
    hide Ticked, Concluded, ConcludedSet, Handled, Released, TookJobs;
    match x
    case Bind(_) => ReleasedKeeps(a);
    case Unbind => ReleasedKeeps(a);
    case ResetAll => ReleasedKeeps(a);
    case Advance(at) => TickedKeeps(l, a, at);
    case Poll(first, second) => PollMayLag(l, a, first, second);
    case Finish(first, second, job, verdict, ids, activates) =>
      ConcludedKeeps(l, a, first, second, job, verdict, ids, activates);
    case FinishSet(first, second, third, job, qualified) =>
      ConcludedSetKeeps(l, a, first, second, third, job, qualified);
    case Handle(at, fedAt, peer, packet, native) => HandledKeeps(l, a, at, fedAt, peer, packet, native);
  }

  datatype History = History(limits: Limits, start: real, actions: seq<Action>)
  {
    function State(n: nat): Sane
      requires n <= |actions|
    {
      if n == 0 then Start(start) else Act(limits, State(n - 1), actions[n - 1])
    }

    /** The account of the last binding that was not cleared since. */
    function BoundAccount(n: nat): Option<Account>
      requires n <= |actions|
    {
      if n == 0 then None
      else match actions[n - 1]
        case Bind(account) => Some(account)
        case Unbind => None
        case _ => BoundAccount(n - 1)
    }
  }

  lemma {:induction false} AlwaysAccounted(h: History, n: nat)
    requires n <= |h.actions|
    ensures Accounted(h.State(n)) && h.State(n).account == h.BoundAccount(n)
  {
    hide Act, Accounted;
    if n > 0 {
      AlwaysAccounted(h, n - 1);
      ActKeeps(h.limits, h.State(n - 1), h.actions[n - 1]);
    } else {
      InitialAccounted(h.start);
    }
  }

  lemma InitialAccounted(start: real)
    ensures Accounted(Start(start)) && InStep(Start(start))
  {
  }

  /** The lease of an installed list ran out inside the last poll, and nothing has reconciled since. */
  predicate Lapsed(h: History, n: nat)
    requires n <= |h.actions|
  {
    n > 0 &&
    match h.actions[n - 1]
    case Poll(first, second) =>
      var t := Ticked(h.limits, h.State(n - 1), first);
      t.receiver.watching.watch.Some? && LeaseOver(h.limits, t.receiver, second)
    case Bind(account) => h.BoundAccount(n - 1) == Some(account) && Lapsed(h, n - 1)
    case _ => false
  }

  /** At every moment of every run the list and the evaluator are in step, except just after such a poll. */
  lemma {:induction false} InStepUnlessLapsed(h: History, n: nat)
    requires n <= |h.actions|
    ensures InStep(h.State(n)) <==> !Lapsed(h, n)
  {
    hide InStep, Accounted, Ticked, Concluded, ConcludedSet, Handled, Released, TookJobs;
    if n == 0 {
      InitialAccounted(h.start);
    } else {
      AlwaysAccounted(h, n - 1);
      InStepUnlessLapsed(h, n - 1);
      var x := h.actions[n - 1];
      ActKeeps(h.limits, h.State(n - 1), x);
      match x
      case Poll(first, second) => PollMayLag(h.limits, h.State(n - 1), first, second);
      case Bind(account) =>
        if h.BoundAccount(n - 1) != Some(account) { BoundInStep(h.State(n - 1), account); }
      case Unbind => UnboundInStep(h.State(n - 1));
      case ResetAll => ReleasedKeeps(h.State(n - 1));
      case Advance(at) => TickedKeeps(h.limits, h.State(n - 1), at);
      case Finish(first, second, job, verdict, ids, activates) =>
        ConcludedKeeps(h.limits, h.State(n - 1), first, second, job, verdict, ids, activates);
      case FinishSet(first, second, third, job, q) =>
        ConcludedSetKeeps(h.limits, h.State(n - 1), first, second, third, job, q);
      case Handle(at, fedAt, peer, packet, native) =>
        HandledKeeps(h.limits, h.State(n - 1), at, fedAt, peer, packet, native);
    }
  }

  /** A console asks for a game at 0 s, a list for it is published at 1 s, and jobs are polled at the lease's end. */
  function LapsingHistory(w: Watch): History {
    History(BRIEF, 0.0, [Handle(0.0, 0.0, Some(CONSOLE), Control(Some(Identify(CONSOLE, GAME))),
                                NativeReply({}, [], true, true)),
                         Finish(1.0, 1.0, Job(2, GAME), Qualified(Some(w), false, "", "", 1), {7}, true),
                         Poll(14.0, 15.0)])
  }

  const BRIEF := Limits(15.0, 30.0, 40, true)
  const CONSOLE := Endpoint(1, 2)
  const GAME := Identity("0123456789abcdef0123456789abcdef", "SLUS_201.74")

  lemma GameIsAskedFor(w: Watch)
    ensures var a := LapsingHistory(w).State(1);
      && a.receiver == Asked(Initial(0.0).(traffic := Traffic(0.0, 1, 1), owner := Some(1), lastActivity := Some(0.0),
                                           destination := Some(CONSOLE)), GAME, 0.0)
      && a.evaluator.None? && a.live == 0
  {
    var h := LapsingHistory(w);
    assert h.State(0) == Start(0.0);
    assert h.State(1) == Act(BRIEF, Start(0.0), h.actions[0]);
  }

  lemma ListIsPublished(w: Watch)
    requires WellLaidOut(w)
    ensures var a := LapsingHistory(w).State(2);
      && a.receiver.watching.watch == Some(w) && a.receiver.lastActivity == Some(0.0)
      && a.receiver.watching.generation == 4 && a.receiver.pending.None?
      && a.evaluator == Some(NewEvaluator(w, {7}, 4)) && a.live == 1
  {
    hide WellLaidOut, Received;
    GameIsAskedFor(w);
    var h := LapsingHistory(w);
    var a := h.State(1);
    assert ValidSerial("SLUS_201.74");
    assert Ticked(BRIEF, a, 1.0) == a;
    assert h.State(2) == Act(BRIEF, a, h.actions[1]);
  }

  /**
   * So for every list: a poll whose two clock readings lie on both sides of the lease's end leaves its evaluator
   * open.
   */
  lemma PollLags(w: Watch)
    requires WellLaidOut(w)
    ensures var h := LapsingHistory(w);
      && Lapsed(h, 3) && !InStep(h.State(3))
      && h.State(3).evaluator.Some? && h.State(3).live == 1 && h.State(3).receiver.watching.watch.None?
  {
    hide WellLaidOut, InStep, Accounted;
    ListIsPublished(w);
    var h := LapsingHistory(w);
    var a := h.State(2);
    assert Ticked(BRIEF, a, 14.0) == a;
    assert h.State(3) == Act(BRIEF, a, h.actions[2]);
    InStepUnlessLapsed(h, 3);
  }

  lemma BoundInStep(a: Sane, account: Account)
    requires Accounted(a) && a.account != Some(account)
    ensures InStep(Bound(a, account))
  {
    ReleasedKeeps(a);
  }

  lemma UnboundInStep(a: Sane)
    requires Accounted(a)
    ensures InStep(Unbound(a))
  {
    ReleasedKeeps(a);
  }

  /**
   * Attribution: in any run, every frame that comes out was evaluated by the evaluator of the
   * installed list, and a context on it names the account bound last and the identified image.
   */
  lemma EvaluationsAreAttributed(h: History, n: nat)
    requires n < |h.actions| && h.actions[n].Handle?
    ensures var x := h.actions[n];
      var (s, output) := Handled(h.limits, h.State(n), x.at, x.fedAt, x.peer, x.packet, x.native);
      && InStep(s)
      && (output.evaluation.Some? <==> output.wire.frame.Some?)
      && (output.context.Some? ==>
            && s.receiver.identified.Some?
            && h.BoundAccount(n) == Some(output.context.value.account)
            && output.context.value.imageHash == s.receiver.identified.value.imageHash)
  {
    hide Handled;
    AlwaysAccounted(h, n);
    var x := h.actions[n];
    HandledKeeps(h.limits, h.State(n), x.at, x.fedAt, x.peer, x.packet, x.native);
  }

  /** Native state never accumulates, and a reset leaves none. */
  lemma NativeStateIsReleased(h: History, n: nat)
    requires n <= |h.actions|
    ensures 0 <= h.State(n).live <= 1
    ensures Released(h.State(n)).live == 0 && Released(h.State(n)).evaluator.None?
  {
    AlwaysAccounted(h, n);
    ReleasedKeeps(h.State(n));
  }
}

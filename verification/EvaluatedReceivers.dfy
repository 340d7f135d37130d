/**
 * One receiver and at most one native evaluator, kept in step with the installed
 * watch list and with the bound account.
 */
module EvaluatedReceivers {
  import opened Common
  import opened WatchLists
  import opened Receivers
  import opened Evaluators

  const MAX_DEFINITIONS := 4096

  datatype Account = Account(name: string, epoch: nat)

  /** The identity a set was qualified for. */
  datatype SetContext = SetContext(account: Account, imageHash: string, gameId: nat, consoleId: nat)

  /**
   * A qualified set. `watch` is the natively derived list, None when derivation refuses the set;
   * `activates` says whether the native runtime accepts every definition.
   */
  datatype QualifiedSet = QualifiedSet(
    context: SetContext, ids: set<nat>, title: string, achievements: nat, watch: Option<Watch>, activates: bool)

  /** What the native runtime does with a frame; see Evaluators.Call. */
  datatype NativeReply = NativeReply(peeks: set<(nat, nat)>, events: seq<Event>, rebuilt: bool, recovered: bool)

  datatype EvaluatedOutput = EvaluatedOutput(wire: Output, evaluation: Option<Result>, context: Option<SetContext>)

  /** `live` counts native runtimes that were allocated and not destroyed. */
  datatype Adapter = Adapter(
    receiver: ReceiverState, evaluator: Option<EvaluatorState>, account: Option<Account>,
    context: Option<SetContext>, live: int)
  {
    /** A held evaluator is open and its list validated. */
    predicate Sane() { evaluator.Some? ==> evaluator.value.runtime.Some? && WellLaidOut(evaluator.value.watch) }
  }

  type Sane = a: Adapter | a.Sane() witness Adapter(Initial(0.0), None, None, None, 0)

  function Start(now: real): Sane { Adapter(Initial(now), None, None, None, 0) }

  predicate OutOfStep(a: Adapter) {
    a.evaluator.Some? &&
    (a.receiver.watching.watch.None? || a.evaluator.value.generation != a.receiver.watching.generation)
  }

  function Reconciled(a: Sane): (r: Sane) {
    if OutOfStep(a) then a.(evaluator := None, context := None, live := a.live - 1) else a
  }

  function Ticked(l: Limits, a: Sane, now: real): (r: Sane) {
    Reconciled(a.(receiver := Expired(l, a.receiver, now)))
  }

  function Released(a: Sane): (r: Sane) { Reconciled(a.(receiver := Revoke(a.receiver))) }

  function Bound(a: Sane, account: Account): (r: Sane) {
    if a.account == Some(account) then a else Released(a).(account := Some(account))
  }

  function Unbound(a: Sane): (r: Sane) { Released(a).(account := None) }

  /** The receiver reads the clock again after the adapter's own tick. */
  function TookJobs(l: Limits, a: Sane, first: real, second: real): (r: (Sane, Option<Job>)) {
    var t := Ticked(l, a, first);
    var (s, job) := Drained(l, t.receiver, second);
    (t.(receiver := s), job)
  }

  /** The list a candidate evaluator is built for, when building it succeeds. */
  predicate Buildable(v: Verdict, ids: set<nat>, activates: bool) {
    v.Qualified? && v.watch.Some? && WellLaidOut(v.watch.value) && 1 <= |ids| <= MAX_DEFINITIONS && activates
  }

  /** A list for the pending job is published only together with its evaluator. */
  function Offered(l: Limits, t: Sane, now: real, job: Job, v: Verdict, ids: set<nat>, activates: bool)
    : (r: (Sane, Outcome))
  {
    if !Buildable(v, ids, activates) then (Released(t), Outcome.Raised)
    else
      var (s, outcome) := Completed(l, t.receiver, now, job, v);
      match outcome
      case Raised => (Reconciled(t.(receiver := Revoke(s))), Outcome.Raised)
      case Ignored => (t.(receiver := s), Ignored)
      case Accepted =>
        var b := Reconciled(t.(receiver := s));
        (b.(evaluator := Some(NewEvaluator(v.watch.value, ids, t.receiver.watching.generation + 1)),
            context := None, live := b.live + 1), Accepted)
  }

  /** The lower-level completion; stale results are ignored before any native state is built. */
  function Concluded(l: Limits, a: Sane, first: real, second: real, job: Job, v: Verdict, ids: set<nat>, activates: bool)
    : (r: (Sane, Outcome))
  {
    var t := Ticked(l, a, first);
    if t.receiver.pending != Some(job) || job.token != t.receiver.token then (t, Ignored)
    else if v.Qualified? then Offered(l, t, second, job, v, ids, activates)
    else
      var (s, outcome) := Completed(l, t.receiver, second, job, v);
      (Reconciled(t.(receiver := s)), outcome)
  }

  predicate ForCurrent(a: Adapter, job: Job, context: SetContext) {
    a.account == Some(context.account) && a.receiver.pending == Some(job) && job.identity.imageHash == context.imageHash
  }

  function SetVerdict(q: QualifiedSet): Verdict { Qualified(q.watch, false, "", q.title, q.achievements) }

  /** A qualified set of the bound account and the pending image. */
  function ConcludedSet(l: Limits, a: Sane, first: real, second: real, third: real, job: Job, q: QualifiedSet)
    : (r: (Sane, Outcome))
  {
    var t := Ticked(l, a, first);
    if !ForCurrent(t, job, q.context) then
      (Reconciled(t.(receiver := Completed(l, t.receiver, second, job, Failed).0)), Ignored)
    else if q.watch.None? then (Released(t), Outcome.Raised)
    else
      var (s, outcome) := Concluded(l, t, second, third, job, SetVerdict(q), q.ids, q.activates);
      (if outcome == Accepted then s.(context := Some(q.context)) else s, outcome)
  }

  function CallFor(f: Frame, n: NativeReply): Call {
    Call(f.values, f.generation, f.sequence, n.peeks, n.events, n.rebuilt, n.recovered)
  }

  /** One datagram and, for a complete frame, its evaluation. */
  function Handled(l: Limits, a: Sane, now: real, fedAt: real, peer: Option<Endpoint>, packet: Packet, n: NativeReply)
    : (r: (Sane, EvaluatedOutput))
  {
    var (s, wire) := Received(l, a.receiver, now, fedAt, peer, packet);
    var b := Reconciled(a.(receiver := s));
    if wire.frame.None? || b.evaluator.None? then (b, EvaluatedOutput(wire, None, None))
    else
      var (e, result) := Evaluated(b.evaluator.value, CallFor(wire.frame.value, n));
      assert e.watch == b.evaluator.value.watch && e.runtime.Some?;
      (b.(evaluator := Some(e)), EvaluatedOutput(wire, Some(result), b.context))
  }

  class EvaluatedReceiver {
    const library: NativeLibrary
    const receiver: Receiver
    var evaluator: Evaluator?
    var account: Option<Account>
    var context: Option<SetContext>

    ghost predicate Valid()
      reads this, library, receiver, receiver.session, receiver.session.assembler, evaluator
    {
      && receiver.Valid()
      && (evaluator != null ==>
            evaluator.library == library && evaluator.runtime.Some? && WellLaidOut(evaluator.watch))
    }

    ghost function Model(): Adapter
      reads this, library, receiver, receiver.session, receiver.session.assembler, evaluator
    {
      Adapter(receiver.Model(), if evaluator == null then None else Some(evaluator.Model()), account, context,
              library.live)
    }

    constructor (limits: Limits, now: real)
      requires limits.Valid()
      ensures Valid() && fresh(receiver) && fresh(receiver.session) && fresh(library)
      ensures receiver.session.assembler == null && evaluator == null
      ensures receiver.limits == limits && Model() == Start(now)
    {
      library := new NativeLibrary();
      receiver := new Receiver(limits, now);
      evaluator, account, context := null, None, None;
    }

    method Reconcile()
      requires Valid()
      modifies this, library, evaluator
      ensures Valid() && Model() == Reconciled(old(Model()))
      ensures account == old(account) && (evaluator == null || evaluator == old(evaluator))
    {
      if evaluator != null &&
         (receiver.session.watch.None? || evaluator.generation != receiver.session.generation)
      {
        evaluator.Close();
        evaluator, context := null, None;
      }
    }

    method Tick(now: real)
      requires Valid()
      modifies this, library, evaluator, receiver, receiver.session, receiver.session.assembler
      ensures Valid() && Model() == Ticked(receiver.limits, old(Model()), now)
      ensures evaluator == null || evaluator == old(evaluator)
      ensures receiver.session.assembler == null || receiver.session.assembler == old(receiver.session.assembler)
              || fresh(receiver.session.assembler)
    {
      receiver.Tick(now);
      Reconcile();
    }
  
    /** Revokes account and game jobs, wire ownership and native history together. */
    method Reset()
      requires Valid()
      modifies this, library, evaluator, receiver, receiver.session, receiver.session.assembler
      ensures Valid() && Model() == Released(old(Model()))
      ensures evaluator == null || evaluator == old(evaluator)
      ensures receiver.session.assembler == null && account == old(account)
    {
      receiver.Clear();
      Reconcile();
    }

    method BindAccount(identity: Account)
      requires Valid()
      modifies this, library, evaluator, receiver, receiver.session, receiver.session.assembler
      ensures Valid() && Model() == Bound(old(Model()), identity)
      ensures evaluator == null || evaluator == old(evaluator) || fresh(evaluator)
      ensures receiver.session.assembler == null || receiver.session.assembler == old(receiver.session.assembler)
              || fresh(receiver.session.assembler)
    {
      if account != Some(identity) {
        Reset();
        account := Some(identity);
      }
    }

    method ClearAccount()
      requires Valid()
      modifies this, library, evaluator, receiver, receiver.session, receiver.session.assembler
      ensures Valid() && Model() == Unbound(old(Model()))
      ensures evaluator == null || evaluator == old(evaluator) || fresh(evaluator)
      ensures receiver.session.assembler == null || receiver.session.assembler == old(receiver.session.assembler)
              || fresh(receiver.session.assembler)
    {
      Reset();
      account := None;
    }

    method TakeJobs(first: real, second: real) returns (job: Option<Job>)
      requires Valid()
      modifies this, library, evaluator, receiver, receiver.session, receiver.session.assembler
      ensures Valid() && (Model(), job) == TookJobs(receiver.limits, old(Model()), first, second)
      ensures evaluator == null || evaluator == old(evaluator) || fresh(evaluator)
      ensures receiver.session.assembler == null || receiver.session.assembler == old(receiver.session.assembler)
              || fresh(receiver.session.assembler)
    {
      Tick(first);
      job := receiver.TakeJobs(second);
    }

    /** The evaluator of the list just installed takes the place of any earlier one. */
    method Adopt(candidate: Evaluator)
      requires Valid() && candidate != evaluator
      requires candidate.library == library && candidate.runtime.Some? && WellLaidOut(candidate.watch)
      modifies this, library, evaluator
      ensures Valid() && evaluator == candidate && account == old(account)
      ensures Model() == Reconciled(old(Model())).(evaluator := Some(old(candidate.Model())), context := None)
    {
      Reconcile();
      evaluator, context := candidate, None;
    }

    method Offer(now: real, job: Job, verdict: Verdict, ids: set<nat>, activates: bool) returns (outcome: Outcome)
      requires Valid() && verdict.Qualified?
      modifies this, library, evaluator, receiver, receiver.session, receiver.session.assembler
      ensures Valid()
      ensures (Model(), outcome) == Offered(receiver.limits, old(Model()), now, job, verdict, ids, activates)
      ensures evaluator == null || evaluator == old(evaluator) || fresh(evaluator)
      ensures receiver.session.assembler == null || receiver.session.assembler == old(receiver.session.assembler)
              || fresh(receiver.session.assembler)
    {
      hide Completed, Revoke, WellLaidOut, Receiver.Valid;
      if verdict.watch.None? || !WellLaidOut(verdict.watch.value) || !(1 <= |ids| <= MAX_DEFINITIONS) || !activates {
        Reset();
        return Outcome.Raised;
      }
      var candidate := new Evaluator(library, verdict.watch.value, ids, receiver.session.generation + 1);
      outcome := receiver.Complete(now, job, verdict);
      Decide(candidate, outcome);
    }

    /** Only an accepted list keeps the candidate evaluator. */
    method Decide(candidate: Evaluator, outcome: Outcome)
      requires Valid() && candidate != evaluator
      requires candidate.library == library && candidate.runtime.Some? && WellLaidOut(candidate.watch)
      modifies this, library, evaluator, candidate, receiver, receiver.session, receiver.session.assembler
      ensures Valid()
      ensures var was := old(Model()).(live := old(library.live) - 1);
        Model() == match outcome
          case Raised => Released(was)
          case Ignored => was
          case Accepted => Reconciled(old(Model())).(evaluator := Some(old(candidate.Model())), context := None)
      ensures evaluator == null || evaluator == old(evaluator) || evaluator == candidate
      ensures receiver.session.assembler == null || receiver.session.assembler == old(receiver.session.assembler)
    {
      hide Revoke, WellLaidOut, Receiver.Valid, Receiver.Model;
      match outcome
      case Raised =>
        candidate.Close();
        Reset();
      case Ignored =>
        candidate.Close();
      case Accepted =>
        Adopt(candidate);
    }

    method Complete(first: real, second: real, job: Job, verdict: Verdict, ids: set<nat>, activates: bool)
      returns (outcome: Outcome)
      requires Valid()
      modifies this, library, evaluator, receiver, receiver.session, receiver.session.assembler
      ensures Valid()
      ensures (Model(), outcome) == Concluded(receiver.limits, old(Model()), first, second, job, verdict, ids, activates)
      ensures evaluator == null || evaluator == old(evaluator) || fresh(evaluator)
      ensures receiver.session.assembler == null || receiver.session.assembler == old(receiver.session.assembler)
              || fresh(receiver.session.assembler)
    {
      hide Completed, Ticked, Reconciled, Offered, WellLaidOut;
      Tick(first);
      if receiver.pending != Some(job) || job.token != receiver.token { return Ignored; }
      if verdict.Qualified? {
        outcome := Offer(second, job, verdict, ids, activates);
      } else {
        outcome := receiver.Complete(second, job, verdict);
        Reconcile();
      }
    }

    /** A result for another account or image leaves its job retryable. */
    method FailJob(now: real, job: Job)
      requires Valid()
      modifies this, library, evaluator, receiver, receiver.session, receiver.session.assembler
      ensures Valid()
      ensures Model() == Reconciled(old(Model()).(
        receiver := Completed(receiver.limits, old(Model()).receiver, now, job, Failed).0))
      ensures evaluator == null || evaluator == old(evaluator) || fresh(evaluator)
      ensures receiver.session.assembler == null || receiver.session.assembler == old(receiver.session.assembler)
              || fresh(receiver.session.assembler)
    {
      hide Completed, Reconciled, WellLaidOut, Receiver.Valid, Receiver.Model;
      var _ := receiver.Complete(now, job, Failed);
      Reconcile();
    }

    method CompleteSet(first: real, second: real, third: real, job: Job, qualified: QualifiedSet)
      returns (outcome: Outcome)
      requires Valid()
      modifies this, library, evaluator, receiver, receiver.session, receiver.session.assembler
      ensures Valid()
      ensures (Model(), outcome) == ConcludedSet(receiver.limits, old(Model()), first, second, third, job, qualified)
      ensures evaluator == null || evaluator == old(evaluator) || fresh(evaluator)
      ensures receiver.session.assembler == null || receiver.session.assembler == old(receiver.session.assembler)
              || fresh(receiver.session.assembler)
    {
      hide Completed, Ticked, Released, Reconciled, WellLaidOut, Concluded, Receiver.Valid, SetVerdict, Evaluator.Model;
      Tick(first);
      if account != Some(qualified.context.account) || receiver.pending != Some(job)
         || job.identity.imageHash != qualified.context.imageHash
      {
        FailJob(second, job);
        return Ignored;
      }
      if qualified.watch.None? {
        Reset();
        return Outcome.Raised;
      }
      outcome := Complete(second, third, job, SetVerdict(qualified), qualified.ids, qualified.activates);
      if outcome == Accepted { context := Some(qualified.context); }
    }

    method Receive(now: real, fedAt: real, peer: Option<Endpoint>, packet: Packet, native: NativeReply)
      returns (output: EvaluatedOutput)
      requires Valid()
      modifies this, library, evaluator, receiver, receiver.session, receiver.session.assembler
      ensures Valid()
      ensures (Model(), output) == Handled(receiver.limits, old(Model()), now, fedAt, peer, packet, native)
      ensures evaluator == null || evaluator == old(evaluator) || fresh(evaluator)
      ensures receiver.session.assembler == null || receiver.session.assembler == old(receiver.session.assembler)
              || fresh(receiver.session.assembler)
    {
      hide Received, Reconciled, WellLaidOut, Receiver.Valid, Receiver.Model;
      var wire := receiver.Receive(now, fedAt, peer, packet);
      Reconcile();
      output := EvaluatedOutput(wire, None, None);
      if wire.frame.Some? && evaluator != null {
        var result := evaluator.Evaluate(CallFor(wire.frame.value, native));
        output := EvaluatedOutput(wire, Some(result), context);
      }
    }
  }
}

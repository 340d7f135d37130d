/**
 * From datagrams to what callers take: every frame is put together from parts that the
 * console sent for the installed list, and the native history behind an evaluation has no gaps.
 */
module ServiceFrames {
  import opened Common
  import opened SnapshotAssembly
  import opened WatchLists
  import opened WatchSessions
  import opened Receivers
  import opened Evaluators
  import opened EvaluatedReceivers
  import opened OwnedServices
  import opened ServiceRuns
  import opened ServiceGuarantees
  import Assembling = AssemblyRuns
  import Attributing = AttributionRuns
  import Evaluating = EvaluatorRuns
  import Receiving = ReceiverRuns

  // ----- Everything but a datagram -----

  /** The list and the assembler are as they were, or of a new generation without any fragments. */
  predicate Renewed(w: Watching, v: Watching) {
    v == w || (v.generation > w.generation && v.assembly == EMPTY)
  }

  predicate Blank(e: EvaluatorState) { e.runtime.Some? && e.runtime.value.history == [] }

  /**
   * No chunk was sent in between, and no job begun: what counts as sent stays, or starts from nothing with a new
   * list.
   */
  predicate Unserved(r: ReceiverState, s: ReceiverState) {
    && s.sent <= r.sent && (s.pending.Some? ==> r.pending.Some?)
    && (Receiving.SameTransfer(r, s) || s.sent == {} || r.pending.Some?)
  }

  /**
   * No datagram got in between: nothing was sent or assembled, and the evaluator is the same, gone, or fed nothing
   * yet.
   */
  predicate Unfed(a: Adapter, b: Adapter) {
    && Renewed(a.receiver.watching, b.receiver.watching) && Unserved(a.receiver, b.receiver)
    && (b.evaluator.Some? ==> b.evaluator == a.evaluator || Blank(b.evaluator.value))
  }

  lemma ReconciledUnfed(a: Sane, r: ReceiverState)
    requires Renewed(a.receiver.watching, r.watching) && Unserved(a.receiver, r)
    ensures Unfed(a, Reconciled(a.(receiver := r)))
  {
  }

  lemma TickedUnfed(l: Limits, a: Sane, now: real)
    ensures Unfed(a, Ticked(l, a, now))
  {
    ReconciledUnfed(a, Expired(l, a.receiver, now));
  }

  lemma ReleasedUnfed(a: Sane)
    ensures Unfed(a, Released(a)) && Released(a).evaluator.None?
    ensures Released(a).receiver.watching.watch.None? && Released(a).receiver.sent == {}
  {
    ReconciledUnfed(a, Revoke(a.receiver));
  }

  lemma CompletedRenews(l: Limits, r: ReceiverState, now: real, job: Job, v: Verdict)
    ensures var s := Completed(l, r, now, job, v).0; Renewed(r.watching, s.watching) && Unserved(r, s)
  {
  }

  lemma OfferedUnfed(l: Limits, a: Sane, now: real, job: Job, v: Verdict, ids: set<nat>, activates: bool)
    ensures Unfed(a, Offered(l, a, now, job, v, ids, activates).0)
  {
    hide Completed, Released;
    ReleasedUnfed(a);
    if Buildable(v, ids, activates) {
      CompletedRenews(l, a.receiver, now, job, v);
      var s := Completed(l, a.receiver, now, job, v).0;
      ReconciledUnfed(a, s);
      ReconciledUnfed(a, Revoke(s));
    }
  }

  lemma ConcludedUnfed(l: Limits, a: Sane, first: real, second: real, job: Job, v: Verdict, ids: set<nat>, activates: bool)
    ensures Unfed(a, Concluded(l, a, first, second, job, v, ids, activates).0)
  {
    hide Completed, Ticked, Offered;
    TickedUnfed(l, a, first);
    var t := Ticked(l, a, first);
    OfferedUnfed(l, t, second, job, v, ids, activates);
    CompletedRenews(l, t.receiver, second, job, v);
    ReconciledUnfed(t, Completed(l, t.receiver, second, job, v).0);
  }

  lemma ConcludedSetUnfed(l: Limits, a: Sane, first: real, second: real, third: real, job: Job, q: QualifiedSet)
    ensures Unfed(a, ConcludedSet(l, a, first, second, third, job, q).0)
  {
    hide Completed, Concluded, Ticked, Released;
    TickedUnfed(l, a, first);
    var t := Ticked(l, a, first);
    CompletedRenews(l, t.receiver, second, job, Failed);
    ReconciledUnfed(t, Completed(l, t.receiver, second, job, Failed).0);
    ReleasedUnfed(t);
    ConcludedUnfed(l, t, second, third, job, SetVerdict(q), q.ids, q.activates);
  }

  lemma BindingUnfed(a: Sane, account: Account)
    ensures Unfed(a, Bound(a, account)) && Unfed(a, Unbound(a))
  {
    hide Released;
    ReleasedUnfed(a);
  }

  lemma WorkUnfed(l: Limits, a: Sane, x: Attributing.Action)
    requires IsWork(x)
    ensures Unfed(a, Attributing.Act(l, a, x))
  {
    hide Concluded, ConcludedSet, Ticked;
    match x
    case Advance(at) => TickedUnfed(l, a, at);
    case Poll(first, second) => TickedUnfed(l, a, first);
    case Finish(first, second, job, verdict, ids, activates) =>
      ConcludedUnfed(l, a, first, second, job, verdict, ids, activates);
    case FinishSet(first, second, third, job, qualified) =>
      ConcludedSetUnfed(l, a, first, second, third, job, qualified);
  }

  // ----- The account session and the commands -----

  lemma LoggedOutUnfed(t: AccountSessions.SessionState, forget: bool, removed: bool)
    ensures Unfed(t.adapter, AccountSessions.LoggedOut(t, forget, removed).0.adapter)
  {
    hide Unbound;
    BindingUnfed(t.adapter, Account("", 0));
  }

  lemma SettledUnfed(l: Limits, t: AccountSessions.SessionState, job: AccountSessions.Task,
                     result: AccountSessions.WorkResult, c: AccountSessions.Commit)
    ensures Unfed(t.adapter, AccountSessions.Settled(l, t, job, result, c).0.adapter)
  {
    hide ConcludedSet, Bound;
    if AccountSessions.Current(t, job, result) && result.payload.Some? {
      match result.payload.value
      case SignedIn(credentials) => BindingUnfed(t.adapter, Account(credentials.username, t.epoch));
      case Set(qualified) =>
        if t.identification.Some? {
          ConcludedSetUnfed(l, t.adapter, c.first, c.second, c.third, t.identification.value, qualified);
        }
      case _ =>
    }
  }

  lemma TakeUnfed(l: Limits, t: AccountSessions.SessionState, x: SessionCall)
    ensures Unfed(t.adapter, AccountRuns.Take(l, t, x).0.adapter)
  {
    hide AccountSessions.LoggedOut, AccountSessions.Settled;
    match x
    case SignIn(_) => LoggedOutUnfed(t, false, true);
    case Accept(job, result, commit) => SettledUnfed(l, t, job, result, commit);
    case Logout(forget, removed) => LoggedOutUnfed(t, forget, removed);
    case _ =>
  }

  lemma {:induction false} CalledUnfed(l: Limits, t: AccountSessions.SessionState, calls: seq<SessionCall>)
    ensures Unfed(t.adapter, Called(l, t, calls).adapter)
  {
    hide AccountRuns.Take;
    if calls != [] {
      CalledUnfed(l, t, calls[..|calls| - 1]);
      TakeUnfed(l, Called(l, t, calls[..|calls| - 1]), calls[|calls| - 1]);
    }
  }

  lemma ObeyedUnfed(s: Service, c: Command)
    ensures Unfed(s.adapter, Obeyed(s, c).adapter)
  {
    hide Bound, Unbound, Called, AccountSessions.LoggedOut;
    match c
    case BindTo(account) => BindingUnfed(s.adapter, account);
    case Drop(forget) =>
      BindingUnfed(s.adapter, Account("", 0));
      if s.profile.Some? { LoggedOutUnfed(SessionOf(s), forget, true); }
    case Callback(calls) =>
      if s.profile.Some? { CalledUnfed(s.limits, SessionOf(s), calls); }
  }

  lemma {:induction false} CommandedUnfed(s: Service)
    ensures Unfed(s.adapter, Commanded(s).adapter)
    decreases |s.commands|
  {
    hide Obeyed;
    if s.commands != [] {
      ObeyedUnfed(s, s.commands[0]);
      CommandedUnfed(Obeyed(s, s.commands[0]).(commands := s.commands[1..]));
    }
  }

  lemma ToppedUnfed(s: Service)
    requires s.stage == AtTop
    ensures Unfed(s.adapter, ToppedUp(s).adapter)
  {
    hide Commanded, Released;
    ReleasedUnfed(s.adapter);
    CommandedUnfed(if s.reset then Discarded(s).(adapter := Released(s.adapter), reset := false) else s);
  }

  lemma StoppedUnfed(s: Service)
    ensures Unfed(s.adapter, Stopped(s).adapter) && Stopped(s).adapter.evaluator.None?
    ensures Stopped(s).adapter.receiver.watching.watch.None? && Stopped(s).adapter.receiver.sent == {}
  {
    hide Commanded, Released, AccountSessions.LoggedOut;
    CommandedUnfed(s);
    var c := Commanded(s);
    if c.profile.Some? { LoggedOutUnfed(SessionOf(c), false, true); }
    ReleasedUnfed(SignedOff(c).adapter);
  }

  // ----- One datagram -----

  /** The datagram is a part that reaches the assembler: from the owner, within the window, after the whole transfer. */
  predicate Admits(l: Limits, r: ReceiverState, now: real, peer: Option<Endpoint>, packet: Packet) {
    && packet.Telemetry? && packet.part.Some? && peer.Some?
    && !LeaseOver(l, r, now) && r.owner == Some(peer.value.address)
    && Rolled(r.traffic, now).datagrams < MAX_DATAGRAMS
    && r.watching.watch.Some? && |r.sent| == r.watching.watch.value.Chunks()
  }

  function NumberOf(a: Assembly): nat { if a.sequence.Some? then a.sequence.value else 0 }

  /** What the receiver's assembler and list become, and where a frame comes from. */
  lemma ReceivedFeeds(l: Limits, r: ReceiverState, now: real, fedAt: real, peer: Option<Endpoint>, packet: Packet)
    ensures var (s, output) := Received(l, r, now, fedAt, peer, packet);
      if Admits(l, r, now, peer, packet) then
        var (w, values) := WatchSessions.Fed(r.watching, l.lease, packet.part.value, fedAt);
        && s.watching == w && (output.frame.Some? <==> values.Some?)
        && (values.Some? ==> output.frame == Some(Frame(values.value, w.generation, NumberOf(w.assembly))))
      else Renewed(r.watching, s.watching) && output.frame.None?
  {
    hide FeedPart, Controlled;
    var d := Expired(l, r, now);
    var t := d.(traffic := Rolled(d.traffic, now).(datagrams := Rolled(d.traffic, now).datagrams + 1));
    if packet.Control? && peer.Some? { ControlledRenews(l, t, now, peer.value, packet.request); }
  }

  lemma ControlledRenews(l: Limits, r: ReceiverState, now: real, source: Endpoint, request: Option<Request>)
    ensures var (s, output) := Controlled(l, r, now, source, request);
      Renewed(r.watching, s.watching) && output.frame.None?
  {
  }

  // ----- The steps of the service -----

  /** The step gives a part to the assembler of the installed list. */
  predicate FeedsAt(s: Service, x: Step) {
    && x.OwnerReceive? && s.stage == Listening
    && Admits(s.limits, s.adapter.receiver, x.at, x.peer, x.packet)
  }

  /** A step as the assembler sees it. */
  function InputOf(x: Step): Assembling.Input {
    if x.OwnerReceive? && x.packet.Telemetry? then Assembling.Datagram(x.packet.part, x.fedAt)
    else Assembling.Datagram(None, 0.0)
  }

  function TermsIn(s: Service): Terms
    requires s.adapter.receiver.watching.watch.Some?
  {
    var w := s.adapter.receiver.watching;
    TermsOf(w.serial, w.watch.value, s.limits.lease)
  }

  /** After the step, the list is the old one with this part fed, the old one, or a new one. */
  predicate ListMoves(s: Service, x: Step, t: Service) {
    var w, v := s.adapter.receiver.watching, t.adapter.receiver.watching;
    v.watch.Some? ==>
      if FeedsAt(s, x) then v == WatchSessions.Fed(w, s.limits.lease, x.packet.part.value, x.fedAt).0 else Renewed(w, v)
  }

  lemma ReceivedMoves(s: Service, n: nat, x: Step)
    requires s.stage == Listening && x.OwnerReceive?
    ensures ListMoves(s, x, ReceivedBy(s, n, x.at, x.fedAt, x.peer, x.packet, x.native))
  {
    hide Received, Stopped, Admits, Evaluated, WatchSessions.Fed, Renewed;
    ReceivedFeeds(s.limits, s.adapter.receiver, x.at, x.fedAt, x.peer, x.packet);
    StoppedUnfed(s.(adapter := Handled(s.limits, s.adapter, x.at, x.fedAt, x.peer, x.packet, x.native).0));
  }

  lemma StepMovesList(s: Service, n: nat, x: Step)
    ensures ListMoves(s, x, Stepped(s, n, x).0)
  {
    hide Admits, ReceivedBy, Stopped, ToppedUp, Attributing.Act, FrameTaken, EvaluationTaken, Enqueued;
    if Enabled(s, x) {
      match x
      case OwnerTop => ToppedUnfed(s);
      case OwnerEnd => StoppedUnfed(s);
      case OwnerWork(action) => WorkUnfed(s.limits, s.adapter, action);
      case OwnerReceive(at, fedAt, peer, packet, native) => ReceivedMoves(s, n, x);
      case _ => TakingKeepsAdapter(s);
    }
  }

  // ----- Whole runs -----

  /** The steps that gave a part to the installed list's assembler, since the list was installed. */
  function FeedSteps(run: Run, n: nat): (r: seq<nat>)
    requires n <= |run.steps|
    ensures forall i | 0 <= i < |r| :: r[i] < n
  {
    if n == 0 || Generation(run.State(n)) != Generation(run.State(n - 1)) then []
    else if FeedsAt(run.State(n - 1), run.steps[n - 1]) then FeedSteps(run, n - 1) + [n - 1]
    else FeedSteps(run, n - 1)
  }

  /** What those steps gave it. */
  function Inputs(run: Run, ks: seq<nat>): (r: seq<Assembling.Input>)
    requires forall i | 0 <= i < |ks| :: ks[i] < |run.steps|
    ensures |r| == |ks| && forall i | 0 <= i < |r| :: r[i] == InputOf(run.steps[ks[i]])
  {
    seq(|ks|, i requires 0 <= i < |ks| => InputOf(run.steps[ks[i]]))
  }

  lemma {:induction false} StateAfterMore(c: Terms, inputs: seq<Assembling.Input>, more: Assembling.Input, n: nat)
    requires n <= |inputs|
    ensures Assembling.StateAfter(c, EMPTY, inputs + [more], n) == Assembling.StateAfter(c, EMPTY, inputs, n)
  {
    hide Assembling.Step;
    if n > 0 { StateAfterMore(c, inputs, more, n - 1); }
  }

  /** Step k gave a part to the assembler of the very list that is installed at n. */
  predicate FedSameList(run: Run, k: nat, n: nat)
    requires k < n <= |run.steps|
  {
    var w, v := run.State(k).adapter.receiver.watching, run.State(n).adapter.receiver.watching;
    FeedsAt(run.State(k), run.steps[k]) && w.watch == v.watch && w.serial == v.serial && w.generation == v.generation
  }

  /** The assembler's state is what its parts have made of it, and all of them came while this list was installed. */
  predicate WellFed(run: Run, n: nat)
    requires n <= |run.steps|
  {
    run.State(n).adapter.receiver.watching.watch.Some? ==>
      var inputs := Inputs(run, FeedSteps(run, n));
      && run.State(n).adapter.receiver.watching.assembly
         == Assembling.StateAfter(TermsIn(run.State(n)), EMPTY, inputs, |inputs|)
      && forall i | 0 <= i < |FeedSteps(run, n)| :: FedSameList(run, FeedSteps(run, n)[i], n)
  }

  lemma FedAgain(run: Run, n: nat)
    requires n < |run.steps| && WellFed(run, n) && FeedsAt(run.State(n), run.steps[n])
    requires ListMoves(run.State(n), run.steps[n], run.State(n + 1))
    requires run.State(n).limits == run.State(n + 1).limits
    ensures WellFed(run, n + 1)
  {
    hide Stepped, FeedPart, Assembling.Step, Assembling.StateAfter, Run.State;
    var s, x, t := run.State(n), run.steps[n], run.State(n + 1);
    if t.adapter.receiver.watching.watch.Some? {
      var before := Inputs(run, FeedSteps(run, n));
      var inputs := Inputs(run, FeedSteps(run, n + 1));
      FedIsStep(s, x);
      assert FeedSteps(run, n + 1) == FeedSteps(run, n) + [n];
      assert inputs == before + [InputOf(x)];
      StateAfterMore(TermsIn(s), before, InputOf(x), |before|);
      StateAfterLast(TermsIn(s), before, InputOf(x));
    }
  }

  lemma StateAfterLast(c: Terms, inputs: seq<Assembling.Input>, more: Assembling.Input)
    ensures Assembling.StateAfter(c, EMPTY, inputs + [more], |inputs| + 1)
      == Assembling.Step(c, Assembling.StateAfter(c, EMPTY, inputs, |inputs|), more).0
  {
    hide Assembling.Step;
    StateAfterMore(c, inputs, more, |inputs|);
  }

  lemma FedBefore(run: Run, n: nat)
    requires n < |run.steps| && WellFed(run, n) && !FeedsAt(run.State(n), run.steps[n])
    requires ListMoves(run.State(n), run.steps[n], run.State(n + 1))
    requires run.State(n).limits == run.State(n + 1).limits
    ensures WellFed(run, n + 1)
  {
    hide Stepped, FeedsAt, Run.State;
  }

  lemma {:induction false} AlwaysWellFed(run: Run, n: nat)
    requires run.capacity >= 1 && n <= |run.steps|
    ensures WellFed(run, n)
  {
    hide WellFed, FeedsAt, ListMoves, Run.State;
    if n == 0 {
      StartsUnfed(run);
    } else {
      AlwaysWellFed(run, n - 1);
      RunMovesList(run, n - 1);
      if FeedsAt(run.State(n - 1), run.steps[n - 1]) { FedAgain(run, n - 1); } else { FedBefore(run, n - 1); }
    }
  }

  lemma RunMovesList(run: Run, n: nat)
    requires run.capacity >= 1 && n < |run.steps|
    ensures ListMoves(run.State(n), run.steps[n], run.State(n + 1)) && run.State(n).limits == run.State(n + 1).limits
  {
    hide Stepped, ListMoves, Ordered, Sound, Run.Horizon;
    StepMovesList(run.State(n), n, run.steps[n]);
    AlwaysOrdered(run, n);
    AlwaysOrdered(run, n + 1);
  }

  lemma StartsUnfed(run: Run)
    ensures WellFed(run, 0)
  {
  }

  lemma FedIsStep(s: Service, x: Step)
    requires FeedsAt(s, x)
    ensures var w := s.adapter.receiver.watching;
      var (v, values) := WatchSessions.Fed(w, s.limits.lease, x.packet.part.value, x.fedAt);
      (v.assembly, values) == Assembling.Step(TermsIn(s), w.assembly, InputOf(x))
  {
    hide FeedPart;
  }

  // ----- What a taken frame is made of -----

  lemma LastEmission(c: Terms, inputs: seq<Assembling.Input>) returns (e: Assembling.Emission, pieces: seq<Bytes>)
    requires c.Valid() && inputs != [] && Assembling.OutputAt(c, EMPTY, inputs, |inputs| - 1).Some?
    ensures e.at == |inputs| - 1 && e.since <= e.at
    ensures Assembling.OutputAt(c, EMPTY, inputs, |inputs| - 1) == Some(e.value) && Assembling.MadeOf(c, inputs, e, pieces)
    ensures Assembling.StateAfter(c, EMPTY, inputs, |inputs|).sequence == Some(e.position % SEQUENCE_MODULUS)
  {
    hide Assembling.Step, Assembling.Follow, Assembling.MadeOf;
    Assembling.ObserverInv(c, inputs, |inputs|);
    Assembling.ObserverFollowsRun(c, inputs, |inputs|);
    Assembling.ObserverFollowsRun(c, inputs, |inputs| - 1);
    var o := Assembling.Observe(c, inputs, |inputs|);
    e := o.emitted[|o.emitted| - 1];
    assert e in o.emitted;
    assert o.a.sequence.Some? by { EmittingHasSequence(c, inputs); }
    pieces :| Assembling.MadeOf(c, inputs, e, pieces);
  }

  lemma EmittingHasSequence(c: Terms, inputs: seq<Assembling.Input>)
    requires inputs != [] && Assembling.OutputAt(c, EMPTY, inputs, |inputs| - 1).Some?
    ensures var a := Assembling.StateAfter(c, EMPTY, inputs, |inputs|); a.sequence.Some?
  {
    hide WellShaped, InOrder, TooLarge;
  }

  /** Step j brought slot i of a frame of so many parts under this number, for the list installed at step k. */
  predicate Brought(run: Run, k: nat, j: nat, i: nat, parts: nat, sequence: nat)
    requires k < |run.steps|
  {
    && j <= k && FeedsAt(run.State(j), run.steps[j]) && (j < k ==> FedSameList(run, j, k))
    && var p := run.steps[j].packet.part.value;
       p.index == i && p.parts == parts && p.sequence == sequence && Assembling.IsOfSession(TermsIn(run.State(j)), p)
  }

  function PayloadOf(x: Step): Bytes {
    if x.OwnerReceive? && x.packet.Telemetry? && x.packet.part.Some? then x.packet.part.value.values else []
  }

  function Payloads(run: Run, k: nat, js: seq<nat>): seq<Bytes>
    requires k < |run.steps| && forall i | 0 <= i < |js| :: js[i] <= k
  {
    seq(|js|, i requires 0 <= i < |js| => PayloadOf(run.steps[js[i]]))
  }

  /** The frame received by step k is the join, slot by slot, of what these steps brought. */
  predicate JoinedFrom(run: Run, k: nat, js: seq<nat>, f: Frame)
    requires k < |run.steps|
  {
    && 1 <= |js| <= MAX_PARTS
    && (forall i | 0 <= i < |js| :: js[i] <= k && Brought(run, k, js[i], i, |js|, f.sequence))
    && f.values == Join(Payloads(run, k, js))
  }

  /** A part for the assembler of step k, among those that were given to it. */
  lemma DeliveredIsBrought(run: Run, k: nat, at: nat, i: nat, parts: nat, sequence: nat, values: Bytes) returns (j: nat)
    requires k < |run.steps| && WellFed(run, k) && FeedsAt(run.State(k), run.steps[k])
    requires run.State(k).adapter.receiver.watching.watch.Some?
    requires at < |FeedSteps(run, k)| + 1
    requires Assembling.Carries(TermsIn(run.State(k)), Inputs(run, FeedSteps(run, k) + [k])[at], sequence, parts, i, values)
    ensures j <= k && Brought(run, k, j, i, parts, sequence) && PayloadOf(run.steps[j]) == values
  {
    hide Stepped, Run.State, Admits, Assembling.StateAfter;
    j := (FeedSteps(run, k) + [k])[at];
  }

  /** The whole list was sent to the console before step k, which gave a part to its assembler. */
  predicate Transferred(run: Run, k: nat)
    requires k < |run.steps|
  {
    var r := run.State(k).adapter.receiver;
    && FeedsAt(run.State(k), run.steps[k]) && r.watching.watch.Some?
    && forall i: nat | i < r.watching.watch.value.Chunks() :: i in r.sent
  }

  lemma AdmittedAfterTransfer(run: Run, k: nat)
    requires run.capacity >= 1 && k < |run.steps| && FeedsAt(run.State(k), run.steps[k])
    ensures Transferred(run, k)
  {
    hide Stepped;
    AlwaysOrdered(run, k);
    var r := run.State(k).adapter.receiver;
    RangeCardinality(r.sent, r.watching.watch.value.Chunks());
  }

  /** A frame in the output of a datagram means that a part was admitted and completed it. */
  lemma ArrivingFrame(s: Service, n: nat, x: Step, item: Item)
    requires Arrives(s, n, x, item) && item.output.wire.frame.Some?
    ensures FeedsAt(s, x) && s.adapter.receiver.watching.watch.Some?
    ensures var w := s.adapter.receiver.watching;
      var (a, values) := Assembling.Step(TermsIn(s), w.assembly, InputOf(x));
      values.Some? && item.output.wire.frame == Some(Frame(values.value, w.generation, NumberOf(a)))
  {
    hide Received, Evaluated, FeedPart;
    ReceivedFeeds(s.limits, s.adapter.receiver, x.at, x.fedAt, x.peer, x.packet);
    if FeedsAt(s, x) { FedIsStep(s, x); }
  }

  /** The frame that arrives with step k is the join of parts that arrived for the same list. */
  lemma ArrivingFrameIsJoined(run: Run, k: nat, item: Item) returns (js: seq<nat>)
    requires run.capacity >= 1 && run.limits.Valid() && k < |run.steps|
    requires Arrives(run.State(k), k, run.steps[k], item) && item.output.wire.frame.Some?
    ensures Transferred(run, k) && JoinedFrom(run, k, js, item.output.wire.frame.value)
    ensures item.output.wire.frame.value.generation == run.State(k).adapter.receiver.watching.generation
  {
    hide Stepped, Run.State, Arrives, Brought, Assembling.Step, Assembling.Carries, Admits, WellShaped, Run.Horizon, Ordered,
         Sound;
    var s, x, f := run.State(k), run.steps[k], item.output.wire.frame.value;
    AlwaysOrdered(run, k);
    AlwaysWellFed(run, k);
    ArrivingFrame(s, k, x, item);
    AdmittedAfterTransfer(run, k);
    var c, before := TermsIn(s), Inputs(run, FeedSteps(run, k));
    var inputs := Inputs(run, FeedSteps(run, k) + [k]);
    assert inputs == before + [InputOf(x)];
    StateAfterMore(c, before, InputOf(x), |before|);
    StateAfterLast(c, before, InputOf(x));
    var e, pieces := LastEmission(c, inputs);
    js := CollectSteps(run, k, inputs, e, pieces, |pieces|);
    assert Payloads(run, k, js) == pieces;
  }

  /** The steps that brought the first n pieces. */
  lemma {:induction false} CollectSteps(run: Run, k: nat, inputs: seq<Assembling.Input>, e: Assembling.Emission,
                                        pieces: seq<Bytes>, n: nat) returns (js: seq<nat>)
    requires k < |run.steps| && WellFed(run, k) && FeedsAt(run.State(k), run.steps[k])
    requires run.State(k).adapter.receiver.watching.watch.Some?
    requires inputs == Inputs(run, FeedSteps(run, k) + [k]) && e.at < |inputs|
    requires Assembling.MadeOf(TermsIn(run.State(k)), inputs, e, pieces) && n <= |pieces|
    ensures |js| == n
    ensures forall i | 0 <= i < n ::
      && Brought(run, k, js[i], i, |pieces|, e.position % SEQUENCE_MODULUS)
      && js[i] <= k && PayloadOf(run.steps[js[i]]) == pieces[i]
  {
    hide Stepped, Run.State, Brought, WellFed, FeedsAt, TermsIn, Assembling.Carries, WellShaped, PayloadOf;
    if n == 0 {
      js := [];
    } else {
      js := CollectSteps(run, k, inputs, e, pieces, n - 1);
      var i, number := n - 1, e.position % SEQUENCE_MODULUS;
      assert Assembling.Delivered(TermsIn(run.State(k)), inputs, e.since, e.at + 1, number, |pieces|, i, pieces[i]);
      var at: nat :| at <= e.at && Assembling.Carries(TermsIn(run.State(k)), inputs[at], number, |pieces|, i, pieces[i]);
      var j := DeliveredIsBrought(run, k, at, i, |pieces|, number, pieces[i]);
      js := js + [j];
    }
  }

  /**
   * Whatever a caller takes, in every interleaving, carries a frame that was completed by the datagram
   * it arrived with, after every chunk of the installed list had been sent; and that frame is the
   * in-order join of parts, one for each slot and all of its own number, that were admitted
   * while that same list was installed.
   */
  lemma TakenFrameIsJoined(run: Run, n: nat) returns (js: seq<nat>)
    requires run.capacity >= 1 && run.limits.Valid() && n < |run.steps| && run.Taken(n).Some?
    ensures var item := run.Taken(n).value;
      && item.arrival < n && ReceivedAt(run, item) && item.output.wire.frame.Some?
      && Transferred(run, item.arrival) && JoinedFrom(run, item.arrival, js, item.output.wire.frame.value)
  {
    hide Stepped, Arrives, ReceivedAt, JoinedFrom, Transferred, Sound;
    AlwaysOrdered(run, n);
    var item := run.Taken(n).value;
    StepCarries(run.State(n), n, run.steps[n], item);
    CarriedWasReceived(run, n, item);
    TakenHasFrame(run.State(n), n, run.Horizon(n), run.steps[n]);
    ReceivedArrives(run, item);
    js := ArrivingFrameIsJoined(run, item.arrival, item);
  }

  lemma ReceivedArrives(run: Run, item: Item)
    requires ReceivedAt(run, item)
    ensures item.arrival < |run.steps| && Arrives(run.State(item.arrival), item.arrival, run.steps[item.arrival], item)
  {
  }

  lemma TakenHasFrame(s: Service, n: nat, horizon: nat, x: Step)
    requires Ordered(s, n, horizon) && Stepped(s, n, x).1.Some?
    ensures Stepped(s, n, x).1.value.output.wire.frame.Some?
  {
    hide Attributing.Act, Handled, ToppedUp, Stopped, Restarted, ReceivedBy, Enqueued;
    if x == CallerTakeEvaluation { assert Stepped(s, n, x).1.value == Pending(s)[0]; }
  }

  // ----- The native history behind an evaluation -----

  /** What the native runtime has been fed are complete snapshots with successive numbers. */
  predicate Isolated(a: Sane) {
    a.evaluator.Some? ==> Evaluating.Consecutive(a.evaluator.value) && Evaluating.AllComplete(a.evaluator.value)
  }

  lemma UnfedIsolated(a: Sane, b: Sane)
    requires Isolated(a) && Unfed(a, b)
    ensures Isolated(b)
  {
  }

  lemma EvaluatedIsolated(e: EvaluatorState, c: Call)
    requires e.runtime.Some? && WellLaidOut(e.watch) && Evaluating.Consecutive(e) && Evaluating.AllComplete(e)
    ensures var (s, result) := Evaluated(e, c);
      result != Result.Raised ==> Evaluating.Consecutive(s) && Evaluating.AllComplete(s)
  {
    hide Missing, Evaluating.AllComplete, Evaluating.Consecutive;
    Evaluating.StepIsolates(e, c);
  }

  lemma HandledIsolated(l: Limits, a: Sane, at: real, fedAt: real, peer: Option<Endpoint>, packet: Packet, n: NativeReply)
    requires Isolated(a)
    ensures var (b, output) := Handled(l, a, at, fedAt, peer, packet, n);
      output.evaluation != Some(Result.Raised) ==> Isolated(b)
  {
    hide Received, Evaluated, Evaluating.AllComplete, Evaluating.Consecutive;
    var (s, wire) := Received(l, a.receiver, at, fedAt, peer, packet);
    var b := Reconciled(a.(receiver := s));
    if wire.frame.Some? && b.evaluator.Some? { EvaluatedIsolated(b.evaluator.value, CallFor(wire.frame.value, n)); }
  }

  lemma StepIsolated(s: Service, n: nat, x: Step)
    requires Isolated(s.adapter)
    ensures Isolated(Stepped(s, n, x).0.adapter)
  {
    hide Isolated, Unfed, Handled, Stopped, ToppedUp, Attributing.Act, FrameTaken, EvaluationTaken, Enqueued;
    if Enabled(s, x) {
      match x
      case OwnerTop =>
        ToppedUnfed(s);
        UnfedIsolated(s.adapter, ToppedUp(s).adapter);
      case OwnerEnd => StoppedIsolated(s);
      case OwnerStart(now) => StartIsolated(now);
      case OwnerWork(action) =>
        WorkUnfed(s.limits, s.adapter, action);
        UnfedIsolated(s.adapter, Attributing.Act(s.limits, s.adapter, action));
      case OwnerReceive(at, fedAt, peer, packet, native) =>
        HandledIsolated(s.limits, s.adapter, at, fedAt, peer, packet, native);
        StoppedIsolated(s.(adapter := Handled(s.limits, s.adapter, at, fedAt, peer, packet, native).0));
      case _ => TakingKeepsAdapter(s);
    }
  }

  lemma StoppedIsolated(s: Service)
    ensures Isolated(Stopped(s).adapter)
  {
    hide Stopped;
    StoppedUnfed(s);
  }

  lemma StartIsolated(now: real)
    ensures Isolated(Start(now))
  {
  }

  /**
   * Inside a service the exception to temporal isolation never shows: an evaluator that cannot be rebuilt
   * ends the owner thread, so in every interleaving the native runtime has been fed complete
   * snapshots with successive numbers and nothing else.
   */
  lemma {:induction false} NativeHistoryIsComplete(run: Run, n: nat)
    requires n <= |run.steps|
    ensures Isolated(run.State(n).adapter)
  {
    hide Isolated, Stepped;
    if n == 0 {
      StartIsolated(run.start);
    } else {
      NativeHistoryIsComplete(run, n - 1);
      StepIsolated(run.State(n - 1), n - 1, run.steps[n - 1]);
    }
  }

  // ----- The list behind a frame -----

  /** What the step replies to the console. */
  function ReplyAt(s: Service, x: Step): Reply {
    if x.OwnerReceive? && s.stage == Listening then
      Handled(s.limits, s.adapter, x.at, x.fedAt, x.peer, x.packet, x.native).1.wire.reply
    else Silence
  }

  lemma UnservedAccounts(r: ReceiverState, s: ReceiverState, i: nat)
    requires Receiving.Consistent(r) && Unserved(r, s)
    ensures Receiving.ChunksAccounted(r, s, Silence, i)
  {
  }

  /** A chunk that counts as sent after a step counted before, for the same list and lease, or the step just sent it. */
  lemma StepAccounts(s: Service, n: nat, x: Step, i: nat)
    requires Attributing.Accounted(s.adapter)
    ensures Receiving.ChunksAccounted(s.adapter.receiver, Stepped(s, n, x).0.adapter.receiver, ReplyAt(s, x), i)
  {
    hide Attributing.Act, Receiving.ChunksAccounted, ReceivedBy, Stopped, ToppedUp, FrameTaken, EvaluationTaken, Enqueued,
         Receiving.Consistent, Attributing.Accounted, Unserved, Handled;
    ConsistentReceiver(s.adapter);
    if !Enabled(s, x) {
      NothingSent(s.adapter.receiver, i);
    } else {
      match x
      case OwnerTop =>
        ToppedUnfed(s);
        UnservedAccounts(s.adapter.receiver, ToppedUp(s).adapter.receiver, i);
      case OwnerEnd =>
        StoppedUnfed(s);
        UnservedAccounts(s.adapter.receiver, Stopped(s).adapter.receiver, i);
      case OwnerStart(now) => StartSendsNothing(s, now, i);
      case OwnerWork(action) =>
        WorkUnfed(s.limits, s.adapter, action);
        UnservedAccounts(s.adapter.receiver, Attributing.Act(s.limits, s.adapter, action).receiver, i);
      case OwnerReceive(at, fedAt, peer, packet, native) => ReceivedAccounts(s, n, x, i);
      case _ =>
        TakingKeepsAdapter(s);
        NothingSent(s.adapter.receiver, i);
    }
  }

  lemma ConsistentReceiver(a: Sane)
    requires Attributing.Accounted(a)
    ensures Receiving.Consistent(a.receiver)
  {
  }

  lemma NothingSent(r: ReceiverState, i: nat)
    requires Receiving.Consistent(r)
    ensures Receiving.ChunksAccounted(r, r, Silence, i)
  {
  }

  lemma StartSendsNothing(s: Service, now: real, i: nat)
    ensures Receiving.ChunksAccounted(s.adapter.receiver, Restarted(s, now).adapter.receiver, Silence, i)
  {
  }

  lemma ReceivedAccounts(s: Service, n: nat, x: Step, i: nat)
    requires Receiving.Consistent(s.adapter.receiver) && s.stage == Listening && x.OwnerReceive?
    ensures var t := ReceivedBy(s, n, x.at, x.fedAt, x.peer, x.packet, x.native);
      Receiving.ChunksAccounted(s.adapter.receiver, t.adapter.receiver, ReplyAt(s, x), i)
  {
    hide Received, Stopped, Evaluated, Receiving.Consistent;
    Receiving.ReceivedAccounts(s.limits, s.adapter.receiver, x.at, x.fedAt, x.peer, x.packet, i);
    StoppedUnfed(s.(adapter := Handled(s.limits, s.adapter, x.at, x.fedAt, x.peer, x.packet, x.native).0));
  }

  /** Step m sent chunk i of exactly this list, in this generation, to exactly this lease. */
  predicate SentAt(run: Run, m: nat, i: nat, r: ReceiverState)
    requires m < |run.steps|
  {
    && r.watching.watch.Some? && i < r.watching.watch.value.Chunks()
    && ReplyAt(run.State(m), run.steps[m]) == Chunk(i, r.watching.watch.value.Chunk(i))
    && Receiving.SameTransfer(run.State(m + 1).adapter.receiver, r)
  }

  predicate SentBefore(run: Run, n: nat, i: nat, r: ReceiverState)
    requires n <= |run.steps|
  {
    exists m: nat :: m < n && SentAt(run, m, i, r)
  }

  lemma {:induction false} SentWasSent(run: Run, n: nat, i: nat)
    requires run.capacity >= 1 && n <= |run.steps| && i in run.State(n).adapter.receiver.sent
    ensures SentBefore(run, n, i, run.State(n).adapter.receiver)
  {
    hide Stepped, ReplyAt, Ordered, Sound, Run.Horizon;
    if n == 0 {
      assert false by { NothingSentAtFirst(run); }
    } else {
      var s, t := run.State(n - 1), run.State(n);
      AlwaysOrdered(run, n - 1);
      SoundAdapter(s);
      StepAccounts(s, n - 1, run.steps[n - 1], i);
      if i in s.adapter.receiver.sent && Receiving.SameTransfer(s.adapter.receiver, t.adapter.receiver) {
        SentWasSent(run, n - 1, i);
        var m: nat :| m < n - 1 && SentAt(run, m, i, s.adapter.receiver);
        assert SentAt(run, m, i, t.adapter.receiver);
      } else {
        assert SentAt(run, n - 1, i, t.adapter.receiver);
      }
    }
  }

  lemma NothingSentAtFirst(run: Run)
    ensures run.State(0).adapter.receiver.sent == {}
  {
  }

  /**
   * The gate, for a whole service: whatever a caller takes, in every interleaving, arrived after each chunk of
   * its list had been sent, in this same run, to the lease that the frame came from and since that very list
   * was installed.
   */
  lemma TakenListWasSent(run: Run, n: nat)
    requires run.capacity >= 1 && run.limits.Valid() && n < |run.steps| && run.Taken(n).Some?
    ensures var k := run.Taken(n).value.arrival;
      && k < n && run.State(k).adapter.receiver.watching.watch.Some?
      && forall i: nat | i < run.State(k).adapter.receiver.watching.watch.value.Chunks() ::
           SentBefore(run, k, i, run.State(k).adapter.receiver)
  {
    hide Stepped, JoinedFrom, ReceivedAt, SentBefore, Run.Horizon;
    var js := TakenFrameIsJoined(run, n);
    var k := run.Taken(n).value.arrival;
    forall i: nat | i < run.State(k).adapter.receiver.watching.watch.value.Chunks()
      ensures SentBefore(run, k, i, run.State(k).adapter.receiver)
    {
      SentWasSent(run, k, i);
    }
  }
}

/**
 * Whole runs of the receiver: the telemetry gate, the life of a job token, and
 * what an identification answer is allowed to claim.
 */
module ReceiverRuns {
  import opened Common
  import opened SnapshotAssembly
  import opened Receivers

  datatype Event =
    | Clear
    | Tick(now: real)
    | Take(now: real)
    | Complete(now: real, job: Job, verdict: Verdict)
    | Receive(now: real, fedAt: real, peer: Option<Endpoint>, packet: Packet)

  datatype Effect = Quiet | Took(job: Option<Job>) | Published(outcome: Outcome) | Sent(output: Output)

  function Apply(l: Limits, r: ReceiverState, e: Event): (x: (ReceiverState, Effect)) {
    match e
    case Clear => (Revoke(r), Quiet)
    case Tick(now) => (Expired(l, r, now), Quiet)
    case Take(now) => var (s, job) := Drained(l, r, now); (s, Took(job))
    case Complete(now, job, verdict) => var (s, outcome) := Completed(l, r, now, job, verdict); (s, Published(outcome))
    case Receive(now, fedAt, peer, packet) =>
      var (s, output) := Received(l, r, now, fedAt, peer, packet); (s, Sent(output))
  }

  /** A run: the limits, the clock at construction, and the calls made. */
  datatype Run = Run(limits: Limits, start: real, events: seq<Event>)
  {
    function State(n: nat): ReceiverState
      requires n <= |events|
    {
      if n == 0 then Initial(start) else Apply(limits, State(n - 1), events[n - 1]).0
    }

    function Effect(n: nat): Effect
      requires n < |events|
    {
      Apply(limits, State(n), events[n]).1
    }
  }

  /** What every call keeps. */
  predicate Consistent(r: ReceiverState) {
    && (r.owner.None? <==> r.lastActivity.None?)
    && (r.owner.None? ==> r.pending.None? && r.watching.watch.None? && r.identified.None?)
    && (r.pending.Some? ==>
          r.pending.value.token == r.token && r.watching.watch.None? && r.identified.None?)
    && (r.queued.Some? ==> r.queued == r.pending)
    && (r.identified.Some? ==> r.unsupported == r.watching.watch.None?)
    && (r.identified.None? ==> r.watching.watch.None? && !r.unsupported)
    && (r.watching.watch.Some? ==> r.watching.imageHash == r.identified.value.imageHash)
    && (r.watching.watch.None? ==> r.sent == {})
    && (forall i | i in r.sent :: r.watching.watch.Some? && i < r.watching.watch.value.Chunks())
  }

  lemma ExpiredKeeps(l: Limits, r: ReceiverState, now: real)
    requires Consistent(r)
    ensures Consistent(Expired(l, r, now))
  {
  }

  lemma TelemetryKeeps(l: Limits, r: ReceiverState, now: real, fedAt: real, source: Endpoint, part: Option<Part>)
    requires Consistent(r)
    ensures Consistent(TelemetryReceived(l, r, now, fedAt, source, part).0)
  {
  }

  lemma ControlKeeps(l: Limits, r: ReceiverState, now: real, source: Endpoint, request: Option<Request>)
    requires Consistent(r) && (r.owner.Some? ==> r.owner.value == source.address)
    ensures Consistent(Controlled(l, r, now, source, request).0)
  {
  }

  lemma ReceivedKeeps(l: Limits, r: ReceiverState, now: real, fedAt: real, peer: Option<Endpoint>, packet: Packet)
    requires Consistent(r)
    ensures Consistent(Received(l, r, now, fedAt, peer, packet).0)
  {
    ExpiredKeeps(l, r, now);
    var e := Expired(l, r, now);
    var t := e.(traffic := Rolled(e.traffic, now));
    assert Consistent(t);
    if peer.Some? && (t.owner.Some? ==> peer.value.address == t.owner.value) {
      var d := t.(traffic := t.traffic.(datagrams := t.traffic.datagrams + 1));
      assert Consistent(d);
      match packet
      case Telemetry(part) => TelemetryKeeps(l, d, now, fedAt, peer.value, part);
      case Control(request) => ControlKeeps(l, d, now, peer.value, request);
    }
  }

  lemma CompletedKeeps(l: Limits, r: ReceiverState, now: real, job: Job, v: Verdict)
    requires Consistent(r)
    ensures Consistent(Completed(l, r, now, job, v).0)
  {
    ExpiredKeeps(l, r, now);
  }

  lemma ApplyKeeps(l: Limits, r: ReceiverState, e: Event)
    requires Consistent(r)
    ensures Consistent(Apply(l, r, e).0)
  {
    match e
    case Receive(now, fedAt, peer, packet) => ReceivedKeeps(l, r, now, fedAt, peer, packet);
    case Complete(now, job, verdict) => CompletedKeeps(l, r, now, job, verdict);
    case Tick(now) => ExpiredKeeps(l, r, now);
    case Take(now) => ExpiredKeeps(l, r, now);
    case Clear =>
  }

  lemma {:induction false} AlwaysConsistent(run: Run, n: nat)
    requires n <= |run.events|
    ensures Consistent(run.State(n))
  {
    if n > 0 {
      AlwaysConsistent(run, n - 1);
      ApplyKeeps(run.limits, run.State(n - 1), run.events[n - 1]);
    }
  }

  // ----- Telemetry gate -----

  /** Call m sent chunk i of exactly this list to exactly this owner, in this generation. */
  predicate ServedAt(run: Run, m: nat, i: nat, r: ReceiverState)
    requires m < |run.events|
  {
    && r.watching.watch.Some? && i < r.watching.watch.value.Chunks()
    && run.Effect(m).Sent?
    && run.Effect(m).output.reply == Chunk(i, r.watching.watch.value.Chunk(i))
    && SameTransfer(run.State(m + 1), r)
  }

  predicate SameTransfer(a: ReceiverState, b: ReceiverState) {
    a.owner == b.owner && a.watching.watch == b.watching.watch && a.watching.generation == b.watching.generation
  }

  /** A chunk counted as sent after a call was counted before it, or the call just sent it. */
  predicate ChunksAccounted(r: ReceiverState, s: ReceiverState, reply: Reply, i: nat) {
    i in s.sent ==>
      && s.watching.watch.Some? && i < s.watching.watch.value.Chunks()
      && ((i in r.sent && SameTransfer(r, s)) || reply == Chunk(i, s.watching.watch.value.Chunk(i)))
  }

  lemma ExpiryAccounts(l: Limits, r: ReceiverState, now: real, i: nat)
    requires Consistent(r)
    ensures ChunksAccounted(r, Expired(l, r, now), Silence, i)
  {
  }

  lemma TelemetryAccounts(l: Limits, r: ReceiverState, now: real, fedAt: real, source: Endpoint, part: Option<Part>, i: nat)
    requires Consistent(r)
    ensures ChunksAccounted(r, TelemetryReceived(l, r, now, fedAt, source, part).0, Silence, i)
  {
  }

  lemma ControlAccounts(l: Limits, r: ReceiverState, now: real, source: Endpoint, request: Option<Request>, i: nat)
    requires Consistent(r) && (r.owner.Some? ==> r.owner.value == source.address)
    ensures var (s, output) := Controlled(l, r, now, source, request); ChunksAccounted(r, s, output.reply, i)
  {
  }

  lemma ReceivedAccounts(l: Limits, r: ReceiverState, now: real, fedAt: real, peer: Option<Endpoint>, packet: Packet, i: nat)
    requires Consistent(r)
    ensures var (s, output) := Received(l, r, now, fedAt, peer, packet); ChunksAccounted(r, s, output.reply, i)
  {
    ExpiredKeeps(l, r, now);
    ExpiryAccounts(l, r, now, i);
    var e := Expired(l, r, now);
    var t := e.(traffic := Rolled(e.traffic, now));
    if peer.Some? && (t.owner.Some? ==> peer.value.address == t.owner.value) {
      var d := t.(traffic := t.traffic.(datagrams := t.traffic.datagrams + 1));
      match packet
      case Telemetry(part) => TelemetryAccounts(l, d, now, fedAt, peer.value, part, i);
      case Control(request) => ControlAccounts(l, d, now, peer.value, request, i);
    }
  }

  lemma ApplyAccounts(l: Limits, r: ReceiverState, e: Event, i: nat)
    requires Consistent(r)
    ensures var (s, effect) := Apply(l, r, e);
      ChunksAccounted(r, s, if effect.Sent? then effect.output.reply else Silence, i)
  {
    match e
    case Receive(now, fedAt, peer, packet) => ReceivedAccounts(l, r, now, fedAt, peer, packet, i);
    case Complete(now, job, verdict) => ExpiryAccounts(l, r, now, i); ExpiredKeeps(l, r, now);
    case Tick(now) => ExpiryAccounts(l, r, now, i);
    case Take(now) => ExpiryAccounts(l, r, now, i);
    case Clear =>
  }

  predicate ServedBefore(run: Run, n: nat, i: nat, r: ReceiverState)
    requires n <= |run.events|
  {
    exists m: nat :: m < n && ServedAt(run, m, i, r)
  }

  predicate ListServedBefore(run: Run, n: nat, r: ReceiverState)
    requires n <= |run.events| && r.watching.watch.Some?
  {
    forall i: nat | i < r.watching.watch.value.Chunks() :: ServedBefore(run, n, i, r)
  }

  lemma {:induction false} SentWasServed(run: Run, n: nat, i: nat)
    requires n <= |run.events| && i in run.State(n).sent
    ensures ServedBefore(run, n, i, run.State(n))
  {
    if n > 0 {
      AlwaysConsistent(run, n - 1);
      ApplyAccounts(run.limits, run.State(n - 1), run.events[n - 1], i);
      if i in run.State(n - 1).sent && SameTransfer(run.State(n - 1), run.State(n)) {
        SentWasServed(run, n - 1, i);
        var m: nat :| m < n - 1 && ServedAt(run, m, i, run.State(n - 1));
        assert ServedAt(run, m, i, run.State(n));
      } else {
        assert ServedAt(run, n - 1, i, run.State(n));
      }
    }
  }

  lemma FrameNeedsFullTransfer(l: Limits, r: ReceiverState, now: real, fedAt: real, peer: Option<Endpoint>, packet: Packet)
    requires Consistent(r) && Received(l, r, now, fedAt, peer, packet).1.frame.Some?
    ensures var (s, output) := Received(l, r, now, fedAt, peer, packet);
      && peer.Some? && s.owner == Some(peer.value.address) && s.watching.watch.Some?
      && |s.sent| == s.watching.watch.value.Chunks()
      && output.frame.value.generation == s.watching.generation
  {
  }

  /**
   * A frame comes out only after every chunk of the installed list was sent, in the frame's own
   * generation, to the console the frame came from. By ChunksRestoreFile those replies are the file.
   */
  lemma TelemetryGate(run: Run, n: nat)
    requires n < |run.events| && run.Effect(n).Sent? && run.Effect(n).output.frame.Some?
    ensures var s := run.State(n + 1);
      && run.events[n].peer.Some? && s.owner == Some(run.events[n].peer.value.address)
      && s.watching.watch.Some?
      && run.Effect(n).output.frame.value.generation == s.watching.generation
      && ListServedBefore(run, n + 1, s)
  {
    AlwaysConsistent(run, n);
    AlwaysConsistent(run, n + 1);
    var e := run.events[n];
    FrameNeedsFullTransfer(run.limits, run.State(n), e.now, e.fedAt, e.peer, e.packet);
    var s := run.State(n + 1);
    RangeCardinality(s.sent, s.watching.watch.value.Chunks());
    var k := n + 1;
    forall i: nat | i < s.watching.watch.value.Chunks()
      ensures ServedBefore(run, k, i, s)
    {
      SentWasServed(run, k, i);
    }
  }

  // ----- Job tokens -----

  /** Call m queued this very job: a request for its identity made it the pending one. */
  predicate IssuedAt(run: Run, m: nat, job: Job)
    requires m < |run.events|
  {
    && run.State(m).pending != Some(job) && run.State(m + 1).pending == Some(job)
    && run.State(m + 1).queued == Some(job) && run.State(m).token < job.token == run.State(m + 1).token
    && run.events[m].Receive?
    && run.events[m].packet.Control? && run.events[m].packet.request.Some?
    && run.events[m].packet.request.value.Identify? && run.events[m].packet.request.value.identity == job.identity
  }

  predicate CompletedAt(run: Run, n: nat, job: Job)
    requires n < |run.events|
  {
    run.events[n].Complete? && run.events[n].job == job && run.Effect(n) == Published(Accepted)
  }

  /** A call's effect on the token and the pending job. */
  predicate TokenStep(r: ReceiverState, s: ReceiverState) {
    && r.token <= s.token
    && (s.pending.Some? && s.pending != r.pending ==>
          r.token < s.pending.value.token == s.token && s.queued == s.pending)
    && (s.token == r.token && r.pending.Some? ==> s.pending == r.pending || s.pending.None?)
  }

  lemma ExpiryTokens(l: Limits, r: ReceiverState, now: real)
    ensures TokenStep(r, Expired(l, r, now))
    ensures Expired(l, r, now).token == r.token ==> Expired(l, r, now) == r
  {
  }

  lemma ControlTokens(l: Limits, r: ReceiverState, now: real, source: Endpoint, request: Option<Request>)
    requires Consistent(r)
    ensures var s := Controlled(l, r, now, source, request).0;
      && TokenStep(r, s)
      && (s.pending != r.pending ==>
            request.Some? && request.value.Identify? && s.pending == Some(Job(r.token + 1, request.value.identity)))
  {
  }

  lemma ReceivedTokens(l: Limits, r: ReceiverState, now: real, fedAt: real, peer: Option<Endpoint>, packet: Packet)
    requires Consistent(r)
    ensures var s := Received(l, r, now, fedAt, peer, packet).0;
      && TokenStep(r, s)
      && (s.pending.Some? && s.pending != r.pending ==>
            && packet.Control? && packet.request.Some? && packet.request.value.Identify?
            && s.pending == Some(Job(s.token, packet.request.value.identity)))
  {
    ExpiredKeeps(l, r, now);
    ExpiryTokens(l, r, now);
    var e := Expired(l, r, now);
    var t := e.(traffic := Rolled(e.traffic, now));
    if peer.Some? && (t.owner.Some? ==> peer.value.address == t.owner.value) {
      var d := t.(traffic := t.traffic.(datagrams := t.traffic.datagrams + 1));
      match packet
      case Telemetry(_) =>
      case Control(request) => ControlTokens(l, d, now, peer.value, request);
    }
  }

  lemma ApplyTokens(l: Limits, r: ReceiverState, e: Event)
    requires Consistent(r)
    ensures TokenStep(r, Apply(l, r, e).0)
    ensures var s := Apply(l, r, e).0; s.pending.Some? && s.pending != r.pending ==>
      && e.Receive? && e.packet.Control? && e.packet.request.Some? && e.packet.request.value.Identify?
      && s.pending == Some(Job(s.token, e.packet.request.value.identity))
  {
    match e
    case Receive(now, fedAt, peer, packet) => ReceivedTokens(l, r, now, fedAt, peer, packet);
    case Complete(now, job, verdict) => ExpiryTokens(l, r, now);
    case _ =>
  }

  /** A clear, a lease or job expiry, and a new identity each retire the pending job for good. */
  lemma InterruptionsGrowToken(l: Limits, r: ReceiverState, e: Event)
    requires Consistent(r) && r.pending.Some?
    requires || e == Clear
             || (e != Clear && (LeaseOver(l, r, e.now) || JobOver(l, r, e.now)))
             || (e.Receive? && Apply(l, r, e).0.pending.Some? && Apply(l, r, e).0.pending != r.pending)
    ensures Apply(l, r, e).0.token > r.token && Apply(l, r, e).0.pending != r.pending
  {
    ApplyKeeps(l, r, e);
    ApplyTokens(l, r, e);
  }

  predicate PendingFrom(run: Run, m: nat, n: nat, job: Job)
    requires n <= |run.events|
  {
    forall k: nat | m < k <= n :: run.State(k).pending == Some(job) && run.State(k).token == job.token
  }

  lemma NewPendingWasIssued(run: Run, m: nat, job: Job)
    requires m < |run.events| && run.State(m).pending != Some(job) && run.State(m + 1).pending == Some(job)
    ensures IssuedAt(run, m, job)
  {
    AlwaysConsistent(run, m);
    ApplyTokens(run.limits, run.State(m), run.events[m]);
  }

  /** The moment the pending job was issued. */
  lemma {:induction false} PendingWasIssued(run: Run, n: nat, job: Job) returns (m: nat)
    requires 0 < n <= |run.events| && run.State(n).pending == Some(job)
    ensures m < n && IssuedAt(run, m, job) && PendingFrom(run, m, n, job)
  {
    hide IssuedAt, Apply, Revoke;
    AlwaysConsistent(run, n);
    if run.State(n - 1).pending == Some(job) {
      assert n > 1 by { assert run.State(0) == Initial(run.start); }
      m := PendingWasIssued(run, n - 1, job);
    } else {
      m := n - 1;
      NewPendingWasIssued(run, m, job);
    }
  }

  predicate JobRetired(r: ReceiverState, job: Job) { job.token <= r.token && r.pending != Some(job) }

  lemma {:induction false} RetiredForever(run: Run, m: nat, n: nat, job: Job)
    requires m <= n <= |run.events| && JobRetired(run.State(m), job)
    ensures JobRetired(run.State(n), job)
  {
    hide Apply;
    if m < n {
      RetiredForever(run, m, n - 1, job);
      AlwaysConsistent(run, n - 1);
      ApplyTokens(run.limits, run.State(n - 1), run.events[n - 1]);
    }
  }

  lemma CompletionRetires(run: Run, n: nat, job: Job)
    requires n < |run.events| && CompletedAt(run, n, job)
    ensures run.State(n).pending == Some(job) && JobRetired(run.State(n + 1), job)
  {
    AlwaysConsistent(run, n);
    ExpiryTokens(run.limits, run.State(n), run.events[n].now);
  }

  lemma CompletesOnce(run: Run, n: nat, k: nat, job: Job)
    requires n < |run.events| && k < |run.events| && k != n && CompletedAt(run, n, job)
    ensures !CompletedAt(run, k, job)
  {
    hide CompletedAt, Apply;
    CompletionRetires(run, n, job);
    if CompletedAt(run, k, job) {
      CompletionRetires(run, k, job);
      if k < n { RetiredForever(run, k + 1, n, job); } else { RetiredForever(run, n + 1, k, job); }
    }
  }

  /**
   * A job completes at most once, and only if it was issued and stayed the pending job, under an
   * unchanged token, ever since; InterruptionsGrowToken says what an unchanged token excludes.
   */
  lemma JobCompletesOnceUninterrupted(run: Run, n: nat, job: Job)
    requires n < |run.events| && CompletedAt(run, n, job)
    ensures exists m: nat :: m < n && IssuedAt(run, m, job) && PendingFrom(run, m, n, job)
    ensures forall k: nat | k < |run.events| && k != n :: !CompletedAt(run, k, job)
  {
    CompletionRetires(run, n, job);
    assert n > 0 by { assert run.State(0) == Initial(run.start); }
    var m := PendingWasIssued(run, n, job);
    forall k: nat | k < |run.events| && k != n
      ensures !CompletedAt(run, k, job)
    {
      CompletesOnce(run, n, k, job);
    }
  }

  // ----- Identification answers -----

  /** The last result that was published in the first n calls, and for whom. */
  function LastVerdict(run: Run, n: nat): Option<(Identity, Verdict)>
    requires n <= |run.events|
  {
    if n == 0 then None
    else if run.events[n - 1].Complete? && run.Effect(n - 1) == Published(Accepted)
    then Some((run.events[n - 1].job.identity, run.events[n - 1].verdict))
    else LastVerdict(run, n - 1)
  }

  /** An identified game is the one the last published result was about. */
  predicate Vouched(r: ReceiverState, last: Option<(Identity, Verdict)>) {
    r.identified.Some? ==>
      && last.Some? && last.value.0 == r.identified.value
      && (if r.unsupported then last.value.1 == NoSupport
          else
            && last.value.1.Qualified? && last.value.1.watch == r.watching.watch
            && last.value.1.title == r.title && last.value.1.achievements == r.achievements)
  }

  predicate SameIdentification(r: ReceiverState, s: ReceiverState) {
    s.identified.Some? ==>
      && s.identified == r.identified && s.unsupported == r.unsupported && s.title == r.title
      && s.achievements == r.achievements && s.watching.watch == r.watching.watch
  }

  lemma ControlVouches(l: Limits, r: ReceiverState, now: real, source: Endpoint, request: Option<Request>)
    ensures SameIdentification(r, Controlled(l, r, now, source, request).0)
  {
  }

  lemma ReceivedVouches(l: Limits, r: ReceiverState, now: real, fedAt: real, peer: Option<Endpoint>, packet: Packet)
    ensures SameIdentification(r, Received(l, r, now, fedAt, peer, packet).0)
  {
    hide Controlled;
    var e := Expired(l, r, now);
    if peer.Some? && packet.Control? {
      ControlVouches(l, e.(traffic := Rolled(e.traffic, now).(datagrams := Rolled(e.traffic, now).datagrams + 1)),
                     now, peer.value, packet.request);
    }
  }

  /** A list that is installed after a datagram was installed before it, in the same generation. */
  predicate SameList(r: ReceiverState, s: ReceiverState) {
    s.watching.watch.Some? ==>
      s.watching.watch == r.watching.watch && s.watching.generation == r.watching.generation && s.identified == r.identified
  }

  lemma TelemetryKeepsList(l: Limits, r: ReceiverState, now: real, fedAt: real, source: Endpoint, part: Option<Part>)
    ensures SameList(r, TelemetryReceived(l, r, now, fedAt, source, part).0)
  {
  }

  lemma ControlKeepsList(l: Limits, r: ReceiverState, now: real, source: Endpoint, request: Option<Request>)
    ensures SameList(r, Controlled(l, r, now, source, request).0)
  {
  }

  lemma ReceivedKeepsList(l: Limits, r: ReceiverState, now: real, fedAt: real, peer: Option<Endpoint>, packet: Packet)
    ensures SameList(r, Received(l, r, now, fedAt, peer, packet).0)
  {
    hide Controlled, TelemetryReceived;
    var e := Expired(l, r, now);
    if peer.Some? {
      var d := e.(traffic := Rolled(e.traffic, now).(datagrams := Rolled(e.traffic, now).datagrams + 1));
      match packet
      case Telemetry(part) => TelemetryKeepsList(l, d, now, fedAt, peer.value, part);
      case Control(request) => ControlKeepsList(l, d, now, peer.value, request);
    }
  }

  lemma {:induction false} AlwaysVouched(run: Run, n: nat)
    requires n <= |run.events|
    ensures Vouched(run.State(n), LastVerdict(run, n))
  {
    hide Received;
    if n > 0 {
      AlwaysVouched(run, n - 1);
      AlwaysConsistent(run, n - 1);
      var r := run.State(n - 1);
      match run.events[n - 1]
      case Receive(now, fedAt, peer, packet) => ReceivedVouches(run.limits, r, now, fedAt, peer, packet);
      case _ =>
    }
  }

  predicate Asks(run: Run, n: nat, identity: Identity)
    requires n < |run.events|
  {
    && run.events[n].Receive? && run.events[n].packet.Control? && run.events[n].packet.request.Some?
    && run.events[n].packet.request.value.Identify? && run.events[n].packet.request.value.identity == identity
  }

  lemma AnswersComeFromIdentified(l: Limits, r: ReceiverState, now: real, fedAt: real, peer: Option<Endpoint>, packet: Packet)
    requires Consistent(r)
    ensures var (s, output) := Received(l, r, now, fedAt, peer, packet);
      output.reply.Supported? || output.reply.Unsupported? ==>
        && packet.Control? && packet.request.Some? && packet.request.value.Identify?
        && s.identified == Some(packet.request.value.identity)
        && output.reply == Describe(s) && (output.reply.Supported? <==> s.watching.watch.Some?)
  {
  }

  /**
   * RAA1 OK describes the list that the last published result installed for the asked identity, and
   * RAA1 NO is sent only when that last result was an explicit lack of support, never a failure.
   */
  lemma AnswersAreVouchedFor(run: Run, n: nat, identity: Identity)
    requires n < |run.events| && Asks(run, n, identity)
    ensures var reply := run.Effect(n).output.reply;
      var last := LastVerdict(run, n);
      && (reply.Unsupported? ==> last == Some((identity, NoSupport)))
      && (reply.Supported? ==>
            && last.Some? && last.value.0 == identity && last.value.1.Qualified? && last.value.1.watch.Some?
            && reply.length == |last.value.1.watch.value.data| && reply.chunks == last.value.1.watch.value.Chunks()
            && reply.title == last.value.1.title && reply.achievements == last.value.1.achievements)
  {
    AlwaysConsistent(run, n);
    AlwaysVouched(run, n + 1);
    var e := run.events[n];
    AnswersComeFromIdentified(run.limits, run.State(n), e.now, e.fedAt, e.peer, e.packet);
  }
}

/**
 * What the receiver must do, over whole runs: which requests it answers and how, which
 * chunks it hands out, which jobs, and when a frame comes out.
 */
module ReceiverAnswers {
  import opened Common
  import opened SnapshotAssembly
  import opened WatchLists
  import opened WatchSessions
  import opened Receivers
  import opened ReceiverRuns

  // ----- Who is listened to -----

  /** The lease has run out at this moment. */
  predicate Idle(l: Limits, r: ReceiverState, now: real) {
    r.lastActivity.Some? && now - r.lastActivity.value >= l.lease
  }

  /** The identification job, of a lease that goes on, has run out. */
  predicate Late(l: Limits, r: ReceiverState, now: real) {
    !Idle(l, r, now) && r.pending.Some? && now - r.pendingSince >= l.identify
  }

  predicate OwnedBy(l: Limits, r: ReceiverState, now: real, address: nat) {
    r.owner == Some(address) && !Idle(l, r, now)
  }

  /** Nobody else holds the lease, and fewer than 256 datagrams came in this second. */
  predicate Heard(l: Limits, r: ReceiverState, e: Event) {
    && e.Receive? && e.peer.Some?
    && (r.owner.None? || Idle(l, r, e.now) || r.owner == Some(e.peer.value.address))
    && (e.now - r.traffic.window >= 1.0 || r.traffic.datagrams < 256)
  }

  /** A request that parses, within its own limit; without a lease, a chunk cannot be asked for. */
  predicate Admitted(l: Limits, r: ReceiverState, e: Event) {
    && Heard(l, r, e) && e.packet.Control? && e.packet.request.Some?
    && (e.now - r.traffic.window >= 1.0 || r.traffic.requests < l.rate)
    && (e.packet.request.value.Fetch? ==> OwnedBy(l, r, e.now, e.peer.value.address))
  }

  function ReplyAddress(l: Limits, e: Event): Endpoint
    requires e.Receive? && e.peer.Some? && e.packet.Control? && e.packet.request.Some?
  {
    if l.advertisedReplies then e.packet.request.value.advertised else e.peer.value
  }

  /** What the receiver is when it turns to a datagram that it listens to. */
  function Counted(l: Limits, r: ReceiverState, e: Event): ReceiverState
    requires e.Receive?
  {
    var t := Rolled(r.traffic, e.now);
    Expired(l, r, e.now).(traffic := t.(datagrams := t.datagrams + 1))
  }

  lemma CountedTraffic(l: Limits, r: ReceiverState, now: real)
    ensures Expired(l, r, now).traffic == r.traffic
    ensures var x := Expired(l, r, now); if Idle(l, r, now) then x.owner.None? else x.owner == r.owner
  {
  }

  lemma HeardTelemetry(l: Limits, r: ReceiverState, e: Event)
    requires Heard(l, r, e) && e.packet.Telemetry?
    ensures Received(l, r, e.now, e.fedAt, e.peer, e.packet)
            == TelemetryReceived(l, Counted(l, r, e), e.now, e.fedAt, e.peer.value, e.packet.part)
  {
    hide Expired, TelemetryReceived;
    CountedTraffic(l, r, e.now);
  }

  lemma HeardControl(l: Limits, r: ReceiverState, e: Event)
    requires Heard(l, r, e) && e.packet.Control?
    ensures Received(l, r, e.now, e.fedAt, e.peer, e.packet)
            == Controlled(l, Counted(l, r, e), e.now, e.peer.value, e.packet.request)
  {
    hide Expired, Controlled;
    CountedTraffic(l, r, e.now);
  }

  /** A datagram that is not listened to leaves only a trace in the counters. */
  lemma Unheard(l: Limits, r: ReceiverState, e: Event)
    requires e.Receive? && !Heard(l, r, e)
    ensures var (s, output) := Received(l, r, e.now, e.fedAt, e.peer, e.packet);
      && output == NOTHING && s.(traffic := r.traffic) == Expired(l, r, e.now).(traffic := r.traffic)
      && s.traffic.window == Rolled(r.traffic, e.now).window && s.traffic.requests == Rolled(r.traffic, e.now).requests
  {
    hide Expired;
    CountedTraffic(l, r, e.now);
  }

  // ----- What stands -----

  /**
   * Call m published this verdict on this identity, and since then no clearing, no expiry and no request
   * for another identity has moved the token; TokenGrowsExactly says that nothing else moves it.
   */
  predicate Stands(run: Run, n: nat, m: nat, identity: Identity, verdict: Verdict)
    requires n <= |run.events|
  {
    && m < n && run.events[m].Complete? && run.Effect(m) == Published(Accepted)
    && run.events[m].job.identity == identity && run.events[m].verdict == verdict && !verdict.Failed?
    && run.State(n).token == run.State(m + 1).token
  }

  /** The answer a verdict calls for. */
  function AnswerFor(v: Verdict): Reply {
    match v
    case Failed => Wait
    case NoSupport => Unsupported
    case Qualified(watch, _, _, title, achievements) =>
      if watch.None? then Silence
      else Supported(|watch.value.data|, (|watch.value.data| + 895) / 896, achievements, title)
  }

  /** The identification in effect. */
  predicate Says(r: ReceiverState, identity: Identity, v: Verdict) {
    && r.identified == Some(identity) && r.pending.None? && !v.Failed?
    && (r.unsupported <==> v == NoSupport)
    && (v.Qualified? ==>
          && v.watch.Some? && r.watching.watch == v.watch && r.title == v.title && r.achievements == v.achievements)
  }

  lemma PublishedSays(l: Limits, r: ReceiverState, now: real, job: Job, v: Verdict)
    requires Consistent(r) && Completed(l, r, now, job, v).1 == Accepted
    ensures var s := Completed(l, r, now, job, v).0;
      && s.token == r.token && (v.Failed? ==> s.identified.None?)
      && (!v.Failed? ==> Says(s, job.identity, v))
  {
    ExpiredKeeps(l, r, now);
  }

  lemma SayingStays(l: Limits, r: ReceiverState, e: Event, identity: Identity, v: Verdict)
    requires Consistent(r) && Says(r, identity, v) && Apply(l, r, e).0.token == r.token
    ensures Says(Apply(l, r, e).0, identity, v)
  {
    ApplyTokens(l, r, e);
    match e
    case Receive(now, fedAt, peer, packet) => ReceivedKeepsSaying(l, r, now, fedAt, peer, packet, identity, v);
    case _ =>
  }

  lemma ReceivedKeepsSaying(l: Limits, r: ReceiverState, now: real, fedAt: real, peer: Option<Endpoint>, packet: Packet,
                            identity: Identity, v: Verdict)
    requires Consistent(r) && Says(r, identity, v) && Received(l, r, now, fedAt, peer, packet).0.token == r.token
    ensures Says(Received(l, r, now, fedAt, peer, packet).0, identity, v)
  {
    hide Received;
    ReceivedVouches(l, r, now, fedAt, peer, packet);
    ReceivedTokens(l, r, now, fedAt, peer, packet);
    ReceivedKeepsIdentity(l, r, now, fedAt, peer, packet);
  }

  lemma ReceivedKeepsIdentity(l: Limits, r: ReceiverState, now: real, fedAt: real, peer: Option<Endpoint>, packet: Packet)
    requires Received(l, r, now, fedAt, peer, packet).0.token == r.token
    ensures Received(l, r, now, fedAt, peer, packet).0.identified == r.identified
  {
    hide Fed, Served, Cleared, Describe;
  }

  lemma TokensGrow(run: Run, n: nat)
    requires n < |run.events|
    ensures run.State(n).token <= run.State(n + 1).token
  {
    AlwaysConsistent(run, n);
    ApplyTokens(run.limits, run.State(n), run.events[n]);
  }

  lemma {:induction false} TokensGrowTo(run: Run, m: nat, n: nat)
    requires m <= n <= |run.events|
    ensures run.State(m).token <= run.State(n).token
  {
    hide Apply;
    if m < n {
      TokensGrowTo(run, m, n - 1);
      TokensGrow(run, n - 1);
    }
  }

  lemma {:induction false} StandingIsSaid(run: Run, n: nat, m: nat, identity: Identity, verdict: Verdict)
    requires n <= |run.events| && Stands(run, n, m, identity, verdict)
    ensures Says(run.State(n), identity, verdict)
    decreases n
  {
    hide Apply, Says;
    if m + 1 < n {
      TokensGrow(run, n - 1);
      TokensGrowTo(run, m + 1, n - 1);
      StandingIsSaid(run, n - 1, m, identity, verdict);
      AlwaysConsistent(run, n - 1);
      SayingStays(run.limits, run.State(n - 1), run.events[n - 1], identity, verdict);
    } else {
      AlwaysConsistent(run, m);
      StandsAtOnce(run, m);
    }
  }

  lemma StandsAtOnce(run: Run, m: nat)
    requires m < |run.events| && run.events[m].Complete? && run.Effect(m) == Published(Accepted)
    requires !run.events[m].verdict.Failed?
    ensures Says(run.State(m + 1), run.events[m].job.identity, run.events[m].verdict)
  {
    hide Completed, Says;
    AlwaysConsistent(run, m);
    PublishedSays(run.limits, run.State(m), run.events[m].now, run.events[m].job, run.events[m].verdict);
  }

  lemma IdentifiedBefore(l: Limits, r: ReceiverState, e: Event)
    requires Consistent(r) && Apply(l, r, e).0.identified.Some?
    requires !(e.Complete? && Apply(l, r, e).1 == Published(Accepted))
    ensures r.identified == Apply(l, r, e).0.identified && Apply(l, r, e).0.token == r.token
  {
    hide Revoke;
    match e
    case Receive(now, fedAt, peer, packet) => ReceivedIdentifiedBefore(l, r, now, fedAt, peer, packet);
    case Complete(now, job, verdict) => ExpiredIdentified(l, r, now);
    case Tick(now) => ExpiredIdentified(l, r, now);
    case Take(now) => ExpiredIdentified(l, r, now);
    case Clear => RevokedIdentifiesNothing(r);
  }

  lemma RevokedIdentifiesNothing(r: ReceiverState)
    ensures Revoke(r).identified.None?
  {
  }

  lemma ExpiredIdentified(l: Limits, r: ReceiverState, now: real)
    requires Consistent(r) && Expired(l, r, now).identified.Some?
    ensures Expired(l, r, now) == r
  {
  }

  lemma ReceivedIdentifiedBefore(l: Limits, r: ReceiverState, now: real, fedAt: real, peer: Option<Endpoint>, packet: Packet)
    requires Consistent(r) && Received(l, r, now, fedAt, peer, packet).0.identified.Some?
    ensures r.identified == Received(l, r, now, fedAt, peer, packet).0.identified
    ensures Received(l, r, now, fedAt, peer, packet).0.token == r.token
  {
    hide Fed, Served, Cleared, Describe;
  }

  /** Whatever is identified rests on a verdict that stands. */
  lemma {:induction false} IdentifiedStands(run: Run, n: nat) returns (m: nat)
    requires n <= |run.events| && run.State(n).identified.Some?
    ensures m < n && run.events[m].Complete?
    ensures Stands(run, n, m, run.State(n).identified.value, run.events[m].verdict)
    decreases n
  {
    hide Apply;
    assert n > 0 by { assert run.State(0) == Initial(run.start); }
    AlwaysConsistent(run, n - 1);
    var e := run.events[n - 1];
    if e.Complete? && run.Effect(n - 1) == Published(Accepted) {
      m := n - 1;
      PublishedIdentifies(run, m);
    } else {
      IdentifiedBefore(run.limits, run.State(n - 1), e);
      m := IdentifiedStands(run, n - 1);
    }
  }

  lemma PublishedIdentifies(run: Run, m: nat)
    requires m < |run.events| && run.events[m].Complete? && run.Effect(m) == Published(Accepted)
    requires run.State(m + 1).identified.Some?
    ensures !run.events[m].verdict.Failed? && run.State(m + 1).identified.value == run.events[m].job.identity
  {
    hide Completed;
    AlwaysConsistent(run, m);
    PublishedSays(run.limits, run.State(m), run.events[m].now, run.events[m].job, run.events[m].verdict);
  }

  // ----- Identification requests -----

  /** A job for this identity is pending. */
  predicate Seeks(r: ReceiverState, identity: Identity) { r.pending.Some? && r.pending.value.identity == identity }

  /** What is answered to an identification request, by the state it finds. */
  lemma AskedNow(l: Limits, r: ReceiverState, e: Event, identity: Identity)
    requires l.Valid()
    requires Consistent(r) && Admitted(l, r, e) && e.packet.request.value.Identify?
    requires e.packet.request.value.identity == identity
    ensures var output := Received(l, r, e.now, e.fedAt, e.peer, e.packet).1;
      && output.destination == Some(ReplyAddress(l, e)) && output.frame.None?
      && (output.reply == Wait <==> Idle(l, r, e.now) || r.identified != Some(identity))
      && (output.reply == Wait ==> Seeks(Received(l, r, e.now, e.fedAt, e.peer, e.packet).0, identity))
      && (forall v | Says(r, identity, v) && !Idle(l, r, e.now) :: output.reply == AnswerFor(v))
  {
    hide Cleared;
    ExpiredKeeps(l, r, e.now);
  }

  /**
   * Every identification request that is listened to is answered: by the verdict that stands for that very
   * identity, OK with the length, the chunks, the achievements and the title of its list or NO for an explicit lack of
   * support; and with WAIT exactly when no verdict stands for it or the lease has just run out, and then a job for
   * it is pending.
   */
  lemma AskedIsAnswered(run: Run, n: nat, identity: Identity)
    requires run.limits.Valid()
    requires n < |run.events| && Asks(run, n, identity) && Admitted(run.limits, run.State(n), run.events[n])
    ensures var e := run.events[n];
      var output, idle := run.Effect(n).output, Idle(run.limits, run.State(n), e.now);
      && output.destination == Some(ReplyAddress(run.limits, e))
      && (forall m, v | Stands(run, n, m, identity, v) && !idle :: output.reply == AnswerFor(v))
      && (output.reply == Wait <==> idle || forall m, v :: !Stands(run, n, m, identity, v))
      && (output.reply == Wait ==> Seeks(run.State(n + 1), identity))
  {
    hide Received, Admitted, Stands, Says, Seeks;
    AlwaysConsistent(run, n);
    var r, e := run.State(n), run.events[n];
    AskedNow(run.limits, r, e, identity);
    forall m, v | Stands(run, n, m, identity, v)
      ensures Says(r, identity, v) && r.identified == Some(identity)
    {
      StandingIsSaid(run, n, m, identity, v);
      SaysWho(r, identity, v);
    }
    if r.identified == Some(identity) {
      var m := IdentifiedStands(run, n);
      assert Stands(run, n, m, identity, run.events[m].verdict);
    }
  }

  lemma SaysWho(r: ReceiverState, identity: Identity, v: Verdict)
    requires Says(r, identity, v)
    ensures r.identified == Some(identity)
  {
  }

  /** A request that is not listened to draws nothing at all. */
  lemma OnlyTheAdmittedAreAnswered(run: Run, n: nat)
    requires run.limits.Valid()
    requires n < |run.events| && run.events[n].Receive? && run.events[n].packet.Control?
    requires !Admitted(run.limits, run.State(n), run.events[n])
    ensures run.Effect(n) == Sent(NOTHING)
  {
    hide Revoke, Answered;
    AlwaysConsistent(run, n);
    RevokedOwnsNothing(run.State(n));
  }

  lemma RevokedOwnsNothing(r: ReceiverState)
    ensures Revoke(r).owner.None? && Revoke(r).traffic == r.traffic
  {
  }

  /** The other requests: a probe is greeted, and what only keeps the lease draws an empty reply. */
  lemma OthersAreAnswered(run: Run, n: nat)
    requires run.limits.Valid()
    requires n < |run.events| && Admitted(run.limits, run.State(n), run.events[n])
    ensures var request, output := run.events[n].packet.request.value, run.Effect(n).output;
      && (request.Discover? ==> output == Output(Online, Some(ReplyAddress(run.limits, run.events[n])), None))
      && (request.Heartbeat? || request.Acknowledge? ==>
            output == Output(Silence, Some(ReplyAddress(run.limits, run.events[n])), None))
      && run.State(n + 1).acknowledged ==
         (if Idle(run.limits, run.State(n), run.events[n].now) then {} else run.State(n).acknowledged)
         + (if request.Acknowledge? then request.ids else {})
  {
    hide Received;
    var r, e := run.State(n), run.events[n];
    HeardControl(run.limits, r, e);
    AnsweredOther(run.limits, r, e);
  }

  lemma AnsweredOther(l: Limits, r: ReceiverState, e: Event)
    requires l.Valid() && Admitted(l, r, e)
    ensures var request := e.packet.request.value;
      var (s, output) := Controlled(l, Counted(l, r, e), e.now, e.peer.value, e.packet.request);
      && (request.Discover? ==> output == Output(Online, Some(ReplyAddress(l, e)), None))
      && (request.Heartbeat? || request.Acknowledge? ==> output == Output(Silence, Some(ReplyAddress(l, e)), None))
      && s.acknowledged == (if Idle(l, r, e.now) then {} else r.acknowledged)
                           + (if request.Acknowledge? then request.ids else {})
  {
    hide Served, Describe, Cleared;
  }

  // ----- What moves the token -----

  /** An admitted request for an identity that is neither identified nor being identified. */
  predicate AsksAnew(l: Limits, r: ReceiverState, e: Event) {
    && Admitted(l, r, e) && e.packet.request.value.Identify?
    && r.identified != Some(e.packet.request.value.identity)
    && !(r.pending.Some? && r.pending.value.identity == e.packet.request.value.identity)
  }

  lemma ReceivedMovesToken(l: Limits, r: ReceiverState, e: Event)
    requires l.Valid()
    requires Consistent(r) && e.Receive?
    ensures Received(l, r, e.now, e.fedAt, e.peer, e.packet).0.token > r.token
            <==> Idle(l, r, e.now) || Late(l, r, e.now) || AsksAnew(l, r, e)
  {
    hide Fed, Served, Cleared, Describe;
  }

  /** The token grows on a clearing, on either expiry, and when an identity is asked for anew, and never otherwise. */
  lemma TokenGrowsExactly(run: Run, n: nat)
    requires run.limits.Valid()
    requires n < |run.events|
    ensures var r, e := run.State(n), run.events[n];
      run.State(n + 1).token > r.token
      <==> e == Clear || Idle(run.limits, r, e.now) || Late(run.limits, r, e.now) || AsksAnew(run.limits, r, e)
  {
    hide Received;
    AlwaysConsistent(run, n);
    if run.events[n].Receive? { ReceivedMovesToken(run.limits, run.State(n), run.events[n]); }
  }

  // ----- The lease -----

  /** Who holds the lease after a call, and since when it counts. */
  lemma LeaseMoves(run: Run, n: nat)
    requires run.limits.Valid()
    requires n < |run.events|
    ensures var r, s, e := run.State(n), run.State(n + 1), run.events[n];
      if Admitted(run.limits, r, e) then
        s.owner == Some(e.peer.value.address) && s.lastActivity == Some(e.now)
        && s.destination == Some(ReplyAddress(run.limits, e))
      else if e == Clear || Idle(run.limits, r, e.now) then s.owner.None? && s.lastActivity.None?
      else
        s.owner == r.owner &&
        s.lastActivity == if run.Effect(n).Sent? && run.Effect(n).output.frame.Some? then Some(e.now) else r.lastActivity
  {
    hide Received;
    AlwaysConsistent(run, n);
    if run.events[n].Receive? { ReceivedMovesLease(run.limits, run.State(n), run.events[n]); }
  }

  lemma ReceivedMovesLease(l: Limits, r: ReceiverState, e: Event)
    requires l.Valid() && Consistent(r) && e.Receive?
    ensures var (s, output) := Received(l, r, e.now, e.fedAt, e.peer, e.packet);
      if Admitted(l, r, e) then
        s.owner == Some(e.peer.value.address) && s.lastActivity == Some(e.now) && s.destination == Some(ReplyAddress(l, e))
      else if Idle(l, r, e.now) then s.owner.None? && s.lastActivity.None?
      else s.owner == r.owner && s.lastActivity == if output.frame.Some? then Some(e.now) else r.lastActivity
  {
    hide Fed, Answered, Received;
    if !Heard(l, r, e) { Unheard(l, r, e); }
    else if e.packet.Telemetry? { HeardTelemetry(l, r, e); }
    else {
      HeardControl(l, r, e);
      if Admitted(l, r, e) { AnsweringKeepsLease(Opened(l, r, e), e); }
    }
  }

  /** The lease as an admitted request leaves it to be answered. */
  function Opened(l: Limits, r: ReceiverState, e: Event): ReceiverState
    requires e.Receive? && e.peer.Some? && e.packet.Control? && e.packet.request.Some?
  {
    var d := Counted(l, r, e);
    d.(traffic := d.traffic.(requests := d.traffic.requests + 1), owner := Some(e.peer.value.address),
       lastActivity := Some(e.now), destination := Some(ReplyAddress(l, e)))
  }

  lemma AnsweringKeepsLease(o: ReceiverState, e: Event)
    requires e.Receive? && e.packet.Control? && e.packet.request.Some?
    ensures var s := Answered(o, e.now, e.packet.request.value).0;
      s.owner == o.owner && s.lastActivity == o.lastActivity && s.destination == o.destination && s.traffic == o.traffic
  {
    hide Served, Describe, Cleared;
  }

  // ----- The transfer -----

  lemma FetchedNow(l: Limits, r: ReceiverState, e: Event)
    requires l.Valid() && Consistent(r) && Admitted(l, r, e) && e.packet.request.value.Fetch?
    ensures var request := e.packet.request.value;
      var (s, output) := Received(l, r, e.now, e.fedAt, e.peer, e.packet);
      if r.watching.watch.Some? && r.watching.imageHash == request.imageHash && request.index < r.watching.watch.value.Chunks()
      then
        && output == Output(Chunk(request.index, r.watching.watch.value.Chunk(request.index)), Some(ReplyAddress(l, e)), None)
        && s.sent == r.sent + {request.index}
      else output == NOTHING && s.sent == r.sent
  {
    hide Watch.Chunk;
  }

  /** A verdict that installed a list for this image, and so stands for it. */
  predicate Lists(run: Run, n: nat, m: nat, identity: Identity, v: Verdict, imageHash: string)
    requires n <= |run.events|
  {
    Stands(run, n, m, identity, v) && v.Qualified? && identity.imageHash == imageHash
  }

  lemma ListIsInstalled(run: Run, n: nat, m: nat, identity: Identity, v: Verdict, imageHash: string)
    requires n <= |run.events| && Lists(run, n, m, identity, v, imageHash)
    ensures var w := run.State(n).watching; w.watch.Some? && w.watch == v.watch && w.imageHash == imageHash
  {
    hide Stands;
    StandingIsSaid(run, n, m, identity, v);
    AlwaysConsistent(run, n);
  }

  lemma InstalledIsListed(run: Run, n: nat) returns (m: nat, identity: Identity, v: Verdict)
    requires n <= |run.events| && run.State(n).watching.watch.Some?
    ensures Lists(run, n, m, identity, v, run.State(n).watching.imageHash) && v.watch == run.State(n).watching.watch
  {
    hide Stands;
    AlwaysConsistent(run, n);
    m := IdentifiedStands(run, n);
    identity, v := run.State(n).identified.value, run.events[m].verdict;
    StandingIsSaid(run, n, m, identity, v);
  }

  /**
   * Every admitted request for a chunk is served with the bytes of the list that stands for that image, when it
   * has that chunk; any other draws nothing.
   */
  lemma FetchIsServed(run: Run, n: nat)
    requires n < |run.events| && run.limits.Valid() && Admitted(run.limits, run.State(n), run.events[n])
    requires run.events[n].packet.request.value.Fetch?
    ensures var e := run.events[n];
      var request, output := e.packet.request.value, run.Effect(n).output;
      && (forall m, identity, v | Lists(run, n, m, identity, v, request.imageHash) ::
            && v.watch.Some?
            && output == if request.index < v.watch.value.Chunks()
                         then Output(Chunk(request.index, v.watch.value.Chunk(request.index)),
                                     Some(ReplyAddress(run.limits, e)), None)
                         else NOTHING)
      && ((forall m, identity, v :: !Lists(run, n, m, identity, v, request.imageHash)) ==> output == NOTHING)
  {
    var imageHash := run.events[n].packet.request.value.imageHash;
    hide Received, Admitted, Stands, Watch.Chunk, Watch.Chunks;
    AlwaysConsistent(run, n);
    FetchedNow(run.limits, run.State(n), run.events[n]);
    forall m, identity, v | Lists(run, n, m, identity, v, imageHash)
      ensures var w := run.State(n).watching; w.watch.Some? && w.watch == v.watch && w.imageHash == imageHash
    {
      ListIsInstalled(run, n, m, identity, v, imageHash);
    }
    if run.State(n).watching.watch.Some? && run.State(n).watching.imageHash == imageHash {
      var m, identity, v := InstalledIsListed(run, n);
    }
  }

  /** A chunk counts as sent until the next generation. */
  predicate KeepsSent(r: ReceiverState, s: ReceiverState) {
    r.watching.generation <= s.watching.generation && (r.watching.generation == s.watching.generation ==> r.sent <= s.sent)
  }

  lemma ReceivedKeepsSent(l: Limits, r: ReceiverState, now: real, fedAt: real, peer: Option<Endpoint>, packet: Packet)
    ensures KeepsSent(r, Received(l, r, now, fedAt, peer, packet).0)
  {
    hide FeedPart, Describe;
  }

  lemma ApplyKeepsSent(l: Limits, r: ReceiverState, e: Event)
    ensures KeepsSent(r, Apply(l, r, e).0)
  {
    hide Received;
    match e
    case Receive(now, fedAt, peer, packet) => ReceivedKeepsSent(l, r, now, fedAt, peer, packet);
    case _ =>
  }

  lemma {:induction false} SentStays(run: Run, m: nat, n: nat)
    requires m <= n <= |run.events|
    ensures KeepsSent(run.State(m), run.State(n))
  {
    hide Apply;
    if m < n {
      SentStays(run, m, n - 1);
      ApplyKeepsSent(run.limits, run.State(n - 1), run.events[n - 1]);
    }
  }

  lemma ChunkCounts(l: Limits, r: ReceiverState, e: Event, i: nat, data: Bytes)
    requires Apply(l, r, e).1.Sent? && Apply(l, r, e).1.output.reply == Chunk(i, data)
    ensures i in Apply(l, r, e).0.sent
  {
    hide FeedPart;
  }

  /** Exactly the chunks of the installed list that were sent to the lease, since its installation, count as sent. */
  lemma SentExactly(run: Run, n: nat, i: nat)
    requires n <= |run.events|
    ensures i in run.State(n).sent <==> ServedBefore(run, n, i, run.State(n))
  {
    hide Apply, ServedAt;
    if i in run.State(n).sent {
      SentWasServed(run, n, i);
    } else if ServedBefore(run, n, i, run.State(n)) {
      var m: nat :| m < n && ServedAt(run, m, i, run.State(n));
      ServedCounts(run, m, i, run.State(n));
      SentStays(run, m + 1, n);
    }
  }

  lemma ServedCounts(run: Run, m: nat, i: nat, r: ReceiverState)
    requires m < |run.events| && ServedAt(run, m, i, r)
    ensures i in run.State(m + 1).sent && run.State(m + 1).watching.generation == r.watching.generation
  {
    ChunkCounts(run.limits, run.State(m), run.events[m], i, r.watching.watch.value.Chunk(i));
  }

  // ----- Telemetry -----

  /**
   * What an assembler for the installed list makes of a part: its serial and count, and frames with or without
   * pointers.
   */
  function AssembledFrom(l: Limits, r: ReceiverState, p: Part, fedAt: real): Option<Bytes>
    requires r.watching.watch.Some?
  {
    var w := r.watching.watch.value;
    FeedPart(Terms(r.watching.serial, w.count, {w.directBytes, w.directBytes + 8 * w.nodes}, l.lease),
             r.watching.assembly, p, fedAt).1
  }

  predicate SixDigits(a: Assembly) { a.sequence.Some? ==> a.sequence.value < SEQUENCE_MODULUS }

  lemma FeedingKeepsDigits(c: Terms, a: Assembly, p: Part, now: real)
    requires SixDigits(a)
    ensures var (b, values) := FeedPart(c, a, p, now);
      SixDigits(b) && (values.Some? ==> b.sequence == Some(p.sequence))
  {
    hide WellShaped, TooLarge, Held;
  }

  lemma {:induction false} AlwaysSixDigits(run: Run, n: nat)
    requires n <= |run.events|
    ensures SixDigits(run.State(n).watching.assembly)
  {
    hide Apply;
    if n > 0 {
      AlwaysSixDigits(run, n - 1);
      ApplyKeepsDigits(run.limits, run.State(n - 1), run.events[n - 1]);
    }
  }

  lemma ApplyKeepsDigits(l: Limits, r: ReceiverState, e: Event)
    requires SixDigits(r.watching.assembly)
    ensures SixDigits(Apply(l, r, e).0.watching.assembly)
  {
    hide Received;
    if e.Receive? { ReceivedKeepsDigits(l, r, e); }
  }

  lemma ReceivedKeepsDigits(l: Limits, r: ReceiverState, e: Event)
    requires e.Receive? && SixDigits(r.watching.assembly)
    ensures SixDigits(Received(l, r, e.now, e.fedAt, e.peer, e.packet).0.watching.assembly)
  {
    hide Received, FeedPart, Served, Describe;
    if !Heard(l, r, e) {
      Unheard(l, r, e);
    } else if e.packet.Telemetry? {
      HeardTelemetry(l, r, e);
      var d := Counted(l, r, e);
      if e.packet.part.Some? && d.watching.watch.Some? {
        FeedingKeepsDigits(TermsOf(d.watching.serial, d.watching.watch.value, l.lease), d.watching.assembly,
                           e.packet.part.value, e.fedAt);
      }
    } else {
      HeardControl(l, r, e);
    }
  }

  lemma TelemetryNow(l: Limits, r: ReceiverState, e: Event, p: Part)
    requires Consistent(r) && Heard(l, r, e) && e.packet == Telemetry(Some(p)) && SixDigits(r.watching.assembly)
    ensures var output := Received(l, r, e.now, e.fedAt, e.peer, e.packet).1;
      if OwnedBy(l, r, e.now, e.peer.value.address) && r.watching.watch.Some? && |r.sent| == r.watching.watch.value.Chunks()
         && AssembledFrom(l, r, p, e.fedAt).Some?
      then
        output == Output(Silence, if r.destination.Some? then r.destination else e.peer,
                         Some(Frame(AssembledFrom(l, r, p, e.fedAt).value, r.watching.generation, p.sequence)))
      else output == NOTHING
  {
    hide FeedPart, Watch.Chunks, Received;
    HeardTelemetry(l, r, e);
    if r.watching.watch.Some? {
      FeedingKeepsDigits(TermsOf(r.watching.serial, r.watching.watch.value, l.lease), r.watching.assembly, p, e.fedAt);
    }
  }

  /**
   * A part of the lease's telemetry completes a frame exactly when every chunk of the installed list was sent
   * to this lease and the assembler completes its value with it; the frame carries that value, the list's
   * generation and the part's own number.
   */
  lemma FrameComesOut(run: Run, n: nat, p: Part)
    requires n < |run.events| && Heard(run.limits, run.State(n), run.events[n])
    requires run.events[n].packet == Telemetry(Some(p))
    ensures var r, e := run.State(n), run.events[n];
      if OwnedBy(run.limits, r, e.now, e.peer.value.address) && r.watching.watch.Some? && ListServedBefore(run, n, r)
         && AssembledFrom(run.limits, r, p, e.fedAt).Some?
      then
        && run.Effect(n).output.frame
           == Some(Frame(AssembledFrom(run.limits, r, p, e.fedAt).value, r.watching.generation, p.sequence))
        && run.Effect(n).output.destination == if r.destination.Some? then r.destination else e.peer
      else run.Effect(n).output == NOTHING
  {
    hide Received, OwnedBy, ServedBefore, Watch.Chunks, AssembledFrom, SixDigits;
    AlwaysConsistent(run, n);
    AlwaysSixDigits(run, n);
    var r := run.State(n);
    TelemetryNow(run.limits, r, run.events[n], p);
    if r.watching.watch.Some? {
      RangeCardinality(r.sent, r.watching.watch.value.Chunks());
      forall i: nat | i < r.watching.watch.value.Chunks()
        ensures i in r.sent <==> ServedBefore(run, n, i, r)
      {
        SentExactly(run, n, i);
      }
    }
  }

  // ----- Jobs -----

  /** The pending job is handed out until it was, and to nobody after that. */
  predicate HandsOut(run: Run, m: nat, n: nat, job: Job)
    requires m < n <= |run.events|
  {
    run.State(n).queued == if exists k: nat :: m < k < n && run.events[k].Take? then None else Some(job)
  }

  lemma QueueStep(l: Limits, r: ReceiverState, e: Event, job: Job)
    requires Consistent(r) && r.pending == Some(job) && Apply(l, r, e).0.pending == Some(job)
    requires Apply(l, r, e).0.token == r.token
    ensures Apply(l, r, e).0.queued == if e.Take? then None else r.queued
  {
    hide Fed, Served, Describe;
  }

  lemma {:induction false} QueuedUntilTaken(run: Run, m: nat, n: nat, job: Job)
    requires m < n <= |run.events| && IssuedAt(run, m, job) && PendingFrom(run, m, n, job)
    ensures HandsOut(run, m, n, job)
  {
    hide Apply;
    if m + 1 < n {
      QueuedUntilTaken(run, m, n - 1, job);
      assert run.State(n) == Apply(run.limits, run.State(n - 1), run.events[n - 1]).0;
      AlwaysConsistent(run, n - 1);
      QueueStep(run.limits, run.State(n - 1), run.events[n - 1], job);
    }
  }

  /** A job that was issued and not interrupted is handed out by the first poll, and by no later one. */
  lemma JobIsHandedOutOnce(run: Run, m: nat, n: nat, job: Job)
    requires m < n < |run.events| && IssuedAt(run, m, job) && PendingFrom(run, m, n, job)
    requires run.events[n].Take?
    requires !Idle(run.limits, run.State(n), run.events[n].now) && !Late(run.limits, run.State(n), run.events[n].now)
    ensures run.Effect(n) == Took(if exists k: nat :: m < k < n && run.events[k].Take? then None else Some(job))
  {
    QueuedUntilTaken(run, m, n, job);
  }

  /** A result is published exactly when its job is pending and has not run out, and it can be used. */
  lemma CompletionIsDecided(run: Run, n: nat)
    requires n < |run.events| && run.events[n].Complete?
    ensures var r, e := run.State(n), run.events[n];
      run.Effect(n) == Published(
        if r.pending != Some(e.job) || Idle(run.limits, r, e.now) || Late(run.limits, r, e.now) then Ignored
        else if e.verdict.Qualified? && !(&& e.verdict.watch.Some? && !e.verdict.conflicting
                                          && e.verdict.achievements <= 10000000
                                          && ValidSerial(if e.verdict.serial != "" then e.verdict.serial
                                                         else e.job.identity.serial)) then Raised
        else Accepted)
  {
    AlwaysConsistent(run, n);
  }

  lemma PendingStep(l: Limits, r: ReceiverState, e: Event, job: Job)
    requires Consistent(r) && r.pending == Some(job) && Apply(l, r, e).0.token == r.token
    requires !(e.Complete? && Apply(l, r, e).1 == Published(Accepted))
    ensures Apply(l, r, e).0.pending == Some(job)
  {
    hide Fed, Served, Describe;
  }

  /** An issued job stays the pending one while nothing moves the token and nothing is published. */
  lemma {:induction false} IssuedStaysPending(run: Run, m: nat, n: nat, job: Job)
    requires m < n <= |run.events| && IssuedAt(run, m, job) && run.State(n).token == job.token
    requires forall k: nat | m < k < n :: run.Effect(k) != Published(Accepted)
    ensures PendingFrom(run, m, n, job)
  {
    hide Apply;
    if m + 1 < n {
      TokensGrow(run, n - 1);
      TokensGrowTo(run, m + 1, n - 1);
      IssuedStaysPending(run, m, n - 1, job);
      AlwaysConsistent(run, n - 1);
      assert run.Effect(n - 1) == Apply(run.limits, run.State(n - 1), run.events[n - 1]).1;
      PendingStep(run.limits, run.State(n - 1), run.events[n - 1], job);
    }
  }

  // ----- Rate limit -----

  /** Admitted requests among the calls from i up to n. */
  function Admissions(run: Run, i: nat, n: nat): nat
    requires i <= n <= |run.events|
  {
    if n == i then 0
    else Admissions(run, i, n - 1) + (if Admitted(run.limits, run.State(n - 1), run.events[n - 1]) then 1 else 0)
  }

  function Least(a: nat, b: nat): nat { if a < b then a else b }

  /** Admissions since call i, while the clock stays within one second of `from`: one window may end in it. */
  predicate WithinWindows(run: Run, i: nat, n: nat, from: real)
    requires i <= n <= |run.events|
  {
    var t := run.State(n).traffic;
    Admissions(run, i, n)
    <= Least(t.requests, run.limits.rate) + if t.window >= from then run.limits.rate else 0
  }

  lemma TrafficStep(l: Limits, r: ReceiverState, e: Event)
    requires l.Valid() && Consistent(r)
    ensures var t := Apply(l, r, e).0.traffic;
      if e.Receive? && e.now - r.traffic.window >= 1.0 then
        t.window == e.now && (Admitted(l, r, e) ==> t.requests >= 1)
      else
        && t.window == r.traffic.window && t.requests >= r.traffic.requests
        && (Admitted(l, r, e) ==> r.traffic.requests < l.rate && t.requests == r.traffic.requests + 1)
  {
    hide Received;
    if e.Receive? { ReceivedTraffic(l, r, e); }
  }

  lemma ReceivedTraffic(l: Limits, r: ReceiverState, e: Event)
    requires l.Valid() && Consistent(r) && e.Receive?
    ensures var t := Received(l, r, e.now, e.fedAt, e.peer, e.packet).0.traffic;
      if e.now - r.traffic.window >= 1.0 then t.window == e.now && (Admitted(l, r, e) ==> t.requests >= 1)
      else
        && t.window == r.traffic.window && t.requests >= r.traffic.requests
        && (Admitted(l, r, e) ==> r.traffic.requests < l.rate && t.requests == r.traffic.requests + 1)
  {
    hide Fed, Answered, Received;
    CountedTraffic(l, r, e.now);
    if !Heard(l, r, e) { Unheard(l, r, e); }
    else if e.packet.Telemetry? { HeardTelemetry(l, r, e); }
    else {
      HeardControl(l, r, e);
      if Admitted(l, r, e) { AnsweringKeepsLease(Opened(l, r, e), e); }
    }
  }

  lemma {:induction false} WindowsBound(run: Run, i: nat, n: nat, from: real)
    requires run.limits.Valid() && i <= n <= |run.events|
    requires forall k: nat | i <= k < n && run.events[k].Receive? :: from <= run.events[k].now < from + 1.0
    ensures WithinWindows(run, i, n, from)
  {
    hide Apply, Admitted;
    if i < n {
      WindowsBound(run, i, n - 1, from);
      AlwaysConsistent(run, n - 1);
      TrafficStep(run.limits, run.State(n - 1), run.events[n - 1]);
    }
  }

  /** Whatever a console sends, at most twice the rate of its requests are listened to within one second. */
  lemma RequestsAreLimited(run: Run, i: nat, n: nat, from: real)
    requires run.limits.Valid() && i <= n <= |run.events|
    requires forall k: nat | i <= k < n && run.events[k].Receive? :: from <= run.events[k].now < from + 1.0
    ensures Admissions(run, i, n) <= 2 * run.limits.rate
  {
    WindowsBound(run, i, n, from);
  }
}

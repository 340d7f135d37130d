/**
 * The transport-independent receiver: a one-console lease, one tokened
 * identification job, the watch-list transfer, and the telemetry gate.
 */
module Receivers {
  import opened Common
  import opened SnapshotAssembly
  import opened WatchLists
  import opened WatchSessions

  const MAX_DATAGRAMS := 256

  datatype Endpoint = Endpoint(address: nat, port: nat)

  datatype Identity = Identity(imageHash: string, serial: string)

  datatype Job = Job(token: nat, identity: Identity)

  /** A parsed base request and the reply endpoint it advertises. */
  datatype Request =
    | Discover(advertised: Endpoint)
    | Identify(advertised: Endpoint, identity: Identity)
    | Fetch(advertised: Endpoint, imageHash: string, index: nat)
    | Heartbeat(advertised: Endpoint)
    | Acknowledge(advertised: Endpoint, ids: set<int>)

  /** One datagram; None stands for text the parsers refuse. */
  datatype Packet = Telemetry(part: Option<Part>) | Control(request: Option<Request>)

  datatype Reply =
    | Silence
    | Online
    | Chunk(index: nat, data: Bytes)
    | Supported(length: nat, chunks: nat, achievements: nat, title: string)
    | Unsupported
    | Wait

  datatype Frame = Frame(values: Bytes, generation: nat, sequence: nat)

  datatype Output = Output(reply: Reply, destination: Option<Endpoint>, frame: Option<Frame>)

  const NOTHING := Output(Silence, None, None)

  /**
   * A worker's result. `Failed` is transient. `watch` is None when the file does not validate;
   * `conflicting` is a result that is also marked unsupported.
   */
  datatype Verdict =
    | Failed
    | NoSupport
    | Qualified(watch: Option<Watch>, conflicting: bool, serial: string, title: string, achievements: nat)

  datatype Outcome = Accepted | Ignored | Raised

  datatype Limits = Limits(lease: real, identify: real, rate: nat, advertisedReplies: bool)
  {
    predicate Valid() { lease > 0.0 && identify > 0.0 && rate >= 1 }
  }

  datatype Traffic = Traffic(window: real, requests: nat, datagrams: nat)

  datatype ReceiverState = ReceiverState(
    token: nat, owner: Option<nat>, destination: Option<Endpoint>, lastActivity: Option<real>,
    pending: Option<Job>, pendingSince: real, queued: Option<Job>, identified: Option<Identity>,
    unsupported: bool, title: string, achievements: nat, acknowledged: set<int>, sent: set<nat>,
    watching: Watching, traffic: Traffic)

  function Initial(now: real): ReceiverState {
    ReceiverState(1, None, None, None, None, 0.0, None, None, false, "", 0, {}, {},
                  Watching(2, "", "", None, EMPTY), Traffic(now, 0, 0))
  }

  function Revoke(r: ReceiverState): ReceiverState {
    ReceiverState(r.token + 1, None, None, None, None, 0.0, None, None, false, "", 0, {}, {},
                  Cleared(r.watching), r.traffic)
  }

  predicate LeaseOver(l: Limits, r: ReceiverState, now: real) {
    r.lastActivity.Some? && now - r.lastActivity.value >= l.lease
  }

  predicate JobOver(l: Limits, r: ReceiverState, now: real) {
    r.pending.Some? && now - r.pendingSince >= l.identify
  }

  function Expired(l: Limits, r: ReceiverState, now: real): ReceiverState {
    if LeaseOver(l, r, now) then Revoke(r)
    else if JobOver(l, r, now) then r.(token := r.token + 1, pending := None, queued := None)
    else r
  }

  function Drained(l: Limits, r: ReceiverState, now: real): (x: (ReceiverState, Option<Job>)) {
    var e := Expired(l, r, now);
    (e.(queued := None), e.queued)
  }

  predicate Usable(job: Job, v: Verdict) {
    v.Qualified? && !v.conflicting && v.watch.Some? && v.achievements <= 10000000 && ValidSerial(SerialFor(job, v))
  }

  function SerialFor(job: Job, v: Verdict): string
    requires v.Qualified?
  {
    if v.serial != "" then v.serial else job.identity.serial
  }

  /** Publishing a result: only the pending job's own result has any effect. */
  function Completed(l: Limits, r: ReceiverState, now: real, job: Job, v: Verdict): (x: (ReceiverState, Outcome)) {
    var e := Expired(l, r, now);
    if e.pending != Some(job) || job.token != e.token then (e, Ignored)
    else match v
      case Failed => (e.(pending := None, queued := None, identified := None, unsupported := false), Accepted)
      case NoSupport =>
        (e.(pending := None, queued := None, identified := Some(job.identity), unsupported := true), Accepted)
      case Qualified(watch, _, _, title, achievements) =>
        if !Usable(job, v) then (e, Raised)
        else (e.(pending := None, queued := None, identified := Some(job.identity), unsupported := false,
                 title := title, achievements := achievements,
                 watching := Installed(e.watching, job.identity.imageHash, SerialFor(job, v), watch.value)), Accepted)
  }

  function Rolled(t: Traffic, now: real): Traffic {
    if now - t.window >= 1.0 then Traffic(now, 0, 0) else t
  }

  /** A telemetry packet of the owner: nothing before this list's whole transfer. */
  function TelemetryReceived(l: Limits, r: ReceiverState, now: real, fedAt: real, source: Endpoint, part: Option<Part>)
    : (x: (ReceiverState, Output))
  {
    if r.owner.None? || r.watching.watch.None? || |r.sent| != r.watching.watch.value.Chunks() || part.None?
    then (r, NOTHING)
    else
      var (w, values) := Fed(r.watching, l.lease, part.value, fedAt);
      if values.None? then (r.(watching := w), NOTHING)
      else
        (r.(watching := w, lastActivity := Some(now)),
         Output(Silence, Some(if r.destination.Some? then r.destination.value else source),
                Some(Frame(values.value, w.generation,
                           if w.assembly.sequence.Some? then w.assembly.sequence.value else 0))))
  }

  function Describe(r: ReceiverState): Reply {
    if r.unsupported then Unsupported
    else if r.watching.watch.Some? then
      Supported(|r.watching.watch.value.data|, r.watching.watch.value.Chunks(), r.achievements, r.title)
    else Silence
  }

  /** A new identity: the old list, the old job and the record of sent chunks are all dropped. */
  function Asked(r: ReceiverState, identity: Identity, now: real): ReceiverState {
    var job := Job(r.token + 1, identity);
    r.(token := r.token + 1, watching := Cleared(r.watching), sent := {}, identified := None, unsupported := false,
       pending := Some(job), pendingSince := now, queued := Some(job))
  }

  function Answered(r: ReceiverState, now: real, request: Request): (x: (ReceiverState, Reply)) {
    match request
    case Discover(_) => (r, Online)
    case Heartbeat(_) => (r, Silence)
    case Acknowledge(_, ids) => (r.(acknowledged := r.acknowledged + ids), Silence)
    case Fetch(_, imageHash, index) =>
      var chunk := Served(r.watching, imageHash, index);
      if chunk.Some? then (r.(sent := r.sent + {index}), Chunk(index, chunk.value)) else (r, Silence)
    case Identify(_, identity) =>
      if r.identified == Some(identity) then (r, Describe(r))
      else if r.pending.Some? && r.pending.value.identity == identity then (r, Wait)
      else (Asked(r, identity, now), Wait)
  }

  function Controlled(l: Limits, r: ReceiverState, now: real, source: Endpoint, request: Option<Request>)
    : (x: (ReceiverState, Output))
  {
    var c := r.(traffic := r.traffic.(requests := r.traffic.requests + 1));
    if c.traffic.requests > l.rate || request.None? then (c, NOTHING)
    else if c.owner.None? && request.value.Fetch? then (c, NOTHING)
    else
      var destination := if l.advertisedReplies then request.value.advertised else source;
      var o := c.(owner := Some(source.address), lastActivity := Some(now), destination := Some(destination));
      var (a, reply) := Answered(o, now, request.value);
      (a, Output(reply, if reply == Silence && request.value.Fetch? then None else Some(destination), None))
  }

  /** One datagram; `fedAt` is the assembler's own later reading of the clock. */
  function Received(l: Limits, r: ReceiverState, now: real, fedAt: real, peer: Option<Endpoint>, packet: Packet)
    : (x: (ReceiverState, Output))
  {
    var e := Expired(l, r, now);
    var t := e.(traffic := Rolled(e.traffic, now));
    if peer.None? || (t.owner.Some? && peer.value.address != t.owner.value) then (t, NOTHING)
    else
      var d := t.(traffic := t.traffic.(datagrams := t.traffic.datagrams + 1));
      if d.traffic.datagrams > MAX_DATAGRAMS then (d, NOTHING)
      else match packet
        case Telemetry(part) => TelemetryReceived(l, d, now, fedAt, peer.value, part)
        case Control(request) => Controlled(l, d, now, peer.value, request)
  }

  class Receiver {
    const limits: Limits
    const session: WatchSession
    var token: nat
    var owner: Option<nat>
    var destination: Option<Endpoint>
    var lastActivity: Option<real>
    var pending: Option<Job>
    var pendingSince: real
    var queued: Option<Job>
    var identified: Option<Identity>
    var unsupported: bool
    var title: string
    var achievements: nat
    var acknowledged: set<int>
    var sentChunks: set<nat>
    var traffic: Traffic

    ghost predicate Valid()
      reads this, session, session.assembler
    {
      limits.Valid() && session.Valid() && session.timeout == limits.lease
    }

    ghost function Model(): ReceiverState
      reads this, session, session.assembler
    {
      ReceiverState(token, owner, destination, lastActivity, pending, pendingSince, queued, identified,
                    unsupported, title, achievements, acknowledged, sentChunks, session.Model(), traffic)
    }

    constructor (limits: Limits, now: real)
      requires limits.Valid()
      ensures Valid() && fresh(session) && session.assembler == null && this.limits == limits && Model() == Initial(now)
    {
      this.limits := limits;
      var s := new WatchSession(limits.lease);
      s.Clear();
      session := s;
      token, owner, destination, lastActivity := 1, None, None, None;
      pending, pendingSince, queued, identified := None, 0.0, None, None;
      unsupported, title, achievements, acknowledged, sentChunks := false, "", 0, {}, {};
      traffic := Traffic(now, 0, 0);
    }

    method DropLease()
      requires Valid()
      modifies this`token, this`owner, this`destination, this`lastActivity, this`pending, this`pendingSince, this`queued
      ensures Valid()
      ensures Model() == old(Model()).(token := old(token) + 1, owner := None, destination := None, lastActivity := None,
                                       pending := None, pendingSince := 0.0, queued := None)
    {
      hide WatchSession.Valid, WatchSession.Model;
      token, owner, destination, lastActivity := token + 1, None, None, None;
      pending, pendingSince, queued := None, 0.0, None;
    }

    method DropGame()
      requires Valid()
      modifies this`identified, this`unsupported, this`title, this`achievements, this`acknowledged, this`sentChunks
      ensures Valid()
      ensures Model() == old(Model()).(identified := None, unsupported := false, title := "", achievements := 0,
                                       acknowledged := {}, sent := {})
    {
      hide WatchSession.Valid, WatchSession.Model;
      identified, unsupported, title, achievements, acknowledged, sentChunks := None, false, "", 0, {}, {};
    }

    method Clear()
      requires Valid()
      modifies this, session
      ensures Valid() && Model() == Revoke(old(Model())) && session.assembler == null
    {
      hide WatchSession.Valid, WatchSession.Model, Cleared;
      DropLease();
      DropGame();
      session.Clear();
    }

    method Tick(now: real)
      requires Valid()
      modifies this, session, session.assembler
      ensures Valid() && Model() == Expired(limits, old(Model()), now)
      ensures session.assembler == null || session.assembler == old(session.assembler) || fresh(session.assembler)
    {
      hide WatchSession.Valid, WatchSession.Model, Revoke;
      if lastActivity.Some? && now - lastActivity.value >= limits.lease {
        Clear();
      } else if pending.Some? && now - pendingSince >= limits.identify {
        token, pending, queued := token + 1, None, None;
      }
    }

    method TakeJobs(now: real) returns (job: Option<Job>)
      requires Valid()
      modifies this, session, session.assembler
      ensures Valid() && (Model(), job) == Drained(limits, old(Model()), now)
      ensures session.assembler == null || session.assembler == old(session.assembler) || fresh(session.assembler)
    {
      Tick(now);
      job, queued := queued, None;
    }

    method Complete(now: real, job: Job, verdict: Verdict) returns (outcome: Outcome)
      requires Valid()
      modifies this, session, session.assembler
      ensures Valid()
      ensures session.assembler == null || session.assembler == old(session.assembler) || fresh(session.assembler)
      ensures (Model(), outcome) == Completed(limits, old(Model()), now, job, verdict)
    {
      hide WatchSession.Valid, WatchSession.Model, Expired, SerialFor, Installed;
      Tick(now);
      if pending != Some(job) || job.token != token { return Ignored; }
      if verdict.Qualified? {
        if !Usable(job, verdict) { return Raised; }
        Publish(job, verdict);
      }
      Retire(job, verdict);
      outcome := Accepted;
    }

    method Publish(job: Job, verdict: Verdict)
      requires Valid() && Usable(job, verdict)
      modifies this`title, this`achievements, session
      ensures Valid() && fresh(session.assembler)
      ensures Model() == old(Model()).(
        title := verdict.title, achievements := verdict.achievements,
        watching := Installed(old(Model()).watching, job.identity.imageHash, SerialFor(job, verdict), verdict.watch.value))
    {
      hide WatchSession.Valid, WatchSession.Model, SerialFor, Installed;
      session.Install(job.identity.imageHash, SerialFor(job, verdict), verdict.watch.value);
      title, achievements := verdict.title, verdict.achievements;
    }

    method Retire(job: Job, verdict: Verdict)
      requires Valid()
      modifies this`pending, this`queued, this`identified, this`unsupported
      ensures Valid()
      ensures Model() == old(Model()).(pending := None, queued := None, unsupported := verdict.NoSupport?,
                                       identified := if verdict.Failed? then None else Some(job.identity))
    {
      hide WatchSession.Valid, WatchSession.Model;
      pending, queued := None, None;
      identified := if verdict.Failed? then None else Some(job.identity);
      unsupported := verdict.NoSupport?;
    }

    method ReceiveTelemetry(now: real, fedAt: real, source: Endpoint, part: Option<Part>) returns (output: Output)
      requires Valid()
      modifies this, session, session.assembler
      ensures Valid()
      ensures session.assembler == null || session.assembler == old(session.assembler) || fresh(session.assembler)
      ensures (Model(), output) == TelemetryReceived(limits, old(Model()), now, fedAt, source, part)
    {
      output := NOTHING;
      if owner.None? || session.watch.None? || |sentChunks| != session.watch.value.Chunks() || part.None? { return; }
      var values := session.Feed(part.value, fedAt);
      if values.Some? {
        lastActivity := Some(now);
        var sequence := session.assembler.sequence;
        output := Output(Silence, Some(if destination.Some? then destination.value else source),
                         Some(Frame(values.value, session.generation,
                                    if sequence.Some? then sequence.value else 0)));
      }
    }

    /** A new identity: the old list goes, and a job with a new token is queued. */
    method Ask(identity: Identity, now: real)
      requires Valid()
      modifies this, session
      ensures Valid() && session.assembler == null && Model() == Asked(old(Model()), identity, now)
    {
      hide WatchSession.Valid, WatchSession.Model, Receiver.Valid, Receiver.Model, Cleared;
      DropList();
      QueueJob(identity, now);
    }

    method DropList()
      requires Valid()
      modifies this`sentChunks, this`identified, this`unsupported, session
      ensures Valid() && session.assembler == null
      ensures Model() == old(Model()).(watching := Cleared(old(Model()).watching), sent := {}, identified := None,
                                       unsupported := false)
    {
      hide WatchSession.Valid, WatchSession.Model, Cleared;
      session.Clear();
      sentChunks, identified, unsupported := {}, None, false;
    }

    method QueueJob(identity: Identity, now: real)
      requires Valid()
      modifies this`token, this`pending, this`pendingSince, this`queued
      ensures Valid()
      ensures var job := Job(old(Model()).token + 1, identity);
        Model() == old(Model()).(token := old(Model()).token + 1, pending := Some(job), pendingSince := now, queued := Some(job))
    {
      hide WatchSession.Valid, WatchSession.Model;
      token, pendingSince := token + 1, now;
      pending := Some(Job(token, identity));
      queued := pending;
    }

    method Answer(now: real, request: Request) returns (reply: Reply)
      requires Valid()
      modifies this, session, session.assembler
      ensures Valid()
      ensures session.assembler == null || session.assembler == old(session.assembler) || fresh(session.assembler)
      ensures (Model(), reply) == Answered(old(Model()), now, request)
    {
      hide WatchSession.Valid, Served, Asked, Terms.Valid, SnapshotAssembler.Model;
      match request
      case Discover(_) => reply := Online;
      case Heartbeat(_) => reply := Silence;
      case Acknowledge(_, ids) =>
        acknowledged := acknowledged + ids;
        reply := Silence;
      case Fetch(_, imageHash, index) =>
        var chunk := session.Serve(imageHash, index);
        reply := Silence;
        if chunk.Some? {
          sentChunks := sentChunks + {index};
          reply := Chunk(index, chunk.value);
        }
      case Identify(_, identity) =>
        if identified == Some(identity) {
          reply := if unsupported then Unsupported
                   else if session.watch.Some? then
                     Supported(|session.watch.value.data|, session.watch.value.Chunks(), achievements, title)
                   else Silence;
        } else {
          if pending.None? || pending.value.identity != identity {
            Ask(identity, now);
          }
          reply := Wait;
        }
    }

    method ReceiveControl(now: real, source: Endpoint, request: Option<Request>) returns (output: Output)
      requires Valid()
      modifies this, session, session.assembler
      ensures Valid()
      ensures session.assembler == null || session.assembler == old(session.assembler) || fresh(session.assembler)
      ensures (Model(), output) == Controlled(limits, old(Model()), now, source, request)
    {
      hide WatchSession.Valid, WatchSession.Model, Answered;
      traffic := traffic.(requests := traffic.requests + 1);
      if traffic.requests > limits.rate || request.None? { return NOTHING; }
      if owner.None? && request.value.Fetch? { return NOTHING; }
      var reachable := if limits.advertisedReplies then request.value.advertised else source;
      owner, lastActivity, destination := Some(source.address), Some(now), Some(reachable);
      var reply := Answer(now, request.value);
      output := Output(reply, if reply == Silence && request.value.Fetch? then None else Some(reachable), None);
    }

    method Receive(now: real, fedAt: real, peer: Option<Endpoint>, packet: Packet) returns (output: Output)
      requires Valid()
      modifies this, session, session.assembler
      ensures Valid()
      ensures session.assembler == null || session.assembler == old(session.assembler) || fresh(session.assembler)
      ensures (Model(), output) == Received(limits, old(Model()), now, fedAt, peer, packet)
    {
      hide WatchSession.Valid, WatchSession.Model, Expired, TelemetryReceived, Controlled;
      Tick(now);
      if now - traffic.window >= 1.0 { traffic := Traffic(now, 0, 0); }
      if peer.None? || (owner.Some? && peer.value.address != owner.value) { return NOTHING; }
      traffic := traffic.(datagrams := traffic.datagrams + 1);
      if traffic.datagrams > MAX_DATAGRAMS { return NOTHING; }
      match packet
      case Telemetry(part) => output := ReceiveTelemetry(now, fedAt, peer.value, part);
      case Control(request) => output := ReceiveControl(now, peer.value, request);
    }
  }
}

/**
 * The direct-link responder: one lease, one client MAC, a token bucket, and
 * silence towards everything else.
 */
module Responders {
  import opened Common
  import opened Subnets
  import opened DhcpPackets

  const LEASE_SECONDS: Addr := 86400
  const REPLY_BURST := 8.0
  const REPLY_RATE := 4.0
  const MAX_DISTINCT_MACS := 1

  /** What a responder is started with. */
  datatype Link = Link(server: Addr, client: Addr, prefix: Prefix, probe: Bytes, wildcard: bool)

  datatype ResponderState = ResponderState(tokens: real, stamp: real, macs: set<Bytes>, lease: Option<Bytes>)

  datatype Destination = ToClient(address: Addr) | SubnetBroadcast(address: Addr) | LimitedBroadcast

  datatype Outcome = Refused | Silent | Answer(reply: Bytes, destination: Destination)

  function Started(now: real): ResponderState { ResponderState(REPLY_BURST, now, {}, None) }

  function Refilled(s: ResponderState, now: real): real {
    var level := s.tokens + (now - s.stamp) * REPLY_RATE;
    if level < REPLY_BURST then level else REPLY_BURST
  }

  function TokenTaken(s: ResponderState, now: real): (r: (ResponderState, bool)) {
    var level := Refilled(s, now);
    (s.(tokens := if level >= 1.0 then level - 1.0 else level, stamp := now), level >= 1.0)
  }

  /** The message type, when the message has one a client may send. */
  function ClientType(r: Request): Option<Byte> {
    if TYPE_OPTION in r.options && r.options[TYPE_OPTION] != []
       && r.options[TYPE_OPTION][0] in {DISCOVER, REQUEST, DECLINE, RELEASE, INFORM}
    then Some(r.options[TYPE_OPTION][0]) else None
  }

  /** The request of a client that is not this machine's own probe. */
  function ClientRequest(c: Link, data: Bytes): Option<Request> {
    var r := ParsePacket(data);
    if r.Some? && ClientType(r.value).Some? && r.value.mac != c.probe then r else None
  }

  predicate Trips(s: ResponderState, mac: Bytes) {
    mac !in s.macs && |s.macs + {mac}| > MAX_DISTINCT_MACS
  }

  function ReplyDestination(c: Link, r: Request, source: Option<Addr>): Destination {
    if r.ciaddr != 0 && source.Some? && source.value != 0 then ToClient(source.value)
    else if c.wildcard then SubnetBroadcast(BroadcastOf(c.server, c.prefix))
    else LimitedBroadcast
  }

  function BroadcastOf(a: Addr, p: Prefix): Addr {
    HostInNetwork(Broadcast(NetworkOf(a, p), p), a, p);
    Broadcast(NetworkOf(a, p), p)
  }

  /** The address a REQUEST asks for. */
  function Requested(r: Request): Option<Bytes> {
    if REQUESTED_OPTION in r.options then Some(r.options[REQUESTED_OPTION])
    else if r.ciaddr != 0 then Some(WordBytes(r.ciaddr))
    else None
  }

  predicate ForAnotherServer(c: Link, r: Request) {
    SERVER_OPTION in r.options && r.options[SERVER_OPTION] != [] && r.options[SERVER_OPTION] != WordBytes(c.server)
  }

  predicate Acknowledges(c: Link, r: Request) {
    !ForAnotherServer(c, r) && Requested(r) == Some(WordBytes(c.client))
  }

  function Answered(c: Link, s: ResponderState, r: Request, kind: Byte, source: Option<Addr>): (ResponderState, Outcome) {
    (s.(lease := Some(r.mac)),
     Answer(BuildReply(r, kind, c.server, c.client, c.prefix, LEASE_SECONDS), ReplyDestination(c, r, source)))
  }

  function Served(c: Link, s: ResponderState, r: Request, kind: Byte, source: Option<Addr>, now: real)
    : (ResponderState, Outcome)
  {
    if kind == DECLINE then (s.(lease := None), Silent)
    else if kind == RELEASE then (if s.lease == Some(r.mac) then s.(lease := None) else s, Silent)
    else if kind == INFORM then (s, Silent)
    else
      var (t, granted) := TokenTaken(s, now);
      if !granted then (t, Silent)
      else if kind == DISCOVER then Answered(c, t, r, OFFER, source)
      else if Acknowledges(c, r) then Answered(c, t, r, ACK, source)
      else (t, Silent)
  }

  function Handled(c: Link, s: ResponderState, data: Bytes, source: Option<Addr>, now: real): (ResponderState, Outcome) {
    var r := ClientRequest(c, data);
    if r.None? then (s, Silent)
    else
      var t := s.(macs := s.macs + {r.value.mac});
      if Trips(s, r.value.mac) then (t, Refused)
      else Served(c, t, r.value, ClientType(r.value).value, source, now)
  }

  class DhcpResponder {
    const link: Link
    var tokens: real
    var tokenStamp: real
    var macsSeen: set<Bytes>
    var leaseMac: Option<Bytes>

    ghost function Model(): ResponderState
      reads this
    {
      ResponderState(tokens, tokenStamp, macsSeen, leaseMac)
    }

    constructor (link: Link, now: real)
      ensures this.link == link && Model() == Started(now)
    {
      this.link := link;
      tokens, tokenStamp, macsSeen, leaseMac := REPLY_BURST, now, {}, None;
    }

    method TakeToken(now: real) returns (granted: bool)
      modifies this`tokens, this`tokenStamp
      ensures (Model(), granted) == TokenTaken(old(Model()), now)
    {
      tokens := tokens + (now - tokenStamp) * REPLY_RATE;
      if tokens >= REPLY_BURST { tokens := REPLY_BURST; }
      tokenStamp := now;
      granted := tokens >= 1.0;
      if granted { tokens := tokens - 1.0; }
    }

    method TrackMac(mac: Bytes) returns (refused: bool)
      modifies this`macsSeen
      ensures Model() == old(Model()).(macs := old(macsSeen) + {mac}) && refused == Trips(old(Model()), mac)
    {
      refused := false;
      if mac !in macsSeen {
        macsSeen := macsSeen + {mac};
        refused := |macsSeen| > MAX_DISTINCT_MACS;
      } else {
        assert macsSeen + {mac} == macsSeen;
      }
    }

    method HandlePacket(data: Bytes, source: Option<Addr>, now: real) returns (outcome: Outcome)
      modifies this
      ensures (Model(), outcome) == Handled(link, old(Model()), data, source, now)
    {
      hide TokenTaken, BuildReply, ParsePacket, ReplyDestination, Trips;
      var parsed := Parse(data);
      if parsed.None? { return Silent; }
      var r := parsed.value;
      var kind := ClientType(r);
      if kind.None? || r.mac == link.probe { return Silent; }
      var refused := TrackMac(r.mac);
      if refused { return Refused; }
      if kind == Some(DECLINE) {
        leaseMac := None;
        return Silent;
      }
      if kind == Some(RELEASE) {
        if leaseMac == Some(r.mac) { leaseMac := None; }
        return Silent;
      }
      if kind == Some(INFORM) { return Silent; }
      var granted := TakeToken(now);
      if !granted { return Silent; }
      if kind == Some(DISCOVER) {
        leaseMac := Some(r.mac);
        return Answer(BuildReply(r, OFFER, link.server, link.client, link.prefix, LEASE_SECONDS),
                      ReplyDestination(link, r, source));
      }
      if ForAnotherServer(link, r) { return Silent; }
      if Requested(r) != Some(WordBytes(link.client)) { return Silent; }
      leaseMac := Some(r.mac);
      return Answer(BuildReply(r, ACK, link.server, link.client, link.prefix, LEASE_SECONDS),
                    ReplyDestination(link, r, source));
    }
  }

  // ----- Runs -----

  datatype Event = Event(data: Bytes, source: Option<Addr>, at: real)

  datatype Run = Run(link: Link, start: real, events: seq<Event>)
  {
    function State(n: nat): ResponderState
      requires n <= |events|
    {
      if n == 0 then Started(start)
      else Handled(link, State(n - 1), events[n - 1].data, events[n - 1].source, events[n - 1].at).0
    }

    function OutcomeOf(n: nat): Outcome
      requires n < |events|
    {
      Handled(link, State(n), events[n].data, events[n].source, events[n].at).1
    }

    /** The clock does not go back. */
    predicate Timely() {
      && (forall i | 0 <= i < |events| :: start <= events[i].at)
      && forall i, j | 0 <= i < j < |events| :: events[i].at <= events[j].at
    }

    /** Nothing was refused before; the serving loop ends at the first refusal. */
    ghost predicate Serving(n: nat)
      requires n <= |events|
    {
      forall k: nat | k < n :: OutcomeOf(k) != Refused
    }

    /** Answers to the events from i up to n. */
    function Answers(i: nat, n: nat): nat
      requires i <= n <= |events|
    {
      if n == i then 0 else Answers(i, n - 1) + (if OutcomeOf(n - 1).Answer? then 1 else 0)
    }
  }

  /** An event either leaves the bucket alone and is not answered, or takes from the refilled bucket. */
  lemma BucketStep(c: Link, s: ResponderState, e: Event)
    ensures var (t, outcome) := Handled(c, s, e.data, e.source, e.at);
      || (t.tokens == s.tokens && t.stamp == s.stamp && !outcome.Answer?)
      || (t.tokens == TokenTaken(s, e.at).0.tokens && t.stamp == e.at && (outcome.Answer? ==> TokenTaken(s, e.at).1))
  {
    hide ParsePacket, ClientType, Acknowledges, Answered, Trips;
    AnsweredKeepsBucket(c, s, e);
  }

  lemma AnsweredKeepsBucket(c: Link, s: ResponderState, e: Event)
    ensures forall t, r, kind :: Answered(c, t, r, kind, e.source).0.tokens == t.tokens
    ensures forall t, r, kind :: Answered(c, t, r, kind, e.source).0.stamp == t.stamp
  {
  }

  predicate BucketOk(s: ResponderState, start: real, now: real) {
    0.0 <= s.tokens <= REPLY_BURST && start <= s.stamp <= now
  }

  lemma TakingKeepsBucket(s: ResponderState, start: real, before: real, now: real)
    requires BucketOk(s, start, before) && before <= now
    ensures BucketOk(TokenTaken(s, now).0, start, now) && BucketOk(s, start, now)
  {
    assert (now - s.stamp) * REPLY_RATE >= 0.0;
  }

  function Moment(run: Run, n: nat): real
    requires n <= |run.events|
  {
    if n == 0 then run.start else run.events[n - 1].at
  }

  lemma {:induction false} BucketStaysOk(run: Run, n: nat)
    requires run.Timely() && n <= |run.events|
    ensures BucketOk(run.State(n), run.start, Moment(run, n))
  {
    hide Handled, TokenTaken;
    if n > 0 {
      BucketStaysOk(run, n - 1);
      BucketStep(run.link, run.State(n - 1), run.events[n - 1]);
      TakingKeepsBucket(run.State(n - 1), run.start, Moment(run, n - 1), Moment(run, n));
    }
  }

  /** Answers since event i, and what the bucket still holds, against what time has refilled. */
  predicate Budget(run: Run, i: nat, n: nat)
    requires i < n <= |run.events|
  {
    var s, from := run.State(n), run.events[i].at;
    if s.stamp < from then run.Answers(i, n) == 0
    else run.Answers(i, n) as real + s.tokens <= REPLY_BURST + REPLY_RATE * (s.stamp - from)
  }

  lemma {:induction false} BudgetKept(run: Run, i: nat, n: nat)
    requires run.Timely() && i < n <= |run.events|
    ensures Budget(run, i, n)
  {
    hide Handled;
    BucketStaysOk(run, n - 1);
    BucketStep(run.link, run.State(n - 1), run.events[n - 1]);
    if n - 1 > i {
      BudgetKept(run, i, n - 1);
      assert run.events[i].at <= run.events[n - 1].at;
    } else {
      assert run.Answers(i, i) == 0;
    }
  }

  /** Rate limit: the events of any stretch of a run draw at most 8 answers plus 4 for each second it spans. */
  lemma AnswersAreLimited(run: Run, i: nat, j: nat)
    requires run.Timely() && i <= j < |run.events|
    ensures run.Answers(i, j + 1) as real <= 8.0 + 4.0 * (run.events[j].at - run.events[i].at)
  {
    hide Run.State, Run.Answers;
    BudgetKept(run, i, j + 1);
    BucketStaysOk(run, j + 1);
    var stamp, from, to := run.State(j + 1).stamp, run.events[i].at, run.events[j].at;
    assert from <= to && stamp <= to;
    assert REPLY_RATE * (to - from) == REPLY_RATE * (stamp - from) + REPLY_RATE * (to - stamp);
  }

  // ----- Whom it answers, and with what -----

  lemma StepTracks(c: Link, s: ResponderState, e: Event)
    ensures var (t, outcome) := Handled(c, s, e.data, e.source, e.at);
      && s.macs <= t.macs
      && (outcome.Answer? ==> ClientRequest(c, e.data).Some? && ClientRequest(c, e.data).value.mac in t.macs)
      && (|s.macs| <= 1 && outcome != Refused ==> |t.macs| <= 1)
      && ((s.lease.Some? ==> s.lease.value in s.macs) ==> (t.lease.Some? ==> t.lease.value in t.macs))
  {
    hide ClientRequest, Acknowledges, BuildReply, ReplyDestination, Refilled;
    var r := ClientRequest(c, e.data);
    if r.Some? && r.value.mac in s.macs { assert s.macs + {r.value.mac} == s.macs; }
  }

  lemma {:induction false} OneMacWhileServing(run: Run, n: nat)
    requires n <= |run.events| && run.Serving(n)
    ensures |run.State(n).macs| <= 1
  {
    hide Handled;
    if n > 0 {
      OneMacWhileServing(run, n - 1);
      StepTracks(run.link, run.State(n - 1), run.events[n - 1]);
      assert run.OutcomeOf(n - 1) != Refused;
    }
  }

  lemma {:induction false} MacsGrow(run: Run, m: nat, n: nat)
    requires m <= n <= |run.events|
    ensures run.State(m).macs <= run.State(n).macs
  {
    hide Handled;
    if m < n {
      MacsGrow(run, m, n - 1);
      StepTracks(run.link, run.State(n - 1), run.events[n - 1]);
    }
  }

  lemma OnlyElement(s: set<Bytes>, a: Bytes, b: Bytes)
    requires |s| <= 1 && a in s && b in s
    ensures a == b
  {
    assert {a, b} <= s;
    assert s == {a, b} + (s - {a, b});
  }

  /** Until the first refusal every answer goes to one and the same client, and never to the own probe. */
  lemma OneClientIsAnswered(run: Run, i: nat, j: nat)
    requires i <= j < |run.events| && run.Serving(j) && run.OutcomeOf(i).Answer? && run.OutcomeOf(j).Answer?
    ensures var first, second := ParsePacket(run.events[i].data), ParsePacket(run.events[j].data);
      first.Some? && second.Some? && first.value.mac == second.value.mac != run.link.probe
  {
    hide Handled, ParsePacket, ClientType;
    assert run.Serving(j + 1);
    OneMacWhileServing(run, j + 1);
    MacsGrow(run, i + 1, j + 1);
    StepTracks(run.link, run.State(i), run.events[i]);
    StepTracks(run.link, run.State(j), run.events[j]);
    OnlyElement(run.State(j + 1).macs, ParsePacket(run.events[i].data).value.mac, ParsePacket(run.events[j].data).value.mac);
  }

  /**
   * A REQUEST that is for this server, or for none in particular, and for the leased address: the one it asks for
   * in option 50, or without that option the one it already has.
   */
  predicate WantsTheLease(c: Link, r: Request) {
    && (54 !in r.options || r.options[54] == [] || r.options[54] == WordBytes(c.server))
    && (if 50 in r.options then r.options[50] == WordBytes(c.client) else r.ciaddr != 0 && r.ciaddr == c.client)
  }

  lemma WordsDiffer(a: Addr, b: Addr)
    ensures WordBytes(a) == WordBytes(b) <==> a == b
  {
    hide WordBytes, WordOf;
    WordRoundTrip(a);
    WordRoundTrip(b);
  }

  lemma LeaseIsWanted(c: Link, r: Request)
    ensures Acknowledges(c, r) <==> WantsTheLease(c, r)
  {
    hide WordBytes;
    WordsDiffer(r.ciaddr, c.client);
  }

  /**
   * Every answer is an OFFER to a DISCOVER or an ACK to a REQUEST, addressed to the asking hardware
   * in its own transaction, and grants the one lease address; there is no NAK. A machine that listens
   * on all its adapters never answers with a limited broadcast.
   */
  lemma AnswersGrantTheLease(c: Link, s: ResponderState, e: Event)
    requires Handled(c, s, e.data, e.source, e.at).1.Answer?
    ensures var answer, asked := Handled(c, s, e.data, e.source, e.at).1, ParsePacket(e.data);
      var options := LastWins(Items(answer.reply, OPTIONS_AT));
      && asked.Some? && HasCookie(answer.reply)
      && Unpack(answer.reply).xid == asked.value.xid && Unpack(answer.reply).chaddr == asked.value.chaddr
      && Unpack(answer.reply).yiaddr == c.client
      && TYPE_OPTION in options
      && (options[TYPE_OPTION] == [OFFER] <==> ClientType(asked.value) == Some(DISCOVER))
      && (options[TYPE_OPTION] == [ACK] <==> ClientType(asked.value) == Some(REQUEST) && WantsTheLease(c, asked.value))
      && (options[TYPE_OPTION] == [OFFER] || options[TYPE_OPTION] == [ACK])
      && (answer.destination == LimitedBroadcast ==> !c.wildcard)
      && (answer.destination.SubnetBroadcast? ==>
            NetworkOf(answer.destination.address, c.prefix) == NetworkOf(c.server, c.prefix))
  {
    hide ParsePacket, BuildReply, Items, LastWins, Unpack, Acknowledges, TokenTaken, Trips, NetworkOf, BroadcastOf, WordBytes,
         WantsTheLease;
    var r := ParsePacket(e.data).value;
    LeaseIsWanted(c, r);
    ReplyIsRead(r, OFFER, c.server, c.client, c.prefix, LEASE_SECONDS);
    ReplyIsRead(r, ACK, c.server, c.client, c.prefix, LEASE_SECONDS);
    BroadcastIsInside(c.server, c.prefix);
  }

  lemma BroadcastIsInside(a: Addr, p: Prefix)
    ensures NetworkOf(BroadcastOf(a, p), p) == NetworkOf(a, p)
  {
    HostInNetwork(BroadcastOf(a, p), a, p);
  }

  /**
   * The tripwire itself is not sticky: it fires exactly on a further MAC it has not recorded, but it
   * records that MAC, so the very packet it refused is served when it is handed in again. The
   * guarantee above rests on the serving loop ending at the first refusal.
   */
  lemma RefusalIsNotRemembered(c: Link, s: ResponderState, e: Event, later: real)
    requires |s.macs| <= 1
    ensures var r := ClientRequest(c, e.data);
      var (t, outcome) := Handled(c, s, e.data, e.source, e.at);
      && (outcome == Refused <==> r.Some? && r.value.mac !in s.macs && s.macs != {})
      && Handled(c, t, e.data, e.source, later).1 != Refused
      && (outcome == Refused && ClientType(r.value) == Some(DISCOVER) && TokenTaken(s, later).1
          ==> Handled(c, t, e.data, e.source, later).1.Answer?)
  {
    hide ParsePacket, BuildReply, ReplyDestination, Acknowledges;
    var r := ClientRequest(c, e.data);
    if r.Some? && s.macs == {} { assert s.macs + {r.value.mac} == {r.value.mac}; }
  }
}

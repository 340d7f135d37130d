/**
 * What the responder must do: which packets it answers, where to, and that a client
 * which asks at a reasonable rate is never turned away.
 */
module ResponderAnswers {
  import opened Common
  import opened Subnets
  import opened DhcpPackets
  import opened Responders

  /** The first byte of option 53. */
  predicate IsKind(r: Request, kind: Byte) { 53 in r.options && r.options[53] != [] && r.options[53][0] == kind }

  /** A DHCP message that a client sends, and not this machine's own probe. */
  predicate FromClient(c: Link, r: Request) {
    r.mac != c.probe && (IsKind(r, 1) || IsKind(r, 3) || IsKind(r, 4) || IsKind(r, 7) || IsKind(r, 8))
  }

  /** The one client so far, or the first. */
  predicate IsTheClient(s: ResponderState, mac: Bytes) { mac in s.macs || s.macs == {} }

  /** A DISCOVER or a REQUEST, which takes a token whether it is answered or not. */
  predicate Asks(c: Link, s: ResponderState, e: Event) {
    var r := ParsePacket(e.data);
    r.Some? && FromClient(c, r.value) && IsTheClient(s, r.value.mac) && (IsKind(r.value, 1) || IsKind(r.value, 3))
  }

  /** One token is left, or has come in since the last was taken. */
  predicate HasToken(s: ResponderState, now: real) { s.tokens + 4.0 * (now - s.stamp) >= 1.0 }

  lemma KindIsType(r: Request)
    ensures forall kind | kind in {DISCOVER, REQUEST, DECLINE, RELEASE, INFORM} ::
      ClientType(r) == Some(kind) <==> IsKind(r, kind)
    ensures ClientType(r).Some? <==> IsKind(r, 1) || IsKind(r, 3) || IsKind(r, 4) || IsKind(r, 7) || IsKind(r, 8)
  {
  }

  lemma TripsUnlessTheClient(s: ResponderState, mac: Bytes)
    ensures Trips(s, mac) <==> !IsTheClient(s, mac)
  {
    if s.macs == {} {
      assert s.macs + {mac} == {mac};
    } else if mac !in s.macs {
      var other :| other in s.macs;
      assert |s.macs + {mac}| == |s.macs| + 1;
    }
  }

  /**
   * What is answered, exactly: a DISCOVER, or a REQUEST for the leased address that is not another server's, of
   * the one client, which is not the own probe, while there is a token. In particular a request for any
   * other address gets silence.
   */
  lemma AnsweredExactly(c: Link, s: ResponderState, e: Event)
    ensures var r := ParsePacket(e.data);
      Handled(c, s, e.data, e.source, e.at).1.Answer? <==>
        && Asks(c, s, e) && HasToken(s, e.at)
        && (IsKind(r.value, 1) || WantsTheLease(c, r.value))
  {
    hide ParsePacket, BuildReply, ReplyDestination, Trips, Acknowledges, WantsTheLease;
    var r := ParsePacket(e.data);
    if r.Some? {
      KindIsType(r.value);
      TripsUnlessTheClient(s, r.value.mac);
      LeaseIsWanted(c, r.value);
    }
  }

  /** An offer answers a DISCOVER, an acknowledgement a REQUEST; and the answer goes to the client's MAC. */
  lemma AnswerIsBuilt(c: Link, s: ResponderState, e: Event)
    requires Handled(c, s, e.data, e.source, e.at).1.Answer?
    ensures var r, answer := ParsePacket(e.data).value, Handled(c, s, e.data, e.source, e.at).1;
      && answer.reply == BuildReply(r, if IsKind(r, 1) then OFFER else ACK, c.server, c.client, c.prefix, 86400)
      && (if r.ciaddr != 0 && e.source.Some? && e.source.value != 0 then answer.destination == ToClient(e.source.value)
          else if c.wildcard then
            && answer.destination.SubnetBroadcast? && (answer.destination.address + 1) % Size(c.prefix) == 0
            && answer.destination.address - c.server < Size(c.prefix) && c.server <= answer.destination.address
          else answer.destination == LimitedBroadcast)
  {
    hide ParsePacket, BuildReply, WordBytes, Trips, BroadcastOf, Acknowledges;
    KindIsType(ParsePacket(e.data).value);
    BroadcastIsLast(c.server, c.prefix);
  }

  lemma BroadcastIsLast(a: Addr, p: Prefix)
    ensures (BroadcastOf(a, p) + 1) % Size(p) == 0 && a <= BroadcastOf(a, p) && BroadcastOf(a, p) - a < Size(p)
  {
    var net := NetworkOf(a, p);
    assert BroadcastOf(a, p) + 1 == net + Size(p);
    MultipleAndOne(net, Size(p));
  }

  lemma MultipleAndOne(n: nat, size: nat)
    requires size >= 1 && n % size == 0
    ensures (n + size) % size == 0
  {
    var k := n / size;
    assert (k + 1) * size == k * size + size;
    MultipleRemainder(k + 1, size);
  }

  /** What a packet leaves behind: the MAC of every client, the lease of whom it answered or who gave it back. */
  lemma TraceIsKept(c: Link, s: ResponderState, e: Event)
    ensures var r, (t, outcome) := ParsePacket(e.data), Handled(c, s, e.data, e.source, e.at);
      if r.None? || !FromClient(c, r.value) then t == s && outcome == Silent
      else
        && t.macs == s.macs + {r.value.mac}
        && (outcome == Refused <==> !IsTheClient(s, r.value.mac))
        && t.lease == (if outcome == Refused then s.lease
                       else if outcome.Answer? then Some(r.value.mac)
                       else if IsKind(r.value, 4) || (IsKind(r.value, 7) && s.lease == Some(r.value.mac)) then None
                       else s.lease)
  {
    hide ParsePacket, BuildReply, ReplyDestination, WordBytes, Trips, Acknowledges;
    var r := ParsePacket(e.data);
    if r.Some? {
      KindIsType(r.value);
      TripsUnlessTheClient(s, r.value.mac);
    }
  }

  // ----- A client that waits is served -----

  predicate AsksAt(run: Run, k: nat)
    requires k < |run.events|
  {
    Asks(run.link, run.State(k), run.events[k])
  }

  /** How many of the first n packets asked. */
  function Askings(run: Run, n: nat): nat
    requires n <= |run.events|
  {
    if n == 0 then 0 else Askings(run, n - 1) + if AsksAt(run, n - 1) then 1 else 0
  }

  /** The bucket as an asking packet leaves it, and any other. */
  lemma AskingTakes(c: Link, s: ResponderState, e: Event)
    ensures var t := Handled(c, s, e.data, e.source, e.at).0;
      if Asks(c, s, e) then t.tokens == TokenTaken(s, e.at).0.tokens && t.stamp == e.at
      else t.tokens == s.tokens && t.stamp == s.stamp
  {
    hide ParsePacket, BuildReply, ReplyDestination, WordBytes, Trips, Acknowledges;
    var r := ParsePacket(e.data);
    if r.Some? {
      KindIsType(r.value);
      TripsUnlessTheClient(s, r.value.mac);
    }
  }

  /** So far no more tokens were taken than packets asked, and the bucket was last filled up when one did. */
  predicate BucketSince(run: Run, n: nat)
    requires n <= |run.events|
  {
    var s := run.State(n);
    && s.tokens + Askings(run, n) as real >= 8.0
    && (Askings(run, n) > 0 ==> exists k: nat :: k < n && AsksAt(run, k) && s.stamp == run.events[k].at)
  }

  lemma {:induction false} BucketAlwaysSince(run: Run, n: nat)
    requires run.Timely() && n <= |run.events|
    ensures BucketSince(run, n)
  {
    hide Handled, AsksAt, TokenTaken;
    if n > 0 {
      BucketAlwaysSince(run, n - 1);
      BucketStaysOk(run, n - 1);
      var s, e := run.State(n - 1), run.events[n - 1];
      NextBucket(run, n - 1);
      if AsksAt(run, n - 1) {
        TakesAtMostOne(s, e.at);
      } else if Askings(run, n - 1) > 0 {
        var k: nat :| k < n - 1 && AsksAt(run, k) && s.stamp == run.events[k].at;
        assert k < n;
      }
    }
  }

  lemma NextBucket(run: Run, n: nat)
    requires n < |run.events|
    ensures var s, t := run.State(n), run.State(n + 1);
      if AsksAt(run, n) then t.tokens == TokenTaken(s, run.events[n].at).0.tokens && t.stamp == run.events[n].at
      else t.tokens == s.tokens && t.stamp == s.stamp
  {
    hide Handled, TokenTaken, Asks;
    AskingTakes(run.link, run.State(n), run.events[n]);
  }

  lemma TakesAtMostOne(s: ResponderState, now: real)
    requires s.stamp <= now && s.tokens <= 8.0
    ensures TokenTaken(s, now).0.tokens >= s.tokens - 1.0 || TokenTaken(s, now).0.tokens >= 7.0
  {
  }

  lemma WaitedEnough(s: ResponderState, now: real)
    requires s.tokens >= 0.0 && now >= s.stamp + 0.25
    ensures HasToken(s, now)
  {
  }

  /**
   * The rate limit turns nobody away who keeps it: a packet that asks finds a token when fewer than eight have
   * asked before it, and whenever none has asked in the last quarter of a second.
   */
  lemma PatientClientIsServed(run: Run, n: nat)
    requires run.Timely() && n < |run.events|
    requires Askings(run, n) < 8 || forall k: nat | k < n && AsksAt(run, k) :: run.events[k].at + 0.25 <= run.events[n].at
    ensures HasToken(run.State(n), run.events[n].at)
  {
    hide AsksAt, Run.State;
    BucketAlwaysSince(run, n);
    BucketStaysOk(run, n);
    var s, now := run.State(n), run.events[n].at;
    NotBackwards(run, n);
    if Askings(run, n) < 8 {
      assert s.tokens >= 1.0;
      assert 4.0 * (now - s.stamp) >= 0.0;
    } else {
      var k: nat :| k < n && AsksAt(run, k) && s.stamp == run.events[k].at;
      WaitedEnough(s, now);
    }
  }

  lemma NotBackwards(run: Run, n: nat)
    requires run.Timely() && n < |run.events|
    ensures Moment(run, n) <= run.events[n].at
  {
    if n > 0 { assert run.events[n - 1].at <= run.events[n].at; }
  }
}

/**
 * IPv4 prefixes of the direct link: overlap, static settings and host allocation.
 * An address is its 32-bit value; shifting by k and masking are division and
 * remainder.
 */
module Subnets {
  import opened Common

  const ADDRESSES := 0x1_0000_0000

  type Addr = a: int | 0 <= a < ADDRESSES

  type Prefix = p: int | 0 <= p <= 32

  function Power(n: nat): (r: nat)
    ensures r >= 1
  {
    if n == 0 then 1 else 2 * Power(n - 1)
  }

  /** Addresses in a network with this prefix length. */
  function Size(p: Prefix): (r: nat)
    ensures r >= 1
  {
    Power(32 - p)
  }

  function NetworkOf(a: Addr, p: Prefix): (n: Addr)
    ensures n <= a < n + Size(p) && n % Size(p) == 0
  {
    RemainderBound(a, Size(p));
    a - a % Size(p)
  }

  predicate InNetwork(a: Addr, net: Addr, p: Prefix) { a / Size(p) == net / Size(p) }

  function NetworksOverlap(net1: Addr, p1: Prefix, net2: Addr, p2: Prefix): bool {
    var p := if p1 < p2 then p1 else p2;
    p <= 0 || net1 / Size(p) == net2 / Size(p)
  }

  // ----- Prefix arithmetic -----

  lemma RemainderBound(a: nat, s: nat)
    requires s >= 1
    ensures 0 <= a % s <= a && a % s < s
    ensures (a - a % s) % s == 0 && a - a % s == a / s * s
  {
    assert a == a / s * s + a % s;
    MultipleRemainder(a / s, s);
  }

  lemma MultipleRemainder(k: nat, s: nat)
    requires s >= 1
    ensures k * s % s == 0 && k * s / s == k
  {
    QuotientOf(k * s, s, k);
  }

  lemma TimesMonotone(a: nat, b: nat, s: nat)
    requires a <= b
    ensures a * s <= b * s
  {
    assert b * s == a * s + (b - a) * s;
  }

  /** Euclidean division is determined by its inequality. */
  lemma QuotientOf(a: nat, s: nat, k: nat)
    requires s >= 1 && k * s <= a < k * s + s
    ensures a / s == k && a % s == a - k * s
  {
    var q := a / s;
    assert a == q * s + a % s;
    if q < k {
      TimesMonotone(q + 1, k, s);
    } else if q > k {
      TimesMonotone(k + 1, q, s);
    }
  }

  lemma NestedQuotient(a: nat, s: nat, k: nat)
    requires s >= 1 && k >= 1
    ensures s * k >= 1 && a / (s * k) == a / s / k
  {
    var q, t := a / s, a / s / k;
    var r, u := a % s, q % k;
    assert a == q * s + r && q == t * k + u;
    NestedSplit(a, s, k, q, t, r, u);
    QuotientOf(a, s * k, t);
  }

  lemma NestedSplit(a: nat, s: nat, k: nat, q: nat, t: nat, r: nat, u: nat)
    requires a == q * s + r && q == t * k + u && r < s && u < k
    ensures s * k >= 1 && t * (s * k) <= a < t * (s * k) + s * k
  {
    assert q * s == t * k * s + u * s;
    assert t * k * s == t * (s * k);
    TimesMonotone(u + 1, k, s);
    assert (u + 1) * s == u * s + s;
  }

  lemma {:induction false} PowerSplit(m: nat, n: nat)
    requires n <= m
    ensures Power(m) == Power(n) * Power(m - n)
  {
    if n > 0 {
      PowerSplit(m - 1, n - 1);
      assert Power(m) == 2 * (Power(n - 1) * Power(m - n));
    }
  }

  /** Sharing a longer prefix implies sharing a shorter one. */
  lemma WiderNetwork(a: Addr, b: Addr, p: Prefix, q: Prefix)
    requires p <= q && InNetwork(a, b, q)
    ensures InNetwork(a, b, p)
  {
    PowerSplit(32 - p, 32 - q);
    NestedQuotient(a, Size(q), Power(q - p));
    NestedQuotient(b, Size(q), Power(q - p));
  }

  lemma WholeSpace(a: Addr)
    ensures a / Size(0) == 0
  {
    assert Size(0) == ADDRESSES by { PowerOfWord(); }
    QuotientOf(a, ADDRESSES, 0);
  }

  lemma PowerOfWord()
    ensures Power(32) == ADDRESSES && Power(8) == 256
  {
    assert Power(8) == 256;
    PowerSplit(16, 8);
    PowerSplit(32, 16);
  }

  /** The one-shift test is exact: two prefixes overlap precisely when they share an address. */
  lemma OverlapMeansSharedAddress(net1: Addr, p1: Prefix, net2: Addr, p2: Prefix)
    ensures NetworksOverlap(net1, p1, net2, p2)
            <==> exists a: Addr :: InNetwork(a, net1, p1) && InNetwork(a, net2, p2)
  {
    var p := if p1 < p2 then p1 else p2;
    WholeSpace(net1);
    WholeSpace(net2);
    if NetworksOverlap(net1, p1, net2, p2) {
      var shared: Addr := if p1 < p2 then net2 else net1;
      assert InNetwork(shared, net1, p1) && InNetwork(shared, net2, p2);
    }
    forall a: Addr | InNetwork(a, net1, p1) && InNetwork(a, net2, p2)
      ensures NetworksOverlap(net1, p1, net2, p2)
    {
      WiderNetwork(a, net1, p, p1);
      WiderNetwork(a, net2, p, p2);
    }
  }

  // ----- Choosing a subnet -----

  datatype Taken = Taken(net: Addr, prefix: Prefix)

  const LINK_PREFIX: Prefix := 24

  /** 192.168.137, 192.168.183, 192.168.73, 10.213.77 and 172.31.213, as networks. */
  const CANDIDATES: seq<Addr> := [0xC0A88900, 0xC0A8B700, 0xC0A84900, 0x0AD54D00, 0xAC1FD500]

  ghost predicate Collides(net: Addr, taken: seq<Taken>) {
    exists i, a: Addr | 0 <= i < |taken| ::
      InNetwork(a, taken[i].net, taken[i].prefix) && InNetwork(a, net, LINK_PREFIX)
  }

  method AnyOverlap(net: Addr, taken: seq<Taken>) returns (overlap: bool)
    ensures overlap <==> Collides(net, taken)
  {
    for i := 0 to |taken|
      invariant forall j, a: Addr | 0 <= j < i ::
        !(InNetwork(a, taken[j].net, taken[j].prefix) && InNetwork(a, net, LINK_PREFIX))
    {
      OverlapMeansSharedAddress(net, LINK_PREFIX, taken[i].net, taken[i].prefix);
      if NetworksOverlap(net, LINK_PREFIX, taken[i].net, taken[i].prefix) { return true; }
    }
    return false;
  }

  /** Server .1 and client .10 of the first candidate that shares no address with any taken network. */
  method ChooseSubnet(taken: seq<Taken>) returns (pair: Option<(Addr, Addr)>)
    ensures pair.None? <==> forall i | 0 <= i < |CANDIDATES| :: Collides(CANDIDATES[i], taken)
    ensures pair.Some? ==> exists i ::
      && 0 <= i < |CANDIDATES| && pair.value == (CANDIDATES[i] + 1, CANDIDATES[i] + 10)
      && !Collides(CANDIDATES[i], taken) && forall j | 0 <= j < i :: Collides(CANDIDATES[j], taken)
  {
    for i := 0 to |CANDIDATES|
      invariant forall j | 0 <= j < i :: Collides(CANDIDATES[j], taken)
    {
      var overlap := AnyOverlap(CANDIDATES[i], taken);
      if !overlap { return Some((CANDIDATES[i] + 1, CANDIDATES[i] + 10)); }
    }
    return None;
  }

  /** So neither address of a chosen pair is one the host already reaches. */
  lemma ChosenIsUntaken(net: Addr, taken: seq<Taken>, i: nat, host: Addr)
    requires !Collides(net, taken) && i < |taken| && net <= host < net + 256 && net % 256 == 0
    ensures !InNetwork(host, taken[i].net, taken[i].prefix)
  {
    PowerOfWord();
    QuotientOf(host, 256, net / 256);
    assert InNetwork(host, net, LINK_PREFIX);
  }

  // ----- Topology -----

  function Broadcast(net: Addr, p: Prefix): int { net + Size(p) - 1 }

  /** Neither the network nor the broadcast address. */
  predicate UsableHost(a: Addr, net: Addr, p: Prefix) { net < a < Broadcast(net, p) }

  predicate ValidTopology(server: Addr, client: Addr, p: Prefix) {
    && 1 <= p <= 30
    && UsableHost(server, NetworkOf(server, p), p) && UsableHost(client, NetworkOf(server, p), p)
    && client != server
  }

  lemma {:induction false} PowerBound(p: Prefix)
    requires p <= 30
    ensures Size(p) >= 4 && (Size(p) == 4 <==> p == 30) && (p <= 29 ==> Size(p) >= 8)
    decreases 30 - p
  {
    if p < 30 { PowerBound(p + 1); }
  }

  /** The numbers in a usable host range are addresses, and they are in the network. */
  lemma HostInNetwork(host: int, a: Addr, p: Prefix)
    requires NetworkOf(a, p) <= host <= Broadcast(NetworkOf(a, p), p)
    ensures 0 <= host < ADDRESSES && NetworkOf(host, p) == NetworkOf(a, p)
  {
    hide Size, Power;
    BlockFits(a, p);
    SameBlock(host, a, Size(p));
  }

  lemma BlockFits(a: Addr, p: Prefix)
    ensures NetworkOf(a, p) + Size(p) <= ADDRESSES
  {
    RemainderBound(a, Size(p));
    PowerSplit(32, 32 - p);
    PowerOfWord();
    LastBlock(a, Size(p), Power(p));
  }

  lemma SameBlock(host: int, a: nat, s: nat)
    requires s >= 1 && a - a % s <= host < a - a % s + s
    ensures host >= 0 && host - host % s == a - a % s
  {
    RemainderBound(a, s);
    QuotientOf(host, s, a / s);
  }

  lemma LastBlock(a: nat, s: nat, k: nat)
    requires s >= 1 && a < s * k
    ensures a / s * s + s <= s * k
  {
    assert a == a / s * s + a % s;
    if a / s >= k {
      TimesMonotone(k, a / s, s);
    } else {
      TimesMonotone(a / s + 1, k, s);
    }
  }

  // ----- Network masks -----

  function NetMask(p: Prefix): Addr {
    SizeFits(p);
    ADDRESSES - Size(p)
  }

  lemma SizeFits(p: Prefix)
    ensures p >= 1 ==> Size(p) < ADDRESSES
    ensures Size(p) <= ADDRESSES
  {
    PowerOfWord();
    PowerSplit(32, 32 - p);
    TimesMonotone(1, Power(p), Size(p));
    if p >= 1 { TimesMonotone(2, Power(p), Size(p)); }
  }

  lemma LastOfBlocks(s: nat, k: nat, n: nat)
    requires s >= 1 && k >= 1 && n == s * k
    ensures (n - 1) % s == s - 1
  {
    assert (k - 1) * s == n - s;
    QuotientOf(n - 1, s, k - 1);
  }

  /** The mask is what the prefix keeps of the all-ones address. */
  lemma MaskIsKept(p: Prefix)
    ensures NetMask(p) == NetworkOf(0xFFFF_FFFF, p)
  {
    hide Size, Power;
    PowerSplit(32, 32 - p);
    PowerOfWord();
    SizeIsPower(p);
    LastOfBlocks(Size(p), Power(p), ADDRESSES);
  }

  lemma SizeIsPower(p: Prefix)
    ensures Size(p) == Power(32 - p)
  {
  }

  // ----- Static settings beside the lease -----

  predicate Spare(a: int, server: Addr, lease: Addr, p: Prefix) {
    var net := NetworkOf(server, p);
    net < a < Broadcast(net, p) && a != server && a != lease
  }

  /** The first free address of the three after the lease, else the lowest free one. */
  predicate BestSpare(a: int, server: Addr, lease: Addr, p: Prefix) {
    && Spare(a, server, lease, p)
    && if lease < a <= lease + 3 then forall b | lease < b < a :: !Spare(b, server, lease, p)
       else (forall b | lease < b <= lease + 3 :: !Spare(b, server, lease, p))
            && forall b | NetworkOf(server, p) < b < a :: !Spare(b, server, lease, p)
  }

  datatype Settings = Settings(address: Addr, netmask: Addr, gateway: Addr)

  /** Address, netmask and gateway of a console without DHCP. */
  method StaticClientSettings(server: Addr, lease: Addr, p: Prefix) returns (settings: Option<Settings>)
    requires ValidTopology(server, lease, p)
    ensures settings.Some? <==> p <= 29
    ensures settings.Some? ==>
      && BestSpare(settings.value.address, server, lease, p)
      && NetworkOf(settings.value.address, p) == NetworkOf(server, p)
      && settings.value.netmask == NetworkOf(0xFFFF_FFFF, p) && settings.value.gateway == server
  {
    MaskIsKept(p);
    var net := NetworkOf(server, p);
    var broadcast := Broadcast(net, p);
    var candidate: int := lease + 1;
    for i := 0 to 3
      invariant candidate == lease + 1 + i
      invariant forall b | lease < b < candidate :: !Spare(b, server, lease, p)
    {
      if candidate > broadcast { break; }
      if Spare(candidate, server, lease, p) {
        HostInNetwork(candidate, server, p);
        PowerBound(p);
        return Some(Settings(candidate, NetMask(p), server));
      }
      candidate := candidate + 1;
    }
    assert forall b | lease < b <= lease + 3 :: !Spare(b, server, lease, p);
    var host := net + 1;
    while host < broadcast
      invariant net + 1 <= host <= broadcast
      invariant forall b | net < b < host :: !Spare(b, server, lease, p)
    {
      if Spare(host, server, lease, p) {
        HostInNetwork(host, server, p);
        PowerBound(p);
        return Some(Settings(host, NetMask(p), server));
      }
      host := host + 1;
    }
    PowerBound(p);
    assert p <= 29 ==> Spare(net + 1, server, lease, p) || Spare(net + 2, server, lease, p) || Spare(net + 3, server, lease, p);
    return None;
  }

  // ----- Host allocation -----

  function FreeFrom(host: int, end: int, avoid: set<int>): (r: Option<int>)
    ensures r.Some? ==> host <= r.value < end && r.value !in avoid && forall h | host <= h < r.value :: h in avoid
    ensures r.None? ==> forall h | host <= h < end :: h in avoid
    decreases end - host
  {
    if host >= end then None else if host !in avoid then Some(host) else FreeFrom(host + 1, end, avoid)
  }

  function FreeHost(net: Addr, p: Prefix, avoid: set<int>): (r: Option<Addr>)
    ensures r.Some? ==> UsableHost(r.value, NetworkOf(net, p), p) && r.value !in avoid
                        && NetworkOf(r.value, p) == NetworkOf(net, p)
  {
    var n := NetworkOf(net, p);
    var r := FreeFrom(n + 1, Broadcast(n, p), avoid);
    if r.Some? then
      HostInNetwork(r.value, net, p);
      Some(r.value)
    else None
  }

  /** The search over the host range, as it runs. */
  method FindFreeHost(net: Addr, p: Prefix, avoid: set<int>) returns (r: Option<Addr>)
    ensures r == FreeHost(net, p, avoid)
  {
    var n := NetworkOf(net, p);
    var host := n + 1;
    while host < Broadcast(n, p)
      invariant n + 1 <= host
      invariant FreeFrom(n + 1, Broadcast(n, p), avoid) == FreeFrom(host, Broadcast(n, p), avoid)
    {
      if host !in avoid {
        HostInNetwork(host, net, p);
        return Some(host);
      }
      host := host + 1;
    }
    return None;
  }
}

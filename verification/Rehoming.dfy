/**
 * The plan that moves this machine's address next to a device already on the
 * wire, and what repeated planning comes to.
 */
module Rehoming {
  import opened Common
  import opened Subnets

  // ----- Moving next to a neighbour -----

  datatype Plan = Plan(server: Addr, client: Addr, prefix: Prefix)

  function SetOf(neighbors: seq<Addr>): set<int> { set n: int | n in neighbors }

  /** The first neighbour outside the server's subnet. */
  function FirstOutside(server: Addr, p: Prefix, neighbors: seq<Addr>): (r: Option<Addr>)
    ensures r.Some? ==> r.value in neighbors && NetworkOf(r.value, p) != NetworkOf(server, p)
    ensures r.None? ==> forall i | 0 <= i < |neighbors| :: NetworkOf(neighbors[i], p) == NetworkOf(server, p)
  {
    if neighbors == [] then None
    else if NetworkOf(neighbors[0], p) != NetworkOf(server, p) then Some(neighbors[0])
    else FirstOutside(server, p, neighbors[1..])
  }

  /** Two free hosts of a neighbour's /24, when it has them. */
  function AdoptedPlan(neighbor: Addr, avoid: set<int>): Option<Plan> {
    var server := FreeHost(neighbor, 24, avoid);
    if server.None? then None
    else
      var client := FreeHost(neighbor, 24, avoid + {server.value});
      if client.None? then None else Some(Plan(server.value, client.value, 24))
  }

  /** A new address in the same subnet; the client keeps its address when that stays free. */
  function SteppedPlan(server: Addr, client: Addr, p: Prefix, avoid: set<int>): Option<Plan> {
    var stepped := FreeHost(server, p, avoid + {server});
    if stepped.None? then None
    else
      var kept := if client in avoid || client == stepped.value
        then FreeHost(server, p, avoid + {server, stepped.value}) else Some(client);
      if kept.None? then None else Some(Plan(stepped.value, kept.value, p))
  }

  predicate Contested(server: Addr, neighbors: seq<Addr>, present: bool) { !present || server in neighbors }

  predicate SharesSubnet(server: Addr, p: Prefix, neighbors: seq<Addr>) {
    exists i :: 0 <= i < |neighbors| && NetworkOf(neighbors[i], p) == NetworkOf(server, p)
  }

  function PlanRehome(server: Addr, client: Addr, p: Prefix, neighbors: seq<Addr>, present: bool): Option<Plan> {
    var outside := FirstOutside(server, p, neighbors);
    var adopted := if outside.Some? then AdoptedPlan(outside.value, SetOf(neighbors)) else None;
    if adopted.Some? then adopted
    else if SharesSubnet(server, p, neighbors) && Contested(server, neighbors, present)
    then SteppedPlan(server, client, p, SetOf(neighbors))
    else None
  }

  /** A plan always keeps clear of every neighbour, is a valid topology, and reaches a neighbour. */
  lemma PlanIsValid(server: Addr, client: Addr, p: Prefix, neighbors: seq<Addr>, present: bool)
    requires ValidTopology(server, client, p) && PlanRehome(server, client, p, neighbors, present).Some?
    ensures var plan := PlanRehome(server, client, p, neighbors, present).value;
      && ValidTopology(plan.server, plan.client, plan.prefix)
      && plan.server !in neighbors && plan.client !in neighbors
      && (plan.server, plan.prefix) != (server, p)
      && exists i :: 0 <= i < |neighbors| && NetworkOf(neighbors[i], plan.prefix) == NetworkOf(plan.server, plan.prefix)
  {
    hide FreeHost, NetworkOf;
    var plan := PlanRehome(server, client, p, neighbors, present).value;
    assert forall n | n in neighbors :: n in SetOf(neighbors);
    var outside := FirstOutside(server, p, neighbors);
    if outside.Some? && AdoptedPlan(outside.value, SetOf(neighbors)).Some? {
      var i :| 0 <= i < |neighbors| && neighbors[i] == outside.value;
      assert NetworkOf(neighbors[i], 24) == NetworkOf(plan.server, 24);
    }
  }

  /** The lowest usable host of the subnet that is not to be avoided. */
  predicate LowestFree(h: Addr, net: Addr, p: Prefix, avoid: set<int>) {
    && UsableHost(h, NetworkOf(net, p), p) && h !in avoid
    && forall lower | NetworkOf(net, p) < lower < h :: lower in avoid
  }

  predicate AllTaken(net: Addr, p: Prefix, avoid: set<int>) {
    forall h | NetworkOf(net, p) < h < Broadcast(NetworkOf(net, p), p) :: h in avoid
  }

  lemma FreeHostIsLowest(net: Addr, p: Prefix, avoid: set<int>)
    ensures var h := FreeHost(net, p, avoid);
      if h.Some? then LowestFree(h.value, net, p, avoid) else AllTaken(net, p, avoid)
  {
  }

  /** The /24 of this neighbour has two hosts that no neighbour uses. */
  predicate HasRoom(neighbor: Addr, neighbors: seq<Addr>) {
    var net := NetworkOf(neighbor, 24);
    exists a, b :: net < a < b < Broadcast(net, 24) && a !in neighbors && b !in neighbors
  }

  /** There is a neighbour outside the subnet, and the first one's /24 has room. */
  predicate Adoptable(server: Addr, p: Prefix, neighbors: seq<Addr>) {
    var outside := FirstOutside(server, p, neighbors);
    outside.Some? && HasRoom(outside.value, neighbors)
  }

  /** A neighbour's /24 is adopted exactly when it has room. */
  lemma RoomIsAdopted(neighbor: Addr, neighbors: seq<Addr>)
    ensures AdoptedPlan(neighbor, SetOf(neighbors)).Some? <==> HasRoom(neighbor, neighbors)
  {
    hide NetworkOf;
    var avoid := SetOf(neighbors);
    assert forall n: int :: n in avoid <==> n in neighbors;
    FreeHostIsLowest(neighbor, 24, avoid);
    var first := FreeHost(neighbor, 24, avoid);
    if first.Some? {
      FreeHostIsLowest(neighbor, 24, avoid + {first.value});
      var second := FreeHost(neighbor, 24, avoid + {first.value});
      if second.Some? { assert first.value < second.value && second.value !in neighbors; }
    }
    if HasRoom(neighbor, neighbors) {
      var net := NetworkOf(neighbor, 24);
      var a, b :| net < a < b < Broadcast(net, 24) && a !in neighbors && b !in neighbors;
      assert a !in avoid && b !in avoid;
    }
  }

  /**
   * Which move is planned: next to the first neighbour outside the subnet, at the two lowest free hosts of
   * its /24; otherwise, when our contested address shares a subnet, at the lowest free host there, keeping
   * the client where it is unless that is taken.
   */
  lemma PlanChoosesLowest(server: Addr, client: Addr, p: Prefix, neighbors: seq<Addr>, present: bool)
    requires PlanRehome(server, client, p, neighbors, present).Some?
    ensures var plan := PlanRehome(server, client, p, neighbors, present).value;
      var avoid := SetOf(neighbors);
      if Adoptable(server, p, neighbors) then
        var near := FirstOutside(server, p, neighbors).value;
        && plan.prefix == 24 && LowestFree(plan.server, near, 24, avoid)
        && LowestFree(plan.client, near, 24, avoid + {plan.server})
      else
        && SharesSubnet(server, p, neighbors) && Contested(server, neighbors, present)
        && plan.prefix == p && LowestFree(plan.server, server, p, avoid + {server})
        && (if client !in neighbors && client != plan.server then plan.client == client
            else LowestFree(plan.client, server, p, avoid + {server, plan.server}))
  {
    hide FreeHost, NetworkOf, LowestFree, AllTaken, FirstOutside, HasRoom;
    var plan := PlanRehome(server, client, p, neighbors, present).value;
    var avoid := SetOf(neighbors);
    assert client in avoid <==> client in neighbors;
    if FirstOutside(server, p, neighbors).Some? { RoomIsAdopted(FirstOutside(server, p, neighbors).value, neighbors); }
    if Adoptable(server, p, neighbors) {
      var near := FirstOutside(server, p, neighbors).value;
      FreeHostIsLowest(near, 24, avoid);
      FreeHostIsLowest(near, 24, avoid + {plan.server});
    } else {
      FreeHostIsLowest(server, p, avoid + {server});
      FreeHostIsLowest(server, p, avoid + {server, plan.server});
    }
  }

  /** Two hosts of our own subnet are free, besides the address we have. */
  predicate HasRoomHere(server: Addr, p: Prefix, neighbors: seq<Addr>) {
    var net := NetworkOf(server, p);
    exists a, b :: net < a < b < Broadcast(net, p) && a != server && b != server && a !in neighbors && b !in neighbors
  }

  lemma RoomHereIsUsed(server: Addr, client: Addr, p: Prefix, neighbors: seq<Addr>)
    requires ValidTopology(server, client, p)
    ensures SteppedPlan(server, client, p, SetOf(neighbors)).Some? <==> HasRoomHere(server, p, neighbors)
  {
    hide NetworkOf, Broadcast, FreeHost;
    var avoid, net := SetOf(neighbors), NetworkOf(server, p);
    assert forall n: int :: n in avoid <==> n in neighbors;
    FreeHostIsLowest(server, p, avoid + {server});
    var stepped := FreeHost(server, p, avoid + {server});
    if stepped.Some? {
      var first := stepped.value;
      FreeHostIsLowest(server, p, avoid + {server, first});
      var second := FreeHost(server, p, avoid + {server, first});
      if second.Some? { TwoFree(server, p, neighbors, first, second.value); }
      if client !in avoid && client != first { TwoFree(server, p, neighbors, first, client); }
    }
    if HasRoomHere(server, p, neighbors) {
      var a, b :| net < a < b < Broadcast(net, p) && a != server && b != server && a !in neighbors && b !in neighbors;
      assert a !in avoid + {server} && b !in avoid + {server};
      assert a !in avoid + {server, stepped.value} || b !in avoid + {server, stepped.value};
    }
  }

  lemma TwoFree(server: Addr, p: Prefix, neighbors: seq<Addr>, a: Addr, b: Addr)
    requires a != b && a != server && b != server && a !in neighbors && b !in neighbors
    requires UsableHost(a, NetworkOf(server, p), p) && UsableHost(b, NetworkOf(server, p), p)
    ensures HasRoomHere(server, p, neighbors)
  {
    hide NetworkOf, Broadcast;
    if a < b { assert a !in neighbors && b !in neighbors; } else { assert b !in neighbors && a !in neighbors; }
  }

  /**
   * When there is a plan, exactly: the first neighbour outside our subnet has room in its /24; or some neighbour shares
   * our subnet, our address is lost or used by a neighbour too, and the subnet has room for another pair.
   */
  lemma PlanExists(server: Addr, client: Addr, p: Prefix, neighbors: seq<Addr>, present: bool)
    requires ValidTopology(server, client, p)
    ensures PlanRehome(server, client, p, neighbors, present).Some? <==>
      || Adoptable(server, p, neighbors)
      || (&& (exists i :: 0 <= i < |neighbors| && NetworkOf(neighbors[i], p) == NetworkOf(server, p))
          && (!present || server in neighbors) && HasRoomHere(server, p, neighbors))
  {
    hide NetworkOf, FirstOutside, HasRoom, HasRoomHere, ValidTopology, AdoptedPlan, SteppedPlan;
    RoomHereIsUsed(server, client, p, neighbors);
    var outside := FirstOutside(server, p, neighbors);
    if outside.Some? { RoomIsAdopted(outside.value, neighbors); }
  }

  // ----- Planning again -----

  /** The n-th plan after this one, while its address stays on the adapter. */
  function Replanned(plan: Plan, neighbors: seq<Addr>, n: nat): Option<Plan> {
    if n == 0 then Some(plan)
    else
      var before := Replanned(plan, neighbors, n - 1);
      if before.None? then None
      else PlanRehome(before.value.server, before.value.client, before.value.prefix, neighbors, true)
  }

  lemma {:induction false} OutsideOfSameNetwork(a: Addr, b: Addr, p: Prefix, neighbors: seq<Addr>)
    requires NetworkOf(a, p) == NetworkOf(b, p)
    ensures FirstOutside(a, p, neighbors) == FirstOutside(b, p, neighbors)
  {
    if neighbors != [] { OutsideOfSameNetwork(a, b, p, neighbors[1..]); }
  }

  /** An address of ours that no neighbour uses moves exactly when a /24 outside can be adopted. */
  lemma UncontestedMovesOutside(server: Addr, client: Addr, p: Prefix, neighbors: seq<Addr>)
    requires server !in neighbors
    ensures var next := PlanRehome(server, client, p, neighbors, true);
      && (next.Some? <==> Adoptable(server, p, neighbors))
      && (next.Some? ==>
            && next.value.prefix == 24 && next.value.server !in neighbors
            && NetworkOf(next.value.server, 24) == NetworkOf(FirstOutside(server, p, neighbors).value, 24))
  {
    hide FreeHost, NetworkOf, HasRoom, FirstOutside;
    var outside := FirstOutside(server, p, neighbors);
    if outside.Some? { RoomIsAdopted(outside.value, neighbors); }
    assert forall n | n in neighbors :: n in SetOf(neighbors);
  }

  /** Somewhere in a neighbour's /24, as a plan for the first neighbour outside leaves us. */
  predicate Beside(plan: Plan, near: Addr, neighbors: seq<Addr>) {
    plan.prefix == 24 && plan.server !in neighbors && NetworkOf(plan.server, 24) == NetworkOf(near, 24)
  }

  /** From beside one neighbour the next plan leads beside the first neighbour in another /24, if that has room. */
  lemma NextBeside(plan: Plan, near: Addr, neighbors: seq<Addr>)
    requires Beside(plan, near, neighbors)
    ensures var next := PlanRehome(plan.server, plan.client, plan.prefix, neighbors, true);
      && (next.Some? <==> Adoptable(near, 24, neighbors))
      && (next.Some? ==> Beside(next.value, FirstOutside(near, 24, neighbors).value, neighbors))
  {
    hide NetworkOf, PlanRehome, HasRoom, FirstOutside;
    OutsideOfSameNetwork(plan.server, near, 24, neighbors);
    UncontestedMovesOutside(plan.server, plan.client, 24, neighbors);
  }

  lemma FirstMove(server: Addr, client: Addr, p: Prefix, neighbors: seq<Addr>, present: bool)
    requires ValidTopology(server, client, p) && PlanRehome(server, client, p, neighbors, present).Some?
    ensures var plan := PlanRehome(server, client, p, neighbors, present).value;
      && plan.server !in neighbors
      && if Adoptable(server, p, neighbors) then Beside(plan, FirstOutside(server, p, neighbors).value, neighbors)
         else plan.prefix == p && NetworkOf(plan.server, p) == NetworkOf(server, p)
  {
    hide FreeHost, NetworkOf, FirstOutside, HasRoom;
    PlanIsValid(server, client, p, neighbors, present);
    var outside := FirstOutside(server, p, neighbors);
    if outside.Some? { RoomIsAdopted(outside.value, neighbors); }
  }

  /**
   * When one move is final: exactly when it stayed in its subnet, or when the first neighbour outside the
   * adopted /24 does not exist or has no room. Nothing but the neighbours decides.
   */
  lemma MoveIsFinal(server: Addr, client: Addr, p: Prefix, neighbors: seq<Addr>, present: bool)
    requires ValidTopology(server, client, p) && PlanRehome(server, client, p, neighbors, present).Some?
    ensures var plan := PlanRehome(server, client, p, neighbors, present).value;
      PlanRehome(plan.server, plan.client, plan.prefix, neighbors, true).None?
      <==> !(Adoptable(server, p, neighbors) && Adoptable(FirstOutside(server, p, neighbors).value, 24, neighbors))
  {
    hide PlanRehome, NetworkOf, FirstOutside, HasRoom, ValidTopology;
    FirstMove(server, client, p, neighbors, present);
    var plan := PlanRehome(server, client, p, neighbors, present).value;
    if Adoptable(server, p, neighbors) {
      NextBeside(plan, FirstOutside(server, p, neighbors).value, neighbors);
    } else {
      OutsideOfSameNetwork(plan.server, server, p, neighbors);
      UncontestedMovesOutside(plan.server, plan.client, p, neighbors);
    }
  }

  /** The first neighbour, and the first one in another /24, both with room. */
  predicate Torn(neighbors: seq<Addr>) {
    && neighbors != [] && HasRoom(neighbors[0], neighbors) && Adoptable(neighbors[0], 24, neighbors)
  }

  /** Beside any neighbour of a torn list there is a next plan, and it is beside one of the two. */
  lemma TornMovesOn(plan: Plan, near: Addr, neighbors: seq<Addr>)
    requires Torn(neighbors) && Beside(plan, near, neighbors)
    ensures var next := PlanRehome(plan.server, plan.client, plan.prefix, neighbors, true);
      next.Some? && (Beside(next.value, neighbors[0], neighbors)
                     || Beside(next.value, FirstOutside(neighbors[0], 24, neighbors).value, neighbors))
  {
    hide NetworkOf, PlanRehome, HasRoom;
    NextBeside(plan, near, neighbors);
    if NetworkOf(near, 24) == NetworkOf(neighbors[0], 24) {
      OutsideOfSameNetwork(near, neighbors[0], 24, neighbors);
    } else {
      assert FirstOutside(near, 24, neighbors) == Some(neighbors[0]);
    }
  }

  lemma {:induction false} TornForever(plan: Plan, near: Addr, neighbors: seq<Addr>, n: nat)
    requires Torn(neighbors) && Beside(plan, near, neighbors)
    ensures var later := Replanned(plan, neighbors, n); later.Some? && exists m :: Beside(later.value, m, neighbors)
  {
    hide NetworkOf, PlanRehome, HasRoom, FirstOutside, Beside;
    if n == 0 {
      assert Beside(plan, near, neighbors);
    } else {
      TornForever(plan, near, neighbors, n - 1);
      var before := Replanned(plan, neighbors, n - 1).value;
      var m :| Beside(before, m, neighbors);
      TornMovesOn(before, m, neighbors);
      var later := PlanRehome(before.server, before.client, before.prefix, neighbors, true).value;
      assert Replanned(plan, neighbors, n) == Some(later);
      if !Beside(later, neighbors[0], neighbors) {
        assert Beside(later, FirstOutside(neighbors[0], 24, neighbors).value, neighbors);
      }
    }
  }

  /** A list that is not torn leaves at most one further plan. */
  lemma NotTornEnds(plan: Plan, near: Addr, neighbors: seq<Addr>)
    requires !Torn(neighbors) && Beside(plan, near, neighbors)
    ensures Replanned(plan, neighbors, 2).None?
  {
    hide NetworkOf, PlanRehome, HasRoom, Beside;
    NextBeside(plan, near, neighbors);
    var next := Replanned(plan, neighbors, 1);
    assert next == PlanRehome(plan.server, plan.client, plan.prefix, neighbors, true) by {
      assert Replanned(plan, neighbors, 0) == Some(plan);
    }
    if next.Some? {
      var second := FirstOutside(near, 24, neighbors).value;
      NextBeside(next.value, second, neighbors);
      if NetworkOf(near, 24) == NetworkOf(neighbors[0], 24) {
        OutsideOfSameNetwork(near, neighbors[0], 24, neighbors);
        assert FirstOutside(second, 24, neighbors) == Some(neighbors[0]);
      } else {
        assert second == neighbors[0];
      }
    }
  }

  /**
   * What repeated planning comes to, for any neighbours: it goes on for ever exactly when the first move
   * adopts a /24 and the list is torn between the /24 of its first neighbour and the next different one,
   * both with room; otherwise it ends within two more plans.
   */
  lemma PlanningEndsUnlessTorn(server: Addr, client: Addr, p: Prefix, neighbors: seq<Addr>, present: bool, n: nat)
    requires ValidTopology(server, client, p) && PlanRehome(server, client, p, neighbors, present).Some?
    ensures var plan := PlanRehome(server, client, p, neighbors, present).value;
      if Adoptable(server, p, neighbors) && Torn(neighbors) then Replanned(plan, neighbors, n).Some?
      else Replanned(plan, neighbors, 2).None?
  {
    hide PlanRehome, NetworkOf, FirstOutside, HasRoom, ValidTopology, Torn, Beside;
    FirstMove(server, client, p, neighbors, present);
    var plan := PlanRehome(server, client, p, neighbors, present).value;
    if Adoptable(server, p, neighbors) {
      var near := FirstOutside(server, p, neighbors).value;
      if Torn(neighbors) { TornForever(plan, near, neighbors, n); } else { NotTornEnds(plan, near, neighbors); }
    } else {
      MoveIsFinal(server, client, p, neighbors, present);
      assert Replanned(plan, neighbors, 0) == Some(plan);
      assert Replanned(plan, neighbors, 1).None?;
    }
  }

  // ----- Room -----

  lemma {:induction false} RangeTaken(low: int, high: int, avoid: set<int>)
    requires low <= high && forall h | low <= h < high :: h in avoid
    ensures |avoid| >= high - low
    decreases high - low
  {
    if low < high {
      assert |avoid - {low}| == |avoid| - 1;
      RangeTaken(low + 1, high, avoid - {low});
    }
  }

  lemma {:induction false} SetOfSize(neighbors: seq<Addr>)
    ensures |SetOf(neighbors)| <= |neighbors|
  {
    if neighbors != [] {
      SetOfSize(neighbors[1..]);
      assert SetOf(neighbors) == SetOf(neighbors[1..]) + {neighbors[0]};
    } else {
      assert SetOf(neighbors) == {};
    }
  }

  /** A /24 has 254 usable hosts, so up to 252 neighbours always leave room. */
  lemma FewLeaveRoom(neighbor: Addr, neighbors: seq<Addr>)
    requires |neighbors| <= 252
    ensures HasRoom(neighbor, neighbors)
  {
    hide NetworkOf, LowestFree;
    PowerOfWord();
    var avoid, net := SetOf(neighbors), NetworkOf(neighbor, 24);
    SetOfSize(neighbors);
    FreeHostIsLowest(neighbor, 24, avoid);
    var first := FreeHost(neighbor, 24, avoid);
    if first.None? { RangeTaken(net + 1, net + 255, avoid); }
    FreeHostIsLowest(neighbor, 24, avoid + {first.value});
    var second := FreeHost(neighbor, 24, avoid + {first.value});
    if second.None? { RangeTaken(net + 1, net + 255, avoid + {first.value}); }
    RoomIsAdopted(neighbor, neighbors);
  }

  /** So on any real wire planning never ends precisely when the neighbours are not all in one /24. */
  lemma TwoSubnetsNeverSettle(server: Addr, client: Addr, neighbors: seq<Addr>, present: bool, n: nat)
    requires ValidTopology(server, client, 24) && |neighbors| <= 252
    requires FirstOutside(server, 24, neighbors).Some?
    ensures PlanRehome(server, client, 24, neighbors, present).Some?
    ensures var plan := PlanRehome(server, client, 24, neighbors, present).value;
      if forall i, j | 0 <= i < j < |neighbors| :: NetworkOf(neighbors[i], 24) == NetworkOf(neighbors[j], 24)
      then Replanned(plan, neighbors, 1).None? else Replanned(plan, neighbors, n).Some?
  {
    hide NetworkOf, ValidTopology, HasRoom, AdoptedPlan;
    var near := FirstOutside(server, 24, neighbors).value;
    FewLeaveRoom(near, neighbors);
    RoomIsAdopted(near, neighbors);
    FewLeaveRoom(neighbors[0], neighbors);
    var other := FirstOutside(neighbors[0], 24, neighbors);
    if other.Some? { FewLeaveRoom(other.value, neighbors); }
    PlanningEndsUnlessTorn(server, client, 24, neighbors, present, n);
    MoveIsFinal(server, client, 24, neighbors, present);
    AllInOne(neighbors, near);
    assert Replanned(PlanRehome(server, client, 24, neighbors, present).value, neighbors, 0).Some?;
  }

  lemma AllInOne(neighbors: seq<Addr>, near: Addr)
    requires near in neighbors
    ensures (forall i, j | 0 <= i < j < |neighbors| :: NetworkOf(neighbors[i], 24) == NetworkOf(neighbors[j], 24))
            <==> FirstOutside(near, 24, neighbors).None?
    ensures FirstOutside(near, 24, neighbors).None? <==> FirstOutside(neighbors[0], 24, neighbors).None?
  {
    hide NetworkOf;
    var k :| 0 <= k < |neighbors| && neighbors[k] == near;
    if FirstOutside(near, 24, neighbors).Some? {
      var m :| 0 <= m < |neighbors| && neighbors[m] == FirstOutside(near, 24, neighbors).value;
      assert NetworkOf(neighbors[m], 24) != NetworkOf(neighbors[k], 24);
    }
    if FirstOutside(neighbors[0], 24, neighbors).Some? {
      var m :| 0 <= m < |neighbors| && neighbors[m] == FirstOutside(neighbors[0], 24, neighbors).value;
      assert NetworkOf(neighbors[m], 24) != NetworkOf(neighbors[0], 24);
    }
  }
}

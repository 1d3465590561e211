/** Concrete networks on which what fails in general does fail. */
module Examples {
  import opened Ipv4
  import opened Routes
  import opened Nodes
  import opened Network
  import opened CleanupLoops
  import opened Oscillation
  import opened Growth
  import opened Lans

  // ----- three in a row

  /** Three routers in a row, with the networks 10.0.0.0/24, 10.0.1.0/24 and 10.0.2.0/24 from left to right. */
  function ThreeInARow(): seq<Config> {
    [Machine("A", [Lan(0, 1), Lan(1, 1)]), Machine("B", [Lan(1, 2), Lan(2, 1)]), Machine("C", [Lan(2, 2)])]
  }

  function RowOwner(a: Addr): nat {
    if a == Lan(0, 1).ip || a == Lan(1, 1).ip then 0
    else if a == Lan(1, 2).ip || a == Lan(2, 1).ip then 1
    else 2
  }

  lemma RowOwns(r: nat, a: Addr)
    ensures Owns(ThreeInARow(), r, a) ==> r == RowOwner(a)
  {
  }

  lemma RowIsGood()
    ensures GoodNetwork(ThreeInARow())
  {
    var net := ThreeInARow();
    assert IsLan(Lan(0, 1)) && IsLan(Lan(1, 1)) && IsLan(Lan(1, 2)) && IsLan(Lan(2, 1)) && IsLan(Lan(2, 2));
    MachineIsGood("A", [Lan(0, 1), Lan(1, 1)]);
    MachineIsGood("B", [Lan(1, 2), Lan(2, 1)]);
    MachineIsGood("C", [Lan(2, 2)]);
    hide GoodRouter, Owns, Lan, IsLan;
    forall r: nat, s: nat, a | Owns(net, r, a) && Owns(net, s, a)
      ensures r == s
    {
      RowOwns(r, a);
      RowOwns(s, a);
    }
    assert "A"[0] != "B"[0] && "B"[0] != "C"[0] && "A"[0] != "C"[0];
  }

  ghost predicate OnLans(net: seq<Config>) {
    forall r, k :: 0 <= r < |net| && 0 <= k < |net[r].interfaces| ==> IsLan(net[r].interfaces[k].network)
  }

  lemma LansAreDisjoint(net: seq<Config>)
    requires OnLans(net)
    ensures SubnetsDisjoint(net)
  {
    hide IsLan;
    forall r, i, s, j, x: Addr |
      0 <= r < |net| && 0 <= i < |net[r].interfaces| && net[r].interfaces[i].network.Contains(x) &&
      0 <= s < |net| && 0 <= j < |net[s].interfaces| && net[s].interfaces[j].network.Contains(x)
      ensures net[r].interfaces[i].network.Masked() == net[s].interfaces[j].network.Masked()
    {
      var a := LanFacts(net[r].interfaces[i].network, x);
      var b := LanFacts(net[s].interfaces[j].network, x);
    }
  }

  lemma RowIsOnLans()
    ensures OnLans(ThreeInARow())
  {
    assert IsLan(Lan(0, 1)) && IsLan(Lan(1, 1)) && IsLan(Lan(1, 2)) && IsLan(Lan(2, 1)) && IsLan(Lan(2, 2));
  }

  lemma RowMasks()
    ensures var net := ThreeInARow();
      && net[0].interfaces[0].network.Masked() == Lan(0, 0) && net[0].interfaces[1].network.Masked() == Lan(1, 0)
      && net[1].interfaces[0].network.Masked() == Lan(1, 0) && net[1].interfaces[1].network.Masked() == Lan(2, 0)
      && net[2].interfaces[0].network.Masked() == Lan(2, 0)
  {
    LanBlock(0, 1, 0);
    LanBlock(1, 1, 0);
    LanBlock(1, 2, 0);
    LanBlock(2, 1, 0);
    LanBlock(2, 2, 0);
  }

  /** Seen from the network on the left, the three routers are a chain. */
  lemma RowIsChain()
    ensures Lan(0, 0).IsMasked() && Chain(ThreeInARow(), Lan(0, 0), 0, Port(1, Lan(1, 1)), 1, 2)
  {
    var net := ThreeInARow();
    LanBlock(0, 0, 0);
    RowMasks();
    hide ClearLow;
    assert net[0].interfaces[1] == Port(1, Lan(1, 1));
    assert OnSubnet(net[2], net[1].interfaces[1]);
  }

  /** In the row of three, started and left alone, loops for 10.0.0.0/24 can arise. */
  lemma {:induction false} RowLoops()
    ensures GoodNetwork(ThreeInARow()) && Initial(ThreeInARow(), StartState(ThreeInARow()))
    ensures CanLoop(ThreeInARow(), StartState(ThreeInARow()), Lan(0, 0))
  {
    var net := ThreeInARow();
    RowIsGood();
    RowIsOnLans();
    LansAreDisjoint(net);
    RowIsChain();
    StartIsInitial(net);
    hide GoodNetwork, SubnetsDisjoint, Initial, CanLoop, Chain, ThreeInARow, StartState;
    LoopsIffChain(net, StartState(net), Lan(0, 0));
  }

  /** There metrics for it can also be counted up to the largest number, and wrap below the distance. */
  lemma {:induction false} RowCountsUp()
    ensures CanGrow(ThreeInARow(), StartState(ThreeInARow()), Lan(0, 0), U32_MAX)
    ensures CanUndercut(ThreeInARow(), StartState(ThreeInARow()), Lan(0, 0))
  {
    var net, d := ThreeInARow(), Lan(0, 0);
    RowIsGood();
    RowIsChain();
    StartIsInitial(net);
    hide GoodNetwork, Initial, ThreeInARow, StartState, Lan, Attached, Hears, CanGrow, CanUndercut;
    assert OffPair(net, d, 1, 2);
    assert NextTo(net, d, 1, 0, Port(1, Lan(1, 1)));
    NeighborLeads(net, d, 1, 0, Port(1, Lan(1, 1)));
    PairIsMutual(net, d, 1, 2, 1);
    GrowsIff(net, StartState(net), d, U32_MAX);
    UndercutIff(net, StartState(net), d);
  }

  // ----- a diamond

  /** A is on 10.0.0.0/24; B and C connect it to D over 10.0.1.0/24 and 10.0.2.0/24. */
  function Diamond(): seq<Config> {
    [Machine("A", [Lan(0, 1), Lan(1, 1)]), Machine("B", [Lan(1, 2), Lan(2, 1)]),
     Machine("C", [Lan(1, 3), Lan(2, 2)]), Machine("D", [Lan(2, 3)])]
  }

  function DiamondOwner(a: Addr): nat {
    if a == Lan(0, 1).ip || a == Lan(1, 1).ip then 0
    else if a == Lan(1, 2).ip || a == Lan(2, 1).ip then 1
    else if a == Lan(1, 3).ip || a == Lan(2, 2).ip then 2
    else 3
  }

  lemma DiamondOwns(r: nat, a: Addr)
    ensures Owns(Diamond(), r, a) ==> r == DiamondOwner(a)
  {
  }

  lemma DiamondIsGood()
    ensures GoodNetwork(Diamond())
  {
    var net := Diamond();
    assert IsLan(Lan(0, 1)) && IsLan(Lan(1, 1)) && IsLan(Lan(1, 2)) && IsLan(Lan(2, 1)) && IsLan(Lan(1, 3));
    assert IsLan(Lan(2, 2)) && IsLan(Lan(2, 3));
    MachineIsGood("A", [Lan(0, 1), Lan(1, 1)]);
    MachineIsGood("B", [Lan(1, 2), Lan(2, 1)]);
    MachineIsGood("C", [Lan(1, 3), Lan(2, 2)]);
    MachineIsGood("D", [Lan(2, 3)]);
    hide GoodRouter, Owns, Lan, IsLan;
    forall r: nat, s: nat, a | Owns(net, r, a) && Owns(net, s, a)
      ensures r == s
    {
      DiamondOwns(r, a);
      DiamondOwns(s, a);
    }
    assert "A"[0] != "B"[0] && "B"[0] != "C"[0] && "A"[0] != "C"[0] && "D"[0] != "A"[0] && "D"[0] != "B"[0];
    assert "D"[0] != "C"[0];
  }

  lemma DiamondMasks()
    ensures var net := Diamond();
      && net[0].interfaces[0].network.Masked() == Lan(0, 0) && net[0].interfaces[1].network.Masked() == Lan(1, 0)
      && net[1].interfaces[0].network.Masked() == Lan(1, 0) && net[1].interfaces[1].network.Masked() == Lan(2, 0)
      && net[2].interfaces[0].network.Masked() == Lan(1, 0) && net[2].interfaces[1].network.Masked() == Lan(2, 0)
      && net[3].interfaces[0].network.Masked() == Lan(2, 0)
  {
    LanBlock(0, 1, 0);
    LanBlock(1, 1, 0);
    LanBlock(1, 2, 0);
    LanBlock(2, 1, 0);
    LanBlock(1, 3, 0);
    LanBlock(2, 2, 0);
    LanBlock(2, 3, 0);
  }

  /** B and C are next to A. */
  lemma BesideA(s: nat)
    requires s == 1 || s == 2
    ensures NextTo(Diamond(), Lan(0, 0), s, 0, Port(1, Lan(1, 1)))
  {
    var net := Diamond();
    DiamondMasks();
    hide ClearLow;
    assert net[0].interfaces[1] == Port(1, Lan(1, 1));
  }

  /** D is on the subnet of B and C, and hears no one who is on 10.0.0.0/24. */
  lemma BesideD(s: nat, h: nat)
    requires (s == 1 && h == 1) || (s == 2 && h == 2)
    ensures OnSubnetOf(Diamond(), 3, s, Port(1, Lan(2, h)))
  {
    var net := Diamond();
    DiamondMasks();
    hide ClearLow;
    assert net[s].interfaces[1] == Port(1, Lan(2, h));
  }

  lemma FarFromD()
    ensures var net, d := Diamond(), Lan(0, 0);
      && !Attached(net[3], d) && forall s: nat :: Hears(net, 3, s) ==> !Attached(net[s], d)
  {
    DiamondMasks();
    hide ClearLow;
  }

  lemma WithinOneHears(net: seq<Config>, r: nat, d: Ipv4Network)
    requires r < |net| && Within(net, r, d, 1)
    ensures Attached(net[r], d) || exists s: nat :: Hears(net, r, s) && Attached(net[s], d)
  {
    hide Hears, Attached;
    var i, p :| 0 <= i <= 1 && Walk(net, d, p, i) && p[0] == r;
    assert i == 1 ==> Hears(net, p[0], p[0 + 1]);
  }

  lemma DiamondDistance()
    ensures AtDistance(Diamond(), 3, Lan(0, 0), 2)
  {
    var net, d := Diamond(), Lan(0, 0);
    FarFromD();
    BesideA(1);
    BesideD(1, 1);
    hide Attached, Hears, Lan, OnSubnet, Diamond, NextTo, OnSubnetOf, CanLead, Within;
    assert |net| == 4 by {
      DiamondSize();
    }
    NeighborLeads(net, d, 1, 0, Port(1, Lan(1, 1)));
    HearingOn(net, 3, 1, Port(1, Lan(2, 1)));
    WithinOneMore(net, 3, 1, d, 1);
    if Within(net, 3, d, 1) {
      WithinOneHears(net, 3, d);
    }
    WithinMore(net, 3, d);
  }

  lemma DiamondSize()
    ensures |Diamond()| == 4
  {
  }

  lemma WithinMore(net: seq<Config>, r: nat, d: Ipv4Network)
    ensures Within(net, r, d, 0) ==> Within(net, r, d, 1)
  {
    hide Hears, Attached;
    if j, p :| 0 <= j <= 0 && Walk(net, d, p, j) && p[0] == r {
      assert 0 <= j <= 1;
    }
  }

  lemma HopOfD(h: nat)
    requires h < 256
    ensures NextHopFor(Lan(1, 1).ip, Lan(2, h).ip, Diamond()[3].interfaces) == Lan(2, h).ip
  {
    LanBlock(2, 3, Lan(1, 1).ip);
    hide ClearLow;
  }

  lemma DLeadsVia(s: nat, h: nat)
    requires (s == 1 && h == 1) || (s == 2 && h == 2)
    ensures CanLead(Diamond(), Lan(0, 0), 3, 2, Lan(2, h).ip)
  {
    BesideA(s);
    BesideD(s, h);
    HopOfD(h);
    DiamondDistance();
    DiamondSize();
    hide NextTo, OnSubnetOf, CanLead, AtDistance, NextHopFor, Lan, Diamond;
    NeighborLeads(Diamond(), Lan(0, 0), s, 0, Port(1, Lan(1, 1)));
    LeadsOver(Diamond(), Lan(0, 0), 3, s, Port(1, Lan(2, h)), 1, Lan(1, 1).ip);
  }

  lemma StartRun(net: seq<Config>, st: NetState)
    ensures IsRun(net, st, []) && UpdateOnly([]) && RunOf(net, st, []) == st
  {
  }

  lemma OscillatesFromStart(net: seq<Config>, st: NetState, r: nat, d: Ipv4Network, j: nat, now: nat, n: nat)
    requires GoodNetwork(net) && Initial(net, st) && d.IsMasked() && 1 <= j && AtDistance(net, r, d, j)
    requires TwoHopsLead(net, d, r, j)
    ensures CanSwing(net, st, r, d, j, now, n)
  {
    hide GoodNetwork, Initial, AtDistance, TwoHopsLead, CanSwing;
    StartRun(net, st);
    OscillatesIff(net, st, [], r, d, j, now);
  }

  lemma DiamondHasTwo()
    ensures TwoHopsLead(Diamond(), Lan(0, 0), 3, 2)
  {
    assert Lan(2, 1).ip != Lan(2, 2).ip;
    hide CanLead, Lan, Diamond, TwoHopsLead;
    DLeadsVia(1, 1);
    DLeadsVia(2, 2);
    TwoLead(Diamond(), Lan(0, 0), 3, 2, Lan(2, 1).ip, Lan(2, 2).ip);
  }

  lemma TwoLead(net: seq<Config>, d: Ipv4Network, r: nat, j: nat, hop: Addr, hop': Addr)
    requires hop != hop' && CanLead(net, d, r, j, hop) && CanLead(net, d, r, j, hop')
    ensures TwoHopsLead(net, d, r, j)
  {
    hide CanLead;
  }

  /** In the diamond D exchanges its next hop for 10.0.0.0/24, at metric 2, any number of times. */
  lemma {:induction false} DiamondOscillates(now: nat, n: nat)
    ensures GoodNetwork(Diamond()) && Initial(Diamond(), StartState(Diamond()))
    ensures CanSwing(Diamond(), StartState(Diamond()), 3, Lan(0, 0), 2, now, n)
  {
    hide GoodNetwork, Initial, Diamond, StartState, TwoHopsLead, AtDistance, CanSwing, Lan;
    DiamondIsGood();
    StartIsInitial(Diamond());
    LanBlock(0, 0, 0);
    MaskedIsMasked(Lan(0, 0));
    DiamondDistance();
    DiamondHasTwo();
    OscillatesFromStart(Diamond(), StartState(Diamond()), 3, Lan(0, 0), 2, now, n);
  }

  lemma MaskedIsMasked(n: Ipv4Network)
    requires n.Masked() == n
    ensures n.IsMasked()
  {
  }
}

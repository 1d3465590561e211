/** Small concrete networks: machines on the subnets 10.0.0.0/24, 10.0.1.0/24 and 10.0.2.0/24. */
module Lans {
  import opened Ipv4
  import opened Routes
  import opened Nodes
  import opened Interleaving
  import opened Routers
  import opened Network

  /** The address 10.0.i.h with a prefix of 24 bits. */
  function Lan(i: nat, h: nat): Ipv4Network
    requires i < 3 && h < 256
  {
    Net(0x0A00_0000 + 256 * i + h, 24)
  }

  lemma BlockStart(b: nat)
    ensures ClearLow(256 * b, 8) == 256 * b
  {
    assert ClearLow(b, 0) == b;
    assert ClearLow(2 * b, 1) == 2 * b;
    assert ClearLow(4 * b, 2) == 4 * b;
    assert ClearLow(8 * b, 3) == 8 * b;
    assert ClearLow(16 * b, 4) == 16 * b;
    assert ClearLow(32 * b, 5) == 32 * b;
    assert ClearLow(64 * b, 6) == 64 * b;
    assert ClearLow(128 * b, 7) == 128 * b;
  }

  lemma LanBlock(i: nat, h: nat, a: Addr)
    requires i < 3 && h < 256
    ensures Lan(i, h).Masked() == Lan(i, 0)
    ensures Lan(i, h).Contains(a) <==> Lan(i, 0).ip <= a < Lan(i, 0).ip + 256
  {
    BlockStart(0xA_0000 + i);
    assert Pow2(8) == 256;
    hide ClearLow, Pow2;
    ClearLowIsBlock(Lan(i, 0).ip, Lan(i, h).ip, 8);
    ContainsIsBlock(Lan(i, h), a);
  }

  ghost predicate IsLan(n: Ipv4Network) {
    exists i: nat, h: nat :: i < 3 && h < 256 && n == Lan(i, h)
  }

  lemma LanFacts(n: Ipv4Network, a: Addr) returns (i: nat)
    requires IsLan(n)
    ensures i < 3 && n.Masked() == Lan(i, 0) && n.ip != UNSPECIFIED
    ensures n.Contains(a) ==> Lan(i, 0).ip <= a < Lan(i, 0).ip + 256
  {
    var j: nat, h: nat :| j < 3 && h < 256 && n == Lan(j, h);
    LanBlock(j, h, a);
    i := j;
  }

  // ----- machines

  function Eth(k: nat): string {
    if k == 0 then "eth0" else "eth1"
  }

  function Port(k: nat, network: Ipv4Network): InterfaceInfo {
    InterfaceInfo(Eth(k), network.ip, network, 1)
  }

  function Machine(id: string, networks: seq<Ipv4Network>): Config {
    Config(id, seq(|networks|, k requires 0 <= k < |networks| => Port(k, networks[k])), networks)
  }

  lemma MachineIsGood(id: string, networks: seq<Ipv4Network>)
    requires networks != [] && forall k :: 0 <= k < |networks| ==> IsLan(networks[k])
    ensures GoodRouter(Machine(id, networks))
  {
    hide IsLan;
    var cfg := Machine(id, networks);
    assert forall k :: 0 <= k < |networks| ==> cfg.interfaces[k].network == networks[k];
    forall k | 0 <= k < |networks|
      ensures GoodInterface(cfg.interfaces[k])
    {
      var i := LanFacts(networks[k], 0);
    }
    forall k, a: Addr | 0 <= k < |cfg.interfaces| && cfg.interfaces[k].network.Contains(a)
      ensures !IsLoopback(a)
    {
      var i := LanFacts(networks[k], a);
    }
    forall n | n in cfg.local
      ensures IsOurNetwork(cfg.interfaces, n)
    {
      var k :| 0 <= k < |networks| && networks[k] == n;
      assert cfg.interfaces[k].network == n;
    }
  }

  // ----- routers just started

  ghost function StartedOver(cfg: Config, kernel: Kernel): Node {
    Node(StartTable(cfg.interfaces, cfg.local, kernel), map[], map[], 0)
  }

  ghost function Started(cfg: Config): Node {
    StartedOver(cfg, map[])
  }

  lemma StartIsFresh(cfg: Config, kernel: Kernel)
    ensures Fresh(cfg, StartedOver(cfg, kernel)) && StartedOver(cfg, kernel).table.kernel == kernel
  {
    StartIsWellFormed(cfg, kernel);
  }

  ghost function StartState(net: seq<Config>): NetState {
    NetState(seq(|net|, r requires 0 <= r < |net| => Started(net[r])), {})
  }

  /** Every network has an initial state: all routers as constructed. */
  lemma StartIsInitial(net: seq<Config>)
    ensures Initial(net, StartState(net))
  {
    forall r | 0 <= r < |net|
      ensures Fresh(net[r], Started(net[r]))
    {
      StartIsFresh(net[r], map[]);
    }
  }
}

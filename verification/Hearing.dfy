/** What a router remembers of a neighbour is what it last heard from it. */
module Hearing {
  import opened Options
  import opened Ipv4
  import opened Ipv4Text
  import opened Routes
  import opened Nodes
  import opened Invariants
  import opened Timeouts

  /** The message is not our own: it names another router and comes from none of our interfaces' addresses. */
  ghost predicate Foreign(cfg: Config, ip: IpAddr, id: string) {
    id != cfg.id && forall i :: 0 <= i < |cfg.interfaces| ==> ip != V4(cfg.interfaces[i].ip)
  }

  lemma HeardIffForeign(cfg: Config, te: Timed, id: string)
    ensures HeardFrom(cfg, te, id)
      <==> match te.event
           case Hello(hello, ip) => hello.id == id && Foreign(cfg, ip, id)
           case Update(update, ip) => update.routerId == id && Foreign(cfg, ip, id)
           case Cleanup => false
  {
  }

  /** Our own messages change nothing. */
  lemma OwnIsIgnored(cfg: Config, n: Node, te: Timed)
    requires te.event.Hello? ==> !Foreign(cfg, te.event.ip, te.event.hello.id)
    requires te.event.Update? ==> !Foreign(cfg, te.event.ip, te.event.update.routerId)
    requires !te.event.Cleanup?
    ensures Happened(cfg, n, te) == n
  {
  }

  /** Event i of the run is a hello from id, or an update from id while id is known already. */
  ghost predicate Counts(cfg: Config, n: Node, tes: seq<Timed>, i: nat, id: string) {
    && i < |tes| && HeardFrom(cfg, tes[i], id)
    && (tes[i].event.Hello? || id in Run(cfg, n, tes[..i]).neighbors)
  }

  ghost predicate LatestHeard(cfg: Config, n: Node, tes: seq<Timed>, i: nat, id: string) {
    Counts(cfg, n, tes, i, id) && forall j :: i < j < |tes| ==> !HeardFrom(cfg, tes[j], id)
  }

  predicate GreetsAs(cfg: Config, te: Timed, id: string) {
    te.event.Hello? && HeardFrom(cfg, te, id)
  }

  ghost predicate LatestHello(cfg: Config, tes: seq<Timed>, i: nat, id: string) {
    i < |tes| && GreetsAs(cfg, tes[i], id) && forall j :: i < j < |tes| ==> !GreetsAs(cfg, tes[j], id)
  }

  // ----- one event

  lemma HeardStep(cfg: Config, n: Node, te: Timed, id: string)
    requires HeardFrom(cfg, te, id) && (te.event.Hello? || id in n.neighbors)
    ensures var after := Happened(cfg, n, te).neighbors;
      && id in after && after[id].lastSeen == te.at && after[id].isAlive
      && (te.event.Hello? ==> after[id].ip == te.event.ip && after[id].interfaces == te.event.hello.interfaces)
  {
    hide Candidates, UpdatedAll, Recorded;
  }

  lemma SilentStep(cfg: Config, n: Node, te: Timed, id: string)
    requires id in n.neighbors && !HeardFrom(cfg, te, id)
    ensures var before, after := n.neighbors[id], Happened(cfg, n, te).neighbors;
      && id in after && after[id].lastSeen == before.lastSeen
      && (after[id].isAlive
          <==> if te.event.Cleanup? then te.at <= before.lastSeen + 12_000_000_000 else before.isAlive)
  {
    hide Candidates, UpdatedAll, Recorded;
  }

  lemma UngreetedStep(cfg: Config, n: Node, te: Timed, id: string)
    requires id in n.neighbors && !GreetsAs(cfg, te, id)
    ensures var before, after := n.neighbors[id], Happened(cfg, n, te).neighbors;
      id in after && after[id].ip == before.ip && after[id].interfaces == before.interfaces
  {
    hide Candidates, UpdatedAll, Recorded;
  }

  // ----- runs

  lemma LatestHeardFront(cfg: Config, n: Node, tes: seq<Timed>, i: nat, id: string)
    requires LatestHeard(cfg, n, tes, i, id) && i < |tes| - 1
    ensures LatestHeard(cfg, n, tes[..|tes| - 1], i, id) && !HeardFrom(cfg, tes[|tes| - 1], id)
  {
    assert tes[..|tes| - 1][..i] == tes[..i];
  }

  /** After the latest message that counts, its sender is known with that message's time. */
  lemma {:induction false} LastSeenIsLastHeard(cfg: Config, n: Node, tes: seq<Timed>, i: nat, id: string)
    requires LatestHeard(cfg, n, tes, i, id)
    ensures id in Run(cfg, n, tes).neighbors && Run(cfg, n, tes).neighbors[id].lastSeen == tes[i].at
  {
    hide Happened, HeardFrom;
    var front, te := tes[..|tes| - 1], tes[|tes| - 1];
    if i == |tes| - 1 {
      HeardStep(cfg, Run(cfg, n, front), te, id);
    } else {
      LatestHeardFront(cfg, n, tes, i, id);
      LastSeenIsLastHeard(cfg, n, front, i, id);
      SilentStep(cfg, Run(cfg, n, front), te, id);
    }
  }

  /** No cleanup since event i came more than twelve seconds after it. */
  ghost predicate SweptInTime(tes: seq<Timed>, i: nat) {
    i < |tes| && forall j :: i < j < |tes| && tes[j].event.Cleanup? ==> tes[j].at <= tes[i].at + 12_000_000_000
  }

  /** Whoever was last heard then is alive exactly if no cleanup since came more than twelve seconds later. */
  lemma {:induction false} AliveWhileHeard(cfg: Config, n: Node, t: nat, tes: seq<Timed>, i: nat, id: string)
    requires MonotoneFrom(t, tes) && LatestHeard(cfg, n, tes, i, id)
    ensures id in Run(cfg, n, tes).neighbors
    ensures Run(cfg, n, tes).neighbors[id].isAlive <==> SweptInTime(tes, i)
  {
    hide Happened, HeardFrom;
    LastSeenIsLastHeard(cfg, n, tes, i, id);
    var front, te := tes[..|tes| - 1], tes[|tes| - 1];
    if i == |tes| - 1 {
      HeardStep(cfg, Run(cfg, n, front), te, id);
    } else {
      LatestHeardFront(cfg, n, tes, i, id);
      LastSeenIsLastHeard(cfg, n, front, i, id);
      AliveWhileHeard(cfg, n, t, front, i, id);
      SilentStep(cfg, Run(cfg, n, front), te, id);
      SweptSnoc(t, tes, i);
    }
  }

  lemma SweptSnoc(t: nat, tes: seq<Timed>, i: nat)
    requires MonotoneFrom(t, tes) && i < |tes| - 1
    ensures var front, te := tes[..|tes| - 1], tes[|tes| - 1];
      SweptInTime(tes, i) <==> if te.event.Cleanup? then te.at <= tes[i].at + 12_000_000_000 else SweptInTime(front, i)
  {
    var front, te := tes[..|tes| - 1], tes[|tes| - 1];
    assert forall j :: 0 <= j < |front| ==> front[j] == tes[j] && tes[j].at <= te.at;
  }

  /** So a cleanup reports a neighbour exactly if that was heard more than twelve seconds ago and no
      cleanup has found it so before. */
  lemma {:induction false} ReportedIff(cfg: Config, n: Node, t: nat, tes: seq<Timed>, i: nat, id: string, now: nat)
    requires MonotoneFrom(t, tes) && LatestHeard(cfg, n, tes, i, id)
    ensures id in NewlyDead(Run(cfg, n, tes).neighbors, now)
      <==> now > tes[i].at + 12_000_000_000 && SweptInTime(tes, i)
  {
    hide HeardFrom, Run;
    LastSeenIsLastHeard(cfg, n, tes, i, id);
    AliveWhileHeard(cfg, n, t, tes, i, id);
  }

  /** Address and interfaces of a neighbour are those of its latest hello. */
  lemma {:induction false} LatestHelloIsKept(cfg: Config, n: Node, tes: seq<Timed>, i: nat, id: string)
    requires LatestHello(cfg, tes, i, id)
    ensures id in Run(cfg, n, tes).neighbors
    ensures Run(cfg, n, tes).neighbors[id].ip == tes[i].event.ip
    ensures Run(cfg, n, tes).neighbors[id].interfaces == tes[i].event.hello.interfaces
  {
    hide Happened, HeardFrom;
    var front, te := tes[..|tes| - 1], tes[|tes| - 1];
    if i == |tes| - 1 {
      HeardStep(cfg, Run(cfg, n, front), te, id);
    } else {
      LatestHelloIsKept(cfg, n, front, i, id);
      UngreetedStep(cfg, Run(cfg, n, front), te, id);
    }
  }

  /** And a cleanup that reports the neighbour removes the protocol routes via that address. */
  lemma {:induction false} RoutesViaSenderGo(cfg: Config, n: Node, tes: seq<Timed>, i: nat, id: string, now: nat,
                                             d: Ipv4Network)
    requires Orderly(cfg, n) && LatestHello(cfg, tes, i, id) && tes[i].event.ip.V4?
    requires id in NewlyDead(Run(cfg, n, tes).neighbors, now)
    requires var e := Lookup(Run(cfg, n, tes).table.routes, d);
      e.Some? && e.value.source == Protocol && e.value.nextHop == tes[i].event.ip.addr
    ensures Lookup(Cleaned(Run(cfg, n, tes), now).table.routes, d) == None
  {
    LatestHelloIsKept(cfg, n, tes, i, id);
    RunOrderly(cfg, n, tes);
    hide Run, NewlyDead, Cleaned, StateGivesUp, WellFormed, AllCovered, SoundStates, LatestHello;
    var m := Run(cfg, n, tes);
    assert HopGivesUp(m, now, tes[i].event.ip.addr);
    CleanupRemovesExactly(cfg, m, now, d);
  }

  // ----- the hello as it arrives

  /** A hello is accepted exactly if all its interface addresses are addresses; it is then recorded
      under its router's name, with each interface under its own name and at its address. */
  lemma GreetingAsSent(hello: HelloMessage)
    ensures Parsable(hello) <==> forall name :: name in hello.interfaces ==> ParseAddr(hello.interfaces[name]).Some?
    ensures Parsable(hello) ==>
      && Parsed(hello).id == hello.routerId && Parsed(hello).interfaces.Keys == hello.interfaces.Keys
      && (forall name :: name in hello.interfaces ==>
            var i := Parsed(hello).interfaces[name];
            && i.name == name && PrintAddr(i.ip) == hello.interfaces[name]
            && i.network == Net(i.ip, 32) && i.metric == 1)
  {
    forall name | name in hello.interfaces
      ensures ParseNetwork(hello.interfaces[name] + "/32").Some? <==> ParseAddr(hello.interfaces[name]).Some?
      ensures ParseAddr(hello.interfaces[name]).Some? ==>
        var a := ParseAddr(hello.interfaces[name]).value;
        ParseNetwork(hello.interfaces[name] + "/32") == Some(Net(a, 32)) && PrintAddr(a) == hello.interfaces[name]
    {
      HostText(hello.interfaces[name]);
      if ParseAddr(hello.interfaces[name]).Some? {
        AddrTextIsExact(hello.interfaces[name], ParseAddr(hello.interfaces[name]).value);
      }
    }
    hide ParseNetwork, ParseAddr, PrintAddr;
  }
}

/** From an advertised route to a candidate entry: the interface scans of src/protocol/route_manager.rs. */
module RouteManager {
  import opened Options
  import opened Ipv4
  import opened Ipv4Text
  import opened Routes
  import opened Nodes

  method ScanForNetwork(d: Ipv4Network, interfaces: seq<InterfaceInfo>) returns (found: bool)
    ensures found == IsOurNetwork(interfaces, d)
  {
    for i := 0 to |interfaces|
      invariant forall j :: 0 <= j < i ==> interfaces[j].network != d
    {
      if interfaces[i].network == d {
        return true;
      }
    }
    return false;
  }

  method FindBestInterfaceForSender(sender: Addr, interfaces: seq<InterfaceInfo>) returns (best: Option<InterfaceInfo>)
    ensures best == BestInterface(interfaces, sender)
  {
    best := None;
    var bestMetric: Metric := U32_MAX;
    ghost var at := 0;
    for i := 0 to |interfaces|
      invariant best.None? ==> bestMetric == U32_MAX
      invariant best.None? ==> forall j :: 0 <= j < i && interfaces[j].network.Contains(sender) ==>
                                 interfaces[j].metric == U32_MAX
      invariant best.Some? ==> at < i && best.value == interfaces[at] && bestMetric == interfaces[at].metric
      invariant best.Some? ==> IsBestInterface(interfaces[..i], sender, at)
    {
      if interfaces[i].network.Contains(sender) && interfaces[i].metric < bestMetric {
        best, bestMetric, at := Some(interfaces[i]), interfaces[i].metric, i;
      }
    }
    assert interfaces[..|interfaces|] == interfaces;
    if best.Some? {
      assert forall k: nat :: IsBestInterface(interfaces, sender, k) ==> k == at;
    }
  }

  method DetermineNextHop(advertised: Addr, sender: Addr, interfaces: seq<InterfaceInfo>) returns (hop: Addr)
    ensures hop == NextHopFor(advertised, sender, interfaces)
  {
    if advertised == UNSPECIFIED {
      return sender;
    }
    for i := 0 to |interfaces|
      invariant forall j :: 0 <= j < i ==> !interfaces[j].network.Contains(advertised)
    {
      if interfaces[i].network.Contains(advertised) {
        return advertised;
      }
    }
    return sender;
  }

  method ProcessSingleRoute(info: RouteInfo, from: string, sender: Addr, cfg: Config, now: nat)
    returns (r: Option<(RouteEntry, RouteState)>)
    ensures r == match Candidate(cfg, info, sender)
                 case Some(c) => Some((c, RouteState(c, now, from)))
                 case None => None
  {
    var corrected := HostToNetworkRoute(info.destination);
    if corrected.None? {
      return None;
    }
    var d := ParseNetwork(corrected.value);
    if d.None? {
      return None;
    }
    var advertised := ParseAddr(info.nextHop);
    if advertised.None? {
      return None;
    }
    var own := ScanForNetwork(d.value, cfg.interfaces);
    if own {
      return None;
    }
    var best := FindBestInterfaceForSender(sender, cfg.interfaces);
    if best.None? {
      return None;
    }
    var hop := DetermineNextHop(advertised.value, sender, cfg.interfaces);
    var c := RouteEntry(d.value, hop, best.value.name, Inc(info.metric), Protocol);
    return Some((c, RouteState(c, now, from)));
  }
}

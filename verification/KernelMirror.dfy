/** The kernel holds exactly the table's non-direct routes. Stated prefix by prefix, so
    that prefixes other software owns do not disturb the others. */
module KernelMirror {
  import opened Options
  import opened Ipv4
  import opened Routes

  function Gateway(kernel: Kernel, key: Ipv4Network): Option<Addr> {
    if key in kernel then Some(kernel[key]) else None
  }

  /** The gateway the table wants installed for key. */
  function Wanted(rs: seq<RouteEntry>, key: Ipv4Network): Option<Addr> {
    match Lookup(rs, key)
    case Some(e) => if e.source == Direct then None else Some(e.nextHop)
    case None => None
  }

  ghost predicate MirrorsAt(t: Table, key: Ipv4Network) {
    Gateway(t.kernel, key) == Wanted(t.routes, key)
  }

  /** The kernel mirrors the table on every prefix outside foreign. */
  ghost predicate Mirrors(t: Table, foreign: set<Ipv4Network>) {
    forall key :: key !in foreign ==> MirrorsAt(t, key)
  }

  predicate MaskedKey(e: RouteEntry) {
    e.source == Direct || e.destination.IsMasked()
  }

  ghost predicate MaskedKeys(rs: seq<RouteEntry>) {
    forall e :: e in rs ==> MaskedKey(e)
  }

  lemma AddedMirrorsAt(local: seq<Ipv4Network>, t: Table, r: RouteEntry, key: Ipv4Network)
    requires Distinct(t.routes) && MaskedKeys(t.routes) && MaskedKey(r)
    ensures MaskedKeys(Added(local, t, r).routes)
    ensures MirrorsAt(t, key) ==> MirrorsAt(Added(local, t, r), key)
  {
    LookupAdded(local, t, r, key);
    var i := Index(t.routes, r.destination);
    if i < |t.routes| {
      assert MaskedKey(t.routes[i]);
      LookupMember(t.routes, t.routes[i]);
    }
  }

  lemma RemovedAtMirrorsAt(t: Table, i: nat, key: Ipv4Network)
    requires Distinct(t.routes) && MaskedKeys(t.routes) && i < |t.routes|
    ensures MaskedKeys(RemovedAt(t, i).routes)
    ensures MirrorsAt(t, key) ==> MirrorsAt(RemovedAt(t, i), key)
  {
    LookupRemovedAt(t, i, key);
    LookupMember(t.routes, t.routes[i]);
  }

  /** A prefix the kernel mirrors is still mirrored after any one route is processed. */
  lemma UpdatedMirrorsAt(local: seq<Ipv4Network>, t: Table, r: RouteEntry, key: Ipv4Network)
    requires Distinct(t.routes) && MaskedKeys(t.routes) && MaskedKey(r)
    ensures MaskedKeys(Updated(local, t, r).routes)
    ensures MirrorsAt(t, key) ==> MirrorsAt(Updated(local, t, r), key)
  {
    AddedMirrorsAt(local, t, r, key);
    var i := Index(t.routes, r.destination);
    if i < |t.routes| {
      RemovedAtMirrorsAt(t, i, key);
      LookupRemovedAt(t, i, key);
      AddedMirrorsAt(local, RemovedAt(t, i), r, key);
    }
  }

  /** One route touches the kernel at its own prefix only. */
  lemma UpdatedKernelFrame(local: seq<Ipv4Network>, t: Table, r: RouteEntry, key: Ipv4Network)
    requires MaskedKeys(t.routes) && MaskedKey(r) && r.source != Direct && key != r.destination
    ensures Gateway(Updated(local, t, r).kernel, key) == Gateway(t.kernel, key)
  {
    var i := Index(t.routes, r.destination);
    if i < |t.routes| {
      assert MaskedKey(t.routes[i]);
    }
  }

  /** Mirroring, read as a set: outside foreign, the kernel's routes are exactly the
      (network, prefix, next hop) of the non-direct entries. */
  lemma MirrorIsExact(t: Table, foreign: set<Ipv4Network>, key: Ipv4Network, hop: Addr)
    requires Distinct(t.routes) && MaskedKeys(t.routes) && Mirrors(t, foreign) && key !in foreign
    ensures (key in t.kernel && t.kernel[key] == hop)
      <==> (exists e :: e in t.routes && e.source != Direct && e.destination.Masked() == key && e.nextHop == hop)
  {
    assert MirrorsAt(t, key);
    forall e | e in t.routes && e.source != Direct && e.destination.Masked() == key
      ensures Lookup(t.routes, key) == Some(e)
    {
      LookupMember(t.routes, e);
    }
    if Wanted(t.routes, key) == Some(hop) {
      var e := Lookup(t.routes, key).value;
      assert e in t.routes && e.destination.Masked() == key;
    }
  }
}

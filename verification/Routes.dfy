/** Route entries and the routing table as values: what each table operation does to the
    ordered list of routes and to the kernel's table, and what it means per destination. */
module Routes {
  import opened Options
  import opened Ipv4

  const U32_MAX: nat := 0xFFFF_FFFF

  type Metric = m: nat | m <= U32_MAX

  datatype RouteSource = Direct | Protocol | Static

  datatype RouteEntry = RouteEntry(destination: Ipv4Network, nextHop: Addr, iface: string,
                                   metric: Metric, source: RouteSource)

  /** The kernel's routes, by network address and prefix length, with their gateway. */
  type Kernel = map<Ipv4Network, Addr>

  datatype Table = Table(routes: seq<RouteEntry>, kernel: Kernel)

  // ----- finding routes

  /** Position of the first route for d; the length of the list when there is none. */
  function Index(rs: seq<RouteEntry>, d: Ipv4Network): (i: nat)
    ensures i <= |rs|
    ensures i < |rs| ==> rs[i].destination == d
    ensures forall j :: 0 <= j < i ==> rs[j].destination != d
  {
    if rs == [] then 0 else if rs[0].destination == d then 0 else 1 + Index(rs[1..], d)
  }

  function Lookup(rs: seq<RouteEntry>, d: Ipv4Network): Option<RouteEntry> {
    var i := Index(rs, d);
    if i < |rs| then Some(rs[i]) else None
  }

  ghost predicate Distinct(rs: seq<RouteEntry>) {
    forall i, j :: 0 <= i < j < |rs| ==> rs[i].destination != rs[j].destination
  }

  lemma LookupMember(rs: seq<RouteEntry>, e: RouteEntry)
    requires Distinct(rs)
    ensures e in rs <==> Lookup(rs, e.destination) == Some(e)
  {
    var i := Index(rs, e.destination);
    if e in rs {
      var j :| 0 <= j < |rs| && rs[j] == e;
      assert i == j;
    }
  }

  // ----- validation

  ghost predicate IsLocal(local: seq<Ipv4Network>, d: Ipv4Network) {
    exists n :: n in local && n.Masked() == d.Masked()
  }

  ghost predicate HopUsable(local: seq<Ipv4Network>, hop: Addr) {
    && !IsLoopback(hop)
    && hop != UNSPECIFIED
    && exists n :: n in local && n.Contains(hop)
  }

  ghost predicate ValidRoute(local: seq<Ipv4Network>, r: RouteEntry) {
    r.source == Direct || (!IsLocal(local, r.destination) && HopUsable(local, r.nextHop))
  }

  // ----- the kernel

  /** Deleting a route matches the gateway. */
  function KernelDelete(kernel: Kernel, r: RouteEntry): Kernel {
    var key := r.destination.Masked();
    if key in kernel && kernel[key] == r.nextHop then kernel - {key} else kernel
  }

  /** Adding, with the code's retry: without effect while another gateway holds the prefix. */
  function KernelAdd(kernel: Kernel, r: RouteEntry): Kernel {
    var key := r.destination.Masked();
    if key in kernel && kernel[key] != r.nextHop then kernel else kernel[key := r.nextHop]
  }

  function KernelUninstall(kernel: Kernel, r: RouteEntry): Kernel {
    if r.source != Direct then KernelDelete(kernel, r) else kernel
  }

  function KernelInstall(kernel: Kernel, r: RouteEntry): Kernel {
    if r.source != Direct then KernelAdd(kernel, r) else kernel
  }

  // ----- adding and replacing

  /** Whether add_route overwrites the existing route e by r. */
  predicate Supersedes(r: RouteEntry, e: RouteEntry) {
    r.metric < e.metric || (r.source == e.source && r.nextHop != e.nextHop)
  }

  ghost function Added(local: seq<Ipv4Network>, t: Table, r: RouteEntry): Table {
    var i := Index(t.routes, r.destination);
    if !ValidRoute(local, r) then t
    else if i == |t.routes| then Table(t.routes + [r], KernelInstall(t.kernel, r))
    else if Supersedes(r, t.routes[i]) then
      Table(t.routes[i := r], KernelInstall(KernelUninstall(t.kernel, t.routes[i]), r))
    else t
  }

  function RemovedAt(t: Table, i: nat): Table
    requires i < |t.routes|
  {
    Table(t.routes[..i] + t.routes[i + 1..], KernelUninstall(t.kernel, t.routes[i]))
  }

  ghost function Replaced(local: seq<Ipv4Network>, t: Table, r: RouteEntry): Table {
    var i := Index(t.routes, r.destination);
    Added(local, if i < |t.routes| then RemovedAt(t, i) else t, r)
  }

  /** What the router does with one new route: skip, force-replace or add. */
  ghost function Updated(local: seq<Ipv4Network>, t: Table, r: RouteEntry): Table {
    match Lookup(t.routes, r.destination)
    case Some(e) =>
      if e.metric < r.metric then t
      else if e.metric == r.metric && e.nextHop != r.nextHop then Replaced(local, t, r)
      else Added(local, t, r)
    case None => Added(local, t, r)
  }

  ghost function UpdatedAll(local: seq<Ipv4Network>, t: Table, rs: seq<RouteEntry>): Table {
    if rs == [] then t else Updated(local, UpdatedAll(local, t, rs[..|rs| - 1]), rs[|rs| - 1])
  }

  /** The effect of one new route on its own destination. The force-replacement removes
      before it validates, so an invalid route with an equal metric clears the entry. */
  ghost function Relaxed(local: seq<Ipv4Network>, cur: Option<RouteEntry>, r: RouteEntry): Option<RouteEntry> {
    match cur
    case None => if ValidRoute(local, r) then Some(r) else None
    case Some(e) =>
      if e.metric < r.metric || (e.metric == r.metric && e.nextHop == r.nextHop) then cur
      else if ValidRoute(local, r) then Some(r)
      else if e.metric == r.metric then None
      else cur
  }

  lemma LookupAdded(local: seq<Ipv4Network>, t: Table, r: RouteEntry, d: Ipv4Network)
    requires Distinct(t.routes)
    ensures Distinct(Added(local, t, r).routes)
    ensures Lookup(Added(local, t, r).routes, d) ==
            var cur := Lookup(t.routes, d);
            if d == r.destination && ValidRoute(local, r)
               && (cur.None? || r.metric < cur.value.metric
                   || (r.source == cur.value.source && r.nextHop != cur.value.nextHop)) then Some(r)
            else cur
  {
    var rs, after := t.routes, Added(local, t, r).routes;
    var i, k := Index(rs, d), Index(after, d);
    assert forall j :: 0 <= j < |rs| ==> after[j].destination == rs[j].destination;
    if i < |rs| {
      assert after[i].destination == d;
    } else if |rs| < |after| {
      assert after[|rs|] == r;
    }
  }

  lemma LookupRemovedAt(t: Table, i: nat, d: Ipv4Network)
    requires Distinct(t.routes) && i < |t.routes|
    ensures Distinct(RemovedAt(t, i).routes)
    ensures Lookup(RemovedAt(t, i).routes, d) == if d == t.routes[i].destination then None else Lookup(t.routes, d)
  {
    var rs, left := t.routes, RemovedAt(t, i).routes;
    assert forall j :: 0 <= j < |left| ==> left[j] == if j < i then rs[j] else rs[j + 1];
    if d == rs[i].destination {
      assert forall j :: 0 <= j < |left| ==> left[j].destination != d;
    } else {
      var k := Index(rs, d);
      if k < |rs| {
        assert left[if k < i then k else k - 1] == rs[k];
      }
    }
  }

  /** One route changes its own destination only, and that as Relaxed says. */
  lemma LookupUpdated(local: seq<Ipv4Network>, t: Table, r: RouteEntry, d: Ipv4Network)
    requires Distinct(t.routes)
    ensures Distinct(Updated(local, t, r).routes)
    ensures Lookup(Updated(local, t, r).routes, d) ==
            var cur := Lookup(t.routes, d);
            if d == r.destination then Relaxed(local, cur, r) else cur
  {
    LookupAdded(local, t, r, d);
    var i := Index(t.routes, r.destination);
    if i < |t.routes| {
      LookupRemovedAt(t, i, d);
      LookupAdded(local, RemovedAt(t, i), r, d);
      LookupRemovedAt(t, i, r.destination);
    }
  }

  /** Whether the table as it stands lets a new route in. */
  ghost predicate Accepts(rs: seq<RouteEntry>, r: RouteEntry) {
    match Lookup(rs, r.destination)
    case Some(e) => r.metric < e.metric || (r.metric == e.metric && r.nextHop != e.nextHop)
    case None => true
  }

  /** For a valid route, being accepted is exactly being about to change the table: its entry
      becomes the route, and a rejected route would leave list and kernel as they are. */
  lemma AcceptanceIsChange(local: seq<Ipv4Network>, t: Table, r: RouteEntry)
    requires Distinct(t.routes) && ValidRoute(local, r)
    ensures Accepts(t.routes, r) <==> Updated(local, t, r).routes != t.routes
    ensures Accepts(t.routes, r) ==> Lookup(Updated(local, t, r).routes, r.destination) == Some(r)
    ensures !Accepts(t.routes, r) ==> Updated(local, t, r) == t
  {
    LookupUpdated(local, t, r, r.destination);
  }
}

/** The kernel's table between construction and shutdown of a router, over all interleavings of
    locked steps: exactly when the router leaves it as it found it. */
module Shutdown {
  import opened Options
  import opened Ipv4
  import opened Routes
  import opened KernelMirror
  import opened Pruning
  import opened Nodes
  import opened Invariants
  import opened Batches
  import opened Interleaving

  /** At key the kernel still has its initial gateway, and the table holds no route of that very gateway. */
  ghost predicate Untouched(base: Kernel, t: Table, key: Ipv4Network) {
    && key in base
    && Gateway(t.kernel, key) == Some(base[key]) && Wanted(t.routes, key) != Some(base[key])
  }

  /** The table holds the very route that the initial kernel had at key. */
  ghost predicate Claims(base: Kernel, t: Table, key: Ipv4Network) {
    key in base && Wanted(t.routes, key) == Some(base[key])
  }

  /** As long as no route claims the prefix the kernel keeps it; once one does, the kernel mirrors the table there. */
  lemma UpdatedAtBase(cfg: Config, base: Kernel, t: Table, r: RouteEntry, key: Ipv4Network)
    requires WellFormed(cfg, t.routes) && CandidateShape(cfg, r) && Untouched(base, t, key)
    ensures var after := Updated(cfg.local, t, r);
      if Claims(base, after, key) then MirrorsAt(after, key) else Untouched(base, after, key)
  {
    WellFormedKeys(cfg, t.routes);
    LookupUpdated(cfg.local, t, r, key);
    if key != r.destination {
      UpdatedKernelFrame(cfg.local, t, r, key);
    } else {
      OwnPrefixAtBase(cfg, base, t, r);
    }
  }

  lemma OwnPrefixAtBase(cfg: Config, base: Kernel, t: Table, r: RouteEntry)
    requires WellFormed(cfg, t.routes) && CandidateShape(cfg, r) && Untouched(base, t, r.destination)
    ensures Gateway(Updated(cfg.local, t, r).kernel, r.destination) == Some(base[r.destination])
  {
    var i := Index(t.routes, r.destination);
    if i < |t.routes| {
      WellFormedMember(cfg, t.routes, t.routes[i]);
      LookupRemovedAt(t, i, r.destination);
    }
  }

  /** Somewhere in the middle of applying rs to t a route claims key. */
  ghost predicate ClaimedDuring(cfg: Config, base: Kernel, t: Table, rs: seq<RouteEntry>, key: Ipv4Network) {
    exists i :: 0 <= i <= |rs| && Claims(base, UpdatedAll(cfg.local, t, rs[..i]), key)
  }

  lemma ClaimedDuringSnoc(cfg: Config, base: Kernel, t: Table, rs: seq<RouteEntry>, key: Ipv4Network)
    requires rs != []
    ensures ClaimedDuring(cfg, base, t, rs, key)
      <==> ClaimedDuring(cfg, base, t, rs[..|rs| - 1], key) || Claims(base, UpdatedAll(cfg.local, t, rs), key)
  {
    hide Claims, UpdatedAll;
    var front := rs[..|rs| - 1];
    assert rs[..|rs|] == rs;
    if i :| 0 <= i <= |rs| && Claims(base, UpdatedAll(cfg.local, t, rs[..i]), key) {
      assert i <= |front| ==> front[..i] == rs[..i];
    }
    if i :| 0 <= i <= |front| && Claims(base, UpdatedAll(cfg.local, t, front[..i]), key) {
      assert front[..i] == rs[..i];
    }
  }

  lemma {:induction false} UpdatedAllAtBase(cfg: Config, base: Kernel, t: Table, rs: seq<RouteEntry>, key: Ipv4Network)
    requires WellFormed(cfg, t.routes) && Untouched(base, t, key)
    requires forall r :: r in rs ==> CandidateShape(cfg, r)
    ensures var after := UpdatedAll(cfg.local, t, rs);
      if ClaimedDuring(cfg, base, t, rs, key) then MirrorsAt(after, key) else Untouched(base, after, key)
  {
    hide WellFormed, CandidateShape, Untouched, Claims, MirrorsAt, ClaimedDuring;
    if rs == [] {
      NothingClaimed(cfg, base, t, key);
    } else {
      var front, last := rs[..|rs| - 1], rs[|rs| - 1];
      assert last in rs;
      ClaimedDuringSnoc(cfg, base, t, rs, key);
      UpdatedAllAtBase(cfg, base, t, front, key);
      UpdatedAllWellFormed(cfg, t, front);
      var before := UpdatedAll(cfg.local, t, front);
      if ClaimedDuring(cfg, base, t, front, key) {
        UpdatedWellFormed(cfg, before, last);
      } else {
        UpdatedAtBase(cfg, base, before, last, key);
      }
    }
  }

  lemma NothingClaimed(cfg: Config, base: Kernel, t: Table, key: Ipv4Network)
    requires Untouched(base, t, key)
    ensures !ClaimedDuring(cfg, base, t, [], key)
  {
  }

  lemma PrunedAtBase(cfg: Config, base: Kernel, t: Table, dests: set<Ipv4Network>, vias: set<Addr>, key: Ipv4Network)
    requires WellFormed(cfg, t.routes) && Untouched(base, t, key)
    ensures Untouched(base, Pruned(t, dests, vias), key)
  {
    LookupSurvivors(t.routes, dests, vias, key);
    if e :| e in t.routes && e.source != Direct && e.destination.Masked() == key && e.nextHop == base[key] {
      WellFormedMember(cfg, t.routes, e);
    }
  }

  // ----- whole runs

  /** In the middle of this step a route of the table claims key. */
  ghost predicate StepClaims(cfg: Config, base: Kernel, n: Node, step: LockedStep, key: Ipv4Network) {
    step.Apply? && ClaimedDuring(cfg, base, n.table, step.routes, key)
  }

  /** At some time of the run the table held the very route that the initial kernel had at key. */
  ghost predicate RunClaims(cfg: Config, start: Node, steps: seq<LockedStep>, key: Ipv4Network) {
    exists i :: 0 <= i < |steps| && StepClaims(cfg, start.table.kernel, Run(cfg, start, steps[..i]), steps[i], key)
  }

  lemma RunClaimsSnoc(cfg: Config, start: Node, steps: seq<LockedStep>, key: Ipv4Network)
    requires steps != []
    ensures var front := steps[..|steps| - 1];
      RunClaims(cfg, start, steps, key)
      <==> RunClaims(cfg, start, front, key)
           || StepClaims(cfg, start.table.kernel, Run(cfg, start, front), steps[|steps| - 1], key)
  {
    hide StepClaims, Run;
    var front := steps[..|steps| - 1];
    assert forall i :: 0 <= i < |front| ==> front[..i] == steps[..i];
  }

  lemma StepAtBase(cfg: Config, start: Node, base: Kernel, n: Node, step: LockedStep, key: Ipv4Network)
    requires Safe(cfg, start, n) && Genuine(cfg, step) && Untouched(base, n.table, key)
    ensures var after := Stepped(cfg, n, step).table;
      if StepClaims(cfg, base, n, step, key) then MirrorsAt(after, key) else Untouched(base, after, key)
  {
    hide WellFormed, SoundStates, Mirrors, Untouched, MirrorsAt, ClaimedDuring, CandidateShape;
    match step
    case Record(_) =>
    case SetNeighbors(_) =>
    case RemoveStates(keys) => PrunedAtBase(cfg, base, n.table, Destinations(n.states, keys), {}, key);
    case RemoveHop(hop) => PrunedAtBase(cfg, base, n.table, {}, {hop}, key);
    case Apply(routes) =>
      GenuineShapes(cfg, step);
      UpdatedAllAtBase(cfg, base, n.table, routes, key);
  }

  lemma StepKeepsMirror(cfg: Config, start: Node, n: Node, step: LockedStep, key: Ipv4Network)
    requires Safe(cfg, start, n) && Genuine(cfg, step) && MirrorsAt(n.table, key)
    ensures MirrorsAt(Stepped(cfg, n, step).table, key)
  {
    hide WellFormed, SoundStates, Mirrors, CandidateShape;
    match step
    case Record(_) =>
    case SetNeighbors(_) =>
    case RemoveStates(keys) =>
      DestinationsNotOurs(cfg, n.states, keys);
      PrunedWellFormed(cfg, n.table, Destinations(n.states, keys), {});
    case RemoveHop(hop) => PrunedWellFormed(cfg, n.table, {}, {hop});
    case Apply(routes) =>
      GenuineShapes(cfg, step);
      UpdatedAllWellFormed(cfg, n.table, routes);
  }

  lemma StartsUntouched(cfg: Config, start: Node, key: Ipv4Network)
    requires Fresh(cfg, start) && key in start.table.kernel
    ensures Untouched(start.table.kernel, start.table, key)
  {
    if Lookup(start.table.routes, key).Some? {
      LookupMember(start.table.routes, Lookup(start.table.routes, key).value);
    }
  }

  lemma {:induction false} RunAtBase(cfg: Config, start: Node, steps: seq<LockedStep>, key: Ipv4Network)
    requires Fresh(cfg, start) && key in start.table.kernel && forall s :: s in steps ==> Genuine(cfg, s)
    ensures var t := Run(cfg, start, steps).table;
      if RunClaims(cfg, start, steps, key) then MirrorsAt(t, key) else Untouched(start.table.kernel, t, key)
  {
    hide Fresh, Safe, Genuine, Untouched, MirrorsAt, StepClaims, RunClaims, Stepped;
    if steps == [] {
      StartsUntouched(cfg, start, key);
      assert !RunClaims(cfg, start, steps, key) by {
        NoStepsNoClaims(cfg, start, key);
      }
    } else {
      var front, step := steps[..|steps| - 1], steps[|steps| - 1];
      assert step in steps;
      RunAtBase(cfg, start, front, key);
      AlwaysSafe(cfg, start, front);
      RunClaimsSnoc(cfg, start, steps, key);
      if RunClaims(cfg, start, front, key) {
        StepKeepsMirror(cfg, start, Run(cfg, start, front), step, key);
      } else {
        StepAtBase(cfg, start, start.table.kernel, Run(cfg, start, front), step, key);
      }
    }
  }

  lemma NoStepsNoClaims(cfg: Config, start: Node, key: Ipv4Network)
    ensures !RunClaims(cfg, start, [], key)
  {
  }

  // ----- shutdown

  /** The kernel after the router drops its table. */
  ghost function AfterShutdown(t: Table): Kernel {
    Without(t.kernel, ProtocolRoutes(t.routes))
  }

  lemma UntouchedSurvives(cfg: Config, base: Kernel, t: Table, key: Ipv4Network)
    requires WellFormed(cfg, t.routes) && Untouched(base, t, key)
    ensures Gateway(AfterShutdown(t), key) == Some(base[key])
  {
    if (key, base[key]) in ProtocolRoutes(t.routes) {
      var e :| e in t.routes && e.source == Protocol && (key, base[key]) == (e.destination.Masked(), e.nextHop);
      WellFormedMember(cfg, t.routes, e);
    }
  }

  lemma MirroredIsCleared(cfg: Config, t: Table, key: Ipv4Network)
    requires WellFormed(cfg, t.routes) && MirrorsAt(t, key)
    ensures Gateway(AfterShutdown(t), key) == None
  {
    WellFormedKeys(cfg, t.routes);
    forall e | e in t.routes
      ensures e.source != Static
    {
      WellFormedMember(cfg, t.routes, e);
    }
    ShutdownClearsKernel(t, key);
  }

  /** After any run a prefix of the initial kernel has its gateway again exactly if no route ever
      claimed it, and every other prefix is gone. */
  lemma {:induction false} PrefixAfterShutdown(cfg: Config, start: Node, steps: seq<LockedStep>, key: Ipv4Network)
    requires Fresh(cfg, start) && forall s :: s in steps ==> Genuine(cfg, s)
    ensures Gateway(AfterShutdown(Run(cfg, start, steps).table), key)
         == if RunClaims(cfg, start, steps, key) then None else Gateway(start.table.kernel, key)
  {
    hide Fresh, Genuine, Untouched, AfterShutdown, RunClaims, Run, WellFormed, SoundStates;
    AlwaysSafe(cfg, start, steps);
    var t := Run(cfg, start, steps).table;
    if key in start.table.kernel {
      RunAtBase(cfg, start, steps, key);
      if RunClaims(cfg, start, steps, key) {
        MirroredIsCleared(cfg, t, key);
      } else {
        UntouchedSurvives(cfg, start.table.kernel, t, key);
      }
    } else {
      MirroredIsCleared(cfg, t, key);
    }
  }

  lemma KernelsAgree(a: Kernel, b: Kernel)
    requires forall key :: Gateway(a, key) == Gateway(b, key)
    ensures a == b
  {
    assert forall key :: key in a <==> Gateway(a, key).Some?;
    assert forall key :: key in b <==> Gateway(b, key).Some?;
  }

  /** Shutting down leaves the kernel exactly as it was before the router started if and only if the
      table never held a route, prefix and gateway, that the kernel had from the start. */
  lemma {:induction false} ShutdownRestoresKernelIff(cfg: Config, start: Node, steps: seq<LockedStep>)
    requires Fresh(cfg, start) && forall s :: s in steps ==> Genuine(cfg, s)
    ensures AfterShutdown(Run(cfg, start, steps).table) == start.table.kernel
      <==> forall key :: key in start.table.kernel ==> !RunClaims(cfg, start, steps, key)
  {
    hide Fresh, Genuine, AfterShutdown, RunClaims, Run;
    var last := AfterShutdown(Run(cfg, start, steps).table);
    forall key
      ensures Gateway(last, key) == if RunClaims(cfg, start, steps, key) then None else Gateway(start.table.kernel, key)
    {
      PrefixAfterShutdown(cfg, start, steps, key);
    }
    if forall key :: key in start.table.kernel ==> !RunClaims(cfg, start, steps, key) {
      KernelsAgree(last, start.table.kernel);
    }
  }

  // ----- a sufficient condition on what is applied

  /** The step applies no valid route that the initial kernel has, prefix and gateway. Invalid ones, such
      as a neighbour's route to a subnet the router is on itself, never reach the kernel. */
  ghost predicate NoConflict(cfg: Config, base: Kernel, step: LockedStep) {
    step.Apply? ==> forall r :: r in step.routes && ValidRoute(cfg.local, r) ==>
      Gateway(base, r.destination) != Some(r.nextHop)
  }

  lemma ConflictNeeded(cfg: Config, base: Kernel, t: Table, rs: seq<RouteEntry>, i: nat, key: Ipv4Network)
    requires WellFormed(cfg, t.routes) && Untouched(base, t, key) && i <= |rs|
    requires forall r :: r in rs ==> CandidateShape(cfg, r)
    requires forall r :: r in rs && ValidRoute(cfg.local, r) ==> Gateway(base, r.destination) != Some(r.nextHop)
    ensures !Claims(base, UpdatedAll(cfg.local, t, rs[..i]), key)
  {
    var after := UpdatedAll(cfg.local, t, rs[..i]);
    UpdatedAllWellFormed(cfg, t, rs[..i]);
    LookupUpdatedAll(cfg.local, t, rs[..i], key);
    RelaxedAllFrom(cfg.local, Lookup(t.routes, key), rs[..i], key);
    hide ValidRoute, UpdatedAll;
    assert Lookup(after.routes, key).Some? ==> WellFormedEntry(cfg, Lookup(after.routes, key).value);
  }

  lemma {:induction false} NeverClaims(cfg: Config, start: Node, steps: seq<LockedStep>, key: Ipv4Network)
    requires Fresh(cfg, start) && key in start.table.kernel
    requires forall s :: s in steps ==> Genuine(cfg, s) && NoConflict(cfg, start.table.kernel, s)
    ensures !RunClaims(cfg, start, steps, key)
  {
    hide Fresh, Safe, Genuine, Untouched, StepClaims, RunClaims, Stepped, NoConflict;
    if steps == [] {
      NoStepsNoClaims(cfg, start, key);
    } else {
      var front, step := steps[..|steps| - 1], steps[|steps| - 1];
      assert step in steps;
      NeverClaims(cfg, start, front, key);
      RunAtBase(cfg, start, front, key);
      AlwaysSafe(cfg, start, front);
      RunClaimsSnoc(cfg, start, steps, key);
      StepDoesNotClaim(cfg, start, Run(cfg, start, front), step, key);
    }
  }

  lemma StepDoesNotClaim(cfg: Config, start: Node, n: Node, step: LockedStep, key: Ipv4Network)
    requires Safe(cfg, start, n) && Genuine(cfg, step) && NoConflict(cfg, start.table.kernel, step)
    requires Untouched(start.table.kernel, n.table, key)
    ensures !StepClaims(cfg, start.table.kernel, n, step, key)
  {
    hide WellFormed, SoundStates, Mirrors, Untouched, Claims, ValidRoute, CandidateShape;
    if step.Apply? {
      GenuineShapes(cfg, step);
      forall i | 0 <= i <= |step.routes|
        ensures !Claims(start.table.kernel, UpdatedAll(cfg.local, n.table, step.routes[..i]), key)
      {
        ConflictNeeded(cfg, start.table.kernel, n.table, step.routes, i, key);
      }
    }
  }

  /** So it does after every run that applies no valid route the kernel had from the start. */
  lemma {:induction false} ShutdownRestoresKernel(cfg: Config, start: Node, steps: seq<LockedStep>)
    requires Fresh(cfg, start)
    requires forall s :: s in steps ==> Genuine(cfg, s) && NoConflict(cfg, start.table.kernel, s)
    ensures AfterShutdown(Run(cfg, start, steps).table) == start.table.kernel
  {
    hide Fresh, Genuine, NoConflict, RunClaims, AfterShutdown, Run;
    forall key | key in start.table.kernel
      ensures !RunClaims(cfg, start, steps, key)
    {
      NeverClaims(cfg, start, steps, key);
    }
    ShutdownRestoresKernelIff(cfg, start, steps);
  }
}

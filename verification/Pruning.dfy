/** Removal of routes by destination and by next hop: an order-preserving filter of the table. */
module Pruning {
  import opened Options
  import opened Ipv4
  import opened Routes
  import opened KernelMirror

  predicate Dropped(e: RouteEntry, dests: set<Ipv4Network>, vias: set<Addr>) {
    e.destination in dests || (e.source == Protocol && e.nextHop in vias)
  }

  function Survivors(rs: seq<RouteEntry>, dests: set<Ipv4Network>, vias: set<Addr>): seq<RouteEntry> {
    if rs == [] then []
    else (if Dropped(rs[0], dests, vias) then [] else [rs[0]]) + Survivors(rs[1..], dests, vias)
  }

  function Victims(rs: seq<RouteEntry>, dests: set<Ipv4Network>, vias: set<Addr>): seq<RouteEntry> {
    if rs == [] then []
    else (if Dropped(rs[0], dests, vias) then [rs[0]] else []) + Victims(rs[1..], dests, vias)
  }

  /** The kernel routes of the dropped entries. */
  function Gone(rs: seq<RouteEntry>, dests: set<Ipv4Network>, vias: set<Addr>): set<(Ipv4Network, Addr)> {
    set e | e in rs && Dropped(e, dests, vias) && e.source != Direct :: (e.destination.Masked(), e.nextHop)
  }

  function Without(kernel: Kernel, gone: set<(Ipv4Network, Addr)>): Kernel {
    map k | k in kernel && (k, kernel[k]) !in gone :: kernel[k]
  }

  function Pruned(t: Table, dests: set<Ipv4Network>, vias: set<Addr>): Table {
    Table(Survivors(t.routes, dests, vias), Without(t.kernel, Gone(t.routes, dests, vias)))
  }

  lemma {:induction false} SurvivorsMembers(rs: seq<RouteEntry>, dests: set<Ipv4Network>, vias: set<Addr>,
                                            e: RouteEntry)
    ensures e in Survivors(rs, dests, vias) <==> e in rs && !Dropped(e, dests, vias)
  {
    if rs != [] {
      SurvivorsMembers(rs[1..], dests, vias, e);
    }
  }

  lemma {:induction false} SurvivorsDistinct(rs: seq<RouteEntry>, dests: set<Ipv4Network>, vias: set<Addr>)
    requires Distinct(rs)
    ensures Distinct(Survivors(rs, dests, vias))
  {
    if rs != [] {
      SurvivorsDistinct(rs[1..], dests, vias);
      forall e | e in Survivors(rs[1..], dests, vias)
        ensures e.destination != rs[0].destination
      {
        SurvivorsMembers(rs[1..], dests, vias, e);
      }
    }
  }

  lemma LookupSurvivors(rs: seq<RouteEntry>, dests: set<Ipv4Network>, vias: set<Addr>, d: Ipv4Network)
    requires Distinct(rs)
    ensures Distinct(Survivors(rs, dests, vias))
    ensures Lookup(Survivors(rs, dests, vias), d) ==
            var cur := Lookup(rs, d);
            if cur.Some? && !Dropped(cur.value, dests, vias) then cur else None
  {
    var left := Survivors(rs, dests, vias);
    SurvivorsDistinct(rs, dests, vias);
    var now := Lookup(left, d);
    if now.Some? {
      SurvivorsMembers(rs, dests, vias, now.value);
      LookupMember(rs, now.value);
    }
    var cur := Lookup(rs, d);
    if cur.Some? && !Dropped(cur.value, dests, vias) {
      LookupMember(rs, cur.value);
      SurvivorsMembers(rs, dests, vias, cur.value);
      LookupMember(left, cur.value);
    }
  }

  lemma {:induction false} SurvivorsTwice(rs: seq<RouteEntry>, d1: set<Ipv4Network>, v1: set<Addr>,
                                          d2: set<Ipv4Network>, v2: set<Addr>)
    ensures Survivors(Survivors(rs, d1, v1), d2, v2) == Survivors(rs, d1 + d2, v1 + v2)
  {
    if rs != [] {
      SurvivorsTwice(rs[1..], d1, v1, d2, v2);
      var rest := Survivors(rs[1..], d1, v1);
      assert [] + rest == rest && ([rs[0]] + rest)[1..] == rest;
    }
  }

  /** Removals compose, and so may be done in any order and any grouping. */
  lemma PrunedTwice(t: Table, d1: set<Ipv4Network>, v1: set<Addr>, d2: set<Ipv4Network>, v2: set<Addr>)
    ensures Pruned(Pruned(t, d1, v1), d2, v2) == Pruned(t, d1 + d2, v1 + v2)
  {
    SurvivorsTwice(t.routes, d1, v1, d2, v2);
    var left := Survivors(t.routes, d1, v1);
    forall e
      ensures e in left <==> e in t.routes && !Dropped(e, d1, v1)
    {
      SurvivorsMembers(t.routes, d1, v1, e);
    }
    var g1, g2, g := Gone(t.routes, d1, v1), Gone(left, d2, v2), Gone(t.routes, d1 + d2, v1 + v2);
    forall x
      ensures x in g1 + g2 <==> x in g
    {
      if x in g1 {
        var e :| e in t.routes && Dropped(e, d1, v1) && e.source != Direct && x == (e.destination.Masked(), e.nextHop);
        assert Dropped(e, d1 + d2, v1 + v2);
      }
      if x in g2 {
        var e :| e in left && Dropped(e, d2, v2) && e.source != Direct && x == (e.destination.Masked(), e.nextHop);
        assert e in t.routes && Dropped(e, d1 + d2, v1 + v2);
      }
      if x in g {
        var e :| e in t.routes && Dropped(e, d1 + d2, v1 + v2) && e.source != Direct
                 && x == (e.destination.Masked(), e.nextHop);
        assert Dropped(e, d1, v1) || (e in left && Dropped(e, d2, v2));
      }
    }
    assert g1 + g2 == g;
    assert Without(Without(t.kernel, g1), g2) == Without(t.kernel, g1 + g2);
  }

  lemma PrunedByDestinationsTwice(t: Table, d1: set<Ipv4Network>, d2: set<Ipv4Network>)
    ensures Pruned(Pruned(t, d1, {}), d2, {}) == Pruned(t, d1 + d2, {})
  {
    PrunedTwice(t, d1, {}, d2, {});
    var none: set<Addr> := {};
    assert none + none == none;
  }

  lemma PrunedByHopsTwice(t: Table, v1: set<Addr>, v2: set<Addr>)
    ensures Pruned(Pruned(t, {}, v1), {}, v2) == Pruned(t, {}, v1 + v2)
  {
    PrunedTwice(t, {}, v1, {}, v2);
    var none: set<Ipv4Network> := {};
    assert none + none == none;
  }

  lemma PrunedByBoth(t: Table, dests: set<Ipv4Network>, vias: set<Addr>)
    ensures Pruned(Pruned(t, dests, {}), {}, vias) == Pruned(t, dests, vias)
  {
    PrunedTwice(t, dests, {}, {}, vias);
    var none: set<Addr> := {};
    assert dests + {} == dests && none + vias == vias;
  }

  lemma {:induction false} NothingDropped(rs: seq<RouteEntry>, dests: set<Ipv4Network>, vias: set<Addr>)
    requires forall e :: e in rs ==> !Dropped(e, dests, vias)
    ensures Survivors(rs, dests, vias) == rs
  {
    if rs != [] {
      NothingDropped(rs[1..], dests, vias);
      assert rs == [rs[0]] + rs[1..];
    }
  }

  lemma PrunedByNothing(t: Table)
    ensures Pruned(t, {}, {}) == t
  {
    NothingDropped(t.routes, {}, {});
    assert Gone(t.routes, {}, {}) == {};
    assert Without(t.kernel, {}) == t.kernel;
  }

  lemma GoneOfOne(rs: seq<RouteEntry>, i: nat)
    requires Distinct(rs) && i < |rs|
    ensures Gone(rs, {rs[i].destination}, {})
         == if rs[i].source != Direct then {(rs[i].destination.Masked(), rs[i].nextHop)} else {}
  {
    assert rs[i] in rs;
    assert forall e :: e in rs && e.destination == rs[i].destination ==> e == rs[i];
  }

  /** Removing the one route for d is the filter on destination d. */
  lemma RemovedAtIsPruned(t: Table, d: Ipv4Network)
    requires Distinct(t.routes)
    ensures Pruned(t, {d}, {}) ==
            var i := Index(t.routes, d);
            if i < |t.routes| then RemovedAt(t, i) else t
  {
    var i := Index(t.routes, d);
    if i < |t.routes| {
      SurvivorsOfOne(t.routes, i);
      GoneOfOne(t.routes, i);
      KernelDeleteIsWithout(t.kernel, {}, t.routes[i]);
      assert Without(t.kernel, {}) == t.kernel;
    } else {
      NothingDropped(t.routes, {d}, {});
      assert Gone(t.routes, {d}, {}) == {};
      assert Without(t.kernel, {}) == t.kernel;
    }
  }

  lemma {:induction false} SurvivorsOfOne(rs: seq<RouteEntry>, i: nat)
    requires Distinct(rs) && i < |rs|
    ensures Survivors(rs, {rs[i].destination}, {}) == rs[..i] + rs[i + 1..]
  {
    var d := rs[i].destination;
    if i == 0 {
      NothingDropped(rs[1..], {d}, {});
    } else {
      SurvivorsOfOne(rs[1..], i - 1);
      assert rs[..i] + rs[i + 1..] == [rs[0]] + (rs[1..][..i - 1] + rs[1..][i..]);
    }
  }

  lemma PrunedMirrorsAt(t: Table, dests: set<Ipv4Network>, vias: set<Addr>, key: Ipv4Network)
    requires Distinct(t.routes) && MaskedKeys(t.routes)
    ensures MaskedKeys(Pruned(t, dests, vias).routes)
    ensures MirrorsAt(t, key) ==> MirrorsAt(Pruned(t, dests, vias), key)
  {
    forall e | e in Survivors(t.routes, dests, vias)
      ensures e in t.routes
    {
      SurvivorsMembers(t.routes, dests, vias, e);
    }
    LookupSurvivors(t.routes, dests, vias, key);
    if MirrorsAt(t, key) && key in t.kernel {
      var e := Lookup(t.routes, key).value;
      LookupMember(t.routes, e);
      assert Dropped(e, dests, vias) ==> (key, e.nextHop) in Gone(t.routes, dests, vias);
      if (key, e.nextHop) in Gone(t.routes, dests, vias) {
        var x :| x in t.routes && Dropped(x, dests, vias) && x.source != Direct
                 && (key, e.nextHop) == (x.destination.Masked(), x.nextHop);
        LookupMember(t.routes, x);
        assert x == e;
      }
    }
  }

  // ----- facts for removing one entry after another

  lemma {:induction false} SurvivorsConcat(a: seq<RouteEntry>, b: seq<RouteEntry>,
                                           dests: set<Ipv4Network>, vias: set<Addr>)
    ensures Survivors(a + b, dests, vias) == Survivors(a, dests, vias) + Survivors(b, dests, vias)
  {
    if a == [] {
      assert a + b == b;
    } else {
      assert (a + b)[1..] == a[1..] + b;
      SurvivorsConcat(a[1..], b, dests, vias);
      var head := if Dropped(a[0], dests, vias) then [] else [a[0]];
      SeqAssoc(head, Survivors(a[1..], dests, vias), Survivors(b, dests, vias));
    }
  }

  lemma {:induction false} VictimsConcat(a: seq<RouteEntry>, b: seq<RouteEntry>, dests: set<Ipv4Network>,
                                         vias: set<Addr>)
    ensures Victims(a + b, dests, vias) == Victims(a, dests, vias) + Victims(b, dests, vias)
  {
    if a == [] {
      assert a + b == b;
    } else {
      assert (a + b)[1..] == a[1..] + b;
      VictimsConcat(a[1..], b, dests, vias);
      var head := if Dropped(a[0], dests, vias) then [a[0]] else [];
      SeqAssoc(head, Victims(a[1..], dests, vias), Victims(b, dests, vias));
    }
  }

  lemma SeqAssoc<T>(a: seq<T>, b: seq<T>, c: seq<T>)
    ensures a + (b + c) == (a + b) + c
  {
  }

  lemma {:induction false} NoVictims(rs: seq<RouteEntry>, dests: set<Ipv4Network>, vias: set<Addr>)
    requires forall e :: e in rs ==> !Dropped(e, dests, vias)
    ensures Victims(rs, dests, vias) == []
  {
    if rs != [] {
      NoVictims(rs[1..], dests, vias);
    }
  }

  function Reversed(s: seq<RouteEntry>): seq<RouteEntry> {
    if s == [] then [] else Reversed(s[1..]) + [s[0]]
  }

  lemma {:induction false} ReversedKeepsMembers(s: seq<RouteEntry>)
    ensures multiset(Reversed(s)) == multiset(s)
  {
    if s != [] {
      ReversedKeepsMembers(s[1..]);
      assert s == [s[0]] + s[1..];
    }
  }

  lemma {:induction false} SplitByPruning(rs: seq<RouteEntry>, dests: set<Ipv4Network>, vias: set<Addr>)
    ensures multiset(Survivors(rs, dests, vias)) + multiset(Victims(rs, dests, vias)) == multiset(rs)
  {
    if rs != [] {
      SplitByPruning(rs[1..], dests, vias);
      assert rs == [rs[0]] + rs[1..];
    }
  }

  /** The survivors and the routes handed back by a removal are together the original routes. */
  lemma NothingLostByPruning(rs: seq<RouteEntry>, dests: set<Ipv4Network>, vias: set<Addr>)
    ensures multiset(Survivors(rs, dests, vias)) + multiset(Reversed(Victims(rs, dests, vias))) == multiset(rs)
  {
    SplitByPruning(rs, dests, vias);
    ReversedKeepsMembers(Victims(rs, dests, vias));
  }

  lemma ReversedCons(r: RouteEntry, s: seq<RouteEntry>)
    ensures Reversed([r] + s) == Reversed(s) + [r]
  {
    assert ([r] + s)[1..] == s;
  }

  /** The routes handed back are the dropped ones, the last one in the table first. */
  ghost predicate LastFirst(rs: seq<RouteEntry>, removed: seq<RouteEntry>) {
    forall i, j :: 0 <= i < j < |removed| ==> Index(rs, removed[i].destination) > Index(rs, removed[j].destination)
  }

  lemma {:induction false} VictimsMembers(rs: seq<RouteEntry>, dests: set<Ipv4Network>, vias: set<Addr>, e: RouteEntry)
    ensures e in Victims(rs, dests, vias) <==> e in rs && Dropped(e, dests, vias)
    ensures e in Reversed(Victims(rs, dests, vias)) <==> e in Victims(rs, dests, vias)
  {
    ReversedKeepsMembers(Victims(rs, dests, vias));
    assert e in multiset(Reversed(Victims(rs, dests, vias))) <==> e in multiset(Victims(rs, dests, vias));
    if rs != [] {
      VictimsMembers(rs[1..], dests, vias, e);
    }
  }

  lemma {:induction false} RemovedAreDropped(rs: seq<RouteEntry>, dests: set<Ipv4Network>, vias: set<Addr>)
    requires Distinct(rs)
    ensures var removed := Reversed(Victims(rs, dests, vias));
      LastFirst(rs, removed) && forall e :: e in removed <==> e in rs && Dropped(e, dests, vias)
  {
    var removed := Reversed(Victims(rs, dests, vias));
    forall e
      ensures e in removed <==> e in rs && Dropped(e, dests, vias)
    {
      VictimsMembers(rs, dests, vias, e);
    }
    if rs != [] {
      RemovedAreDropped(rs[1..], dests, vias);
      var rest := Reversed(Victims(rs[1..], dests, vias));
      ReversedCons(rs[0], Victims(rs[1..], dests, vias));
      assert [] + Victims(rs[1..], dests, vias) == Victims(rs[1..], dests, vias);
      assert removed == if Dropped(rs[0], dests, vias) then rest + [rs[0]] else rest;
      forall e | e in rest
        ensures Index(rs, e.destination) == 1 + Index(rs[1..], e.destination)
      {
        VictimsMembers(rs[1..], dests, vias, e);
      }
    }
  }

  lemma KernelDeleteIsWithout(kernel: Kernel, gone: set<(Ipv4Network, Addr)>, r: RouteEntry)
    ensures KernelDelete(Without(kernel, gone), r) == Without(kernel, gone + {(r.destination.Masked(), r.nextHop)})
  {
  }

  /** Dropping rs[i], when nothing strictly between i and cut is dropped. */
  lemma DropOneMore(rs: seq<RouteEntry>, i: nat, cut: nat, dests: set<Ipv4Network>, vias: set<Addr>)
    requires i < cut <= |rs|
    requires Dropped(rs[i], dests, vias)
    requires forall j :: i < j < cut ==> !Dropped(rs[j], dests, vias)
    ensures Survivors(rs[i..], dests, vias) == rs[i + 1..cut] + Survivors(rs[cut..], dests, vias)
    ensures Victims(rs[i..], dests, vias) == [rs[i]] + Victims(rs[cut..], dests, vias)
  {
    var mid := rs[i + 1..cut];
    assert rs[i..][1..] == mid + rs[cut..];
    SurvivorsConcat(mid, rs[cut..], dests, vias);
    VictimsConcat(mid, rs[cut..], dests, vias);
    NothingDropped(mid, dests, vias);
    NoVictims(mid, dests, vias);
  }

  lemma GoneOneMore(rs: seq<RouteEntry>, i: nat, cut: nat, dests: set<Ipv4Network>, vias: set<Addr>)
    requires i < cut <= |rs|
    requires Dropped(rs[i], dests, vias) && rs[i].source != Direct
    requires forall j :: i < j < cut ==> !Dropped(rs[j], dests, vias)
    ensures Gone(rs[i..], dests, vias)
         == Gone(rs[cut..], dests, vias) + {(rs[i].destination.Masked(), rs[i].nextHop)}
  {
    var mid, tail := rs[i + 1..cut], rs[cut..];
    assert rs[i..] == [rs[i]] + mid + tail;
    assert forall e :: e in rs[i..] <==> e == rs[i] || e in mid || e in tail;
    assert forall e :: e in mid ==> !Dropped(e, dests, vias);
  }

  // ----- removal by index, from the back

  /** indices lists, in increasing order, the dropped positions below end. */
  ghost predicate ListsVictims(rs: seq<RouteEntry>, indices: seq<nat>, end: nat, vias: set<Addr>) {
    && end <= |rs|
    && (forall m :: 0 <= m < |indices| ==> indices[m] < end && Dropped(rs[indices[m]], {}, vias))
    && (forall m, n :: 0 <= m < n < |indices| ==> indices[m] < indices[n])
    && (forall j :: 0 <= j < end && Dropped(rs[j], {}, vias) ==> j in indices)
  }

  ghost function Cut(indices: seq<nat>, m: nat, end: nat): nat
    requires m <= |indices|
  {
    if m < |indices| then indices[m] else end
  }

  /** now is t with the victims from position cut on removed; removed are those, last one first. */
  ghost predicate RemovedFrom(t: Table, cut: nat, vias: set<Addr>, now: Table, removed: seq<RouteEntry>) {
    && cut <= |t.routes|
    && now.routes == t.routes[..cut] + Survivors(t.routes[cut..], {}, vias)
    && now.kernel == Without(t.kernel, Gone(t.routes[cut..], {}, vias))
    && removed == Reversed(Victims(t.routes[cut..], {}, vias))
  }

  lemma NoVictimsBetween(rs: seq<RouteEntry>, indices: seq<nat>, m: nat, vias: set<Addr>)
    requires ListsVictims(rs, indices, |rs|, vias) && m <= |indices|
    ensures forall j: nat :: (m > 0 ==> indices[m - 1] < j) && j < Cut(indices, m, |rs|) ==> !Dropped(rs[j], {}, vias)
  {
    forall j: nat | (m > 0 ==> indices[m - 1] < j) && j < Cut(indices, m, |rs|)
      ensures !Dropped(rs[j], {}, vias)
    {
      assert Dropped(rs[j], {}, vias) ==> j in indices;
    }
  }

  lemma CutOut(rs: seq<RouteEntry>, i: nat, cut: nat, tail: seq<RouteEntry>)
    requires i < cut <= |rs|
    ensures var now := rs[..cut] + tail;
      now[i] == rs[i] && now[..i] + now[i + 1..] == rs[..i] + (rs[i + 1..cut] + tail)
  {
    assert rs[..cut] == rs[..i] + [rs[i]] + rs[i + 1..cut];
  }

  lemma RemovalStep(t: Table, i: nat, cut: nat, vias: set<Addr>, now: Table, removed: seq<RouteEntry>)
    requires i < cut && RemovedFrom(t, cut, vias, now, removed)
    requires Dropped(t.routes[i], {}, vias)
    requires forall j :: i < j < cut ==> !Dropped(t.routes[j], {}, vias)
    ensures i < |now.routes| && now.routes[i] == t.routes[i]
    ensures RemovedFrom(t, i, vias, RemovedAt(now, i), removed + [now.routes[i]])
  {
    var rs := t.routes;
    DropOneMore(rs, i, cut, {}, vias);
    GoneOneMore(rs, i, cut, {}, vias);
    KernelDeleteIsWithout(t.kernel, Gone(rs[cut..], {}, vias), rs[i]);
    ReversedCons(rs[i], Victims(rs[cut..], {}, vias));
    CutOut(rs, i, cut, Survivors(rs[cut..], {}, vias));
  }

  lemma RemovalEnd(t: Table, cut: nat, vias: set<Addr>, now: Table, removed: seq<RouteEntry>)
    requires RemovedFrom(t, cut, vias, now, removed)
    requires forall j :: 0 <= j < cut ==> !Dropped(t.routes[j], {}, vias)
    ensures now == Pruned(t, {}, vias) && removed == Reversed(Victims(t.routes, {}, vias))
  {
    var rs := t.routes;
    assert rs == rs[..cut] + rs[cut..];
    SurvivorsConcat(rs[..cut], rs[cut..], {}, vias);
    VictimsConcat(rs[..cut], rs[cut..], {}, vias);
    NothingDropped(rs[..cut], {}, vias);
    NoVictims(rs[..cut], {}, vias);
    assert [] + Victims(rs[cut..], {}, vias) == Victims(rs[cut..], {}, vias);
    assert Gone(rs, {}, vias) == Gone(rs[cut..], {}, vias);
  }

  function ProtocolRoutes(rs: seq<RouteEntry>): set<(Ipv4Network, Addr)> {
    set e | e in rs && e.source == Protocol :: (e.destination.Masked(), e.nextHop)
  }

  /** After shutdown no mirrored prefix is left in the kernel. */
  lemma ShutdownClearsKernel(t: Table, key: Ipv4Network)
    requires Distinct(t.routes) && MaskedKeys(t.routes) && MirrorsAt(t, key)
    requires forall e :: e in t.routes ==> e.source != Static
    ensures key !in Without(t.kernel, ProtocolRoutes(t.routes))
  {
    if key in t.kernel {
      var e := Lookup(t.routes, key).value;
      LookupMember(t.routes, e);
      assert (e.destination.Masked(), e.nextHop) in ProtocolRoutes(t.routes);
    }
  }
}

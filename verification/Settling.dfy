/** Update-only runs settle in their metrics, which change only a bounded number of times. */
module Settling {
  import opened Ipv4
  import opened Routes
  import opened Nodes
  import opened Network
  import opened UpdateRuns

  /** Every router paired with every destination of ds. */
  function Pairs(n: nat, ds: seq<Ipv4Network>): (pairs: seq<(nat, Ipv4Network)>)
    ensures |pairs| == n * |ds|
    ensures forall x :: x in pairs ==> x.0 < n
  {
    if n == 0 then [] else Pairs(n - 1, ds) + seq(|ds|, i requires 0 <= i < |ds| => (n - 1, ds[i]))
  }

  ghost predicate InRange(net: seq<Config>, pairs: seq<(nat, Ipv4Network)>) {
    forall x :: x in pairs ==> x.0 < |net|
  }

  /** The sum of all ranks. */
  ghost function Potential(net: seq<Config>, st: NetState, pairs: seq<(nat, Ipv4Network)>): nat
    requires |st.nodes| == |net| && InRange(net, pairs)
  {
    if pairs == [] then 0 else Rank(net, st, pairs[0].0, pairs[0].1) + Potential(net, st, pairs[1..])
  }

  /** How many routers have changed their metric for how many destinations. */
  ghost function Changes(net: seq<Config>, st: NetState, st': NetState, pairs: seq<(nat, Ipv4Network)>): nat
    requires |st.nodes| == |st'.nodes| == |net| && InRange(net, pairs)
  {
    if pairs == [] then 0
    else (if Rank(net, st', pairs[0].0, pairs[0].1) != Rank(net, st, pairs[0].0, pairs[0].1) then 1 else 0)
         + Changes(net, st, st', pairs[1..])
  }

  /** The metric changes of all steps of a run. */
  ghost function TotalChanges(net: seq<Config>, st: NetState, steps: seq<NetStep>, pairs: seq<(nat, Ipv4Network)>): nat
    requires IsRun(net, st, steps) && |st.nodes| == |net| && InRange(net, pairs)
  {
    if steps == [] then 0
    else
      var front := steps[..|steps| - 1];
      TotalChanges(net, st, front, pairs) + Changes(net, RunOf(net, st, front), RunOf(net, st, steps), pairs)
  }

  lemma RankFalls(net: seq<Config>, st: NetState, st': NetState, r: nat, d: Ipv4Network)
    requires GoodNetwork(net) && Inv(net, st') && Progress(net, st, st') && r < |net|
    ensures Rank(net, st', r, d) <= Rank(net, st, r, d)
  {
    assert NotWorse(RoutesAt(st, r), RoutesAt(st', r));
    RankBound(net, st', r, d);
  }

  lemma RankBound(net: seq<Config>, st: NetState, r: nat, d: Ipv4Network)
    requires GoodNetwork(net) && Inv(net, st) && r < |net|
    ensures Rank(net, st, r, d) <= |net|
  {
    var e := Lookup(RoutesAt(st, r), d);
    if e.Some? {
      LookupMember(RoutesAt(st, r), e.value);
      BackedIsSmall(net, st, r, e.value);
    }
  }

  lemma {:induction false} ChangesCostPotential(net: seq<Config>, st: NetState, st': NetState,
                                                pairs: seq<(nat, Ipv4Network)>)
    requires GoodNetwork(net) && Inv(net, st') && Progress(net, st, st') && InRange(net, pairs)
    ensures Potential(net, st', pairs) + Changes(net, st, st', pairs) <= Potential(net, st, pairs)
  {
    if pairs != [] {
      RankFalls(net, st, st', pairs[0].0, pairs[0].1);
      ChangesCostPotential(net, st, st', pairs[1..]);
    }
  }

  lemma OneMore(a: nat, b: nat)
    ensures (a + 1) * b == a * b + b
  {
  }

  lemma {:induction false} PotentialBound(net: seq<Config>, st: NetState, pairs: seq<(nat, Ipv4Network)>)
    requires GoodNetwork(net) && Inv(net, st) && InRange(net, pairs)
    ensures Potential(net, st, pairs) <= |pairs| * |net|
  {
    if pairs != [] {
      RankBound(net, st, pairs[0].0, pairs[0].1);
      PotentialBound(net, st, pairs[1..]);
      OneMore(|pairs[1..]|, |net|);
    }
  }

  lemma {:induction false} RunCostsPotential(net: seq<Config>, st: NetState, steps: seq<NetStep>,
                                             pairs: seq<(nat, Ipv4Network)>)
    requires GoodNetwork(net) && Inv(net, st) && IsRun(net, st, steps) && UpdateOnly(steps) && InRange(net, pairs)
    ensures Inv(net, RunOf(net, st, steps))
    ensures Potential(net, RunOf(net, st, steps), pairs) + TotalChanges(net, st, steps, pairs)
         <= Potential(net, st, pairs)
  {
    if steps != [] {
      var front := steps[..|steps| - 1];
      RunCostsPotential(net, st, front, pairs);
      StepKeepsInv(net, RunOf(net, st, front), steps[|steps| - 1]);
      ChangesCostPotential(net, RunOf(net, st, front), RunOf(net, st, steps), pairs);
    }
  }

  /** In every update-only run, however long, the number of times that any router's metric for any
      of the destinations ds changes is at most routers x destinations x routers. */
  lemma {:induction false} MetricChangesAreBounded(net: seq<Config>, st: NetState, steps: seq<NetStep>,
                                                   ds: seq<Ipv4Network>)
    requires GoodNetwork(net) && Initial(net, st) && IsRun(net, st, steps) && UpdateOnly(steps)
    ensures TotalChanges(net, st, steps, Pairs(|net|, ds)) <= |net| * |ds| * |net|
  {
    InitialInv(net, st);
    RunCostsPotential(net, st, steps, Pairs(|net|, ds));
    PotentialBound(net, st, Pairs(|net|, ds));
  }
}

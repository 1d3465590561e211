/** The sequence numbers of a router's updates count its broadcasts, and so identify the updates. */
module Sequences {
  import opened Options
  import opened Ipv4Text
  import opened Routes
  import opened Nodes
  import opened Network
  import opened UpdateRuns

  /** An update carries its router's name and, in order, exactly the entries of the table, as texts. */
  lemma UpdateCarriesTable(cfg: Config, n: Node)
    ensures var u, rs := UpdateSent(cfg, n), n.table.routes;
      && u.routerId == cfg.id && |u.routes| == |rs|
      && (forall i :: 0 <= i < |rs| ==>
            && ParseNetwork(u.routes[i].destination) == Some(rs[i].destination)
            && ParseAddr(u.routes[i].nextHop) == Some(rs[i].nextHop) && u.routes[i].metric == rs[i].metric)
  {
    var u, rs := UpdateSent(cfg, n), n.table.routes;
    forall i | 0 <= i < |rs|
      ensures ParseNetwork(u.routes[i].destination) == Some(rs[i].destination)
      ensures ParseAddr(u.routes[i].nextHop) == Some(rs[i].nextHop)
    {
      NetworkRoundTrip(rs[i].destination);
      AddrRoundTrip(rs[i].nextHop);
    }
  }

  /** How many updates router r broadcasts in these steps. */
  ghost function Broadcasts(steps: seq<NetStep>, r: nat): nat {
    if steps == [] then 0
    else Broadcasts(steps[..|steps| - 1], r) + if steps[|steps| - 1] == Broadcast(r) then 1 else 0
  }

  lemma StepSequence(net: seq<Config>, st: NetState, step: NetStep, r: nat)
    requires Enabled(net, st, step) && r < |net|
    ensures |After(net, st, step).nodes| == |net|
    ensures After(net, st, step).nodes[r].sequence
         == if step == Broadcast(r) then (st.nodes[r].sequence + 1) % 0x1_0000_0000_0000_0000 else st.nodes[r].sequence
  {
    hide Candidates, UpdatedAll, Recorded;
  }

  lemma OneMoreMod(a: nat)
    ensures (a % 0x1_0000_0000_0000_0000 + 1) % 0x1_0000_0000_0000_0000 == (a + 1) % 0x1_0000_0000_0000_0000
  {
  }

  lemma StartsAtZero(net: seq<Config>, st: NetState, r: nat)
    requires Initial(net, st) && r < |net|
    ensures |st.nodes| == |net| && st.nodes[r].sequence == 0
  {
  }

  /** After any run a router's sequence number is the number of its broadcasts, as a 64-bit number. */
  lemma {:induction false} SequenceCounts(net: seq<Config>, st: NetState, steps: seq<NetStep>, r: nat)
    requires Initial(net, st) && IsRun(net, st, steps) && r < |net|
    ensures |RunOf(net, st, steps).nodes| == |net|
    ensures RunOf(net, st, steps).nodes[r].sequence == Broadcasts(steps, r) % 0x1_0000_0000_0000_0000
  {
    if steps == [] {
      StartsAtZero(net, st, r);
    } else {
      hide Initial, After, NodeAfter, Enabled;
      var front, step := steps[..|steps| - 1], steps[|steps| - 1];
      SequenceCounts(net, st, front, r);
      StepSequence(net, RunOf(net, st, front), step, r);
      OneMoreMod(Broadcasts(front, r));
    }
  }

  /** Step i of the run is the broadcast that message m comes from. */
  ghost predicate SentAt(net: seq<Config>, st: NetState, steps: seq<NetStep>, m: Message, i: nat) {
    && i < |steps| && steps[i] == Broadcast(m.sender)
    && m.sequence == Broadcasts(steps[..i + 1], m.sender) % 0x1_0000_0000_0000_0000
    && IsRun(net, st, steps[..i]) && m.sender < |RunOf(net, st, steps[..i]).nodes|
    && m.entries == RoutesAt(RunOf(net, st, steps[..i]), m.sender)
  }

  lemma SentAtEarlier(net: seq<Config>, st: NetState, steps: seq<NetStep>, step: NetStep, m: Message, i: nat)
    requires SentAt(net, st, steps, m, i)
    ensures SentAt(net, st, steps + [step], m, i)
  {
    var more := steps + [step];
    assert more[..i + 1] == steps[..i + 1] && more[..i] == steps[..i];
  }

  lemma SentNow(net: seq<Config>, st: NetState, front: seq<NetStep>, step: NetStep, m: Message)
    requires Initial(net, st) && IsRun(net, st, front) && Enabled(net, RunOf(net, st, front), step)
    requires step.Broadcast? && m in Sent(net[step.router], step.router, RunOf(net, st, front).nodes[step.router])
    ensures SentAt(net, st, front + [step], m, |front|)
  {
    hide Initial, Enabled, Sent, IsRun, RunOf, Broadcasts, NodeAfter, After;
    var steps := front + [step];
    assert steps[..|front|] == front && steps[..|front| + 1] == steps && steps[|front|] == step;
    InRange(net, RunOf(net, st, front), step);
    BroadcastsSnoc(front, step.router);
    SequenceCounts(net, st, front, step.router);
    SentMessage(net[step.router], step.router, RunOf(net, st, front).nodes[step.router], m);
    OneMoreMod(Broadcasts(front, step.router));
  }

  lemma InRange(net: seq<Config>, st: NetState, step: NetStep)
    requires Enabled(net, st, step)
    ensures |st.nodes| == |net| && step.router < |net|
  {
  }

  lemma BroadcastsSnoc(front: seq<NetStep>, r: nat)
    ensures Broadcasts(front + [Broadcast(r)], r) == Broadcasts(front, r) + 1
  {
    assert (front + [Broadcast(r)])[..|front|] == front;
  }

  lemma SentMessage(cfg: Config, r: nat, n: Node, m: Message)
    requires m in Sent(cfg, r, n)
    ensures m.sender == r && m.entries == n.table.routes
    ensures m.sequence == (n.sequence + 1) % 0x1_0000_0000_0000_0000
  {
  }

  /** The k-th update a router broadcasts carries k, as a 64-bit number, and the table at that time. */
  lemma {:induction false} MessagesAreNumbered(net: seq<Config>, st: NetState, steps: seq<NetStep>, m: Message)
    requires Initial(net, st) && IsRun(net, st, steps) && m in RunOf(net, st, steps).sent
    ensures exists i: nat :: SentAt(net, st, steps, m, i)
  {
    hide SentAt, Enabled, Sent, NodeAfter;
    if steps != [] {
      var front, step := steps[..|steps| - 1], steps[|steps| - 1];
      assert steps == front + [step];
      if m in RunOf(net, st, front).sent {
        MessagesAreNumbered(net, st, front, m);
        var i: nat :| SentAt(net, st, front, m, i);
        SentAtEarlier(net, st, front, step, m, i);
      } else {
        SentNow(net, st, front, step, m);
      }
    }
  }

  lemma {:induction false} BroadcastsGrow(steps: seq<NetStep>, r: nat, i: nat, j: nat)
    requires i < j < |steps| && steps[j] == Broadcast(r)
    ensures Broadcasts(steps[..i + 1], r) < Broadcasts(steps[..j + 1], r)
  {
    BroadcastsMonotone(steps, r, i + 1, j);
    assert steps[..j + 1][..j] == steps[..j];
  }

  lemma {:induction false} BroadcastsMonotone(steps: seq<NetStep>, r: nat, i: nat, j: nat)
    requires i <= j <= |steps|
    ensures Broadcasts(steps[..i], r) <= Broadcasts(steps[..j], r)
  {
    if i < j {
      BroadcastsMonotone(steps, r, i, j - 1);
      assert steps[..j][..j - 1] == steps[..j - 1];
    }
  }

  lemma ModDiffers(a: nat, b: nat)
    requires a < b < a + 0x1_0000_0000_0000_0000
    ensures a % 0x1_0000_0000_0000_0000 != b % 0x1_0000_0000_0000_0000
  {
  }

  /** Fewer than 2^64 broadcasts apart, two broadcasts of a router carry different numbers. */
  lemma {:induction false} NumbersDiffer(net: seq<Config>, st: NetState, steps: seq<NetStep>, m: Message, m': Message,
                                         i: nat, j: nat)
    requires SentAt(net, st, steps, m, i) && SentAt(net, st, steps, m', j) && m.sender == m'.sender && i < j
    requires Broadcasts(steps[..j + 1], m.sender) < Broadcasts(steps[..i + 1], m.sender) + 0x1_0000_0000_0000_0000
    ensures m.sequence != m'.sequence
  {
    BroadcastsGrow(steps, m.sender, i, j);
    ModDiffers(Broadcasts(steps[..i + 1], m.sender), Broadcasts(steps[..j + 1], m.sender));
  }

  /** So, short of 2^64 broadcasts, equal numbers of one sender mean one and the same update. */
  lemma {:induction false} NumberIdentifiesUpdate(net: seq<Config>, st: NetState, steps: seq<NetStep>, m: Message,
                                                  m': Message)
    requires Initial(net, st) && IsRun(net, st, steps)
    requires m in RunOf(net, st, steps).sent && m' in RunOf(net, st, steps).sent
    requires m.sender == m'.sender && m.sequence == m'.sequence
    requires Broadcasts(steps, m.sender) <= 0x1_0000_0000_0000_0000
    ensures m.entries == m'.entries
  {
    hide IsRun, RunOf;
    MessagesAreNumbered(net, st, steps, m);
    MessagesAreNumbered(net, st, steps, m');
    var i: nat :| SentAt(net, st, steps, m, i);
    var j: nat :| SentAt(net, st, steps, m', j);
    OneNumberOneStep(net, st, steps, m, m', i, j);
  }

  lemma OneNumberOneStep(net: seq<Config>, st: NetState, steps: seq<NetStep>, m: Message, m': Message, i: nat, j: nat)
    requires SentAt(net, st, steps, m, i) && SentAt(net, st, steps, m', j)
    requires m.sender == m'.sender && m.sequence == m'.sequence
    requires Broadcasts(steps, m.sender) <= 0x1_0000_0000_0000_0000
    ensures i == j
  {
    AtLeastOne(steps, m.sender, i);
    AtLeastOne(steps, m.sender, j);
    if i < j {
      NumbersDiffer(net, st, steps, m, m', i, j);
    } else if j < i {
      NumbersDiffer(net, st, steps, m', m, j, i);
    }
  }

  lemma AtLeastOne(steps: seq<NetStep>, r: nat, i: nat)
    requires i < |steps| && steps[i] == Broadcast(r)
    ensures 1 <= Broadcasts(steps[..i + 1], r) <= Broadcasts(steps, r)
  {
    assert steps[..i + 1][..i] == steps[..i] && steps[..|steps|] == steps;
    BroadcastsMonotone(steps, r, i + 1, |steps|);
  }
}

/** One concrete router, the right-hand one of the row of three, and updates it can receive. */
module RouterExamples {
  import opened Options
  import opened Ipv4
  import opened Ipv4Text
  import opened Routes
  import opened KernelMirror
  import opened Nodes
  import opened Invariants
  import opened Batches
  import opened Timeouts
  import opened Routers
  import opened Lans
  import I = Interleaving
  import opened Shutdown
  import opened Orphans

  // ----- an update that flips

  lemma SmallNumbers()
    ensures PrintNumber(10) == "10" && PrintNumber(9) == "9" && PrintNumber(24) == "24"
    ensures forall n :: 0 <= n < 5 ==> PrintNumber(n) == ["01234"[n]]
  {
    assert PrintNumber(1) == "1" && PrintNumber(2) == "2";
  }

  lemma AddressText(h: nat, text: string)
    requires (h == 0 && text == "10.9.0.0") || (h == 1 && text == "10.9.0.1")
    ensures text == PrintAddr(0x0A09_0000 + h)
  {
    SmallNumbers();
    hide PrintNumber;
  }

  lemma DestinationText(h: nat, text: string)
    requires (h == 0 && text == "10.9.0.0/24") || (h == 1 && text == "10.9.0.1/24")
    ensures text == PrintNetwork(Net(0x0A09_0000 + h, 24))
  {
    hide PrintNumber, PrintAddr;
    SmallNumbers();
    var address := if h == 0 then "10.9.0.0" else "10.9.0.1";
    AddressText(h, address);
    JoinedText(h, address, text);
  }

  lemma JoinedText(h: nat, address: string, text: string)
    requires (h == 0 && address == "10.9.0.0" && text == "10.9.0.0/24")
          || (h == 1 && address == "10.9.0.1" && text == "10.9.0.1/24")
    ensures text == address + ['/'] + "24"
  {
  }

  lemma HopText(h: nat, text: string)
    requires (h == 3 && text == "10.0.2.3") || (h == 4 && text == "10.0.2.4")
    ensures text == PrintAddr(Lan(2, h).ip)
  {
    SmallNumbers();
    hide PrintNumber;
  }

  /** The right-hand router of the row. */
  function Right(): Config {
    Machine("C", [Lan(2, 2)])
  }

  /** One network, advertised once as 10.9.0.0/24 and once by an address inside it, via two hops
      on the receiver's own subnet. */
  function TwiceTheSame(): RoutingUpdate {
    RoutingUpdate("B", 1, [RouteInfo("10.9.0.0/24", 1, "10.0.2.3"), RouteInfo("10.9.0.1/24", 1, "10.0.2.4")])
  }

  function Offer(h: nat): RouteEntry
    requires h < 256
  {
    RouteEntry(Net(0x0A09_0000, 24), Lan(2, h).ip, "eth0", 2, Protocol)
  }

  lemma DestinationRead(h: nat, text: string)
    requires (h == 0 && text == "10.9.0.0/24") || (h == 1 && text == "10.9.0.1/24")
    ensures Canonical(text) == Some(Net(0x0A09_0000, 24))
  {
    var d := Net(0x0A09_0000 + h, 24);
    DestinationText(h, text);
    NetworkRoundTrip(d);
    CanonicalIsMasked(text);
    BlockStart(0xA_0900);
    assert Pow2(8) == 256;
    hide PrintNetwork, Canonical, ClearLow;
    ClearLowIsBlock(0x0A09_0000, d.ip, 8);
  }

  lemma HopRead(h: nat, text: string)
    requires (h == 3 && text == "10.0.2.3") || (h == 4 && text == "10.0.2.4")
    ensures ParseAddr(text) == Some(Lan(2, h).ip)
  {
    HopText(h, text);
    AddrRoundTrip(Lan(2, h).ip);
  }

  lemma RightListens()
    ensures IsBestInterface(Right().interfaces, Lan(2, 1).ip, 0)
    ensures Right().interfaces == [Port(0, Lan(2, 2))]
  {
    LanBlock(2, 2, Lan(2, 1).ip);
    hide ClearLow;
  }

  lemma OfferMade(text: string, h: nat, hop: string)
    requires h < 256 && Canonical(text) == Some(Net(0x0A09_0000, 24)) && ParseAddr(hop) == Some(Lan(2, h).ip)
    ensures Candidate(Right(), RouteInfo(text, 1, hop), Lan(2, 1).ip) == Some(Offer(h))
  {
    hide ParseAddr, Canonical, ClearLow, Right;
    RightListens();
    LanBlock(2, 2, Lan(2, h).ip);
  }

  lemma OffersMade()
    ensures Candidates(Right(), TwiceTheSame().routes, Lan(2, 1).ip) == [Some(Offer(3)), Some(Offer(4))]
  {
    hide ParseAddr, Canonical, Right, Candidate, Lan, Offer;
    DestinationRead(0, "10.9.0.0/24");
    DestinationRead(1, "10.9.0.1/24");
    HopRead(3, "10.0.2.3");
    HopRead(4, "10.0.2.4");
    OfferMade("10.9.0.0/24", 3, "10.0.2.3");
    OfferMade("10.9.0.1/24", 4, "10.0.2.4");
  }

  lemma OffersAreValid(h: nat)
    requires h == 3 || h == 4
    ensures ValidRoute(Right().local, Offer(h))
  {
    LanBlock(2, 2, Offer(h).nextHop);
    BlockStart(0xA_0900);
    hide ClearLow;
    assert Right().local[0] == Lan(2, 2);
  }

  /** The router that starts and then receives this update twice ends with the first hop, not the second. */
  lemma {:induction false} UpdateFlips(now: nat, later: nat)
    ensures var sender := Lan(2, 1).ip;
      var once := Processed(Right(), Started(Right()), TwiceTheSame(), sender, now);
      var twice := Processed(Right(), once, TwiceTheSame(), sender, later);
      && Lookup(once.table.routes, Net(0x0A09_0000, 24)) == Some(Offer(4))
      && Lookup(twice.table.routes, Net(0x0A09_0000, 24)) == Some(Offer(3))
  {
    var cfg, sender := Right(), Lan(2, 1).ip;
    hide Candidates, ValidRoute, Processed, StartTable, Right, TwiceTheSame;
    OffersMade();
    OffersAreValid(3);
    OffersAreValid(4);
    RightStartsWithout();
    RepeatedDestinationsFlip(cfg, Started(cfg), TwiceTheSame(), sender, now, later, Offer(3), Offer(4));
  }

  lemma RightStartsWithout()
    ensures Distinct(Started(Right()).table.routes)
    ensures Lookup(Started(Right()).table.routes, Net(0x0A09_0000, 24)) == None
  {
    var rs := Started(Right()).table.routes;
    StartIsWellFormed(Right(), map[]);
    hide StartTable;
    if Lookup(rs, Net(0x0A09_0000, 24)).Some? {
      LookupMember(rs, Lookup(rs, Net(0x0A09_0000, 24)).value);
    }
  }

  // ----- one offer, received once, again, or halfway

  const SECOND: nat := 1_000_000_000

  function Text(): string {
    "10.9.0.0/24"
  }

  /** The network 10.9.0.0/24 via 10.0.2.3, from router B at 10.0.2.1. */
  function Once(): RoutingUpdate {
    RoutingUpdate("B", 1, [RouteInfo(Text(), 1, "10.0.2.3")])
  }

  function Teacher(): Addr {
    Lan(2, 1).ip
  }

  function Taught(): Ipv4Network {
    Net(0x0A09_0000, 24)
  }

  lemma OfferIsAlone()
    ensures Candidates(Right(), Once().routes, Teacher()) == [Some(Offer(3))]
    ensures Texts(Once().routes) == [Text()]
  {
    hide ParseAddr, Canonical, Right, Candidate, Lan, Offer;
    DestinationRead(0, Text());
    HopRead(3, "10.0.2.3");
    OfferMade(Text(), 3, "10.0.2.3");
  }

  lemma RightIsSane()
    ensures SaneConfig(Right()) && !OwnAddress(Right(), V4(Teacher())) && Teacher() != UNSPECIFIED
    ensures !IsLocal(Right().local, Taught()) && "B" != Right().id
  {
    assert "B"[0] != "C"[0];
    LanBlock(2, 2, 0);
    BlockStart(0xA_0900);
    hide ClearLow;
    forall a: Addr | Lan(2, 2).Contains(a)
      ensures !IsLoopback(a)
    {
      LanBlock(2, 2, a);
    }
    assert Right().local[0] == Lan(2, 2);
  }

  /** A router that has no route states yet and knows no route to 10.9.0.0/24. */
  ghost predicate Unaware(n: Node) {
    WellFormed(Right(), n.table.routes) && n.states == map[] && Lookup(n.table.routes, Taught()) == None
  }

  lemma StartIsUnaware(kernel: Kernel)
    ensures Unaware(StartedOver(Right(), kernel)) && Orderly(Right(), StartedOver(Right(), kernel))
  {
    var n := StartedOver(Right(), kernel);
    StartIsWellFormed(Right(), kernel);
    hide StartTable;
    forall d | Lookup(n.table.routes, d).Some?
      ensures Lookup(n.table.routes, d).value.source == Direct && IsOurNetwork(Right().interfaces, d)
    {
      LookupMember(n.table.routes, Lookup(n.table.routes, d).value);
    }
  }

  /** The offer becomes the route, under the text as advertised. */
  lemma OfferIsHeld(n: Node, now: nat)
    requires Unaware(n)
    ensures Holds(Processed(Right(), n, Once(), Teacher(), now), Text(), Offer(3), now)
    ensures OnlyBy(Processed(Right(), n, Once(), Teacher(), now).states, Taught(), "B")
  {
    hide Candidates, Texts, ValidRoute, StartTable, Processed, Lan, Right, WellFormed, Canonical;
    var cfg := Right();
    OfferIsAlone();
    RightIsSane();
    DestinationRead(0, Text());
    OfferIsRoute(n, now);
    OfferIsRecorded(n, now);
  }

  lemma OfferIsRoute(n: Node, now: nat)
    requires Unaware(n)
    ensures Lookup(Processed(Right(), n, Once(), Teacher(), now).table.routes, Taught()) == Some(Offer(3))
  {
    OfferIsAlone();
    RightIsSane();
    hide Candidates, Processed, Right, WellFormed, SaneConfig, Lan, Once, Teacher;
    assert DistinctDestinations([Some(Offer(3))]) && Some(Offer(3)) in [Some(Offer(3))];
    BatchIsExact(Right(), n, Once(), Teacher(), now, Offer(3));
  }

  lemma OfferIsRecorded(n: Node, now: nat)
    requires Unaware(n)
    ensures var states := Processed(Right(), n, Once(), Teacher(), now).states;
      && Text() in states && states[Text()].lastAdvertised == now
      && states[Text()].route.destination == Taught() && OnlyBy(states, Taught(), "B")
  {
    OfferIsAlone();
    DestinationRead(0, Text());
    assert Once().routerId == "B";
    hide Candidates, Texts, Processed, Right, WellFormed, Lan, Teacher, Canonical, Once, CandidateShape;
    var cfg, states := Right(), Processed(Right(), n, Once(), Teacher(), now).states;
    assert AcceptsUnder(n.table.routes, Texts(Once().routes), Candidates(cfg, Once().routes, Teacher()),
                        Text()) by {
      assert Texts(Once().routes)[0] == Text();
    }
    StampedByUpdate(cfg, n, Once(), Teacher(), now, Text());
    ProcessedSound(cfg, n, Once(), Teacher(), now);
    forall k | k in states
      ensures states[k].advertisingNeighbor == "B"
    {
      StampedByUpdate(cfg, n, Once(), Teacher(), now, k);
    }
  }

  // ----- the steady route

  /** B greets the router, which then hears its update. */
  ghost function Learned(): Node {
    Run(Right(), Started(Right()),
        [Timed(0, Hello(Greeting("B", map[]), V4(Teacher()))), Timed(0, Update(Once(), V4(Teacher())))])
  }

  function Again(): Timed {
    Timed(8 * SECOND, Update(Once(), V4(Teacher())))
  }

  ghost function Greeted(): Node {
    Started(Right()).(neighbors := map["B" := NeighborInfo(map[], 0, V4(Teacher()), true)])
  }

  lemma OnceIsForeign()
    ensures Once().routerId != Right().id && !OwnAddress(Right(), V4(Teacher()))
  {
    RightIsSane();
  }

  lemma ReceivedIsProcessed(n: Node, te: Timed)
    requires te == Timed(0, Update(Once(), V4(Teacher())))
    requires "B" in n.neighbors && n.neighbors["B"] == NeighborInfo(map[], 0, V4(Teacher()), true)
    ensures Happened(Right(), n, te) == Processed(Right(), n, Once(), Teacher(), 0)
    ensures "B" in NewlyDead(Processed(Right(), n, Once(), Teacher(), 0).neighbors, 13 * SECOND)
  {
    OnceIsForeign();
    assert Once().routerId == "B";
    hide Right, SaneConfig, OwnAddress, Once, Teacher, Candidates, UpdatedAll, Recorded;
    assert n.neighbors["B" := n.neighbors["B"]] == n.neighbors;
  }

  lemma RunOfTwo(cfg: Config, n: Node, te: Timed, te': Timed)
    ensures Run(cfg, n, [te, te']) == Happened(cfg, Happened(cfg, n, te), te')
  {
    hide Happened;
    assert [te, te'][..1] == [te] && [te][..0] == [];
    assert Run(cfg, n, [te]) == Happened(cfg, n, te);
  }

  lemma GreetedIs()
    ensures Happened(Right(), Started(Right()), Timed(0, Hello(Greeting("B", map[]), V4(Teacher())))) == Greeted()
    ensures Unaware(Greeted()) && Orderly(Right(), Greeted())
  {
    StartIsUnaware(map[]);
    RightIsSane();
    hide Right, StartTable, WellFormed, SoundStates, Teacher, SaneConfig, OwnAddress;
  }

  lemma LearnedIs()
    ensures Learned() == Processed(Right(), Greeted(), Once(), Teacher(), 0)
    ensures Unaware(Greeted()) && Orderly(Right(), Greeted())
  {
    GreetedIs();
    RunOfTwo(Right(), Started(Right()), Timed(0, Hello(Greeting("B", map[]), V4(Teacher()))),
             Timed(0, Update(Once(), V4(Teacher()))));
    ReceivedIsProcessed(Greeted(), Timed(0, Update(Once(), V4(Teacher()))));
    hide Right, Happened, Processed, Once, Teacher, Unaware, Orderly, Greeted;
  }

  /** What the theorem about repeated routes asks for is the case here. */
  lemma LearnedHolds()
    ensures Orderly(Right(), Learned()) && Holds(Learned(), Text(), Offer(3), 0)
    ensures "B" in Learned().neighbors
    ensures NothingBetter(Right(), Again(), Offer(3))
  {
    LearnedIs();
    OfferIsAlone();
    hide Right, WellFormed, SoundStates, Candidates, Once, Teacher, Learned, Offer, Unaware, Holds;
    var greeted := Greeted();
    OfferIsHeld(greeted, 0);
    ProcessedOrderly(Right(), greeted, Once(), Teacher(), 0);
    RepeatIsNotBetter([Some(Offer(3))], Offer(3));
  }

  lemma RepeatedHolds()
    ensures var repeated := Run(Right(), Learned(), [Again()]);
      Orderly(Right(), repeated) && Holds(repeated, Text(), Offer(3), 0)
  {
    LearnedHolds();
    hide Right, Learned, Offer, NothingBetter, Orderly, Happened;
    HoldRun(Right(), Learned(), [Again()], Text(), Offer(3), 0);
    RunOrderly(Right(), Learned(), [Again()]);
  }

  lemma SenderStaysAlive()
    ensures "B" !in NewlyDead(Run(Right(), Learned(), [Again()]).neighbors, 17 * SECOND)
  {
    LearnedHolds();
    RightIsSane();
    assert Once().routerId == "B";
    hide Right, Learned, Orderly, Candidates, Once, Teacher, SaneConfig, OwnAddress, Recorded, UpdatedAll;
    assert [Again()][..0] == [];
    assert Run(Right(), Learned(), [Again()]) == Happened(Right(), Learned(), Again());
  }

  /** The update repeated after 8 seconds leaves the route in place and its neighbour alive, and a cleanup
      after 17 seconds removes the route. */
  lemma {:induction false} SteadyRouteIsLost()
    ensures var repeated := Run(Right(), Learned(), [Again()]);
      && Lookup(repeated.table.routes, Taught()) == Some(Offer(3))
      && "B" !in NewlyDead(repeated.neighbors, 17 * SECOND)
      && Lookup(Cleaned(repeated, 17 * SECOND).table.routes, Taught()) == None
  {
    hide Right, Learned, Again, Orderly, Cleaned, NewlyDead, Run;
    RepeatedHolds();
    SenderStaysAlive();
    CleanupHoldsOrTakes(Right(), Run(Right(), Learned(), [Again()]), Text(), Offer(3), 0, 17 * SECOND);
  }

  lemma OnlyTextIsStamped(n: Node, now: nat, k: string)
    requires k != Text() && k !in n.states
    ensures k !in Processed(Right(), n, Once(), Teacher(), now).states
  {
    OfferIsAlone();
    hide Right, Once, Teacher, Text, Candidates, Texts, Processed;
    StampedByUpdate(Right(), n, Once(), Teacher(), now, k);
  }

  lemma LearnedState()
    ensures Learned().neighbors == Greeted().neighbors && forall k :: k in Learned().states ==> k == Text()
  {
    LearnedIs();
    hide Right, Once, Teacher, Text, Learned, Recorded, UpdatedAll, Unaware, Orderly;
    assert Greeted().states == map[];
    forall k | k != Text()
      ensures k !in Processed(Right(), Greeted(), Once(), Teacher(), 0).states
    {
      OnlyTextIsStamped(Greeted(), 0, k);
    }
  }

  ghost function HeardAgain(): Node {
    Learned().(neighbors := map["B" := NeighborInfo(map[], 8 * SECOND, V4(Teacher()), true)])
  }

  lemma AgainHappens(n: Node)
    requires n.neighbors == Greeted().neighbors
    ensures var heard := n.(neighbors := map["B" := NeighborInfo(map[], 8 * SECOND, V4(Teacher()), true)]);
      Happened(Right(), n, Again()) == Processed(Right(), heard, Once(), Teacher(), 8 * SECOND)
  {
    OnceIsForeign();
    assert Once().routerId == "B";
    hide Right, Once, Teacher, OwnAddress, Candidates, UpdatedAll, Recorded;
  }

  lemma RepeatedIs()
    ensures Run(Right(), Learned(), [Again()]) == Processed(Right(), HeardAgain(), Once(), Teacher(), 8 * SECOND)
  {
    LearnedState();
    AgainHappens(Learned());
    hide Right, Once, Teacher, Learned, Processed, Happened, Again, Greeted;
    assert [Again()][..0] == [] && Run(Right(), Learned(), [Again()]) == Happened(Right(), Learned(), Again());
  }

  /** The one state the router has, and when it heard its one neighbour. */
  lemma RepeatedState()
    ensures var repeated := Run(Right(), Learned(), [Again()]);
      && (forall k :: k in repeated.states ==> k == Text())
      && (forall id :: id in repeated.neighbors ==> repeated.neighbors[id].lastSeen == 8 * SECOND)
  {
    RepeatedIs();
    LearnedState();
    assert HeardAgain().states == Learned().states;
    assert forall id :: id in HeardAgain().neighbors ==> HeardAgain().neighbors[id].lastSeen == 8 * SECOND;
    hide Right, Once, Teacher, Text, Learned, Run, HeardAgain, Recorded, UpdatedAll;
    forall k | k != Text()
      ensures k !in Processed(Right(), HeardAgain(), Once(), Teacher(), 8 * SECOND).states
    {
      OnlyTextIsStamped(HeardAgain(), 8 * SECOND, k);
    }
  }

  lemma NothingIsGivenUp(n: Node, k: string, c: RouteEntry)
    requires Holds(n, k, c, 0) && forall k' :: k' in n.states ==> k' == k
    requires forall id :: id in n.neighbors ==> n.neighbors[id].lastSeen == 8 * SECOND
    ensures !GivenUpAfterSixteen(n, 16 * SECOND, c.destination) && !HopDeadAfterTwelve(n, 16 * SECOND, c.nextHop)
  {
  }

  /** The counterpart: after 16 seconds, 8 after the repetition, a cleanup keeps the route. */
  lemma {:induction false} SteadyRouteIsKept()
    ensures var repeated := Run(Right(), Learned(), [Again()]);
      Lookup(Cleaned(repeated, 16 * SECOND).table.routes, Taught()) == Some(Offer(3))
  {
    assert Offer(3).destination == Taught();
    hide Right, Learned, Again, Run, Cleaned, Offer, Text, Teacher, GivenUpAfterSixteen, HopDeadAfterTwelve;
    RepeatedHolds();
    RepeatedState();
    var repeated := Run(Right(), Learned(), [Again()]);
    OrderlyParts(Right(), repeated);
    assert WellFormed(Right(), repeated.table.routes);
    NothingIsGivenUp(repeated, Text(), Offer(3));
    hide Orderly, WellFormed, SoundStates;
    KeptInSeconds(Right(), repeated, 16 * SECOND, Taught());
  }

  /** And after 12 seconds of silence its neighbour is not reported yet. */
  lemma {:induction false} SilentNeighborIsKept()
    ensures "B" in Learned().neighbors && Learned().neighbors["B"].isAlive
    ensures "B" !in NewlyDead(Learned().neighbors, 12 * SECOND)
  {
    LearnedState();
    hide Learned;
  }

  lemma OfferIsAccepted(n: Node)
    requires Unaware(n)
    ensures AcceptsUnder(n.table.routes, Texts(Once().routes), Candidates(Right(), Once().routes, Teacher()), Text())
  {
    OfferIsAlone();
    hide Candidates, Texts, Right, WellFormed, Teacher, Once, Text;
    var texts := [Text()];
    assert texts[0] == Text();
  }

  lemma OfferRestamps(n: Node)
    requires Unaware(n)
    ensures Restamps(Right(), n, Timed(0, Update(Once(), V4(Teacher()))), Text())
  {
    hide Candidates, Texts, Right, Unaware, OwnAddress, Teacher, Once, Text, AcceptsUnder;
    OfferIsAccepted(n);
    OnceIsForeign();
  }

  lemma TextIsHeld()
    ensures Text() in Learned().states
  {
    LearnedHolds();
  }

  /** Router B greets and stays silent after its one update: a cleanup after 13 seconds removes the route. */
  lemma {:induction false} SilentRouteIsLost()
    ensures "B" in NewlyDead(Learned().neighbors, 13 * SECOND)
    ensures Lookup(Cleaned(Learned(), 13 * SECOND).table.routes, Taught()) == None
  {
    var greeted := Greeted();
    var update := Timed(0, Update(Once(), V4(Teacher())));
    LearnedIs();
    TextIsHeld();
    OfferRestamps(greeted);
    DestinationRead(0, Text());
    ReceivedIsProcessed(greeted, update);
    hide Right, Learned, Greeted, Orderly, Unaware, Restamps, Cleaned, Processed, Happened, Once, Teacher, Canonical,
      NewlyDead, Holds, Text, Offer;
    assert [update][..0] == [] && Run(Right(), greeted, [update]) == Happened(Right(), greeted, update);
    DeadNeighborsRoutesGo(Right(), greeted, [update], Text(), "B", 13 * SECOND);
  }

  // ----- the orphan

  /** If a cleanup removes the states of B between the two halves of the update, the route stays without one. */
  lemma {:induction false} OfferIsOrphaned(now: nat)
    ensures Orphan(Interrupted(Right(), Started(Right()), Once(), Teacher(), now), Taught())
  {
    OfferIsAlone();
    OffersAreValid(3);
    RightIsSane();
    StartIsUnaware(map[]);
    hide Candidates, Right, Lan, ValidRoute, Orphan, OnlyBy, SaneConfig, Orderly, StartTable, Interrupted, Processed,
      WellFormed;
    OfferIsHeld(Started(Right()), now);
    assert Once().routerId == "B";
    assert Offers(Right(), [Some(Offer(3))], Offer(3));
    InterruptedUpdateOrphans(Right(), Started(Right()), Once(), Teacher(), now, Offer(3));
  }

  // ----- the kernel that is not restored

  /** A kernel in which someone else has put the very route that B is going to offer. */
  function Before(): Kernel {
    map[Taught() := Lan(2, 3).ip]
  }

  /** The locked steps of the handler that receives the update. */
  ghost function Handling(n: Node, now: nat): seq<I.LockedStep> {
    var cands, rs := Candidates(Right(), Once().routes, Teacher()), n.table.routes;
    [I.SetNeighbors(UpdateHeard(n.neighbors, Once().routerId, now)),
     I.Record(AcceptedStates(rs, Texts(Once().routes), cands, Once().routerId, now)),
     I.Apply(AcceptedRoutes(rs, cands))]
  }

  lemma LastStepClaims(cfg: Config, start: Node, s0: I.LockedStep, s1: I.LockedStep, routes: seq<RouteEntry>,
                       key: Ipv4Network)
    requires s0.SetNeighbors? && s1.Record?
    requires Claims(start.table.kernel, UpdatedAll(cfg.local, start.table, routes), key)
    ensures RunClaims(cfg, start, [s0, s1, I.Apply(routes)], key)
  {
    hide Claims, UpdatedAll;
    var steps := [s0, s1, I.Apply(routes)];
    I.RunSnoc(cfg, start, [], s0);
    I.RunSnoc(cfg, start, [s0], s1);
    assert steps[..2] == [s0] + [s1] && [] + [s0] == [s0];
    assert routes[..|routes|] == routes;
    assert StepClaims(cfg, start.table.kernel, I.Run(cfg, start, steps[..2]), steps[2], key);
  }

  lemma OfferClaims(now: nat)
    ensures var start := StartedOver(Right(), Before());
      RunClaims(Right(), start, Handling(start, now), Taught())
  {
    var start := StartedOver(Right(), Before());
    StartIsUnaware(Before());
    StartIsFresh(Right(), Before());
    OfferIsRoute(start, now);
    hide Right, StartedOver, Candidates, Texts, AcceptedStates, AcceptedRoutes, UpdateHeard, UpdatedAll, RunClaims;
    var cands, rs := Candidates(Right(), Once().routes, Teacher()), start.table.routes;
    LastStepClaims(Right(), start, I.SetNeighbors(UpdateHeard(start.neighbors, Once().routerId, now)),
                   I.Record(AcceptedStates(rs, Texts(Once().routes), cands, Once().routerId, now)),
                   AcceptedRoutes(rs, cands), Taught());
  }

  /** The router starts over this kernel, receives the update, and shuts down: the route is gone. */
  lemma {:induction false} KernelIsNotRestored(now: nat)
    ensures var start := StartedOver(Right(), Before());
      var received := UpdateReceived(Right(), start, Once(), V4(Teacher()), now);
      && Gateway(start.table.kernel, Taught()) == Some(Lan(2, 3).ip)
      && Gateway(AfterShutdown(received.table), Taught()) == None
  {
    var start := StartedOver(Right(), Before());
    StartIsFresh(Right(), Before());
    RightIsSane();
    assert Once().routerId == "B";
    OfferClaims(now);
    hide Right, StartedOver, RunClaims, SaneConfig, OwnAddress, UpdateReceived, Candidates, Texts, AcceptedStates,
      AcceptedRoutes, UpdateHeard, AfterShutdown;
    I.UpdateIsLockedSteps(Right(), start, Once(), Teacher(), now);
    PrefixAfterShutdown(Right(), start, Handling(start, now), Taught());
  }
}

/** The roulette arrays have 1000 cells (antconf.cc:1008-1017), and runs go beyond them: a run that does. */
module Overflow {
  import opened Types
  import opened PacketQueue
  import opened RoutingTable
  import opened PheromoneTable
  import opened Requests
  import opened Protocol
  import opened NodeInvariant
  import opened Frames
  import opened Network
  import Roulette

  /** In this event an outward ant makes its receiver write beyond the arrays. */
  ghost predicate Spills(net: Net, ev: Event) {
    && Enabled(net, ev) && ev.Deliver? && net.wire[ev.i].msg.Go?
    && var a := net.wire[ev.i].msg.go;
       Overruns(net.nodes[net.wire[ev.i].to], net.now, a.(ttl := a.ttl - 1))
  }

  /** No event of the run does. */
  ghost predicate InBounds(net: Net, evs: seq<Event>)
    requires Legal(net, evs)
    decreases |evs|
  {
    evs == [] || (InBounds(net, evs[..|evs| - 1]) && !Spills(Run(net, evs[..|evs| - 1]), evs[|evs| - 1]))
  }

  // ---------------------------------------------------------------- one node of the witness

  /** A node that has nothing but the neighbour nb, or no neighbour yet. */
  ghost predicate Plain(s: Node, index: Addr, nb: Addr, met: bool) {
    && s.index == index && s.ids == [] && s.phtable == []
    && s.nbNum == |s.nbs|
    && (if met then |s.nbs| == 1 && s.nbs[0].addr == nb else s.nbs == [])
  }

  /** Node 0, with no demand of its own. */
  ghost predicate Quiet(s: Node, met: bool) {
    Plain(s, 0, 1, met) && s.asks == [] && !s.askRt && s.rtable == [] && s.queue == []
  }

  /** Node 1, which has been asking for node 2 through so many ageing ticks. */
  ghost predicate Longing(s: Node, met: bool, ticks: nat) {
    && Plain(s, 1, 0, met) && s.askRt && |s.asks| == 1 && s.asks[0].dst == 2 && s.asks[0].qte == Quantity(ticks)
    && s.rtable == [Fresh(NO_TARGET, 2)] && forall d :: d in s.queue ==> d.daddr == 2
  }

  lemma PacketAsks(now: real, uid: nat)
    ensures var r := AfterData(Initial(1), now, Data(uid, 1, 2, 0, 0, false, 0.0));
      Longing(r.node, false, 0) && r.outs == []
  {
    var d := Data(uid, 1, 2, NETWORK_DIAMETER, 0, false, 0.0);
    assert FindOptimal([], 2) < 0;
    assert Live([], now) == [];
  }

  lemma TickAges(s: Node, met: bool, ticks: nat)
    requires Longing(s, met, ticks)
    ensures Longing(s.(asks := Age(s.asks)), met, ticks + 1)
  {
    assert (ticks + 1) as real * PHEROMONE_STEP == ticks as real * PHEROMONE_STEP + PHEROMONE_STEP;
  }

  lemma HelloMeets(s: Node, now: real, origin: Addr)
    requires s.nbs == []
    ensures var s' := AfterHello(s, now, origin);
      s' == s.(nbs := s'.nbs, seqno := s'.seqno, nbNum := s.nbNum + 1) && |s'.nbs| == 1 && s'.nbs[0].addr == origin
  {
  }

  /** The ant of node i to its only neighbour. */
  ghost predicate Probe(a: GoAnt, i: Addr) {
    && a.prevNode == i && a.prevHop == i && a.src == i && a.ner == i && a.trail == [i]
    && a.target == NO_TARGET && !a.direct && a.valid && a.hops == 1 && a.seqno > 0
  }

  lemma ProbeLeaves(s: Node, index: Addr, nb: Addr)
    requires s.index == index && nb >= 0 && s.nbNum == |s.nbs| == 1 && s.nbs[0].addr == nb
    ensures var r := AfterSendAnt(s, 0);
      && r.node == s.(seqno := s.seqno + 2, idAgent := s.idAgent + 1)
      && |r.outs| == 1 && r.outs[0].Send? && r.outs[0].to == nb && r.outs[0].msg.Go? && Probe(r.outs[0].msg.go, index)
      && r.outs[0].msg.go.ttl == ANT_TTL
  {
  }

  /** The return ant that carries the demand of node 1 to node 0. */
  ghost predicate Bearer(b: ReturnAnt, ticks: nat) {
    && b.prevNode == 1 && b.ner == 1 && b.valid && b.src == 0 && b.hops == 1 && b.seqno > 0
    && b.detask == 2 && b.qte == Quantity(ticks)
  }

  /** Learning of node 0 touches neither neighbours nor demand. */
  lemma LearnAside(s: Node, now: real, prev: Addr, ner: Addr, seqno: nat, hops: nat, outward: bool)
    requires FindVia(s.rtable, prev, ner) < 0 && !Asked(s.asks, ner) && forall d :: d in s.queue ==> d.daddr != ner
    ensures var r := AfterLearn(s, now, prev, ner, seqno, hops, outward);
      && r.outs == [] && r.node == s.(rtable := r.node.rtable, queue := r.node.queue)
      && forall d :: d != ner && Routeless(s.rtable, d) ==> Routeless(r.node.rtable, d)
  {
    var live := Live(s.queue, now);
    KeepMembers(s.queue, Within(now));
    forall j | 0 <= j < |live| ensures !Bound(ner).Holds(live[j]) {
      assert live[j] in live;
    }
    KeepNone(live, Bound(ner));
  }

  lemma SilentStays(s: Node, now: real, prev: Addr, ner: Addr, seqno: nat, hops: nat, outward: bool)
    requires !s.askRt
    ensures !AfterLearn(s, now, prev, ner, seqno, hops, outward).node.askRt
  {
  }

  /** Node 1 with its demand sends a return ant for it, and a second one because it cannot clone. */
  lemma ReturnBears(s: Node, now: real, a: GoAnt, ticks: nat)
    requires Longing(s, true, ticks) && Probe(a, 0)
    ensures var r := AfterSendReturn(s, now, a.trail, a.src, -1);
      && |r.outs| == 1 && r.outs[0].Send? && r.outs[0].to == 0 && r.outs[0].msg.Return?
      && Bearer(r.outs[0].msg.back, ticks)
      && r.node == s.(seqno := r.node.seqno, asks := r.node.asks, demNum := r.node.demNum, askRt := false)
  {
    assert FindNb(s.nbs, 0) == 0 && Cell(a.trail, 1) == 0;
    assert FindRequest(s.asks, 2) == 0;
    assert Delete(s.asks, 2) == [];
  }

  lemma CloneReturns(s: Node, now: real, a: GoAnt)
    requires |s.nbs| == 1 && s.nbs[0].addr == 0 && !s.askRt && Probe(a, 0)
    ensures var r := AfterSendClone(s, now, a);
      && |r.outs| == 1 && r.outs[0].Send? && r.outs[0].to == 0 && r.outs[0].msg.Return?
      && r.node == s.(seqno := r.node.seqno)
  {
    assert FindNb(s.nbs, 0) == 0 && Cell(a.trail, 1) == 0;
    assert FirstOther(s.nbs[1..], 0) == NO_TARGET;
  }

  lemma DemandMet(s: Node, now: real, a: GoAnt, draw: nat, junk: Roulette.Slot, ticks: nat)
    requires Longing(s, true, ticks) && Probe(a, 0) && a.ttl == ANT_TTL
    ensures var r := AfterGo(s, now, a.(ttl := a.ttl - 1), draw, junk);
      && |r.outs| == 2 && (forall k :: 0 <= k < 2 ==> r.outs[k].Send? && r.outs[k].to == 0 && r.outs[k].msg.Return?)
      && Bearer(r.outs[0].msg.back, ticks)
      && r.node.index == 1 && r.node.nbs == s.nbs && r.node.nbNum == s.nbNum
  {
    hide AfterLearn, AfterSendReturn, AfterSendClone;
    var b := a.(ttl := a.ttl - 1);
    var s1 := s.(ids := [AgentId(a.src, a.id, now + AGENT_ID_SAVE)] + s.ids);
    assert FindNb(s.nbs, 0) == 0;
    LearnAside(s1, now, 0, 0, a.seqno, 1, true);
    var r := AfterLearn(s1, now, 0, 0, a.seqno, 1, true);
    var s2 := r.node.(ids := s.ids, rtable := s.rtable, queue := s.queue);
    ReturnFromAny(r.node, s2, now, b, ticks);
    CloneReturns(AfterSendReturn(r.node, now, b.trail, b.src, -1).node, now, b);
  }

  /** The parts a return does not look at. */
  lemma ReturnFromAny(s: Node, s2: Node, now: real, a: GoAnt, ticks: nat)
    requires s == s2.(ids := s.ids, rtable := s.rtable, queue := s.queue) && Longing(s2, true, ticks)
    requires Probe(a, 0)
    ensures var r := AfterSendReturn(s, now, a.trail, a.src, -1);
      && |r.outs| == 1 && r.outs[0].Send? && r.outs[0].to == 0 && r.outs[0].msg.Return?
      && Bearer(r.outs[0].msg.back, ticks)
      && r.node == s.(seqno := r.node.seqno, asks := r.node.asks, demNum := r.node.demNum, askRt := false)
  {
    ReturnBears(s2, now, a, ticks);
  }

  /** Node 0 once it knows of the demand. */
  ghost predicate Told(s: Node, ticks: nat) {
    && s.index == 0 && s.ids == [] && !s.askRt && |s.nbs| == 1 && s.nbs[0].addr == 1
    && s.phtable == [PhEntry(1, 2, Quantity(ticks), [1])]
  }

  lemma DemandCarried(s: Node, now: real, b: ReturnAnt, ticks: nat)
    requires Quiet(s, true) && Bearer(b, ticks)
    ensures var r := AfterReturn(s, now, b); r.outs == [] && Told(r.node, ticks)
  {
    hide AfterLearn;
    assert FindNb(s.nbs, 1) == 0;
    LearnAside(s, now, 1, 1, b.seqno, 1, false);
    var r := AfterLearn(s, now, 1, 1, b.seqno, 1, false).node;
    assert Routeless(r.rtable, 2);
    assert WithNeighbor(PhEntry(1, 2, b.qte, []), 1).nbs == [1];
    assert Deposit([], 1, 2, b.qte, 1) == [PhEntry(1, 2, b.qte, [1])];
  }

  /** Then the next ant from node 1 makes it write beyond its arrays. */
  lemma AntOverruns(s: Node, now: real, a: GoAnt, ticks: nat)
    requires Told(s, ticks) && Probe(a, 1) && a.ttl == ANT_TTL && ticks >= 1000
    ensures Overruns(s, now, a.(ttl := a.ttl - 1))
  {
    hide AfterLearn, Roulette.Fits;
    var s1 := s.(ids := [AgentId(a.src, a.id, now + AGENT_ID_SAVE)] + s.ids);
    LearnFrame(s1, now, 1, 1, a.seqno, 1, true);
    SilentStays(s1, now, 1, 1, a.seqno, 1, true);
    assert FindNb(s.nbs, 1) == 0;
    assert ticks as real * PHEROMONE_STEP >= 100.0;
    Roulette.RichEntryOverruns(s.nbs, s.phtable, 0, 0);
  }

  // ---------------------------------------------------------------- the witness run

  const MEMORY := Roulette.Slot(0, 0, 0)

  /** Node 1 asks, node 0 does not, and nothing is under way. */
  ghost predicate Scene(net: Net, met0: bool, met1: bool, ticks: nat) {
    net.nodes.Keys == {0, 1} && Quiet(net.nodes[0], met0) && Longing(net.nodes[1], met1, ticks) && net.wire == []
  }

  lemma Opening(net: Net)
    requires net == Start({0, 1})
    ensures var e := Originate(1, 2, 0, false, []); Enabled(net, e) && Scene(Apply(net, e), false, false, 0)
  {
    hide AfterData, Longing;
    PacketAsks(net.now, net.nextUid);
  }

  lemma Ageing(net: Net, ticks: nat)
    requires Scene(net, false, false, ticks)
    ensures var e := Fire(1, RequestTimer, 0, []); Enabled(net, e) && Scene(Apply(net, e), false, false, ticks + 1)
  {
    hide Quantity;
    TickAges(net.nodes[1], false, ticks);
  }

  /** A hello of node n is sent, and heard by node m. */
  lemma Meeting(net: Net, met0: bool, met1: bool, ticks: nat, n: Addr, m: Addr)
    requires Scene(net, met0, met1, ticks) && n in {0, 1} && m == 1 - n && !(if m == 0 then met0 else met1)
    ensures var e1, e2 := Fire(n, HelloTimer, 0, [m]), Deliver(0, 0, MEMORY, []);
      && Enabled(net, e1) && Enabled(Apply(net, e1), e2)
      && Scene(Apply(Apply(net, e1), e2), met0 || m == 0, met1 || m == 1, ticks)
  {
    var net1 := Apply(net, Fire(n, HelloTimer, 0, [m]));
    OneOutput(n, Broadcast(Hello(n)), [m]);
    OneHearer(n, Hello(n), m);
    assert net1.wire == [Flight(n, m, Hello(n))];
    HelloMeets(net.nodes[m], net.now, n);
  }

  /** The ant of node 0 is on its way to node 1. */
  ghost predicate Probing(net: Net, ticks: nat) {
    && net.nodes.Keys == {0, 1} && Quiet(net.nodes[0], true) && Longing(net.nodes[1], true, ticks)
    && |net.wire| == 1 && net.wire[0].to == 1 && net.wire[0].msg.Go?
    && Probe(net.wire[0].msg.go, 0) && net.wire[0].msg.go.ttl == ANT_TTL
  }

  lemma Launching(net: Net, ticks: nat)
    requires Scene(net, true, true, ticks)
    ensures var e := Fire(0, AntTimer, 0, []); Enabled(net, e) && Probing(Apply(net, e), ticks)
  {
    hide AfterSendAnt;
    ProbeLeaves(net.nodes[0], 0, 1);
    var outs := AfterSendAnt(net.nodes[0], 0).outs;
    assert outs == [outs[0]];
    OneOutput(0, outs[0], []);
  }

  /** Node 1 has answered with two return ants, the first of which bears its demand. */
  ghost predicate Bearing(net: Net, ticks: nat) {
    && net.nodes.Keys == {0, 1} && Quiet(net.nodes[0], true)
    && net.nodes[1].index == 1 && net.nodes[1].nbNum == |net.nodes[1].nbs| == 1 && net.nodes[1].nbs[0].addr == 0
    && |net.wire| == 2 && net.wire[0].to == 0 && net.wire[0].msg.Return? && Bearer(net.wire[0].msg.back, ticks)
    && net.wire[1].msg.Return?
  }

  lemma TwoOutputs(from: Addr, outs: seq<Output>, hearers: seq<Addr>)
    requires |outs| == 2
    ensures Launch(from, outs, hearers) == LaunchOne(from, outs[0], hearers) + LaunchOne(from, outs[1], hearers)
  {
    assert outs[1..] == [outs[1]];
    OneOutput(from, outs[1], hearers);
  }

  lemma Answering(net: Net, ticks: nat)
    requires Probing(net, ticks)
    ensures var e := Deliver(0, 0, MEMORY, []); Enabled(net, e) && Bearing(Apply(net, e), ticks)
  {
    hide AfterGo, Longing;
    var s, a := net.nodes[1], net.wire[0].msg.go;
    LongingFacts(s, ticks);
    DemandMet(s, net.now, a, 0, MEMORY, ticks);
    TwoOutputs(1, AfterGo(s, net.now, a.(ttl := a.ttl - 1), 0, MEMORY).outs, []);
  }

  lemma LongingFacts(s: Node, ticks: nat)
    requires Longing(s, true, ticks)
    ensures s.nbNum == |s.nbs| == 1 && s.nbs[0].addr == 0
  {
  }

  /** Node 0 knows of the demand, and the second return ant is still under way. */
  ghost predicate Informed(net: Net, ticks: nat) {
    && net.nodes.Keys == {0, 1} && Told(net.nodes[0], ticks)
    && net.nodes[1].index == 1 && net.nodes[1].nbNum == |net.nodes[1].nbs| == 1 && net.nodes[1].nbs[0].addr == 0
    && |net.wire| == 1
  }

  lemma Informing(net: Net, ticks: nat)
    requires Bearing(net, ticks)
    ensures var e := Deliver(0, 0, MEMORY, []); Enabled(net, e) && Informed(Apply(net, e), ticks)
  {
    hide AfterReturn, Told;
    DemandCarried(net.nodes[0], net.now, net.wire[0].msg.back, ticks);
  }

  lemma Spilling(net: Net, ticks: nat, draw: nat, junk: Roulette.Slot)
    requires Informed(net, ticks) && ticks >= 1000
    ensures var e := Fire(1, AntTimer, 0, []); Enabled(net, e) && Spills(Apply(net, e), Deliver(1, draw, junk, []))
  {
    hide AfterSendAnt, Overruns, Told;
    ProbeLeaves(net.nodes[1], 1, 0);
    var outs := AfterSendAnt(net.nodes[1], 0).outs;
    assert outs == [outs[0]];
    OneOutput(1, outs[0], []);
    AntOverruns(net.nodes[0], net.now, outs[0].msg.go, ticks);
  }

  lemma {:induction false} AgeingOn(ticks: nat) returns (evs: seq<Event>)
    ensures Legal(Start({0, 1}), evs) && Scene(Run(Start({0, 1}), evs), false, false, ticks)
  {
    hide Scene, Apply, Enabled;
    var net := Start({0, 1});
    if ticks == 0 {
      assert Run(net, []) == net;
      Opening(net);
      Snoc(net, [], Originate(1, 2, 0, false, []));
      evs := [] + [Originate(1, 2, 0, false, [])];
    } else {
      evs := AgeingOn(ticks - 1);
      Ageing(Run(net, evs), ticks - 1);
      Snoc(net, evs, Fire(1, RequestTimer, 0, []));
      evs := evs + [Fire(1, RequestTimer, 0, [])];
    }
  }

  lemma MeetingOn(ticks: nat) returns (evs: seq<Event>)
    ensures Legal(Start({0, 1}), evs) && Scene(Run(Start({0, 1}), evs), true, true, ticks)
  {
    hide Scene, Apply, Enabled;
    var net := Start({0, 1});
    evs := AgeingOn(ticks);
    Meeting(Run(net, evs), false, false, ticks, 1, 0);
    Snoc(net, evs, Fire(1, HelloTimer, 0, [0]));
    Snoc(net, evs + [Fire(1, HelloTimer, 0, [0])], Deliver(0, 0, MEMORY, []));
    evs := evs + [Fire(1, HelloTimer, 0, [0])] + [Deliver(0, 0, MEMORY, [])];
    Meeting(Run(net, evs), true, false, ticks, 0, 1);
    Snoc(net, evs, Fire(0, HelloTimer, 0, [1]));
    Snoc(net, evs + [Fire(0, HelloTimer, 0, [1])], Deliver(0, 0, MEMORY, []));
    evs := evs + [Fire(0, HelloTimer, 0, [1])] + [Deliver(0, 0, MEMORY, [])];
  }

  lemma InformingOn(ticks: nat) returns (evs: seq<Event>)
    ensures Legal(Start({0, 1}), evs) && Informed(Run(Start({0, 1}), evs), ticks)
  {
    hide Scene, Probing, Bearing, Informed, Apply, Enabled;
    var net := Start({0, 1});
    evs := MeetingOn(ticks);
    Launching(Run(net, evs), ticks);
    Snoc(net, evs, Fire(0, AntTimer, 0, []));
    evs := evs + [Fire(0, AntTimer, 0, [])];
    Answering(Run(net, evs), ticks);
    Snoc(net, evs, Deliver(0, 0, MEMORY, []));
    evs := evs + [Deliver(0, 0, MEMORY, [])];
    Informing(Run(net, evs), ticks);
    Snoc(net, evs, Deliver(0, 0, MEMORY, []));
    evs := evs + [Deliver(0, 0, MEMORY, [])];
  }

  /** There is a run of two nodes in which the next ant makes its receiver write beyond its arrays, whatever
      is drawn: a demand left unanswered for a thousand ageing ticks, 200 seconds, is carried to a neighbour. */
  lemma RunsSpill(draw: nat, junk: Roulette.Slot)
    ensures exists evs ::
      Legal(Start({0, 1}), evs) && Spills(Run(Start({0, 1}), evs), Deliver(1, draw, junk, []))
  {
    hide Informed, Apply, Enabled, Spills;
    var net := Start({0, 1});
    var evs := InformingOn(1000);
    Spilling(Run(net, evs), 1000, draw, junk);
    Snoc(net, evs, Fire(1, AntTimer, 0, []));
    var all := evs + [Fire(1, AntTimer, 0, [])];
    assert Spills(Run(net, all), Deliver(1, draw, junk, []));
  }
}

/** One launch of sendAntLight: at most one wandering copy at a time, at most ten transmissions. */
module WanderingAnts {
  import opened Types
  import opened RoutingTable
  import opened PacketQueue
  import opened PheromoneTable
  import opened Requests
  import opened Protocol
  import opened NodeInvariant
  import opened HandlersKeep
  import opened Frames
  import opened Network
  import opened Counting
  import Roulette

  // ---------------------------------------------------------------- one node

  /** Every counted output is the wandering ant a with this node added to its trail. */
  ghost predicate Extends(outs: seq<Output>, k: Key, a: GoAnt, index: Addr) {
    forall i :: 0 <= i < |outs| && OutHit(k, outs[i]) ==>
      Hit(k, Go(a)) && outs[i].msg.go.trail == a.trail + [index]
  }

  lemma CloneWanders(s: Node, now: real, a: GoAnt, k: Key)
    requires k.Ant? && Wandering(a)
    ensures var r := AfterSendClone(s, now, a);
      && OutCount(r.outs, k) <= (if Hit(k, Go(a)) then 1 else 0)
      && Extends(r.outs, k, a, s.index) && r.node.index == s.index
  {
    CloneFrame(s, now, a);
  }

  lemma RelayWanders(s: Node, now: real, a: GoAnt, hop: Addr, k: Key)
    requires k.Ant?
    ensures var r := AfterRelay(s, now, a, hop);
      OutCount(r.outs, k) <= (if Hit(k, Go(a)) then 1 else 0) && Extends(r.outs, k, a, s.index)
  {
    RelayFrame(s, now, a, hop);
  }

  /** Once given a target the ant does not wander any more. */
  lemma TargetedWanders(s: Node, now: real, a: GoAnt, hop: Addr, k: Key)
    requires k.Ant? && a.target != NO_TARGET
    ensures var aimed := Aim(s, a, hop);
      var r := AfterRelay(aimed.node, now, aimed.ant, hop);
      OutCount(r.outs, k) == 0 && forall b, index :: Extends(r.outs, k, b, index)
  {
    AimFrame(s, a, hop);
    var aimed := Aim(s, a, hop);
    RelayFrame(aimed.node, now, aimed.ant, hop);
    OutCountNone(AfterRelay(aimed.node, now, aimed.ant, hop).outs, k);
  }

  lemma SearchWanders(s: Node, now: real, a: GoAnt, draw: nat, junk: Roulette.Slot, k: Key)
    requires k.Ant? && Wandering(a)
    ensures var r := AfterSearch(s, now, a, draw, junk);
      OutCount(r.outs, k) <= (if Hit(k, Go(a)) then 1 else 0) && Extends(r.outs, k, a, s.index)
  {
    var w := Roulette.Build(s.nbs, s.phtable, junk);
    if w.touched && w.size > 0 && w.cells[draw % w.size].claimant != -1 {
      var slot := w.cells[draw % w.size];
      var a1 := a.(target := slot.claimant, ner := slot.asked, ttl := ANT_TTL);
      var r := AfterSendClone(s, now, a);
      CloneWanders(s, now, a, k);
      TargetedWanders(r.node, now, a1, slot.hop, k);
      var aimed := Aim(r.node, a1, slot.hop);
      OutCountAppend(r.outs, AfterRelay(aimed.node, now, aimed.ant, slot.hop).outs, k);
    } else {
      var hop := if w.touched && w.size > 0 then w.cells[draw % w.size].hop else FirstUnvisited(s.nbs, a);
      RelayWanders(if s.index != a.src then AddPrecursor(s, a.prevNode, a.ner, hop) else s, now, a, hop, k);
    }
  }

  lemma ChooseWanders(s: Node, now: real, a: GoAnt, draw: nat, junk: Roulette.Slot, k: Key)
    requires k.Ant? && !a.direct
    ensures var r := AfterChoose(s, now, a, draw, junk);
      OutCount(r.outs, k) <= (if Hit(k, Go(a)) then 1 else 0) && Extends(r.outs, k, a, s.index)
  {
    SendReturnFrame(s, now, a.trail, a.src, if a.target != NO_TARGET then a.ner else -1);
    if a.target != NO_TARGET {
      var i := FindKey(s.phtable, a.target, a.ner);
      var hop := if i < 0 then NO_HOP else if s.phtable[i].nbs == [] then UNWRITTEN else s.phtable[i].nbs[0];
      TargetedWanders(s, now, a, hop, k);
    } else if s.askRt && s.index != a.src {
      var r := AfterSendReturn(s, now, a.trail, a.src, -1);
      CloneWanders(r.node, now, a, k);
      OutCountAppend(r.outs, AfterSendClone(r.node, now, a).outs, k);
    } else if a.ttl != 0 {
      SearchWanders(s, now, a, draw, junk, k);
    }
  }

  lemma LearnWanders(s: Node, now: real, prev: Addr, ner: Addr, seqno: nat, hops: nat, outward: bool, k: Key)
    requires k.Ant?
    ensures OutCount(AfterLearn(s, now, prev, ner, seqno, hops, outward).outs, k) == 0
    ensures forall o :: o in AfterLearn(s, now, prev, ner, seqno, hops, outward).outs ==> !OutHit(k, o)
  {
    hide AfterLearn, Keep, OutCount;
    LearnFrame(s, now, prev, ner, seqno, hops, outward);
    OutCountNone(AfterLearn(s, now, prev, ner, seqno, hops, outward).outs, k);
  }

  lemma DirectWanders(s: Node, a: GoAnt, k: Key)
    requires k.Ant? && a.direct
    ensures OutCount(AfterDirect(s, a).outs, k) == 0 && AfterDirect(s, a).node == s
    ensures Extends(AfterDirect(s, a).outs, k, a, s.index)
  {
    OutCountNone(AfterDirect(s, a).outs, k);
  }

  lemma ThenWanders(r: Step, c: Step, k: Key, a: GoAnt, index: Addr)
    requires OutCount(r.outs, k) == 0 && forall o :: o in r.outs ==> !OutHit(k, o)
    requires OutCount(c.outs, k) <= (if Hit(k, Go(a)) then 1 else 0) && Extends(c.outs, k, a, index)
    ensures var t := Then(r, c);
      OutCount(t.outs, k) <= (if Hit(k, Go(a)) then 1 else 0) && Extends(t.outs, k, a, index)
  {
    OutCountAppend(r.outs, c.outs, k);
  }

  lemma GoWanders(s: Node, now: real, a: GoAnt, draw: nat, junk: Roulette.Slot, k: Key)
    requires k.Ant?
    ensures var r := AfterGo(s, now, a, draw, junk);
      && OutCount(r.outs, k) <= (if Hit(k, Go(a)) then 1 else 0) && Extends(r.outs, k, a, s.index)
      && r.node.idAgent == s.idAgent
  {
    if Admits(s, a) {
      var s1 := s.(ids := [AgentId(a.src, a.id, now + AGENT_ID_SAVE)] + s.ids);
      var r := if a.valid && IsNb(s1.nbs, a.prevNode)
        then AfterLearn(s1, now, a.prevNode, a.ner, a.seqno, a.hops, true) else Step(s1, []);
      LearnFrame(s1, now, a.prevNode, a.ner, a.seqno, a.hops, true);
      LearnWanders(s1, now, a.prevNode, a.ner, a.seqno, a.hops, true, k);
      assert r.node.index == s.index && r.node.idAgent == s.idAgent;
      if a.direct {
        DirectWanders(r.node, a, k);
        ThenWanders(r, AfterDirect(r.node, a), k, a, s.index);
      } else {
        ChooseWanders(r.node, now, a, draw, junk, k);
        ChooseFrame(r.node, now, a, draw, junk);
        ThenWanders(r, AfterChoose(r.node, now, a, draw, junk), k, a, s.index);
      }
    }
  }

  lemma ReturnWanders(s: Node, now: real, a: ReturnAnt, k: Key)
    requires k.Ant?
    ensures OutCount(AfterReturn(s, now, a).outs, k) == 0
    ensures AfterReturn(s, now, a).node.idAgent >= s.idAgent
  {
    hide AfterLearn, AfterDemand, AfterPassBack, Drained;
    var r := if a.valid && IsNb(s.nbs, a.prevNode)
      then AfterLearn(s, now, a.prevNode, a.ner, a.seqno, a.hops, false) else Step(s, []);
    LearnFrame(s, now, a.prevNode, a.ner, a.seqno, a.hops, false);
    LearnWanders(s, now, a.prevNode, a.ner, a.seqno, a.hops, false, k);
    var d := AfterDemand(r.node, a);
    DemandFrame(r.node, a);
    PassBackFrame(d.node, a);
    OutCountNone(d.outs, k);
    OutCountNone(AfterPassBack(d.node, a).outs, k);
    OutCountAppend(r.outs, d.outs, k);
    OutCountAppend(r.outs + d.outs, AfterPassBack(d.node, a).outs, k);
  }

  lemma {:induction false} NbPurgeWanders(s: Node, now: real, i: nat, k: Key)
    requires k.Ant?
    ensures OutCount(AfterNbPurge(s, now, i).outs, k) == 0 && AfterNbPurge(s, now, i).node.idAgent == s.idAgent
    decreases |s.nbs| - i
  {
    if i < |s.nbs| {
      if s.nbs[i].expire <= now {
        var r := AfterNbDelete(s, s.nbs[i].addr);
        NbPurgeWanders(r.node, now, i, k);
        OutCountNone(r.outs, k);
        OutCountAppend(r.outs, AfterNbPurge(r.node, now, i).outs, k);
      } else {
        NbPurgeWanders(s, now, i + 1, k);
      }
    }
  }

  // ---------------------------------------------------------------- the network

  /** The first number a node has not yet given to an agent. */
  function NextId(net: Net, src: Addr): nat {
    if src in net.nodes then net.nodes[src].idAgent else 0
  }

  ghost predicate WanderInv(net: Net, k: Key)
    requires k.Ant?
  {
    && Tally(net.wire, net.sent, k)
    && (k.id >= NextId(net, k.src) ==> Count(net.wire, k) == 0 && Count(net.sent, k) == 0)
  }

  /** What one step sends of launch k. */
  ghost predicate StepWanders(net: Net, ev: Event, k: Key)
    requires Enabled(net, ev) && !ev.Lose? && !ev.Elapse? && k.Ant?
  {
    var r, n := StepOf(net, ev), Actor(net, ev);
    && n in net.nodes
    && r.node.idAgent >= net.nodes[n].idAgent
    && (if ev.Deliver? && Hit(k, net.wire[ev.i].msg)
        then OutCount(r.outs, k) <= 1 && Extends(r.outs, k, net.wire[ev.i].msg.go, n)
        else if ev.Fire? && ev.timer.AntTimer? && k == Ant(n, net.nodes[n].idAgent)
        then OutCount(r.outs, k) <= 1 && r.node.idAgent > k.id
             && forall i :: 0 <= i < |r.outs| && OutHit(k, r.outs[i]) ==> |r.outs[i].msg.go.trail| == 1
        else OutCount(r.outs, k) == 0)
  }

  lemma PlainWanders(s: Node, now: real, m: Msg, draw: nat, junk: Roulette.Slot, k: Key)
    requires k.Ant? && !m.Go? && !m.Return?
    ensures var r := AfterRecv(s, now, m, draw, junk);
      OutCount(r.outs, k) == 0 && r.node.idAgent == s.idAgent
  {
    OutCountNone(AfterRecv(s, now, m, draw, junk).outs, k);
  }

  lemma RecvWanders(s: Node, now: real, m: Msg, draw: nat, junk: Roulette.Slot, k: Key)
    requires k.Ant?
    ensures var r := AfterRecv(s, now, Delivered(m), draw, junk);
      && r.node.idAgent >= s.idAgent
      && OutCount(r.outs, k) <= (if Hit(k, m) then 1 else 0)
      && (Hit(k, m) ==> Extends(r.outs, k, m.go, s.index))
  {
    hide AfterGo, AfterReturn, AfterData, AfterRectificator, OutCount;
    if m.Go? {
      var a := m.go.(ttl := m.go.ttl - 1);
      GoWanders(s, now, a, draw, junk, k);
      assert Hit(k, Go(a)) <==> Hit(k, m);
    } else if m.Return? {
      ReturnWanders(s, now, m.back, k);
    } else {
      PlainWanders(s, now, Delivered(m), draw, junk, k);
    }
  }

  lemma DeliverWanders(net: Net, ev: Event, k: Key)
    requires NetInv(net) && Enabled(net, ev) && ev.Deliver? && k.Ant?
    ensures StepWanders(net, ev, k)
  {
    var s, m := net.nodes[net.wire[ev.i].to], net.wire[ev.i].msg;
    assert s.index == net.wire[ev.i].to;
    RecvWanders(s, net.now, m, ev.draw, ev.junk, k);
  }

  lemma SendAntWanders(s: Node, draw: nat, k: Key)
    requires k.Ant?
    ensures var r := AfterSendAnt(s, draw);
      && r.node.idAgent == s.idAgent + 1
      && OutCount(r.outs, k) <= (if k == Ant(s.index, s.idAgent) then 1 else 0)
      && forall i :: 0 <= i < |r.outs| && OutHit(k, r.outs[i]) ==> |r.outs[i].msg.go.trail| == 1
  {
  }

  lemma FireWanders(net: Net, ev: Event, k: Key)
    requires NetInv(net) && Enabled(net, ev) && ev.Fire? && k.Ant?
    ensures StepWanders(net, ev, k)
  {
    var s := net.nodes[ev.n];
    assert NodeInv(s, net.now) && s.index == ev.n;
    match ev.timer
    case AntTimer => SendAntWanders(s, ev.draw, k);
    case NeighborTimer => NbPurgeWanders(s, net.now, 0, k);
    case RouteTimer => RtPurgeQuiet(s, net.now, 0);
    case _ => OutCountNone(StepOf(net, ev).outs, k);
  }

  lemma QuietStepWanders(net: Net, ev: Event, k: Key)
    requires NetInv(net) && Enabled(net, ev) && (ev.LinkFail? || ev.Originate?) && k.Ant?
    ensures StepWanders(net, ev, k)
  {
    hide FindOptimal, SeverAll, LostBy, Keep, FindNb, FindDst, FindRequest;
    assert StepOf(net, ev).node.idAgent == net.nodes[Actor(net, ev)].idAgent;
    OutCountNone(StepOf(net, ev).outs, k);
  }

  lemma StepWandersOk(net: Net, ev: Event, k: Key)
    requires NetInv(net) && Enabled(net, ev) && !ev.Lose? && !ev.Elapse? && k.Ant?
    ensures StepWanders(net, ev, k)
  {
    hide StepWanders, NetInv;
    if ev.Deliver? {
      DeliverWanders(net, ev, k);
    } else if ev.Fire? {
      FireWanders(net, ev, k);
    } else {
      QuietStepWanders(net, ev, k);
    }
  }

  lemma NotesNeverWander(from: Addr, outs: seq<Output>, k: Key)
    requires k.Ant? && OutsOk(from, outs)
    ensures QuietNotes(outs, k)
  {
    forall i | 0 <= i < |outs| && outs[i].Broadcast? ensures !Hit(k, outs[i].note) {
      assert OutOk(from, outs[i]);
    }
  }

  ghost predicate Tally(wire: seq<Flight>, sent: seq<Flight>, k: Key)
    requires k.Ant?
  {
    && Count(wire, k) <= 1
    && Count(sent, k) <= ANT_TTL as nat
    && (forall f :: f in wire && Hit(k, f.msg) ==> Count(sent, k) == |f.msg.go.trail|)
  }

  /** Sending the one copy after taking the other off the wire keeps the tally. */
  lemma TallySend(wire: seq<Flight>, flights: seq<Flight>, sent: seq<Flight>, k: Key)
    requires k.Ant? && Tally(wire, sent, k) && Count(wire, k) + Count(flights, k) <= 1
    requires forall f :: f in flights && Hit(k, f.msg) ==> Count(sent, k) + 1 == |f.msg.go.trail| <= ANT_TTL as nat
    ensures Tally(wire + flights, sent + flights, k)
  {
    CountAppend(wire, flights, k);
    CountAppend(sent, flights, k);
    forall f | f in wire + flights && Hit(k, f.msg) ensures Count(sent + flights, k) == |f.msg.go.trail| {
      if f in wire {
        var i :| 0 <= i < |wire| && wire[i] == f;
        CountPositive(wire, k, i);
      } else {
        var i :| 0 <= i < |flights| && flights[i] == f;
        CountPositive(flights, k, i);
      }
    }
    if Count(flights, k) == 1 {
      var i := FindHit(flights, k);
      assert flights[i] in flights;
    }
  }

  lemma TallyTakeOff(wire: seq<Flight>, sent: seq<Flight>, i: nat, k: Key)
    requires k.Ant? && Tally(wire, sent, k) && i < |wire|
    ensures Tally(wire[..i] + wire[i + 1..], sent, k)
  {
    CountTakeOff(wire, i, k);
    forall f | f in wire[..i] + wire[i + 1..] ensures f in wire { }
  }

  /** Each wandering flight of a step continues the count. */
  lemma FlightContinues(net: Net, ev: Event, k: Key, o: Output)
    requires NetInv(net) && Enabled(net, ev) && !ev.Lose? && !ev.Elapse? && k.Ant? && WanderInv(net, k)
    requires o in StepOf(net, ev).outs && OutHit(k, o)
    ensures Count(net.sent, k) + 1 == |o.msg.go.trail| <= ANT_TTL as nat
  {
    StepWandersOk(net, ev, k);
    StepOfOk(net, ev);
    var outs := StepOf(net, ev).outs;
    var i :| 0 <= i < |outs| && outs[i] == o;
    assert OutOk(Actor(net, ev), outs[i]);
    OutCountPositive(outs, k, i);
    if ev.Deliver? && Hit(k, net.wire[ev.i].msg) {
      assert net.wire[ev.i] in net.wire;
    }
  }

  lemma WanderCounts(net: Net, ev: Event, k: Key)
    requires NetInv(net) && Enabled(net, ev) && !ev.Lose? && !ev.Elapse? && k.Ant? && WanderInv(net, k)
    ensures var before, o := Taken(net, ev).wire, OutCount(StepOf(net, ev).outs, k);
      && Count(before, k) + o <= 1
      && Tally(before, net.sent, k)
      && (k.id >= NextId(Apply(net, ev), k.src) ==> Count(before, k) == 0 && o == 0 && Count(net.sent, k) == 0)
  {
    hide StepOf, Launch, Count;
    StepWandersOk(net, ev, k);
    if ev.Deliver? || ev.LinkFail? {
      CountTakeOff(net.wire, ev.i, k);
      TallyTakeOff(net.wire, net.sent, ev.i, k);
    }
  }

  lemma WanderSettles(net: Net, ev: Event, k: Key)
    requires NetInv(net) && Enabled(net, ev) && !ev.Lose? && !ev.Elapse? && k.Ant? && WanderInv(net, k)
    ensures WanderInv(Apply(net, ev), k)
  {
    WanderCounts(net, ev, k);
    StepOfOk(net, ev);
    var n, outs, before := Actor(net, ev), StepOf(net, ev).outs, Taken(net, ev).wire;
    NotesNeverWander(n, outs, k);
    var flights := Launch(n, outs, ev.hearers);
    LaunchCounts(n, outs, ev.hearers, k);
    forall f | f in flights && Hit(k, f.msg) ensures Count(net.sent, k) + 1 == |f.msg.go.trail| <= ANT_TTL as nat {
      FlightContinues(net, ev, k, Send(f.to, f.msg));
    }
    TallySend(before, flights, net.sent, k);
    CountAppend(before, flights, k);
    CountAppend(net.sent, flights, k);
  }

  lemma WanderStep(net: Net, ev: Event, k: Key)
    requires NetInv(net) && Enabled(net, ev) && k.Ant? && WanderInv(net, k)
    ensures WanderInv(Apply(net, ev), k)
  {
    if ev.Lose? {
      CountTakeOff(net.wire, ev.i, k);
      TallyTakeOff(net.wire, net.sent, ev.i, k);
    } else if !ev.Elapse? {
      WanderSettles(net, ev, k);
    }
  }

  lemma {:induction false} WanderRun(ids: set<Addr>, evs: seq<Event>, k: Key)
    requires (forall n :: n in ids ==> n >= 0) && Legal(Start(ids), evs) && k.Ant?
    ensures WanderInv(Run(Start(ids), evs), k)
  {
    if evs != [] {
      var front := evs[..|evs| - 1];
      WanderRun(ids, front, k);
      EveryRunOk(ids, front);
      WanderStep(Run(Start(ids), front), evs[|evs| - 1], k);
    }
  }

  /** A wandering ant on the wire: where it has been, how far, and what it may still do. */
  ghost predicate WellTravelled(f: Flight, a: GoAnt) {
    && a.ttl + |a.trail| == 11 && a.hops == |a.trail| && 1 <= |a.trail| <= 10
    && a.trail[0] == a.src && a.trail[|a.trail| - 1] == a.prevNode == f.from
    && forall j :: 1 <= j < |a.trail| ==> a.trail[j] != a.src
  }

  /** On the wire of every run, ttl and trail of a wandering ant always add up to eleven, the hop count is
      the length of the trail, the trail fits the NodeVisited array, starts at the source, never returns
      there and ends at the sender. */
  lemma WanderersOnTheWire(ids: set<Addr>, evs: seq<Event>)
    requires (forall n :: n in ids ==> n >= 0) && Legal(Start(ids), evs)
    ensures forall f :: f in Run(Start(ids), evs).wire && f.msg.Go? && Wandering(f.msg.go) ==>
      WellTravelled(f, f.msg.go)
  {
    EveryRunOk(ids, evs);
    var wire := Run(Start(ids), evs).wire;
    forall f | f in wire && f.msg.Go? && Wandering(f.msg.go) ensures WellTravelled(f, f.msg.go) {
      var i :| 0 <= i < |wire| && wire[i] == f;
      assert FlightOk(wire[i]);
    }
  }

  /** In every run, agent number id of node src is never in flight as two wandering copies, and over the
      whole run its wandering copies are transmitted at most ten times, across clones, searches and
      relays. */
  lemma TenTransmissions(ids: set<Addr>, evs: seq<Event>, src: Addr, id: nat)
    requires (forall n :: n in ids ==> n >= 0) && Legal(Start(ids), evs)
    ensures Count(Run(Start(ids), evs).wire, Ant(src, id)) <= 1
    ensures Count(Run(Start(ids), evs).sent, Ant(src, id)) <= 10
  {
    WanderRun(ids, evs, Ant(src, id));
  }
}

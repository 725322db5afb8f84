/** Trails are true: in every run the cells of a trail are the flights of that launch, and a return ant's way
    back is made of flights too (antconf.cc:777-778, 1216-1219, 1300-1304, 1326-1425, 1510-1538). */
module Journeys {
  import opened Types
  import opened PheromoneTable
  import opened Protocol
  import opened NodeInvariant
  import opened HandlersKeep
  import opened Frames
  import opened Trips
  import opened Network
  import Roulette

  // ---------------------------------------------------------------- one node

  /** What node index may send of an outward ant of launch (src, id) that came with this trail: the ant with
      the node added to its trail, or a return ant over the trail as it is. */
  ghost predicate Carries(o: Output, index: Addr, src: Addr, id: nat, trail: seq<Addr>) {
    && o.Send?
    && (o.msg.Go? ==>
          !o.msg.go.direct && o.msg.go.src == src && o.msg.go.id == id && o.msg.go.trail == trail + [index])
    && (o.msg.Return? ==>
          && o.msg.back.src == src && o.msg.back.trail == trail && o.msg.back.ner == index
          && o.msg.back.count == |trail| - 1)
  }

  ghost predicate AllCarry(outs: seq<Output>, index: Addr, a: GoAnt) {
    forall i :: 0 <= i < |outs| ==> Carries(outs[i], index, a.src, a.id, a.trail)
  }

  lemma SendReturnCarries(s: Node, now: real, a: GoAnt, etab: Addr)
    requires a.trail != []
    ensures AllCarry(AfterSendReturn(s, now, a.trail, a.src, etab).outs, s.index, a)
  {
  }

  lemma CloneCarries(s: Node, now: real, a: GoAnt)
    requires a.trail != [] && !a.direct
    ensures AllCarry(AfterSendClone(s, now, a).outs, s.index, a)
  {
    hide AfterSendReturn;
    SendReturnCarries(s, now, a, -1);
  }

  lemma RelayCarries(s: Node, now: real, a: GoAnt, hop: Addr)
    requires a.trail != [] && !a.direct
    ensures AllCarry(AfterRelay(s, now, a, hop).outs, s.index, a)
  {
    hide AfterSendReturn;
    SendReturnCarries(s, now, a, -1);
  }

  lemma BothCarry(x: seq<Output>, y: seq<Output>, index: Addr, a: GoAnt)
    requires AllCarry(x, index, a) && AllCarry(y, index, a)
    ensures AllCarry(x + y, index, a)
  {
  }

  lemma SearchCarries(s: Node, now: real, a: GoAnt, draw: nat, junk: Roulette.Slot)
    requires a.trail != [] && !a.direct
    ensures AllCarry(AfterSearch(s, now, a, draw, junk).outs, s.index, a)
  {
    hide Aim, AfterSendClone, AfterRelay, Carries;
    var w := Roulette.Build(s.nbs, s.phtable, junk);
    if w.touched && w.size > 0 && w.cells[draw % w.size].claimant != -1 {
      var slot := w.cells[draw % w.size];
      var a1 := a.(target := slot.claimant, ner := slot.asked, ttl := ANT_TTL);
      var r := AfterSendClone(s, now, a);
      CloneCarries(s, now, a);
      CloneFrame(s, now, a);
      AimFrame(r.node, a1, slot.hop);
      var aimed := Aim(r.node, a1, slot.hop);
      RelayCarries(aimed.node, now, aimed.ant, slot.hop);
      BothCarry(r.outs, AfterRelay(aimed.node, now, aimed.ant, slot.hop).outs, s.index, a);
    } else {
      var hop := if w.touched && w.size > 0 then w.cells[draw % w.size].hop else FirstUnvisited(s.nbs, a);
      RelayCarries(if s.index != a.src then AddPrecursor(s, a.prevNode, a.ner, hop) else s, now, a, hop);
    }
  }

  lemma ChooseCarries(s: Node, now: real, a: GoAnt, draw: nat, junk: Roulette.Slot)
    requires a.trail != [] && !a.direct
    ensures AllCarry(AfterChoose(s, now, a, draw, junk).outs, s.index, a)
  {
    hide AfterSearch, Aim, AfterRelay, AfterSendClone, AfterSendReturn, Carries;
    SendReturnCarries(s, now, a, if a.target != NO_TARGET then a.ner else -1);
    if a.target != NO_TARGET {
      var k := FindKey(s.phtable, a.target, a.ner);
      var hop := if k < 0 then NO_HOP else if s.phtable[k].nbs == [] then UNWRITTEN else s.phtable[k].nbs[0];
      AimFrame(s, a, hop);
      var aimed := Aim(s, a, hop);
      RelayCarries(aimed.node, now, aimed.ant, hop);
    } else if s.askRt && s.index != a.src {
      var r := AfterSendReturn(s, now, a.trail, a.src, -1);
      SendReturnFrame(s, now, a.trail, a.src, -1);
      CloneCarries(r.node, now, a);
      BothCarry(r.outs, AfterSendClone(r.node, now, a).outs, s.index, a);
    } else if a.ttl != 0 {
      SearchCarries(s, now, a, draw, junk);
    }
  }

  /** A message that belongs to a journey: an ant on its way out that keeps a trail, or one on its way back. */
  predicate OnJourney(m: Msg) {
    (m.Go? && !m.go.direct) || m.Return?
  }

  /** What node index makes of message m: the next message of the same journey. */
  ghost predicate Continues(m: Msg, o: Output, index: Addr) {
    && o.Send?
    && if m.Go? then !m.go.direct && Carries(o, index, m.go.src, m.go.id, m.go.trail)
       else m.Return? && o.msg.Return? && m.back.count > 0 && o.msg.back == Back(m.back, index)
  }

  ghost predicate AllContinue(m: Msg, outs: seq<Output>, index: Addr) {
    forall i :: 0 <= i < |outs| && outs[i].Send? && OnJourney(outs[i].msg) ==> Continues(m, outs[i], index)
  }

  lemma GoContinues(s: Node, now: real, a: GoAnt, draw: nat, junk: Roulette.Slot)
    requires !a.direct ==> a.trail != []
    ensures AllContinue(Go(a), AfterGo(s, now, a, draw, junk).outs, s.index)
  {
    hide AfterLearn, AfterChoose, Carries, Drained;
    if Admits(s, a) {
      var s1 := s.(ids := [AgentId(a.src, a.id, now + AGENT_ID_SAVE)] + s.ids);
      LearnFrame(s1, now, a.prevNode, a.ner, a.seqno, a.hops, true);
      DrainedIsData(s1, now, a.prevNode, a.ner, AfterLearn(s1, now, a.prevNode, a.ner, a.seqno, a.hops, true));
      if !a.direct {
        ChooseCarries(Admitted(s, now, a).node, now, a, draw, junk);
      }
    }
  }

  lemma DrainedIsData(s: Node, now: real, via: Addr, dst: Addr, r: Step)
    requires Drained(s, now, via, dst, r)
    ensures forall i :: 0 <= i < |r.outs| && r.outs[i].Send? ==> r.outs[i].msg.DataMsg?
  {
  }

  lemma ReturnContinues(s: Node, now: real, a: ReturnAnt)
    requires ReturnOk(a, s.index) && a.hops < INFINITY2
    ensures AllContinue(Return(a), AfterReturn(s, now, a).outs, s.index)
  {
    hide AfterLearn, AfterDemand, Drained;
    var r := if a.valid && IsNb(s.nbs, a.prevNode)
      then AfterLearn(s, now, a.prevNode, a.ner, a.seqno, a.hops, false) else Step(s, []);
    LearnFrame(s, now, a.prevNode, a.ner, a.seqno, a.hops, false);
    DrainedIsData(s, now, a.prevNode, a.ner, AfterLearn(s, now, a.prevNode, a.ner, a.seqno, a.hops, false));
    DemandFrame(r.node, a);
    var outs := AfterPassBack(AfterDemand(r.node, a).node, a).outs;
    assert |outs| <= 1 && (outs != [] ==> outs[0].Send? && outs[0].msg == Return(Back(a, s.index)));
  }

  lemma RecvContinues(s: Node, now: real, from: Addr, m: Msg, draw: nat, junk: Roulette.Slot)
    requires Arrives(m) && (MsgOk(from, s.index, m) || NoteOk(from, m))
    ensures AllContinue(m, AfterRecv(s, now, Delivered(m), draw, junk).outs, s.index)
  {
    hide AfterGo, AfterReturn;
    match m
    case Go(a) => GoContinues(s, now, a.(ttl := a.ttl - 1), draw, junk);
    case Return(a) => ReturnContinues(s, now, a);
    case _ =>
  }

  // ---------------------------------------------------------------- the network

  /** An ant of this launch was sent from here to there, with this trail. */
  ghost predicate Flew(sent: seq<Flight>, from: Addr, to: Addr, src: Addr, id: nat, trail: seq<Addr>) {
    exists g :: g in sent && g.from == from && g.to == to && g.msg.Go? && !g.msg.go.direct
      && g.msg.go.src == src && g.msg.go.id == id && g.msg.go.trail == trail
  }

  /** Cell by cell the trail was flown, and from its last cell the ant was sent to end. */
  ghost predicate Travelled(sent: seq<Flight>, src: Addr, id: nat, trail: seq<Addr>, end: Addr) {
    forall k :: 0 <= k < |trail| ==>
      Flew(sent, trail[k], if k + 1 < |trail| then trail[k + 1] else end, src, id, trail[..k + 1])
  }

  /** The return ant was sent to cell j of its trail, from the cell after it or from its launcher. */
  ghost predicate FlewBack(sent: seq<Flight>, b: ReturnAnt, j: nat)
    requires j < |b.trail|
  {
    exists g :: g in sent && g.msg.Return? && g.to == b.trail[j]
      && g.from == (if j == |b.trail| - 1 then b.ner else b.trail[j + 1])
      && g.msg.back.ner == b.ner && g.msg.back.seqno == b.seqno && g.msg.back.src == b.src
      && g.msg.back.trail == b.trail && g.msg.back.count == j
  }

  /** From the launcher back to the cell it is sent to, the return ant flew along the trail. */
  ghost predicate Returned(sent: seq<Flight>, b: ReturnAnt) {
    forall j: nat :: b.count <= j < |b.trail| ==> FlewBack(sent, b, j)
  }

  /** Some launch of its source flew the trail of a return ant, up to the node that sent it back. */
  ghost predicate Travels(sent: seq<Flight>, b: ReturnAnt) {
    exists id :: Travelled(sent, b.src, id, b.trail, b.ner)
  }

  ghost predicate JourneyOk(sent: seq<Flight>, f: Flight) {
    && (f.msg.Go? && !f.msg.go.direct ==> Travelled(sent, f.msg.go.src, f.msg.go.id, f.msg.go.trail, f.to))
    && (f.msg.Return? ==> Travels(sent, f.msg.back) && Returned(sent, f.msg.back))
  }

  ghost predicate JourneysOk(net: Net) {
    forall i :: 0 <= i < |net.wire| ==> JourneyOk(net.sent, net.wire[i])
  }

  lemma TravelledLater(sent: seq<Flight>, more: seq<Flight>, src: Addr, id: nat, trail: seq<Addr>, end: Addr)
    requires Travelled(sent, src, id, trail, end)
    ensures Travelled(sent + more, src, id, trail, end)
  {
    forall k | 0 <= k < |trail|
      ensures Flew(sent + more, trail[k], if k + 1 < |trail| then trail[k + 1] else end, src, id, trail[..k + 1])
    {
      assert Flew(sent, trail[k], if k + 1 < |trail| then trail[k + 1] else end, src, id, trail[..k + 1]);
    }
  }

  lemma JourneyLater(sent: seq<Flight>, more: seq<Flight>, f: Flight)
    requires JourneyOk(sent, f)
    ensures JourneyOk(sent + more, f)
  {
    hide Travelled, FlewBack;
    if f.msg.Go? && !f.msg.go.direct {
      TravelledLater(sent, more, f.msg.go.src, f.msg.go.id, f.msg.go.trail, f.to);
    } else if f.msg.Return? {
      var b := f.msg.back;
      var id :| Travelled(sent, b.src, id, b.trail, b.ner);
      TravelledLater(sent, more, b.src, id, b.trail, b.ner);
      forall j: nat | b.count <= j < |b.trail| ensures FlewBack(sent + more, b, j) {
        FlewBackLater(sent, more, b, j);
      }
    }
  }

  lemma FlewBackLater(sent: seq<Flight>, more: seq<Flight>, b: ReturnAnt, j: nat)
    requires j < |b.trail| && FlewBack(sent, b, j)
    ensures FlewBack(sent + more, b, j)
  {
  }

  /** The ant sent on from n has flown its longer trail. */
  lemma OneCellMore(sent: seq<Flight>, src: Addr, id: nat, trail: seq<Addr>, n: Addr, f: Flight)
    requires Travelled(sent, src, id, trail, n) && f in sent && f.from == n && f.msg.Go? && !f.msg.go.direct
    requires f.msg.go.src == src && f.msg.go.id == id && f.msg.go.trail == trail + [n]
    ensures Travelled(sent, src, id, trail + [n], f.to)
  {
    var longer := trail + [n];
    forall k | 0 <= k < |longer|
      ensures Flew(sent, longer[k], if k + 1 < |longer| then longer[k + 1] else f.to, src, id, longer[..k + 1])
    {
      if k < |trail| {
        assert longer[..k + 1] == trail[..k + 1];
        assert Flew(sent, trail[k], if k + 1 < |trail| then trail[k + 1] else n, src, id, trail[..k + 1]);
      } else {
        assert longer[..k + 1] == longer;
      }
    }
  }

  /** The first leg back. */
  lemma FirstBack(sent: seq<Flight>, b: ReturnAnt, f: Flight)
    requires f in sent && f.msg == Return(b) && f.from == b.ner
    requires b.trail != [] && b.count == |b.trail| - 1 && f.to == b.trail[b.count]
    ensures Returned(sent, b)
  {
  }

  /** One leg more. */
  lemma OneBack(sent: seq<Flight>, b: ReturnAnt, n: Addr, f: Flight)
    requires Returned(sent, b) && 0 < b.count < |b.trail| && b.trail[b.count] == n
    requires f in sent && f.from == n && f.msg == Return(Back(b, n)) && f.to == b.trail[b.count - 1]
    ensures Returned(sent, Back(b, n))
  {
    var c := Back(b, n);
    forall j: nat | c.count <= j < |c.trail| ensures FlewBack(sent, c, j) {
      if j > c.count {
        assert FlewBack(sent, b, j);
      }
    }
  }

  /** The flight f that continues the journey of the message that was delivered at n. */
  lemma FlightOnJourney(sent: seq<Flight>, was: Flight, f: Flight)
    requires JourneyOk(sent, was) && FlightOk(was) && FlightOk(f) && f in sent
    requires f.from == was.to && OnJourney(f.msg) && Continues(was.msg, Send(f.to, f.msg), was.to)
    ensures JourneyOk(sent, f)
  {
    hide Travelled, Returned;
    var n := was.to;
    if was.msg.Go? {
      var a := was.msg.go;
      if f.msg.Go? {
        OneCellMore(sent, a.src, a.id, a.trail, n, f);
      } else {
        assert Travelled(sent, f.msg.back.src, a.id, f.msg.back.trail, f.msg.back.ner);
        FirstBack(sent, f.msg.back, f);
      }
    } else {
      var b := was.msg.back;
      var id :| Travelled(sent, b.src, id, b.trail, b.ner);
      assert Travelled(sent, f.msg.back.src, id, f.msg.back.trail, f.msg.back.ner);
      OneBack(sent, b, n, f);
    }
  }

  /** The flights of a step are its sends and the copies of its broadcasts. */
  lemma {:induction false} LaunchMembers(from: Addr, outs: seq<Output>, hearers: seq<Addr>, f: Flight)
    requires f in Launch(from, outs, hearers)
    ensures f.from == from && (Send(f.to, f.msg) in outs || Broadcast(f.msg) in outs)
  {
    if f in LaunchOne(from, outs[0], hearers) {
      assert outs[0] in outs;
    } else {
      LaunchMembers(from, outs[1..], hearers, f);
    }
  }

  lemma NewFlight(net: Net, ev: Event, f: Flight)
    requires NetInv(net) && Enabled(net, ev) && !ev.Lose? && !ev.Elapse? && JourneysOk(net)
    requires f in Launch(Actor(net, ev), StepOf(net, ev).outs, ev.hearers)
    ensures JourneyOk(Apply(net, ev).sent, f)
  {
    hide NodeInv, AfterRecv, AfterTimer, JourneyOk, Continues, Launch;
    var n, outs := Actor(net, ev), StepOf(net, ev).outs;
    StepOfOk(net, ev);
    LaunchMembers(n, outs, ev.hearers, f);
    var o := if Send(f.to, f.msg) in outs then Send(f.to, f.msg) else Broadcast(f.msg);
    var i :| 0 <= i < |outs| && outs[i] == o;
    assert OutOk(n, outs[i]);
    var sent := Apply(net, ev).sent;
    assert sent == net.sent + Launch(n, outs, ev.hearers) && f in sent;
    if OnJourney(f.msg) {
      assert o.Send?;
      Started(net, ev, o);
      if ev.Deliver? {
        var was := net.wire[ev.i];
        assert FlightOk(was) && net.nodes[n].index == n;
        RecvContinues(net.nodes[n], net.now, was.from, was.msg, ev.draw, ev.junk);
        JourneyLater(net.sent, Launch(n, outs, ev.hearers), was);
        FlightOnJourney(sent, was, f);
      } else {
        FirstCell(sent, n, f);
      }
    } else {
      NoJourney(sent, f);
    }
  }

  lemma NoJourney(sent: seq<Flight>, f: Flight)
    requires !OnJourney(f.msg)
    ensures JourneyOk(sent, f)
  {
  }

  /** Without a message delivered, the only journey that begins is a launch of sendAntLight. */
  lemma Started(net: Net, ev: Event, o: Output)
    requires NetInv(net) && Enabled(net, ev) && !ev.Lose? && !ev.Elapse?
    requires o in StepOf(net, ev).outs && o.Send? && OnJourney(o.msg)
    ensures ev.Deliver? || (o.msg.Go? && o.msg.go.trail == [Actor(net, ev)] && o.msg.go.src == Actor(net, ev))
  {
    hide AfterTimer, AfterData, AfterRecv, NodeInv;
    if ev.Fire? {
      StartedByTimer(net.nodes[ev.n], net.now, ev.timer, ev.draw, o);
    } else if ev.Originate? {
      DataStartsNone(net.nodes[ev.n], net.now, NewData(net, ev));
    }
  }

  lemma StartedByTimer(s: Node, now: real, t: Timer, draw: nat, o: Output)
    requires NodeInv(s, now) && o in AfterTimer(s, now, t, draw).outs && o.Send? && OnJourney(o.msg)
    ensures o.msg.Go? && o.msg.go.trail == [s.index] && o.msg.go.src == s.index
  {
    hide NodeInv, AfterNbPurge, AfterRtPurge;
    if t.NeighborTimer? {
      NbPurgeSendsNothing(s, now, 0);
    } else if t.RouteTimer? {
      RtPurgeQuiet(s, now, 0);
    }
  }

  lemma DataStartsNone(s: Node, now: real, d: Data)
    ensures forall o :: o in AfterData(s, now, d).outs && o.Send? ==> !OnJourney(o.msg)
  {
  }

  lemma {:induction false} NbPurgeSendsNothing(s: Node, now: real, i: nat)
    ensures forall o :: o in AfterNbPurge(s, now, i).outs ==> !o.Send?
    decreases |s.nbs| - i
  {
    if i < |s.nbs| {
      if s.nbs[i].expire <= now {
        NbPurgeSendsNothing(AfterNbDelete(s, s.nbs[i].addr).node, now, i);
      } else {
        NbPurgeSendsNothing(s, now, i + 1);
      }
    }
  }

  lemma FirstCell(sent: seq<Flight>, n: Addr, f: Flight)
    requires f in sent && f.from == n && f.msg.Go? && !f.msg.go.direct && f.msg.go.trail == [n]
    ensures JourneyOk(sent, f)
  {
    var trail := f.msg.go.trail;
    assert trail[..1] == trail;
    assert Flew(sent, n, f.to, f.msg.go.src, f.msg.go.id, trail[..1]);
  }

  lemma JourneyStep(net: Net, ev: Event)
    requires NetInv(net) && Enabled(net, ev) && JourneysOk(net)
    ensures JourneysOk(Apply(net, ev))
  {
    hide JourneyOk, Launch, StepOf, NetInv;
    var net' := Apply(net, ev);
    forall i | 0 <= i < |net'.wire| ensures JourneyOk(net'.sent, net'.wire[i]) {
      StillThere(net, ev, i);
      if net'.wire[i] in net.wire {
        var k :| 0 <= k < |net.wire| && net.wire[k] == net'.wire[i];
        if ev.Lose? || ev.Elapse? {
          assert net'.sent == net.sent;
        } else {
          JourneyLater(net.sent, Launch(Actor(net, ev), StepOf(net, ev).outs, ev.hearers), net'.wire[i]);
        }
      } else {
        NewFlight(net, ev, net'.wire[i]);
      }
    }
  }

  lemma StillThere(net: Net, ev: Event, i: nat)
    requires Enabled(net, ev) && i < |Apply(net, ev).wire|
    ensures var f := Apply(net, ev).wire[i];
      f in net.wire || (!ev.Lose? && !ev.Elapse? && f in Launch(Actor(net, ev), StepOf(net, ev).outs, ev.hearers))
  {
    hide Launch, StepOf;
    if !ev.Lose? && !ev.Elapse? {
      var flights := Launch(Actor(net, ev), StepOf(net, ev).outs, ev.hearers);
      assert Apply(net, ev).wire == Taken(net, ev).wire + flights;
      if i >= |Taken(net, ev).wire| {
        assert Apply(net, ev).wire[i] == flights[i - |Taken(net, ev).wire|];
      }
    }
  }

  /** In every run: the cells of the trail of an outward ant in flight are, one after the other, flights of
      that very launch, the last of them the ant's own; the trail of a return ant in flight was so flown by
      one launch of its source, up to the node that sent it back; and every leg of its way back so far, from
      there to the cell it is sent to, is a flight of the run. */
  lemma {:induction false} EveryJourneyFlown(ids: set<Addr>, evs: seq<Event>)
    requires (forall n :: n in ids ==> n >= 0) && Legal(Start(ids), evs)
    ensures JourneysOk(Run(Start(ids), evs))
  {
    hide JourneyOk, Apply;
    if evs != [] {
      var front := evs[..|evs| - 1];
      EveryJourneyFlown(ids, front);
      EveryRunOk(ids, front);
      JourneyStep(Run(Start(ids), front), evs[|evs| - 1]);
    }
  }

  /** When a return ant is about to reach its source, its whole trail has been flown in both directions. */
  lemma WholeTripFlown(ids: set<Addr>, evs: seq<Event>, f: Flight)
    requires (forall n :: n in ids ==> n >= 0) && Legal(Start(ids), evs)
    requires f in Run(Start(ids), evs).wire && f.msg.Return? && f.to == f.msg.back.src
    ensures var sent, b := Run(Start(ids), evs).sent, f.msg.back;
      Travels(sent, b) && forall j: nat :: j < |b.trail| ==> FlewBack(sent, b, j)
  {
    hide NetInv, Travels, FlewBack, Apply;
    EveryJourneyFlown(ids, evs);
    ReturnsFollowTheirTrail(ids, evs);
    var wire := Run(Start(ids), evs).wire;
    var i :| 0 <= i < |wire| && wire[i] == f;
    assert JourneyOk(Run(Start(ids), evs).sent, wire[i]) && ReturnOk(f.msg.back, f.to);
    assert f.msg.back.count == 0;
  }
}

/** What the composite handlers do to the parts of a node they are not about. */
module Frames {
  import opened Types
  import opened PacketQueue
  import opened RoutingTable
  import opened PheromoneTable
  import opened Requests
  import opened Protocol
  import Roulette

  /** Either nothing leaves the buffer, or exactly the live packets for dst do, each handed to forward(). */
  ghost predicate Drained(s: Node, now: real, via: Addr, dst: Addr, r: Step) {
    || (r.outs == [] && r.node.queue == s.queue)
    || (r.outs == ForwardAll(s.index, via, For(Live(s.queue, now), dst))
        && r.node.queue == Others(Live(s.queue, now), dst))
  }

  lemma InstallFrame(s: Node, now: real, at: nat, seqno: nat, hops: nat)
    requires at < |s.rtable|
    ensures var r := Install(s, now, at, seqno, hops);
      && r.node == s.(rtable := r.node.rtable, queue := r.node.queue)
      && Drained(s, now, s.rtable[at].nextHop, s.rtable[at].dst, r)
  {
  }

  lemma LearnFrame(s: Node, now: real, prev: Addr, ner: Addr, seqno: nat, hops: nat, outward: bool)
    ensures var r := AfterLearn(s, now, prev, ner, seqno, hops, outward);
      && r.node == s.(rtable := r.node.rtable, queue := r.node.queue, asks := r.node.asks,
                      demNum := r.node.demNum, askRt := r.node.askRt)
      && Drained(s, now, prev, ner, r)
  {
    var s1 := if Asked(s.asks, ner) then DropRequest(s, ner) else s;
    var k := FindVia(s1.rtable, prev, ner);
    if k < 0 {
      InstallFrame(s1.(rtable := [Fresh(prev, ner)] + s1.rtable), now, 0, seqno, hops);
    } else if outward {
      var e := s1.rtable[k];
      InstallFrame(s1.(rtable := s1.rtable[k := e.(expire := Max(e.expire, now + ROUTE_LIFE))]), now, k, seqno, hops);
    } else {
      InstallFrame(s1, now, k, seqno, hops);
    }
  }

  /** Only requests and the sequence number change when a return ant is launched. */
  lemma SendReturnFrame(s: Node, now: real, trail: seq<Addr>, src: Addr, etab: Addr)
    ensures var r := AfterSendReturn(s, now, trail, src, etab);
      && r.node == s.(seqno := r.node.seqno, asks := r.node.asks, demNum := r.node.demNum, askRt := r.node.askRt)
      && (r.outs == [] || (|r.outs| == 1 && r.outs[0].Send? && r.outs[0].msg.Return?))
  {
  }

  lemma CloneFrame(s: Node, now: real, a: GoAnt)
    ensures var r := AfterSendClone(s, now, a);
      && r.node == s.(seqno := r.node.seqno, asks := r.node.asks, demNum := r.node.demNum, askRt := r.node.askRt)
      && |r.outs| <= 1 && (r.outs == [] || (r.outs[0].Send? && (r.outs[0].msg.Return? || r.outs[0].msg.Go?)))
  {
    SendReturnFrame(s, now, a.trail, a.src, -1);
  }

  lemma AimFrame(s: Node, a: GoAnt, hop: Addr)
    ensures var r := Aim(s, a, hop);
      && r.node == s.(rtable := r.node.rtable)
      && r.ant == a.(seqno := r.ant.seqno, hops := r.ant.hops, valid := r.ant.valid)
  {
  }

  lemma RelayFrame(s: Node, now: real, a: GoAnt, hop: Addr)
    ensures var r := AfterRelay(s, now, a, hop);
      && r.node == s.(seqno := r.node.seqno, asks := r.node.asks, demNum := r.node.demNum, askRt := r.node.askRt)
      && |r.outs| <= 1 && (r.outs == [] || (r.outs[0].Send? && (r.outs[0].msg.Return? || r.outs[0].msg.Go?)))
  {
    SendReturnFrame(s, now, a.trail, a.src, -1);
  }

  ghost predicate AntsOnly(outs: seq<Output>) {
    forall i :: 0 <= i < |outs| ==> outs[i].Send? && (outs[i].msg.Go? || outs[i].msg.Return?)
  }

  /** The parts chooseNextHop leaves alone. */
  ghost predicate Untouched(s: Node, s': Node) {
    s'.index == s.index && s'.idAgent == s.idAgent && s'.ids == s.ids && s'.queue == s.queue
    && s'.nbs == s.nbs && s'.phtable == s.phtable
  }

  lemma SearchFrame(s: Node, now: real, a: GoAnt, draw: nat, junk: Roulette.Slot)
    ensures var r := AfterSearch(s, now, a, draw, junk); Untouched(s, r.node) && AntsOnly(r.outs)
  {
    hide Aim, AfterSendClone, AfterRelay;
    var w := Roulette.Build(s.nbs, s.phtable, junk);
    if w.touched && w.size > 0 && w.cells[draw % w.size].claimant != -1 {
      var slot := w.cells[draw % w.size];
      var a1 := a.(target := slot.claimant, ner := slot.asked, ttl := ANT_TTL);
      CloneFrame(s, now, a);
      var s1 := AfterSendClone(s, now, a).node;
      AimFrame(s1, a1, slot.hop);
      var aimed := Aim(s1, a1, slot.hop);
      RelayFrame(aimed.node, now, aimed.ant, slot.hop);
    } else {
      var hop := if w.touched && w.size > 0 then w.cells[draw % w.size].hop else FirstUnvisited(s.nbs, a);
      RelayFrame(if s.index != a.src then AddPrecursor(s, a.prevNode, a.ner, hop) else s, now, a, hop);
    }
  }

  lemma TargetFrame(s: Node, now: real, a: GoAnt, hop: Addr)
    ensures var aimed := Aim(s, a, hop);
      var r := AfterRelay(aimed.node, now, aimed.ant, hop); Untouched(s, r.node) && AntsOnly(r.outs)
  {
    AimFrame(s, a, hop);
    var aimed := Aim(s, a, hop);
    RelayFrame(aimed.node, now, aimed.ant, hop);
  }

  /** chooseNextHop sends ants only, and leaves neighbours, pheromone, buffer and identifiers alone. */
  lemma ChooseFrame(s: Node, now: real, a: GoAnt, draw: nat, junk: Roulette.Slot)
    ensures var r := AfterChoose(s, now, a, draw, junk); Untouched(s, r.node) && AntsOnly(r.outs)
  {
    hide AfterSearch, Aim, AfterRelay, AfterSendClone, AfterSendReturn;
    SendReturnFrame(s, now, a.trail, a.src, if a.target != NO_TARGET then a.ner else -1);
    if a.target != NO_TARGET {
      if a.target != s.index {
        var k := FindKey(s.phtable, a.target, a.ner);
        var hop := if k < 0 then NO_HOP else if s.phtable[k].nbs == [] then UNWRITTEN else s.phtable[k].nbs[0];
        TargetFrame(s, now, a, hop);
      }
    } else if s.askRt && s.index != a.src {
      CloneFrame(AfterSendReturn(s, now, a.trail, a.src, -1).node, now, a);
    } else if a.ttl != 0 {
      SearchFrame(s, now, a, draw, junk);
    }
  }

  /** The first part of recvAntLightReturn. */
  function Heard(s: Node, now: real, a: ReturnAnt): Node {
    if a.valid && IsNb(s.nbs, a.prevNode)
    then AfterLearn(s, now, a.prevNode, a.ner, a.seqno, a.hops, false).node else s
  }

  /** The demand part of a return: at most one direct ant, and only pheromone and counters change. */
  lemma DemandFrame(s: Node, a: ReturnAnt)
    ensures var r := AfterDemand(s, a);
      && r.node == s.(seqno := r.node.seqno, idAgent := r.node.idAgent, phtable := r.node.phtable)
      && s.idAgent <= r.node.idAgent
      && |r.outs| <= 1 && (r.outs == [] || (r.outs[0].Send? && r.outs[0].msg.Go? && r.outs[0].msg.go.direct))
  {
  }

  lemma PassBackFrame(s: Node, a: ReturnAnt)
    ensures var r := AfterPassBack(s, a);
      && r.node == s.(rtable := r.node.rtable)
      && |r.outs| <= 1 && (r.outs == [] || (r.outs[0].Send? && r.outs[0].msg.Return?))
  {
  }
}

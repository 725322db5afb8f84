/** What recv does with a data packet, branch by branch, and with the packets that waited for a route
    (antconf.cc:517-679, 857-866, 1469-1477). */
module Delivery {
  import opened Types
  import opened PacketQueue
  import opened RoutingTable
  import opened Requests
  import opened Protocol
  import opened NodeInvariant
  import opened Frames
  import opened Choices
  import opened Demands
  import opened Outward
  import Roulette

  // ---------------------------------------------------------------- packets received

  /** The packet as this node handles it: its own starts with 30, a foreign one has one ttl less. */
  function Counted(s: Node, d: Data): Data {
    if d.saddr != s.index then d.(ttl := d.ttl - 1)
    else if d.daddr != BROADCAST then d.(ttl := NETWORK_DIAMETER)
    else d
  }

  /** A packet of the node's own that comes back is dropped, and so is a foreign one at the end of its ttl. */
  lemma DataRefused(s: Node, now: real, d: Data, draw: nat, junk: Roulette.Slot)
    ensures d.saddr == s.index && d.forwards != 0 ==>
      AfterRecv(s, now, DataMsg(d), draw, junk) == Step(s, [Drop(d, ROUTE_LOOP)])
    ensures d.saddr != s.index && d.ttl == 1 ==>
      AfterRecv(s, now, DataMsg(d), draw, junk) == Step(s, [Drop(d.(ttl := 0), TTL_OVER)])
  {
  }

  /** Neither of these. */
  predicate Passes(s: Node, d: Data) {
    if d.saddr == s.index then d.forwards == 0 else d.ttl != 1
  }

  /** The packet goes by the first of the best routes, whose time starts again. */
  ghost predicate GoesBy(s: Node, now: real, d: Data, r: Step, k: nat) {
    && IsOptimal(s.rtable, d.daddr, k)
    && r.outs == [Send(s.rtable[k].nextHop, DataMsg(Counted(s, d).(up := false)))]
    && r.node == s.(rtable := s.rtable[k := s.rtable[k].(expire := now + ROUTE_LIFE)])
  }

  lemma HandledAs(s: Node, now: real, d: Data, draw: nat, junk: Roulette.Slot)
    requires Passes(s, d) && d.daddr != BROADCAST
    ensures AfterRecv(s, now, DataMsg(d), draw, junk) == AfterResolution(s, now, Counted(s, d))
    ensures Counted(s, d).ttl != 0
  {
    hide AfterResolution;
  }

  /** A unicast packet goes straight to its destination if that is a neighbour, and otherwise by the first of the
      best UP routes, if there is one; at its destination it is delivered instead. */
  lemma UnicastGoes(s: Node, now: real, d: Data, draw: nat, junk: Roulette.Slot)
    requires Passes(s, d) && d.daddr != BROADCAST && (Near(s, d.daddr) || !Routeless(s.rtable, d.daddr))
    ensures var r := AfterRecv(s, now, DataMsg(d), draw, junk);
      if Near(s, d.daddr) then r == Step(s, [Send(d.daddr, DataMsg(Counted(s, d).(up := false)))])
      else if d.daddr == s.index then r == Step(s, [Local(Counted(s, d))])
      else exists k: nat :: GoesBy(s, now, d, r, k)
  {
    hide AfterRecv, AfterResolution, FindNb;
    NearIsNb(s, d.daddr);
    HandledAs(s, now, d, draw, junk);
    ResolutionForwardsIffRouted(s, now, Counted(s, d));
    if !Near(s, d.daddr) {
      var r := AfterResolution(s, now, Counted(s, d));
      var k: nat :| IsOptimal(s.rtable, d.daddr, k) && |r.outs| == 1
        && Follows(s.index, s.rtable[k], Counted(s, d), r.outs[0])
        && r.node == s.(rtable := s.rtable[k := s.rtable[k].(expire :=
             if r.outs[0].Send? then now + ROUTE_LIFE else s.rtable[k].expire)]);
      if d.daddr == s.index {
        assert s.rtable[k := s.rtable[k]] == s.rtable;
        assert r.outs == [Local(Counted(s, d))];
      } else {
        assert GoesBy(s, now, d, r, k);
      }
    }
  }

  /** Without any way, the node's own packet waits and its destination is asked for; a foreign one is dropped, and
      those who sent it are told. Either way the destination gets one more entry, not in use. */
  lemma UnicastWaitsOrDies(s: Node, now: real, d: Data, draw: nat, junk: Roulette.Slot)
    requires Passes(s, d) && d.daddr != BROADCAST && !Near(s, d.daddr) && Routeless(s.rtable, d.daddr)
    ensures var r, live := AfterRecv(s, now, DataMsg(d), draw, junk), Live(s.queue, now);
      && r.node.rtable == [Entry(d.daddr, 0, INFINITY2, NO_TARGET, [], 0.0, DOWN)] + s.rtable
      && (d.saddr != s.index ==>
            && r.outs == [Broadcast(Rectificator(s.index, [Lost(d.daddr, 0)])), Drop(d.(ttl := d.ttl - 1), NO_ROUTE)]
            && r.node == s.(rtable := r.node.rtable))
      && (d.saddr == s.index ==>
            && r.node.queue == live[if |live| == RTQ_MAX_LEN then 1 else 0..]
                 + [d.(ttl := NETWORK_DIAMETER, ts := now + RTQ_TIMEOUT)]
            && (|live| == RTQ_MAX_LEN ==> |r.outs| == 1 && r.outs[0].Drop? && r.outs[0].dropped == live[0])
            && (|live| != RTQ_MAX_LEN ==> r.outs == [])
            && (Asked(s.asks, d.daddr) ==> r.node.asks == s.asks && r.node.askRt == s.askRt)
            && (!Asked(s.asks, d.daddr) ==>
                  && r.node.asks == [Request(d.daddr, now + EXPIRE_AR_INTERVAL, PHEROMONE_QTE)] + s.asks
                  && r.node.askRt))
  {
    hide AfterRecv, AfterResolution, Routeless, FindNb;
    NearIsNb(s, d.daddr);
    HandledAs(s, now, d, draw, junk);
    ResolutionForwardsIffRouted(s, now, Counted(s, d));
    if d.saddr == s.index {
      OwnWaits(s, now, Counted(s, d));
    }
  }

  lemma OwnWaits(s: Node, now: real, d: Data)
    requires !IsNb(s.nbs, d.daddr) && Routeless(s.rtable, d.daddr) && d.saddr == s.index
    ensures var r, live := AfterResolution(s, now, d), Live(s.queue, now);
      && r.node.queue == live[if |live| == RTQ_MAX_LEN then 1 else 0..] + [d.(ts := now + RTQ_TIMEOUT)]
      && (|live| == RTQ_MAX_LEN ==> |r.outs| == 1 && r.outs[0].Drop? && r.outs[0].dropped == live[0])
      && (|live| != RTQ_MAX_LEN ==> r.outs == [])
      && (Asked(s.asks, d.daddr) ==> r.node.asks == s.asks && r.node.askRt == s.askRt)
      && (!Asked(s.asks, d.daddr) ==>
            && r.node.asks == [Request(d.daddr, now + EXPIRE_AR_INTERVAL, PHEROMONE_QTE)] + s.asks && r.node.askRt)
  {
    hide Live;
  }

  /** A broadcast packet changes nothing at the node: it is dropped at the end of its ttl, delivered on its way up, and
      otherwise sent to all. */
  lemma BroadcastGoes(s: Node, now: real, d: Data, draw: nat, junk: Roulette.Slot)
    requires Passes(s, d) && d.daddr == BROADCAST && s.index >= 0
    ensures var r, o := AfterRecv(s, now, DataMsg(d), draw, junk), Counted(s, d);
      && r.node == s
      && r.outs == [if o.ttl == 0 then Drop(o, TTL_OVER) else if d.up then Local(o) else Broadcast(DataMsg(o))]
  {
  }

  // ---------------------------------------------------------------- packets that waited

  /** The first outputs are the live packets that waited for ner, in their order, through prev; none waits now. */
  ghost predicate Released(s: Node, now: real, prev: Addr, ner: Addr, r: Step) {
    var ds := For(Live(s.queue, now), ner);
    && |ds| <= |r.outs|
    && (forall i :: 0 <= i < |ds| ==> Leaves(s.index, prev, ner, ds[i], r.outs[i]))
    && (forall d :: d in r.node.queue ==> d.daddr != ner)
  }

  lemma LearnReleases(s: Node, now: real, prev: Addr, ner: Addr, seqno: nat, hops: nat, outward: bool, r: Step)
    requires NodeInv(s, now) && IsNb(s.nbs, prev) && SeqnoOk(seqno) && hops < INFINITY2
    requires var l := AfterLearn(s, now, prev, ner, seqno, hops, outward);
      |l.outs| <= |r.outs| && r.outs[..|l.outs|] == l.outs && r.node.queue == l.node.queue
    ensures Released(s, now, prev, ner, r)
  {
    hide AfterLearn, NodeInv, Live, For, Others, Leaves;
    LearnEmptiesBuffer(s, now, prev, ner, seqno, hops, outward);
    var l := AfterLearn(s, now, prev, ner, seqno, hops, outward);
    forall i | 0 <= i < |l.outs| ensures r.outs[i] == l.outs[i] {
      assert r.outs[..|l.outs|][i] == l.outs[i];
    }
  }

  /** An outward ant, let in and learned from, sets free what waited for its subject. */
  lemma GoReleases(s: Node, now: real, a: GoAnt, draw: nat, junk: Roulette.Slot)
    requires NodeInv(s, now) && GoOk(a) && a.hops < INFINITY2 && Admits(s, a) && a.valid && Near(s, a.prevNode)
    ensures Released(s, now, a.prevNode, a.ner, AfterRecv(s, now, Go(a), draw, junk))
  {
    hide AfterLearn, AfterChoose, NodeInv, Released, AntsOnly;
    var b := Taken(a);
    var s1 := s.(ids := [AgentId(a.src, a.id, now + AGENT_ID_SAVE)] + s.ids);
    IdsAside(s, now, s1.ids);
    NearIsNb(s, a.prevNode);
    var l := AfterLearn(s1, now, a.prevNode, a.ner, a.seqno, a.hops, true);
    ChooseFrame(l.node, now, b, draw, junk);
    var r := AfterRecv(s, now, Go(a), draw, junk);
    LearnReleases(s1, now, a.prevNode, a.ner, a.seqno, a.hops, true, r);
    SameReleased(s, s1, now, a.prevNode, a.ner, r);
  }

  lemma SameReleased(s: Node, s1: Node, now: real, prev: Addr, ner: Addr, r: Step)
    requires s1.queue == s.queue && s1.index == s.index
    ensures Released(s1, now, prev, ner, r) <==> Released(s, now, prev, ner, r)
  {
  }

  /** And so does a return ant, which also ends the demand for it. */
  lemma ReturnReleases(s: Node, now: real, a: ReturnAnt, draw: nat, junk: Roulette.Slot)
    requires NodeInv(s, now) && ReturnOk(a, s.index) && a.hops < INFINITY2 && Near(s, a.prevNode)
    ensures var r := AfterRecv(s, now, Return(a), draw, junk);
      Released(s, now, a.prevNode, a.ner, r) && !Asked(r.node.asks, a.ner)
  {
    hide AfterLearn, AfterDemand, AfterPassBack, NodeInv, Released;
    NearIsNb(s, a.prevNode);
    var l := AfterLearn(s, now, a.prevNode, a.ner, a.seqno, a.hops, false);
    var d := AfterDemand(l.node, a);
    DemandFrame(l.node, a);
    PassBackFrame(d.node, a);
    LearnReleases(s, now, a.prevNode, a.ner, a.seqno, a.hops, false, AfterRecv(s, now, Return(a), draw, junk));
    LearnAnswers(s, now, a.prevNode, a.ner, a.seqno, a.hops, false);
  }
}

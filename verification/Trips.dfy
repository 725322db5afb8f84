/** Whole trips: a return ant retraces the outward trail of the ant that caused it. */
module Trips {
  import opened Types
  import opened RoutingTable
  import opened PacketQueue
  import opened Requests
  import opened Protocol
  import opened NodeInvariant
  import opened HandlersKeep
  import opened Frames

  /** The return ants among what a handler sends, in order. */
  function Returns(outs: seq<Output>): seq<Output> {
    if outs == [] then []
    else
      var before, o := Returns(outs[..|outs| - 1]), outs[|outs| - 1];
      if o.Send? && o.msg.Return? then before + [o] else before
  }

  lemma {:induction false} ReturnsAppend(a: seq<Output>, b: seq<Output>)
    ensures Returns(a + b) == Returns(a) + Returns(b)
  {
    if b == [] {
      assert a + b == a;
    } else {
      assert (a + b)[..|a + b| - 1] == a + b[..|b| - 1];
      ReturnsAppend(a, b[..|b| - 1]);
    }
  }

  lemma {:induction false} NoReturns(outs: seq<Output>)
    requires forall i :: 0 <= i < |outs| ==> !(outs[i].Send? && outs[i].msg.Return?)
    ensures Returns(outs) == []
  {
    if outs != [] {
      NoReturns(outs[..|outs| - 1]);
    }
  }

  /** The ant one cell further back along its trail. */
  function Back(a: ReturnAnt, via: Addr): ReturnAnt
    requires a.count > 0
  {
    a.(hops := a.hops + 1, prevNode := via, count := a.count - 1)
  }

  lemma LearnReturnsNothing(s: Node, now: real, prev: Addr, ner: Addr, seqno: nat, hops: nat, outward: bool)
    ensures Returns(AfterLearn(s, now, prev, ner, seqno, hops, outward).outs) == []
    ensures AfterLearn(s, now, prev, ner, seqno, hops, outward).node.index == s.index
    ensures AfterLearn(s, now, prev, ner, seqno, hops, outward).node.nbs == s.nbs
  {
    hide AfterLearn, Keep, Returns;
    LearnFrame(s, now, prev, ner, seqno, hops, outward);
    NoReturns(AfterLearn(s, now, prev, ner, seqno, hops, outward).outs);
  }

  lemma DemandReturnsNothing(s: Node, a: ReturnAnt)
    ensures Returns(AfterDemand(s, a).outs) == []
    ensures AfterDemand(s, a).node.index == s.index && AfterDemand(s, a).node.nbs == s.nbs
  {
    NoReturns(AfterDemand(s, a).outs);
  }

  lemma PassBackReturns(s: Node, a: ReturnAnt)
    requires ReturnOk(a, s.index) && a.hops < INFINITY2
    ensures AfterPassBack(s, a).node.nbs == s.nbs
    ensures Returns(AfterPassBack(s, a).outs)
      == if a.count > 0 && IsNb(s.nbs, a.trail[a.count - 1])
         then [Send(a.trail[a.count - 1], Return(Back(a, s.index)))] else []
  {
    var outs := AfterPassBack(s, a).outs;
    assert outs == [] || Returns(outs[..0]) == [];
  }

  /** What becomes of a return ant at the node it was sent to: at its source it stops; elsewhere it goes
      on to the previous cell of the trail if that is a neighbour, and there is never a second copy. The
      byte that holds the cell index never wraps. */
  lemma ReturnStep(s: Node, now: real, a: ReturnAnt)
    requires ReturnOk(a, s.index) && a.hops < INFINITY2
    ensures a.src == s.index <==> a.count == 0
    ensures Returns(AfterReturn(s, now, a).outs)
      == if a.count > 0 && IsNb(s.nbs, a.trail[a.count - 1])
         then [Send(a.trail[a.count - 1], Return(Back(a, s.index)))] else []
  {
    var r := if a.valid && IsNb(s.nbs, a.prevNode)
      then AfterLearn(s, now, a.prevNode, a.ner, a.seqno, a.hops, false) else Step(s, []);
    LearnReturnsNothing(s, now, a.prevNode, a.ner, a.seqno, a.hops, false);
    var d := AfterDemand(r.node, a);
    DemandReturnsNothing(r.node, a);
    PassBackReturns(d.node, a);
    ReturnsAppend(r.outs, d.outs);
    ReturnsAppend(r.outs + d.outs, AfterPassBack(d.node, a).outs);
  }

  /** A route the ant creates for its launcher leads through the node it came from, and its length is
      the distance the ant has walked. */
  lemma ReturnInstallsDistance(s: Node, now: real, a: ReturnAnt)
    requires NodeInv(s, now) && ReturnOk(a, s.index) && a.hops < INFINITY2
    requires IsNb(s.nbs, a.prevNode) && FindVia(s.rtable, a.prevNode, a.ner) < 0
    ensures var r := AfterLearn(s, now, a.prevNode, a.ner, a.seqno, a.hops, false).node.rtable;
      && |r| == |s.rtable| + 1
      && r[0].flag == UP && r[0].dst == a.ner && r[0].nextHop == a.prevNode
      && r[0].seqno == a.seqno && r[0].hops == |a.trail| - a.count
      && r[1..] == s.rtable
  {
    var s1 := if Asked(s.asks, a.ner) then DropRequest(s, a.ner) else s;
    var t := [Fresh(a.prevNode, a.ner)] + s.rtable;
    var r := Install(s1.(rtable := t), now, 0, a.seqno, a.hops).node.rtable;
    assert t[1..] == s.rtable && r[1..] == t[1..];
  }

  /** One stop of a trip: the ant, where it was sent, and the node that receives it. */
  datatype Leg = Leg(ant: ReturnAnt, to: Addr, at: Node, now: real)

  ghost predicate LegOk(l: Leg) {
    NodeInv(l.at, l.now) && l.at.index == l.to && l.ant.hops < INFINITY2
  }

  /** A trip: launched at x over trail, then handed on by the node of each leg in whatever state it is. */
  ghost predicate Trip(x: Node, now: real, trail: seq<Addr>, src: Addr, etab: Addr, legs: seq<Leg>) {
    && NodeInv(x, now) && TrailOk(trail, src) && x.index != src
    && (forall i :: 0 <= i < |legs| ==> LegOk(legs[i]))
    && (legs != [] ==> Send(legs[0].to, Return(legs[0].ant)) in AfterSendReturn(x, now, trail, src, etab).outs)
    && (forall i :: 0 <= i < |legs| - 1 ==>
          Send(legs[i + 1].to, Return(legs[i + 1].ant)) in AfterReturn(legs[i].at, legs[i].now, legs[i].ant).outs)
  }

  lemma {:induction false} SentIsReturned(outs: seq<Output>, o: Output)
    requires o in outs && o.Send? && o.msg.Return?
    ensures o in Returns(outs)
  {
    var n := |outs| - 1;
    if outs[n] != o {
      assert o in outs[..n];
      SentIsReturned(outs[..n], o);
    }
  }

  ghost predicate OnTrail(l: Leg, trail: seq<Addr>, src: Addr, launcher: Addr, i: nat)
    requires i < |trail|
  {
    && l.to == trail[|trail| - 1 - i]
    && l.ant.trail == trail && l.ant.src == src && l.ant.ner == launcher
    && l.ant.hops == i + 1 && l.ant.count == |trail| - 1 - i
    && (l.to == src <==> i == |trail| - 1)
    && ReturnOk(l.ant, l.to)
  }

  lemma FirstLeg(x: Node, now: real, trail: seq<Addr>, src: Addr, etab: Addr, l: Leg)
    requires NodeInv(x, now) && TrailOk(trail, src) && x.index != src
    requires Send(l.to, Return(l.ant)) in AfterSendReturn(x, now, trail, src, etab).outs
    ensures OnTrail(l, trail, src, x.index, 0)
  {
    AdvertiseOk(x.(seqno := x.seqno + 2), now, etab);
  }

  lemma NextAnt(a: ReturnAnt, s: Node, now: real, to: Addr, b: ReturnAnt)
    requires ReturnOk(a, s.index) && a.hops < INFINITY2
    requires Send(to, Return(b)) in AfterReturn(s, now, a).outs
    ensures a.count > 0 && to == a.trail[a.count - 1] && b == Back(a, s.index)
  {
    var o := Send(to, Return(b));
    SentIsReturned(AfterReturn(s, now, a).outs, o);
    ReturnStep(s, now, a);
  }

  lemma NextLeg(l: Leg, m: Leg, trail: seq<Addr>, src: Addr, launcher: Addr, i: nat)
    requires i < |trail| && OnTrail(l, trail, src, launcher, i) && l.at.index == l.to && l.ant.hops < INFINITY2
    requires l.ant.count > 0 && m.to == l.ant.trail[l.ant.count - 1] && m.ant == Back(l.ant, l.to)
    ensures i + 1 < |trail| && OnTrail(m, trail, src, launcher, i + 1)
  {
  }

  lemma {:induction false} LegRetraces(
    x: Node, now: real, trail: seq<Addr>, src: Addr, etab: Addr, legs: seq<Leg>, i: nat)
    requires Trip(x, now, trail, src, etab, legs) && i < |legs|
    ensures i < |trail| && OnTrail(legs[i], trail, src, x.index, i)
  {
    if i == 0 {
      FirstLeg(x, now, trail, src, etab, legs[0]);
    } else {
      LegRetraces(x, now, trail, src, etab, legs, i - 1);
      var l, m := legs[i - 1], legs[i];
      assert LegOk(l);
      NextAnt(l.ant, l.at, l.now, m.to, m.ant);
      NextLeg(l, m, trail, src, x.index, i - 1);
    }
  }

  /** The i-th stop of any trip is the i-th cell of the trail counted from its end; there the ant carries
      the distance i + 1; the source is reached exactly at the last cell, and no trip goes beyond it. */
  lemma TripRetracesTrail(x: Node, now: real, trail: seq<Addr>, src: Addr, etab: Addr, legs: seq<Leg>)
    requires Trip(x, now, trail, src, etab, legs)
    ensures |legs| <= |trail|
    ensures forall i :: 0 <= i < |legs| ==> OnTrail(legs[i], trail, src, x.index, i)
  {
    if legs != [] {
      LegRetraces(x, now, trail, src, etab, legs, |legs| - 1);
    }
    forall i | 0 <= i < |legs| ensures OnTrail(legs[i], trail, src, x.index, i) {
      LegRetraces(x, now, trail, src, etab, legs, i);
    }
  }
}

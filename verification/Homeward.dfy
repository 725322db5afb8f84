/** What recvAntLightReturn does at every node a return ant comes to, its source or a relay, read off the tables and
    the ants that leave (antconf.cc:1429-1539). */
module Homeward {
  import opened Types
  import opened RoutingTable
  import opened PheromoneTable
  import opened Protocol
  import opened NodeInvariant
  import opened HandlersKeep
  import opened Frames
  import opened Choices
  import opened Demands
  import opened Outward
  import opened Learning
  import Roulette

  /** The ant handed back: one cell further along its trail if there is one and it is a neighbour. */
  function PassedOn(s: Node, a: ReturnAnt): (ants: seq<Output>)
    requires a.count <= |a.trail|
    ensures ants != [] ==> a.count > 0
  {
    if a.count > 0 && Near(s, a.trail[a.count - 1]) then
      [Send(a.trail[a.count - 1], Return(a.(hops := a.hops + 1, prevNode := s.index, count := a.count - 1)))]
    else []
  }

  lemma PassBackLeaves(s: Node, a: ReturnAnt)
    requires ReturnOk(a, s.index) && a.hops < INFINITY2
    ensures var r := AfterPassBack(s, a);
      && r.outs == PassedOn(s, a) && r.node == s.(rtable := r.node.rtable)
      && (r.outs == [] ==> r.node.rtable == s.rtable)
      && (r.outs != [] ==> Relied(s.rtable, r.node.rtable, a.prevNode, a.ner, a.trail[a.count - 1]))
  {
    hide AddPrecursor, Relied;
    if a.count > 0 {
      NearIsNb(s, a.trail[a.count - 1]);
      PrecursorAdded(s, a.prevNode, a.ner, a.trail[a.count - 1]);
    }
  }

  lemma HeardOk(s: Node, now: real, a: ReturnAnt)
    requires NodeInv(s, now) && ReturnOk(a, s.index) && a.hops < INFINITY2
    ensures var h := Heard(s, now, a);
      && NodeInv(h, now) && h.index == s.index && h.nbs == s.nbs && h.phtable == s.phtable
      && h.seqno == s.seqno && h.idAgent == s.idAgent
  {
    hide AfterLearn, NodeInv;
    LearnFrame(s, now, a.prevNode, a.ner, a.seqno, a.hops, false);
    if a.valid && IsNb(s.nbs, a.prevNode) {
      LearnOk(s, now, a.prevNode, a.ner, a.seqno, a.hops, false);
      StepIsSound(s, now, AfterLearn(s, now, a.prevNode, a.ner, a.seqno, a.hops, false));
    }
  }

  /** The handler is three steps; the ants come from the second and the third. */
  lemma PartsOfReturn(s: Node, now: real, a: ReturnAnt, draw: nat, junk: Roulette.Slot)
    requires NodeInv(s, now) && ReturnOk(a, s.index) && a.hops < INFINITY2
    ensures var h, r := Heard(s, now, a), AfterRecv(s, now, Return(a), draw, junk);
      var d := AfterDemand(h, a);
      && r.node.phtable == d.node.phtable && d.node.rtable == h.rtable && r.node.asks == h.asks
      && Ants(r.outs) == d.outs + PassedOn(s, a)
      && (PassedOn(s, a) == [] ==> r.node.rtable == h.rtable)
      && (PassedOn(s, a) != [] ==> Relied(h.rtable, r.node.rtable, a.prevNode, a.ner, a.trail[a.count - 1]))
  {
    hide AfterLearn, AfterDemand, AfterPassBack, AfterRecv, Heard, NodeInv, Relied, PassedOn, TrailOk, Stepped, Ants;
    HeardOk(s, now, a);
    var l := StepsOfReturn(s, now, a, draw, junk);
    var d := AfterDemand(l.node, a);
    DemandFrame(l.node, a);
    var p := AfterPassBack(d.node, a);
    PassBackFrame(d.node, a);
    PassBackLeaves(d.node, a);
    SamePassed(s, d.node, a);
    AntsAll(d.outs);
    AntsAll(p.outs);
    AntsAppend(l.outs, d.outs);
    AntsAppend(l.outs + d.outs, p.outs);
  }

  lemma StepsOfReturn(s: Node, now: real, a: ReturnAnt, draw: nat, junk: Roulette.Slot) returns (l: Step)
    ensures l.node == Heard(s, now, a) && Ants(l.outs) == []
    ensures var d := AfterDemand(l.node, a);
      var p := AfterPassBack(d.node, a);
      AfterRecv(s, now, Return(a), draw, junk) == Step(p.node, l.outs + d.outs + p.outs)
  {
    hide AfterLearn, AfterDemand, AfterPassBack, Drained;
    l := if a.valid && IsNb(s.nbs, a.prevNode)
      then AfterLearn(s, now, a.prevNode, a.ner, a.seqno, a.hops, false) else Step(s, []);
    LearnFrame(s, now, a.prevNode, a.ner, a.seqno, a.hops, false);
    DrainedNoAnts(s, now, a.prevNode, a.ner, AfterLearn(s, now, a.prevNode, a.ner, a.seqno, a.hops, false));
  }

  lemma SamePassed(s: Node, s2: Node, a: ReturnAnt)
    requires a.count <= |a.trail| && s2.nbs == s.nbs && s2.index == s.index
    ensures PassedOn(s2, a) == PassedOn(s, a)
  {
  }

  // ---------------------------------------------------------------- the route

  /** A return ant from a neighbour is learned from; nothing else it does changes a route. */
  lemma ReturnTeaches(s: Node, now: real, a: ReturnAnt, draw: nat, junk: Roulette.Slot)
    requires NodeInv(s, now) && ReturnOk(a, s.index) && a.hops < INFINITY2
    ensures var t' := AfterRecv(s, now, Return(a), draw, junk).node.rtable;
      if Near(s, a.prevNode) then Taught(s.rtable, t', a.prevNode, a.ner, a.seqno, a.hops, now, false)
      else OnlyPrecursors(s.rtable, t')
  {
    hide AfterLearn, AfterReturn, AfterDemand, NodeInv, Taught, Relied, PassedOn;
    NearIsNb(s, a.prevNode);
    PartsOfReturn(s, now, a, draw, junk);
    var h, t' := Heard(s, now, a), AfterRecv(s, now, Return(a), draw, junk).node.rtable;
    if PassedOn(s, a) != [] {
      ReliedOnly(h.rtable, t', a.prevNode, a.ner, a.trail[a.count - 1]);
    }
    if Near(s, a.prevNode) {
      LearnTeaches(s, now, a.prevNode, a.ner, a.seqno, a.hops, false);
      TaughtThen(s.rtable, h.rtable, t', a.prevNode, a.ner, a.seqno, a.hops, now, false);
    }
  }

  // ---------------------------------------------------------------- the demand

  /** t' is t with the quantity added to the entry for (claimant, asked), or put into a new one, and with the way
      back in front of its list unless it was there; every other key keeps its entry. */
  ghost predicate Gained(t: seq<PhEntry>, t': seq<PhEntry>, claimant: Addr, asked: Addr, qte: real, hop: Addr) {
    && KeysUnique(t')
    && (forall e :: !Keyed(e, claimant, asked) ==> (e in t' <==> e in t))
    && (forall e :: e in t && Keyed(e, claimant, asked) ==>
          PhEntry(claimant, asked, e.qte + qte, if hop in e.nbs then e.nbs else [hop] + e.nbs) in t')
    && ((forall e :: e in t ==> !Keyed(e, claimant, asked)) ==> PhEntry(claimant, asked, qte, [hop]) in t')
  }

  lemma OneKey(t: seq<PhEntry>, i: nat, k: nat, claimant: Addr, asked: Addr)
    requires KeysUnique(t) && i < |t| && k < |t| && Keyed(t[i], claimant, asked) && Keyed(t[k], claimant, asked)
    ensures i == k
  {
  }

  lemma DepositGains(t: seq<PhEntry>, claimant: Addr, asked: Addr, qte: real, hop: Addr)
    requires TableOk(t) && Whole(qte) && qte > 0.0 && claimant >= 0 && hop >= 0
    ensures Gained(t, Deposit(t, claimant, asked, qte, hop), claimant, asked, qte, hop)
  {
    DepositKeeps(t, claimant, asked, qte, hop);
    var t', k := Deposit(t, claimant, asked, qte, hop), FindKey(t, claimant, asked);
    if k >= 0 {
      forall e | e in t && Keyed(e, claimant, asked) ensures e == t[k] {
        var i :| 0 <= i < |t| && t[i] == e;
        OneKey(t, k, i, claimant, asked);
      }
      assert t'[k] in t';
      forall e | !Keyed(e, claimant, asked) && e in t ensures e in t' {
        var i :| 0 <= i < |t| && t[i] == e;
        assert t'[i] == e;
      }
    } else {
      assert t'[0] == PhEntry(claimant, asked, qte, [hop]);
    }
  }

  /** A demand that comes by is remembered, at a relay as at the source, with exactly its quantity added and with the
      node it came from; an ant without a demand leaves the pheromone alone. */
  lemma ReturnDeposits(s: Node, now: real, a: ReturnAnt, draw: nat, junk: Roulette.Slot)
    requires NodeInv(s, now) && ReturnOk(a, s.index) && a.hops < INFINITY2
    ensures var t, t' := s.phtable, AfterRecv(s, now, Return(a), draw, junk).node.phtable;
      if a.detask == NO_DEMAND then t' == t else Gained(t, t', a.ner, a.detask, a.qte, a.prevNode)
  {
    hide AfterLearn, AfterReturn, NodeInv, Gained, Relied, PassedOn, Deposit, FindOptimal;
    PartsOfReturn(s, now, a, draw, junk);
    HeardOk(s, now, a);
    if a.detask != NO_DEMAND {
      SteppedIsWhole(a.qte);
      WholeSum(a.qte, a.qte);
      assert TableOk(s.phtable) by { PheromoneOk(s, now); }
      DepositGains(s.phtable, a.ner, a.detask, a.qte, a.prevNode);
    }
  }

  lemma PheromoneOk(s: Node, now: real)
    requires NodeInv(s, now)
    ensures TableOk(s.phtable)
  {
  }

  /** The ants that leave: first a direct ant to the claimant, exactly when there is a demand and the table has an UP
      route to what is asked for, telling of the best one; then the ant itself, handed back. */
  lemma ReturnAnswers(s: Node, now: real, a: ReturnAnt, draw: nat, junk: Roulette.Slot)
    requires NodeInv(s, now) && ReturnOk(a, s.index) && a.hops < INFINITY2
    ensures var r := AfterRecv(s, now, Return(a), draw, junk); var ants, t := Ants(r.outs), r.node.rtable;
      if a.detask == NO_DEMAND || Routeless(t, a.detask) then ants == PassedOn(s, a)
      else
        && ants != [] && ants[1..] == PassedOn(s, a)
        && exists k: nat :: IsOptimal(t, a.detask, k) && Tells(ants[0], s, a.ner, a.prevNode, t[k])
  {
    hide AfterLearn, AfterReturn, AfterDemand, NodeInv, Relied, PassedOn, IsOptimal, Tells, Routeless;
    PartsOfReturn(s, now, a, draw, junk);
    HeardOk(s, now, a);
    var h, r := Heard(s, now, a), AfterRecv(s, now, Return(a), draw, junk);
    if PassedOn(s, a) != [] {
      ReliedOnly(h.rtable, r.node.rtable, a.prevNode, a.ner, a.trail[a.count - 1]);
    }
    SameRoutes(h.rtable, r.node.rtable, a.detask);
    if a.detask != NO_DEMAND {
      SteppedIsWhole(a.qte);
      WholeSum(a.qte, a.qte);
      DemandAnswered(h, now, a);
      if !Routeless(h.rtable, a.detask) {
        SameAnswer(h, now, s, a, r.node.rtable);
        assert Ants(r.outs)[1..] == PassedOn(s, a);
      }
    } else {
      NoAnswer(h, a);
    }
  }

  lemma NoAnswer(s: Node, a: ReturnAnt)
    requires a.detask == NO_DEMAND
    ensures AfterDemand(s, a) == Step(s, [])
  {
  }

  lemma SameAnswer(h: Node, now: real, s: Node, a: ReturnAnt, t': seq<Entry>)
    requires NodeInv(h, now) && s.index == h.index && s.seqno == h.seqno && s.idAgent == h.idAgent
    requires a.detask != NO_DEMAND && a.ner >= 0 && a.qte > 0.0
    requires OnlyPrecursors(h.rtable, t') && !Routeless(h.rtable, a.detask)
    ensures var outs := AfterDemand(h, a).outs;
      && |outs| == 1
      && exists k: nat :: IsOptimal(t', a.detask, k) && Tells(outs[0], s, a.ner, a.prevNode, t'[k])
  {
    hide AfterDemand, NodeInv, Routeless, Remembers;
    DemandAnswered(h, now, a);
    var o, t := AfterDemand(h, a).outs[0], h.rtable;
    var k: nat :| IsOptimal(t, a.detask, k) && Tells(o, h, a.ner, a.prevNode, t[k]);
    SameRoutes(t, t', a.detask);
    assert IsOptimal(t', a.detask, k) && Tells(o, s, a.ner, a.prevNode, t'[k]);
  }

  lemma SameRoutes(t: seq<Entry>, t': seq<Entry>, dst: Addr)
    requires OnlyPrecursors(t, t')
    ensures Routeless(t', dst) <==> Routeless(t, dst)
    ensures forall k: nat :: IsOptimal(t', dst, k) <==> IsOptimal(t, dst, k)
  {
    forall i | 0 <= i < |t| ensures Leads(t'[i], dst) == Leads(t[i], dst) { }
  }

  /** The previous cell becomes a precursor of the route to the launcher, exactly when the ant is handed back there;
      besides, the table is the one that has been learned. */
  lemma ReturnIsRelied(s: Node, now: real, a: ReturnAnt, draw: nat, junk: Roulette.Slot)
    requires NodeInv(s, now) && ReturnOk(a, s.index) && a.hops < INFINITY2
    ensures var t, t' := Heard(s, now, a).rtable, AfterRecv(s, now, Return(a), draw, junk).node.rtable;
      && PrecursorsKept(s.rtable, t)
      && if PassedOn(s, a) == [] then t' == t else Relied(t, t', a.prevNode, a.ner, a.trail[a.count - 1])
  {
    hide AfterLearn, AfterReturn, AfterDemand, NodeInv, Relied, PassedOn, PrecursorsKept;
    PartsOfReturn(s, now, a, draw, junk);
    if IsNb(s.nbs, a.prevNode) {
      LearnTeaches(s, now, a.prevNode, a.ner, a.seqno, a.hops, false);
    } else {
      NothingLearned(s.rtable);
    }
  }

  lemma NothingLearned(t: seq<Entry>)
    ensures PrecursorsKept(t, t)
  {
  }
}

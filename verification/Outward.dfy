/** What recvAntLightGo sends for every kind of outward ant, read off the node's lists and tables
    (antconf.cc:803-1322). */
module Outward {
  import opened Types
  import opened RoutingTable
  import opened PheromoneTable
  import opened Requests
  import opened Protocol
  import opened NodeInvariant
  import opened HandlersKeep
  import opened Frames
  import opened Choices
  import opened Demands
  import Roulette

  /** The ants among the outputs, in their order. */
  function Ants(outs: seq<Output>): seq<Output> {
    if outs == [] then []
    else
      var o := outs[|outs| - 1];
      Ants(outs[..|outs| - 1]) + if o.Send? && (o.msg.Go? || o.msg.Return?) then [o] else []
  }

  lemma {:induction false} AntsAppend(x: seq<Output>, y: seq<Output>)
    ensures Ants(x + y) == Ants(x) + Ants(y)
  {
    if y == [] {
      assert x + y == x;
    } else {
      assert (x + y)[..|x + y| - 1] == x + y[..|y| - 1];
      AntsAppend(x, y[..|y| - 1]);
    }
  }

  lemma {:induction false} AntsAll(outs: seq<Output>)
    requires AntsOnly(outs)
    ensures Ants(outs) == outs
  {
    if outs != [] {
      AntsAll(outs[..|outs| - 1]);
    }
  }

  lemma {:induction false} AntsNone(outs: seq<Output>)
    requires forall i :: 0 <= i < |outs| && outs[i].Send? ==> !outs[i].msg.Go? && !outs[i].msg.Return?
    ensures Ants(outs) == []
  {
    if outs != [] {
      AntsNone(outs[..|outs| - 1]);
    }
  }

  predicate Near(s: Node, nb: Addr) {
    exists i :: 0 <= i < |s.nbs| && s.nbs[i].addr == nb
  }

  lemma NearIsNb(s: Node, nb: Addr)
    ensures Near(s, nb) <==> IsNb(s.nbs, nb)
  {
    var k := FindNb(s.nbs, nb);
    assert k >= 0 ==> s.nbs[k].addr == nb;
  }

  /** The ant as recv hands it on. */
  function Taken(a: GoAnt): GoAnt {
    a.(ttl := a.ttl - 1)
  }

  // ---------------------------------------------------------------- what may leave

  /** The return ant that node s launches over the trail of a. */
  ghost predicate IsBack(s: Node, a: GoAnt, o: Output, seqno: nat)
    requires a.trail != []
  {
    && o.Send? && o.to == a.trail[|a.trail| - 1] && o.msg.Return?
    && var b := o.msg.back;
       && b.trail == a.trail && b.count == |a.trail| - 1 && b.src == a.src
       && b.ner == s.index && b.prevNode == s.index && b.hops == 1 && b.valid && b.seqno == seqno
  }

  /** Nothing leaves but one return ant, if the last cell of the trail is a neighbour. */
  ghost predicate TurnsBack(s: Node, a: GoAnt, ants: seq<Output>)
    requires a.trail != []
  {
    if Near(s, a.trail[|a.trail| - 1]) then |ants| == 1 && IsBack(s, a, ants[0], s.seqno + 2) else ants == []
  }

  /** The ant a sent on by node s: its identity kept, its trail one cell longer. */
  ghost predicate IsOnward(s: Node, a: GoAnt, o: Output, to: Addr) {
    && o.Send? && o.to == to && o.msg.Go?
    && var b := o.msg.go;
       && b.src == a.src && b.id == a.id && !b.direct && b.trail == a.trail + [s.index]
       && b.prevNode == s.index && b.prevHop == a.prevHop
  }

  /** The clone of a wandering ant: all its news kept, one hop more. */
  ghost predicate IsClone(s: Node, a: GoAnt, o: Output) {
    && o.Send? && o.msg.Go? && FirstBut(s.nbs, a.prevHop, o.to)
    && o.msg.go == a.(hops := a.hops + 1, prevNode := s.index, target := NO_TARGET, ner := a.src,
                      trail := a.trail + [s.index], prevHop := s.index)
  }

  /** The first neighbour but the previous hop. */
  ghost predicate FirstBut(nbs: seq<Neighbor>, prevHop: Addr, to: Addr) {
    exists i :: 0 <= i < |nbs| && nbs[i].addr == to != prevHop && forall j :: 0 <= j < i ==> nbs[j].addr == prevHop
  }

  ghost predicate NoneBut(nbs: seq<Neighbor>, prevHop: Addr) {
    forall i :: 0 <= i < |nbs| ==> nbs[i].addr == prevHop
  }

  // ---------------------------------------------------------------- the pieces

  lemma BackLeaves(s: Node, now: real, a: GoAnt, etab: Addr)
    requires a.trail != []
    ensures TurnsBack(s, a, AfterSendReturn(s, now, a.trail, a.src, etab).outs)
    ensures var r := AfterSendReturn(s, now, a.trail, a.src, etab);
      && r.node.nbs == s.nbs && r.node.index == s.index && r.node.phtable == s.phtable && r.node.rtable == s.rtable
      && r.node.seqno == s.seqno + 2 * |r.outs|
  {
    NearIsNb(s, a.trail[|a.trail| - 1]);
  }

  /** What sendAntLightClone sends. */
  ghost predicate Cloned(s: Node, a: GoAnt, ants: seq<Output>)
    requires a.trail != []
  {
    && (!NoneBut(s.nbs, a.prevHop) ==> |ants| == 1 && IsClone(s, a, ants[0]))
    && (NoneBut(s.nbs, a.prevHop) ==> TurnsBack(s, a, ants))
  }

  /** Launching a return ant takes a new number, cloning does not. */
  function NumberThen(seqno: nat, ants: seq<Output>): nat {
    if ants != [] && ants[0].Send? && ants[0].msg.Return? then seqno + 2 else seqno
  }

  lemma CloneLeaves(s: Node, now: real, a: GoAnt)
    requires a.trail != [] && a.hops < INFINITY2 && forall i :: 0 <= i < |s.nbs| ==> s.nbs[i].addr >= 0
    ensures Cloned(s, a, AfterSendClone(s, now, a).outs)
    ensures var r := AfterSendClone(s, now, a); var n := r.node;
      && n.nbs == s.nbs && n.index == s.index && n.phtable == s.phtable && n.rtable == s.rtable
      && n.seqno == NumberThen(s.seqno, r.outs)
  {
    hide AfterSendReturn;
    CloneHopMeans(s.nbs, a.prevHop);
    BackLeaves(s, now, a, -1);
  }

  lemma RelayLeaves(s: Node, now: real, a: GoAnt, hop: Addr)
    requires a.trail != [] && !a.direct && a.hops < INFINITY2
    ensures var outs := AfterRelay(s, now, a, hop).outs;
      if hop == NO_HOP then TurnsBack(s, a, outs)
      else
        |outs| == 1 && IsOnward(s, a, outs[0], hop)
        && outs[0].msg.go == a.(prevNode := s.index, trail := a.trail + [s.index], hops := a.hops + 1)
  {
    hide AfterSendReturn;
    BackLeaves(s, now, a, -1);
  }

  /** Aiming changes nothing of a node but precursors, and of an ant but its news. */
  lemma AimKeeps(s: Node, now: real, a: GoAnt, hop: Addr)
    requires NodeInv(s, now) && a.hops < INFINITY2 && SeqnoOk(a.seqno)
    ensures var r := Aim(s, a, hop);
      && r.ant == a.(seqno := r.ant.seqno, hops := r.ant.hops, valid := r.ant.valid) && r.ant.hops < INFINITY2
      && r.node == s.(rtable := r.node.rtable)
      && (a.ner == s.index ==> r.ant.valid && r.ant.seqno == s.seqno && r.ant.hops == 0)
  {
    hide NodeInv;
    AimFrame(s, a, hop);
    AimOk(s, now, a, hop);
  }

  // ---------------------------------------------------------------- the handler

  /** Of what an admitted ant causes, the ants come from the part after the route is learned, and that part
      starts from the same neighbours, pheromone and number. */
  lemma AntsOfGo(s: Node, now: real, a: GoAnt, draw: nat, junk: Roulette.Slot)
    requires NodeInv(s, now) && GoOk(a) && a.hops < INFINITY2 && Admits(s, a)
    ensures var r := Admitted(s, now, Taken(a)).node;
      && NodeInv(r, now)
      && r.index == s.index && r.nbs == s.nbs && r.phtable == s.phtable && r.seqno == s.seqno
      && Ants(AfterRecv(s, now, Go(a), draw, junk).outs)
        == (if a.direct then AfterDirect(r, Taken(a)).outs else AfterChoose(r, now, Taken(a), draw, junk).outs)
  {
    hide NodeInv, AfterLearn, AfterChoose, Drained, AntsOnly;
    var b := Taken(a);
    var s1 := s.(ids := [AgentId(a.src, a.id, now + AGENT_ID_SAVE)] + s.ids);
    assert NodeInv(s1, now) by { IdsAside(s, now, s1.ids); }
    LearnFrame(s1, now, a.prevNode, a.ner, a.seqno, a.hops, true);
    DrainedNoAnts(s1, now, a.prevNode, a.ner, AfterLearn(s1, now, a.prevNode, a.ner, a.seqno, a.hops, true));
    if a.valid && IsNb(s.nbs, a.prevNode) {
      LearnOk(s1, now, a.prevNode, a.ner, a.seqno, a.hops, true);
    }
    var r := Admitted(s, now, b);
    var more := if a.direct then AfterDirect(r.node, b).outs else AfterChoose(r.node, now, b, draw, junk).outs;
    ChooseFrame(r.node, now, b, draw, junk);
    AntsAll(AfterChoose(r.node, now, b, draw, junk).outs);
    DirectAnts(r.node, b);
    AntsAppend(r.outs, more);
  }

  lemma NodeOfGo(s: Node, now: real, a: GoAnt, draw: nat, junk: Roulette.Slot)
    requires Admits(s, a)
    ensures AfterRecv(s, now, Go(a), draw, junk).node
      == var r := Admitted(s, now, Taken(a)).node;
         if a.direct then r else AfterChoose(r, now, Taken(a), draw, junk).node
  {
    hide Admitted, AfterChoose;
  }

  lemma IdsAside(s: Node, now: real, ids: seq<AgentId>)
    requires NodeInv(s, now)
    ensures NodeInv(s.(ids := ids), now)
  {
  }

  lemma DirectAnts(s: Node, a: GoAnt)
    ensures Ants(AfterDirect(s, a).outs) == AfterDirect(s, a).outs
  {
    AntsAll(AfterDirect(s, a).outs);
  }

  lemma DrainedNoAnts(s: Node, now: real, via: Addr, dst: Addr, r: Step)
    requires Drained(s, now, via, dst, r)
    ensures Ants(r.outs) == [] && Ants([]) == []
  {
    AntsNone(r.outs);
  }

  /** The node's own ant, and one whose identity is in the cache, change nothing and cause nothing. */
  lemma AntRefused(s: Node, now: real, a: GoAnt, draw: nat, junk: Roulette.Slot)
    requires a.src == s.index || exists k :: 0 <= k < |s.ids| && s.ids[k].src == a.src && s.ids[k].id == a.id
    ensures AfterRecv(s, now, Go(a), draw, junk) == Step(s, [])
  {
  }

  /** An ant on its way to a claimant follows the pheromone: with an entry for (claimant, destination) it goes,
      and nothing else does, to the first neighbour of that entry's list, bound as before; without one no
      outward ant leaves and the trail is taken back. */
  lemma TargetedAntFollowsPheromone(s: Node, now: real, a: GoAnt, draw: nat, junk: Roulette.Slot)
    requires NodeInv(s, now) && GoOk(a) && a.hops < INFINITY2 && Admits(s, a)
    requires !a.direct && a.target != NO_TARGET && a.target != s.index
    ensures var ants := Ants(AfterRecv(s, now, Go(a), draw, junk).outs);
      && (forall k :: 0 <= k < |s.phtable| && s.phtable[k].claimant == a.target && s.phtable[k].asked == a.ner ==>
            && s.phtable[k].nbs != [] && |ants| == 1 && IsOnward(s, a, ants[0], s.phtable[k].nbs[0])
            && ants[0].msg.go.target == a.target && ants[0].msg.go.ner == a.ner && ants[0].msg.go.ttl == a.ttl - 1)
      && ((forall k :: 0 <= k < |s.phtable| ==> s.phtable[k].claimant != a.target || s.phtable[k].asked != a.ner) ==>
            TurnsBack(s, a, ants))
  {
    hide Aim, AfterRelay, NodeInv, Admitted, IsOnward, TurnsBack;
    AntsOfGo(s, now, a, draw, junk);
    var r, b := Admitted(s, now, Taken(a)).node, Taken(a);
    var i := FindKey(s.phtable, a.target, a.ner);
    KeyIsFound(s, now, a.target, a.ner);
    var hop := if i < 0 then NO_HOP else s.phtable[i].nbs[0];
    AimKeeps(r, now, b, hop);
    var aimed := Aim(r, b, hop);
    RelayLeaves(aimed.node, now, aimed.ant, hop);
    SameOnward(s, aimed.node, a, aimed.ant, AfterRelay(aimed.node, now, aimed.ant, hop).outs, hop);
  }

  lemma KeyIsFound(s: Node, now: real, claimant: Addr, asked: Addr)
    requires NodeInv(s, now)
    ensures var i := FindKey(s.phtable, claimant, asked);
      && (i >= 0 ==> s.phtable[i].nbs != [] && s.phtable[i].nbs[0] >= 0)
      && (forall k :: 0 <= k < |s.phtable| && s.phtable[k].claimant == claimant && s.phtable[k].asked == asked ==>
            k == i)
  {
    var i := FindKey(s.phtable, claimant, asked);
    assert i >= 0 ==> Filled(s.phtable[i]);
    forall k | 0 <= k < |s.phtable| && s.phtable[k].claimant == claimant && s.phtable[k].asked == asked
      ensures k == i
    {
      assert i < k ==> !Keyed(s.phtable[k], s.phtable[i].claimant, s.phtable[i].asked);
      assert Keyed(s.phtable[k], claimant, asked);
    }
  }

  /** What may leave does not depend on the news the ant carries, nor on the node's table. */
  lemma SameOnward(s: Node, s2: Node, a: GoAnt, b: GoAnt, ants: seq<Output>, hop: Addr)
    requires a.trail != [] && s2.index == s.index && s2.nbs == s.nbs && s2.seqno == s.seqno
    requires b.src == a.src && b.id == a.id && b.trail == a.trail && b.prevHop == a.prevHop
    ensures TurnsBack(s2, b, ants) <==> TurnsBack(s, a, ants)
    ensures forall o :: IsOnward(s2, b, o, hop) <==> IsOnward(s, a, o, hop)
  {
  }

  /** A direct ant goes on as it is, by the best way to its claimant that is known once it has been learned from; at
      the claimant, and where there is no way, it ends. */
  lemma DirectAntGoes(s: Node, now: real, a: GoAnt, draw: nat, junk: Roulette.Slot)
    requires NodeInv(s, now) && GoOk(a) && a.hops < INFINITY2 && Admits(s, a) && a.direct
    ensures var ants, t := Ants(AfterRecv(s, now, Go(a), draw, junk).outs), Admitted(s, now, Taken(a)).node.rtable;
      && (ants == [] <==> a.target == s.index || Routeless(t, a.target))
      && (ants != [] ==> exists k: nat ::
            && IsOptimal(t, a.target, k)
            && ants == [Send(t[k].nextHop, Go(a.(ttl := a.ttl - 1, prevNode := s.index, hops := a.hops + 1)))])
  {
    hide Admitted, AfterDirect, IsOptimal, Routeless, NodeInv, Ants;
    AntsOfGo(s, now, a, draw, junk);
    DirectAntFollowsBest(Admitted(s, now, Taken(a)).node, Taken(a));
  }

  /** What such an ant says when it leaves, r being the node once it has learned from it. About the node itself:
      its own number, at distance 1. About another node: it is valid exactly when r has an UP route there and
      none of these leads the way it is sent, and then it carries number and distance of the one through the
      last neighbour that has one, one hop more. */
  ghost predicate NewsOf(r: Node, ner: Addr, hop: Addr, b: GoAnt) {
    && (ner == r.index ==> b.valid && b.seqno == r.seqno && b.hops == 1)
    && (ner != r.index ==>
          && (b.valid <==> !Routeless(r.rtable, ner) && Avoids(r.rtable, ner, hop))
          && (b.valid ==>
                var m := LastRouted(r.nbs, r.rtable, ner);
                && m >= 0
                && var e := r.rtable[FindVia(r.rtable, r.nbs[m].addr, ner)];
                   b.seqno == e.seqno && b.hops == e.hops + 1))
  }

  lemma AimedNews(r: Node, now: real, a: GoAnt, hop: Addr)
    requires NodeInv(r, now) && a.trail != [] && !a.direct && a.hops < INFINITY2 && SeqnoOk(a.seqno) && hop != NO_HOP
    ensures var aimed := Aim(r, a, hop);
      var outs := AfterRelay(aimed.node, now, aimed.ant, hop).outs;
      |outs| == 1 && IsOnward(r, a, outs[0], hop) && NewsOf(r, a.ner, hop, outs[0].msg.go)
      && outs[0].msg.go.target == a.target && outs[0].msg.go.ner == a.ner && outs[0].msg.go.ttl == a.ttl
  {
    hide Aim, AfterRelay, NodeInv, Avoids, LastRouted, FindVia;
    AimKeeps(r, now, a, hop);
    if a.ner != r.index {
      AimMeans(r, now, a, hop);
    }
    var aimed := Aim(r, a, hop);
    RelayLeaves(aimed.node, now, aimed.ant, hop);
  }

  lemma TargetedAntSpreadsNews(s: Node, now: real, a: GoAnt, draw: nat, junk: Roulette.Slot)
    requires NodeInv(s, now) && GoOk(a) && a.hops < INFINITY2 && Admits(s, a)
    requires !a.direct && a.target != NO_TARGET && a.target != s.index
    ensures var ants := Ants(AfterRecv(s, now, Go(a), draw, junk).outs);
      forall k :: 0 <= k < |s.phtable| && s.phtable[k].claimant == a.target && s.phtable[k].asked == a.ner ==>
        && |ants| == 1 && ants[0].Send? && ants[0].msg.Go? && s.phtable[k].nbs != []
        && NewsOf(Admitted(s, now, Taken(a)).node, a.ner, s.phtable[k].nbs[0], ants[0].msg.go)
  {
    hide Aim, AfterRelay, NodeInv, Admitted, NewsOf;
    AntsOfGo(s, now, a, draw, junk);
    var r, b := Admitted(s, now, Taken(a)).node, Taken(a);
    var i := FindKey(s.phtable, a.target, a.ner);
    KeyIsFound(s, now, a.target, a.ner);
    if i >= 0 {
      AimedNews(r, now, b, s.phtable[i].nbs[0]);
    }
  }

  /** What node r, about to launch a return ant, lets it ask for. */
  ghost predicate AsksFor(r: Node, etab: Addr, b: ReturnAnt) {
    if !r.askRt then b.detask == NO_DEMAND
    else if etab != -1 && (exists k :: 0 <= k < |r.asks| && r.asks[k].dst == etab) then
      exists k :: 0 <= k < |r.asks| && r.asks[k].dst == etab && b.detask == etab && b.qte == r.asks[k].qte
    else r.asks != [] && b.detask == r.asks[|r.asks| - 1].dst && b.qte == r.asks[|r.asks| - 1].qte
  }

  lemma BackAsks(s: Node, now: real, a: GoAnt, etab: Addr)
    requires a.trail != [] && (s.askRt ==> s.asks != [])
    ensures var outs := AfterSendReturn(s, now, a.trail, a.src, etab).outs;
      outs != [] ==> outs[0].Send? && outs[0].msg.Return? && AsksFor(s, etab, outs[0].msg.back)
  {
    var k := FindRequest(s.asks, etab);
    assert k >= 0 ==> s.asks[k].dst == etab;
  }

  /** An ant that has reached its claimant is taken back over its trail, asking for what it was about if that is
      still wanted. */
  lemma ClaimantTurnsBack(s: Node, now: real, a: GoAnt, draw: nat, junk: Roulette.Slot)
    requires NodeInv(s, now) && GoOk(a) && a.hops < INFINITY2 && Admits(s, a) && !a.direct && a.target == s.index
    ensures var ants := Ants(AfterRecv(s, now, Go(a), draw, junk).outs);
      && TurnsBack(s, a, ants)
      && (ants != [] ==> AsksFor(Admitted(s, now, Taken(a)).node, a.ner, ants[0].msg.back))
  {
    hide AfterSendReturn, Admitted, AsksFor;
    AntsOfGo(s, now, a, draw, junk);
    var r, b := Admitted(s, now, Taken(a)).node, Taken(a);
    BackLeaves(r, now, b, a.ner);
    BackAsks(r, now, b, a.ner);
    SameOnward(s, r, a, b, AfterSendReturn(r, now, b.trail, b.src, a.ner).outs, 0);
  }

  /** A wandering ant at a node that asks for something, or at the end of its ttl: a return ant that asks for the
      oldest demand, or for nothing; and if the ant still has ttl and there was a demand, then a clone to the
      first neighbour but the one it came from, or a second return ant for want of one. */
  lemma WandererAnswered(s: Node, now: real, a: GoAnt, draw: nat, junk: Roulette.Slot)
    requires NodeInv(s, now) && GoOk(a) && a.hops < INFINITY2 && Admits(s, a) && Wandering(a)
    requires Admitted(s, now, Taken(a)).node.askRt || a.ttl == 1
    ensures var ants := Ants(AfterRecv(s, now, Go(a), draw, junk).outs); var r := Admitted(s, now, Taken(a)).node;
      exists n: nat ::
        && n <= |ants| && TurnsBack(s, a, ants[..n]) && (n > 0 ==> AsksFor(r, -1, ants[0].msg.back))
        && if r.askRt && a.ttl != 1 then Cloned(s.(seqno := s.seqno + 2 * n), Taken(a), ants[n..]) else n == |ants|
  {
    hide AfterChoose, AfterSendReturn, AfterSendClone, Admitted, AsksFor, Cloned, NodeInv, TurnsBack, IsBack, Ants;
    AntsOfGo(s, now, a, draw, junk);
    var r, b := Admitted(s, now, Taken(a)).node, Taken(a);
    AsksListed(r, now);
    BackLeaves(r, now, b, -1);
    BackAsks(r, now, b, -1);
    AskedChooses(r, now, b, draw, junk);
    var back := AfterSendReturn(r, now, b.trail, b.src, -1);
    SameOnward(s, r, a, b, back.outs, 0);
    var ants, n := AfterChoose(r, now, b, draw, junk).outs, |back.outs|;
    if r.askRt && a.ttl != 1 {
      CloneLeaves(back.node, now, b);
      SameClone(s.(seqno := back.node.seqno), back.node, b, ants[n..]);
    }
  }

  /** chooseNextHop for a wandering ant that does not search. */
  lemma AskedChooses(r: Node, now: real, b: GoAnt, draw: nat, junk: Roulette.Slot)
    requires b.target == NO_TARGET && r.index != b.src && (r.askRt || b.ttl == 0)
    ensures var back := AfterSendReturn(r, now, b.trail, b.src, -1); var n := |back.outs|;
      var outs := AfterChoose(r, now, b, draw, junk).outs;
      && n <= |outs| && outs[..n] == back.outs
      && if r.askRt && b.ttl != 0 then outs[n..] == AfterSendClone(back.node, now, b).outs else n == |outs|
  {
    hide AfterSendReturn, AfterSendClone;
  }

  lemma AsksListed(s: Node, now: real)
    requires NodeInv(s, now)
    ensures (s.askRt ==> s.asks != []) && forall i :: 0 <= i < |s.nbs| ==> s.nbs[i].addr >= 0
  {
  }

  lemma SameClone(s: Node, s2: Node, a: GoAnt, ants: seq<Output>)
    requires a.trail != [] && s2.index == s.index && s2.nbs == s.nbs && s2.seqno == s.seqno
    ensures Cloned(s2, a, ants) <==> Cloned(s, a, ants)
  {
  }

  /** A wandering ant that goes on with its news as they were. */
  ghost predicate WandersOn(s: Node, a: GoAnt, ants: seq<Output>, hop: Addr) {
    |ants| == 1 && ants[0]
      == Send(hop, Go(a.(prevNode := s.index, trail := a.trail + [s.index], hops := a.hops + 1)))
  }

  /** Whatever is drawn, its hop is a current neighbour. */
  lemma DrawnHopIsReal(s: Node, now: real, draw: nat, junk: Roulette.Slot)
    requires NodeInv(s, now) && Roulette.AnyNamed(s.nbs, s.phtable)
    ensures var w := Roulette.Build(s.nbs, s.phtable, junk); w.size > 0 && w.cells[draw % w.size].hop >= 0
  {
    hide Roulette.Slots, Roulette.Spare, Roulette.AnyNamed;
    DrawMeans(s, now, draw, junk);
    var w := Roulette.Build(s.nbs, s.phtable, junk);
    var slot, spare := w.cells[draw % w.size], Roulette.Spare(s.nbs, s.phtable);
    if slot.claimant != -1 {
      assert s.nbs[FindNb(s.nbs, slot.hop)].addr == slot.hop;
    } else {
      assert slot.hop in spare;
      SpareAreNeighbors(s.nbs, s.phtable, slot.hop);
    }
  }

  lemma {:induction false} SpareAreNeighbors(nbs: seq<Neighbor>, t: seq<PhEntry>, nb: Addr)
    requires nb in Roulette.Spare(nbs, t)
    ensures exists i :: 0 <= i < |nbs| && nbs[i].addr == nb
  {
    var n := |nbs| - 1;
    if nb in Roulette.Spare(nbs[..n], t) {
      SpareAreNeighbors(nbs[..n], t, nb);
      var i :| 0 <= i < n && nbs[..n][i].addr == nb;
      assert nbs[i].addr == nb;
    } else {
      assert nbs[n].addr == nb;
    }
  }

  /** The ant goes on as it is, and the way it goes becomes a precursor of the route back. */
  lemma WanderOnLeaves(r: Node, now: real, a: GoAnt, hop: Addr)
    requires a.trail != [] && !a.direct && a.hops < INFINITY2 && r.index != a.src
    ensures var s := AfterRelay(AddPrecursor(r, a.prevNode, a.ner, hop), now, a, hop);
      && (if hop == NO_HOP then TurnsBack(r, a, s.outs) else WandersOn(r, a, s.outs, hop))
      && Relied(r.rtable, s.node.rtable, a.prevNode, a.ner, hop)
  {
    hide AddPrecursor, AfterSendReturn, Relied;
    var r1 := AddPrecursor(r, a.prevNode, a.ner, hop);
    PrecursorAdded(r, a.prevNode, a.ner, hop);
    RelayLeaves(r1, now, a, hop);
    BackLeaves(r1, now, a, -1);
    SameOnward(r, r1, a, a, AfterRelay(r1, now, a, hop).outs, hop);
  }

  lemma SatisfyLeaves(s: Node, r: Node, now: real, a: GoAnt, slot: Roulette.Slot)
    requires NodeInv(r, now) && GoOk(a) && a.hops < INFINITY2 && Wandering(a) && a.ttl != 1 && r.index != a.src
    requires r.index == s.index && r.nbs == s.nbs && r.seqno == s.seqno && slot.hop >= 0
    ensures var c := AfterSendClone(r, now, Taken(a));
      var aimed := Aim(c.node, Taken(a).(target := slot.claimant, ner := slot.asked, ttl := ANT_TTL), slot.hop);
      var more := AfterRelay(aimed.node, now, aimed.ant, slot.hop).outs;
      && Cloned(s, Taken(a), c.outs) && |more| == 1 && IsOnward(s, a, more[0], slot.hop)
      && more[0].msg.go.target == slot.claimant && more[0].msg.go.ner == slot.asked && more[0].msg.go.ttl == ANT_TTL
      && NewsOf(r.(seqno := NumberThen(s.seqno, c.outs)), slot.asked, slot.hop, more[0].msg.go)
  {
    hide AfterSendClone, AfterRelay, Aim, NodeInv, Cloned, NewsOf;
    var b := Taken(a);
    AsksListed(r, now);
    CloneLeaves(r, now, b);
    SendCloneOk(r, now, b);
    var c := AfterSendClone(r, now, b);
    SameClone(s, r, b, c.outs);
    var d := b.(target := slot.claimant, ner := slot.asked, ttl := ANT_TTL);
    StepIsSound(r, now, c);
    AimedNews(c.node, now, d, slot.hop);
    var aimed := Aim(c.node, d, slot.hop);
    SameNews(c.node, r.(seqno := c.node.seqno), slot.asked, slot.hop,
             AfterRelay(aimed.node, now, aimed.ant, slot.hop).outs[0].msg.go);
  }

  lemma SameNews(r: Node, r2: Node, ner: Addr, hop: Addr, b: GoAnt)
    requires r2.index == r.index && r2.seqno == r.seqno && r2.nbs == r.nbs && r2.rtable == r.rtable
    ensures NewsOf(r2, ner, hop, b) <==> NewsOf(r, ner, hop, b)
  {
  }

  lemma StepIsSound(s: Node, now: real, r: Step)
    requires StepOk(s, now, r)
    ensures NodeInv(r.node, now)
  {
  }

  /** A search with a draw. On a claim, a clone wanders on, and the ant itself goes where the drawn slot says,
      bound for the slot's claimant with news of the slot's destination and a fresh ttl. On a blank slot the ant
      goes to the slot's neighbour as it is. */
  lemma DrawnAntGoes(s: Node, now: real, a: GoAnt, draw: nat, junk: Roulette.Slot)
    requires NodeInv(s, now) && GoOk(a) && a.hops < INFINITY2 && Admits(s, a) && Wandering(a) && a.ttl != 1
    requires !Admitted(s, now, Taken(a)).node.askRt && Roulette.AnyNamed(s.nbs, s.phtable)
    ensures var ants, r := Ants(AfterRecv(s, now, Go(a), draw, junk).outs), Admitted(s, now, Taken(a)).node;
      var w := Roulette.Build(s.nbs, s.phtable, junk);
      && w.size > 0
      && var slot := w.cells[draw % w.size];
         if slot.claimant == -1 then
           && WandersOn(s, Taken(a), ants, slot.hop)
           && Relied(r.rtable, AfterRecv(s, now, Go(a), draw, junk).node.rtable, a.prevNode, a.ner, slot.hop)
         else
           && ants != []
           && var last := |ants| - 1;
              && Cloned(s, Taken(a), ants[..last]) && IsOnward(s, a, ants[last], slot.hop)
              && ants[last].msg.go.target == slot.claimant && ants[last].msg.go.ner == slot.asked
              && ants[last].msg.go.ttl == ANT_TTL
              && NewsOf(r.(seqno := NumberThen(s.seqno, ants[..last])), slot.asked, slot.hop, ants[last].msg.go)
  {
    hide AfterSendClone, AfterRelay, Aim, Admitted, Cloned, NodeInv, Roulette.Slots, Roulette.Spare,
      Roulette.AnyNamed, IsOnward, NewsOf;
    AntsOfGo(s, now, a, draw, junk);
    NodeOfGo(s, now, a, draw, junk);
    var r, b := Admitted(s, now, Taken(a)).node, Taken(a);
    DrawMeans(s, now, draw, junk);
    var w := Roulette.Build(s.nbs, s.phtable, junk);
    var slot := w.cells[draw % w.size];
    DrawnHopIsReal(s, now, draw, junk);
    if slot.claimant == -1 {
      WanderOnLeaves(r, now, b, slot.hop);
    } else {
      SatisfyLeaves(s, r, now, a, slot);
    }
  }

  ghost predicate FirstOpen(nbs: seq<Neighbor>, a: GoAnt, i: nat)
    requires i < |nbs|
  {
    Open(a, nbs[i].addr) && forall j :: 0 <= j < i ==> !Open(a, nbs[j].addr)
  }

  /** A search without a draw, because no demand came by a neighbour: the ant goes as it is to the first neighbour
      it has not met, and back over its trail if it has met them all. */
  lemma UndrawnAntGoes(s: Node, now: real, a: GoAnt, draw: nat, junk: Roulette.Slot)
    requires NodeInv(s, now) && GoOk(a) && a.hops < INFINITY2 && Admits(s, a) && Wandering(a) && a.ttl != 1
    requires !Admitted(s, now, Taken(a)).node.askRt && !Roulette.AnyNamed(s.nbs, s.phtable)
    ensures var r := AfterRecv(s, now, Go(a), draw, junk); var t := Admitted(s, now, Taken(a)).node.rtable;
      && (forall i :: 0 <= i < |s.nbs| && FirstOpen(s.nbs, a, i) ==>
            && WandersOn(s, Taken(a), Ants(r.outs), s.nbs[i].addr)
            && Relied(t, r.node.rtable, a.prevNode, a.ner, s.nbs[i].addr))
      && ((forall i :: 0 <= i < |s.nbs| ==> !Open(a, s.nbs[i].addr)) ==> TurnsBack(s, a, Ants(r.outs)))
  {
    hide AfterRelay, Admitted, NodeInv, Roulette.Slots, Roulette.Spare, Roulette.AnyNamed, AddPrecursor, TurnsBack,
      Relied, Open, Ants;
    AntsOfGo(s, now, a, draw, junk);
    NodeOfGo(s, now, a, draw, junk);
    var r, b := Admitted(s, now, Taken(a)).node, Taken(a);
    AsksListed(s, now);
    assert forall nb :: Open(b, nb) == Open(a, nb) by { SameOpen(a); }
    UnvisitedMeans(s.nbs, b);
    var hop := FirstUnvisited(s.nbs, b);
    WanderOnLeaves(r, now, b, hop);
    SameOnward(s, r, a, b, AfterRelay(AddPrecursor(r, a.prevNode, a.ner, hop), now, b, hop).outs, hop);
  }

  lemma SameOpen(a: GoAnt)
    ensures forall nb :: Open(Taken(a), nb) == Open(a, nb)
  {
  }
}

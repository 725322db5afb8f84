/** What the protocol is for: how a demand reaches a node that knows a way, how it is answered, and what
    the answer does at the node that asked; how long what has been learned lasts. */
module Demands {
  import opened Types
  import opened Lists
  import opened PacketQueue
  import opened RoutingTable
  import opened PheromoneTable
  import opened Requests
  import opened Protocol
  import opened NodeInvariant
  import opened HandlersKeep
  import opened Links
  import Roulette

  // ---------------------------------------------------------------- the demand is satisfied

  /** The route to ner as AfterLearn leaves it: known through prev, and at least as long as it says. */
  ghost predicate KnownUntil(t: seq<Entry>, prev: Addr, ner: Addr, time: real) {
    exists i :: 0 <= i < |t| && Leads(t[i], ner) && t[i].nextHop == prev && t[i].expire >= time
  }

  lemma RefreshedLater(e: Entry, index: Addr, ds: seq<Data>, now: real)
    requires e.expire >= now + ROUTE_LIFE
    ensures Refreshed(e, index, ds, now).expire >= now + ROUTE_LIFE
    decreases ds
  {
    if ds != [] {
      var e1 := if ForwardOne(index, e.nextHop, ds[0]).Send? then e.(expire := now + ROUTE_LIFE) else e;
      RefreshedLater(e1, index, ds[1..], now);
    }
  }

  lemma InstallSettles(s: Node, now: real, at: nat, seqno: nat, hops: nat)
    requires at < |s.rtable| && (Accepts(s.rtable[at], seqno, hops) || s.rtable[at].flag == UP)
    ensures var r := Install(s, now, at, seqno, hops);
      && r.node.asks == s.asks && at < |r.node.rtable| && Leads(r.node.rtable[at], s.rtable[at].dst)
      && r.node.rtable[at].nextHop == s.rtable[at].nextHop
      && (Accepts(s.rtable[at], seqno, hops) || s.rtable[at].expire >= now + ROUTE_LIFE ==>
            r.node.rtable[at].expire >= now + ROUTE_LIFE)
  {
    var e := s.rtable[at];
    if Accepts(e, seqno, hops) {
      var e1 := Updated(e, seqno, hops, Max(e.expire, now + ROUTE_LIFE));
      RefreshedLater(e1, s.index, For(Live(s.queue, now), e.dst), now);
    }
  }

  /** What an ant says about ner is new to the node: an entry that way is older, or as old and longer. */
  ghost predicate News(s: Node, prev: Addr, ner: Addr, seqno: nat, hops: nat) {
    forall i :: 0 <= i < |s.rtable| && Via(s.rtable[i], prev, ner) ==>
      seqno > s.rtable[i].seqno || (seqno == s.rtable[i].seqno && hops < s.rtable[i].hops)
  }

  /** Hearing of a destination through a neighbour always ends the demand for it, accepted or not: the
      request is withdrawn and the node has a route. The route holds for ten seconds when the news was
      accepted, and in any case when the ant was on its way out. */
  lemma LearnAnswers(s: Node, now: real, prev: Addr, ner: Addr, seqno: nat, hops: nat, outward: bool)
    requires NodeInv(s, now) && IsNb(s.nbs, prev) && SeqnoOk(seqno) && hops < INFINITY2
    ensures var r := AfterLearn(s, now, prev, ner, seqno, hops, outward);
      && !Asked(r.node.asks, ner) && !Routeless(r.node.rtable, ner)
      && (outward || News(s, prev, ner, seqno, hops) ==> KnownUntil(r.node.rtable, prev, ner, now + ROUTE_LIFE))
  {
    hide Install, RemoveAt, FindRequest, Delete, FindVia;
    DeleteKeeps(s.asks, ner);
    var p := Prepare(s, now, prev, ner, outward);
    var k := FindVia(s.rtable, prev, ner);
    assert k >= 0 ==> EntryOk(s.rtable[k], s.nbs);
    InstallSettles(p.node, now, p.at, seqno, hops);
    var t := Install(p.node, now, p.at, seqno, hops).node.rtable;
    assert Leads(t[p.at], ner) && t[p.at].nextHop == prev;
  }

  /** What becomes of a packet that waited for ner when a route there through prev is learned. */
  ghost predicate Leaves(index: Addr, prev: Addr, ner: Addr, d: Data, o: Output) {
    if ner == index then o == Local(d)
    else o.Send? && o.to == prev && o.msg == DataMsg(d.(up := false))
  }

  /** And every packet that waited for the destination and is not yet too old leaves at once, in its
      order, through that neighbour; no packet for it stays, and the others keep their places. */
  lemma LearnEmptiesBuffer(s: Node, now: real, prev: Addr, ner: Addr, seqno: nat, hops: nat, outward: bool)
    requires NodeInv(s, now) && IsNb(s.nbs, prev) && SeqnoOk(seqno) && hops < INFINITY2
    ensures var r, live := AfterLearn(s, now, prev, ner, seqno, hops, outward), Live(s.queue, now);
      && |r.outs| == |For(live, ner)|
      && (forall i :: 0 <= i < |r.outs| ==> Leaves(s.index, prev, ner, For(live, ner)[i], r.outs[i]))
      && (r.node.queue == s.queue || r.node.queue == Others(live, ner))
      && (forall d :: d in r.node.queue ==> d.daddr != ner)
  {
    hide RemoveAt, FindRequest, FindVia, Keep, Leaves;
    var live := Live(s.queue, now);
    KeepMembers(s.queue, Within(now));
    KeepMembers(live, Not(Bound(ner)));
    var k := FindVia(s.rtable, prev, ner);
    if k < 0 {
      var r := AfterLearn(s, now, prev, ner, seqno, hops, outward);
      assert r.node.queue == Others(live, ner) && r.outs == ForwardAll(s.index, prev, For(live, ner));
      forall d | d in Others(live, ner) ensures d.daddr != ner {
        assert Not(Bound(ner)).Holds(d) && !Bound(ner).Holds(d);
      }
      forall i | 0 <= i < |r.outs| ensures Leaves(s.index, prev, ner, For(live, ner)[i], r.outs[i]) {
        WaitedLeaves(s, now, prev, ner, i);
      }
    } else {
      assert EntryOk(s.rtable[k], s.nbs) && Leads(s.rtable[k], ner);
      NothingWaits(s, now, k);
      forall d | d in s.queue ensures d.daddr != ner {
        assert Waits(d, s.asks, s.rtable, s.index);
      }
    }
  }

  lemma WaitedLeaves(s: Node, now: real, prev: Addr, ner: Addr, i: nat)
    requires NodeInv(s, now) && i < |For(Live(s.queue, now), ner)|
    ensures var d := For(Live(s.queue, now), ner)[i]; Leaves(s.index, prev, ner, d, ForwardOne(s.index, prev, d))
  {
    var live := Live(s.queue, now);
    KeepMembers(s.queue, Within(now));
    KeepMembers(live, Bound(ner));
    var d := For(live, ner)[i];
    assert d in For(live, ner) && d in live && Bound(ner).Holds(d);
    assert Waits(d, s.asks, s.rtable, s.index);
  }

  // ---------------------------------------------------------------- how long it lasts

  /** rt_purge takes a known route down exactly when its time is over. */
  lemma PurgeSpares(s: Node, later: real, prev: Addr, ner: Addr, time: real)
    requires NodeInv(s, later) && KnownUntil(s.rtable, prev, ner, time) && later <= time
    ensures KnownUntil(AfterRtPurge(s, later, 0).node.rtable, prev, ner, time)
  {
    RtPurgeQuiet(s, later, 0);
    var t := s.rtable;
    var i :| 0 <= i < |t| && Leads(t[i], ner) && t[i].nextHop == prev && t[i].expire >= time;
    assert AfterRtPurge(s, later, 0).node.rtable[i] == s.rtable[i];
  }

  /** A route just learned survives an rt_purge at any time of the next ten seconds. */
  lemma LearnedSurvivesPurge(s: Node, now: real, later: real, prev: Addr, ner: Addr, seqno: nat, hops: nat,
                             outward: bool)
    requires NodeInv(s, now) && IsNb(s.nbs, prev) && SeqnoOk(seqno) && hops < INFINITY2
    requires outward || News(s, prev, ner, seqno, hops)
    requires now <= later <= now + ROUTE_LIFE
    ensures var r := AfterLearn(s, now, prev, ner, seqno, hops, outward).node;
      !Routeless(AfterRtPurge(r, later, 0).node.rtable, ner)
  {
    var r := AfterLearn(s, now, prev, ner, seqno, hops, outward).node;
    LearnOk(s, now, prev, ner, seqno, hops, outward);
    InvLater(r, now, later);
    LearnAnswers(s, now, prev, ner, seqno, hops, outward);
    PurgeSpares(r, later, prev, ner, now + ROUTE_LIFE);
    var t := AfterRtPurge(r, later, 0).node.rtable;
    var i :| 0 <= i < |t| && Leads(t[i], ner) && t[i].nextHop == prev;
  }

  lemma {:induction false} InTimeMembers(nbs: seq<Neighbor>, now: real, x: Neighbor)
    ensures x in InTime(nbs, now) <==> x in nbs && x.expire > now
  {
    if nbs != [] {
      InTimeMembers(nbs[1..], now, x);
      assert nbs == [nbs[0]] + nbs[1..];
    }
  }

  lemma HeardIsListed(s: Node, now: real, origin: Addr)
    requires NodeInv(s, now)
    ensures Neighbor(origin, now + HELLO_LIFE) in AfterHello(s, now, origin).nbs
    ensures forall y :: y in AfterHello(s, now, origin).nbs && y.addr == origin ==>
      y == Neighbor(origin, now + HELLO_LIFE)
  {
    var k := FindNb(s.nbs, origin);
    var nbs := AfterHello(s, now, origin).nbs;
    assert nbs[if k < 0 then 0 else k] == Neighbor(origin, now + HELLO_LIFE);
  }

  /** A node that was heard is a neighbour, and the neighbour timer spares it for 4.5 seconds and no longer. */
  lemma HelloLasts(s: Node, now: real, origin: Addr, later: real)
    requires NodeInv(s, now) && origin >= 0 && now <= later
    ensures IsNb(AfterNbPurge(AfterHello(s, now, origin), later, 0).node.nbs, origin) <==> later < now + HELLO_LIFE
  {
    hide AfterHello, AfterNbPurge, InTime, FindNb;
    var s1 := AfterHello(s, now, origin);
    HelloOk(s, now, origin);
    InvLater(s1, now, later);
    NbPurgeExact(s1, later, 0);
    assert s1.nbs[0..] == s1.nbs;
    var left, x := InTime(s1.nbs, later), Neighbor(origin, now + HELLO_LIFE);
    assert AfterNbPurge(s1, later, 0).node.nbs == left;
    HeardIsListed(s, now, origin);
    InTimeMembers(s1.nbs, later, x);
    if later < now + HELLO_LIFE {
      var i :| 0 <= i < |left| && left[i] == x;
    }
    if IsNb(left, origin) {
      var y := left[FindNb(left, origin)];
      InTimeMembers(s1.nbs, later, y);
      assert y in left;
    }
  }

  // ---------------------------------------------------------------- the demand is recorded and answered

  /** A direct ant from s to the claimant over via, telling of the entry e. */
  ghost predicate Tells(o: Output, s: Node, claimant: Addr, via: Addr, e: Entry) {
    && o.Send? && o.to == via && o.msg.Go?
    && var a := o.msg.go;
       && a.direct && a.valid && a.target == claimant && a.ner == e.dst && a.hops == e.hops
       && a.src == s.index && a.prevNode == s.index && a.id == s.idAgent && a.seqno == s.seqno + 2
  }

  /** The pheromone table remembers the demand, with at least this quantity and this way back. */
  ghost predicate Remembers(t: seq<PhEntry>, claimant: Addr, asked: Addr, qte: real, hop: Addr) {
    exists i :: 0 <= i < |t| && Keyed(t[i], claimant, asked) && t[i].qte >= qte && hop in t[i].nbs
  }

  /** A node that a demand comes by remembers it together with the way it came; it answers on the spot
      exactly when it has a route to what is asked for, and then tells of the best one. */
  lemma DemandAnswered(s: Node, now: real, a: ReturnAnt)
    requires NodeInv(s, now) && a.detask != NO_DEMAND && a.ner >= 0 && a.qte > 0.0
    ensures var r := AfterDemand(s, a);
      && Remembers(r.node.phtable, a.ner, a.detask, a.qte, a.prevNode)
      && (Routeless(s.rtable, a.detask) ==> r.outs == [])
      && (!Routeless(s.rtable, a.detask) ==> exists k: nat ::
            IsOptimal(s.rtable, a.detask, k) && |r.outs| == 1 && Tells(r.outs[0], s, a.ner, a.prevNode, s.rtable[k]))
  {
    var t := AfterDemand(s, a).node.phtable;
    var k := FindKey(s.phtable, a.ner, a.detask);
    if k >= 0 {
      assert Filled(s.phtable[k]);
      WholeSum(s.phtable[k].qte, s.phtable[k].qte);
    }
    var i := if k < 0 then 0 else k;
    assert Keyed(t[i], a.ner, a.detask) && t[i].qte >= a.qte && a.prevNode in t[i].nbs;
    var j := FindOptimal(s.rtable, a.detask);
    if j >= 0 {
      assert EntryOk(s.rtable[j], s.nbs);
      assert Tells(AfterDemand(s, a).outs[0], s, a.ner, a.prevNode, s.rtable[j]);
    }
  }

  /** A direct ant not yet at its claimant goes on exactly when the node has a route there, by the best one. */
  lemma DirectAntFollowsBest(s: Node, a: GoAnt)
    requires a.direct && a.hops < INFINITY2
    ensures var outs := AfterDirect(s, a).outs;
      && (outs == [] <==> a.target == s.index || Routeless(s.rtable, a.target))
      && (outs != [] ==> exists k: nat ::
            IsOptimal(s.rtable, a.target, k)
            && outs == [Send(s.rtable[k].nextHop, Go(a.(prevNode := s.index, hops := a.hops + 1)))])
  {
    hide FindOptimal, IsOptimal, Routeless;
    var k := FindOptimal(s.rtable, a.target);
    assert k >= 0 ==> IsOptimal(s.rtable, a.target, k);
  }

  // ---------------------------------------------------------------- an ant takes a demand back

  /** Every filled slot belongs to a paying pair. */
  lemma {:induction false} NeighborSlotOwner(nb: Addr, t: seq<PhEntry>, c: nat) returns (k: nat)
    requires c < |Roulette.NeighborSlots(nb, t)|
    ensures k < |t| && Roulette.Pays(nb, t[k]) && Roulette.NeighborSlots(nb, t)[c] == Roulette.SlotOf(nb, t[k])
  {
    var n := |t| - 1;
    if c < |Roulette.NeighborSlots(nb, t[..n])| {
      k := NeighborSlotOwner(nb, t[..n], c);
    } else {
      k := n;
    }
  }

  lemma {:induction false} SlotOwner(nbs: seq<Neighbor>, t: seq<PhEntry>, c: nat) returns (i: nat, k: nat)
    requires c < |Roulette.Slots(nbs, t)|
    ensures i < |nbs| && k < |t| && Roulette.Pays(nbs[i].addr, t[k])
    ensures Roulette.Slots(nbs, t)[c] == Roulette.SlotOf(nbs[i].addr, t[k])
  {
    var n := |nbs| - 1;
    var before := Roulette.Slots(nbs[..n], t);
    if c < |before| {
      i, k := SlotOwner(nbs[..n], t, c);
    } else {
      i := n;
      k := NeighborSlotOwner(nbs[n].addr, t, c - |before|);
    }
  }

  /** The demand slot.asked of slot.claimant is remembered here, and it came by the neighbour slot.hop. */
  ghost predicate ComesFrom(s: Node, slot: Roulette.Slot) {
    && IsNb(s.nbs, slot.hop)
    && exists k ::
      0 <= k < |s.phtable| && Roulette.Pays(slot.hop, s.phtable[k]) && Keyed(s.phtable[k], slot.claimant, slot.asked)
  }

  /** Whatever is drawn, when a draw is made: a demand that is remembered here, to be taken back the way it
      came; or one of the neighbours that brought none, but the first. */
  lemma DrawMeans(s: Node, now: real, draw: nat, junk: Roulette.Slot)
    requires NodeInv(s, now) && Roulette.AnyNamed(s.nbs, s.phtable)
    ensures Roulette.Build(s.nbs, s.phtable, junk).size > 0
    ensures var w, spare := Roulette.Build(s.nbs, s.phtable, junk), Roulette.Spare(s.nbs, s.phtable);
      var slot := w.cells[draw % w.size];
      if slot.claimant != -1 then ComesFrom(s, slot) else spare != [] && slot.hop in spare[1..]
  {
    hide Roulette.Slots, Roulette.Spare, Roulette.Blanks, Roulette.Quota, FindNb, RoutesOk, WaitOk, QueueOk, AsksOk;
    var w := Roulette.Build(s.nbs, s.phtable, junk);
    var slots, spare := Roulette.Slots(s.nbs, s.phtable), Roulette.Spare(s.nbs, s.phtable);
    Roulette.NamedPays(s.nbs, s.phtable);
    Roulette.WheelIsWritten(s.nbs, s.phtable, junk, junk);
    var c := draw % w.size;
    if c < |slots| {
      var i, k := SlotOwner(s.nbs, s.phtable, c);
      assert Filled(s.phtable[k]) && w.cells[c] == slots[c];
      assert s.nbs[i].addr == slots[c].hop;
    } else {
      assert w.cells[c] == Roulette.Blanks(spare[1..])[c - |slots|];
      assert spare[1..][c - |slots|] in spare[1..];
    }
  }

  // ---------------------------------------------------------------- where ants are sent

  /** The periodic ant is launched exactly when there is a neighbour, to the one rand() picks; but the
      first stands for two remainders, and of two or more neighbours the last is never picked. */
  lemma LaunchPicks(s: Node, now: real, draw: nat)
    requires NodeInv(s, now)
    ensures AfterSendAnt(s, draw).outs == [] <==> s.nbs == []
    ensures s.nbs != [] ==>
      var n := |s.nbs|; var pick := if draw % n <= 1 then 0 else draw % n - 1;
      AfterSendAnt(s, draw).outs[0].to == s.nbs[pick].addr && (n >= 2 ==> pick < n - 1)
    ensures forall o :: o in AfterSendAnt(s, draw).outs ==>
      o.Send? && o.msg.Go? && Wandering(o.msg.go) && o.msg.go.id == s.idAgent < AfterSendAnt(s, draw).node.idAgent
  {
    if s.nbs != [] {
      assert s.nbs[0].addr >= 0;
    }
  }

  /** The neighbour a wandering ant may go to. */
  predicate Open(a: GoAnt, nb: Addr) {
    nb != a.prevNode && nb != a.src && nb !in a.trail
  }

  /** An ant with nothing to satisfy goes to the first neighbour it has not met, and turns back exactly
      when it has met them all. */
  lemma {:induction false} UnvisitedMeans(nbs: seq<Neighbor>, a: GoAnt)
    requires forall i :: 0 <= i < |nbs| ==> nbs[i].addr >= 0
    ensures var hop := FirstUnvisited(nbs, a);
      && (hop == NO_HOP <==> forall i :: 0 <= i < |nbs| ==> !Open(a, nbs[i].addr))
      && (hop != NO_HOP ==> exists i :: 0 <= i < |nbs| && nbs[i].addr == hop && Open(a, hop)
                              && forall j :: 0 <= j < i ==> !Open(a, nbs[j].addr))
  {
    if nbs != [] && !Open(a, nbs[0].addr) {
      UnvisitedMeans(nbs[1..], a);
      var hop := FirstUnvisited(nbs[1..], a);
      assert forall i :: 1 <= i < |nbs| ==> nbs[i] == nbs[1..][i - 1];
      if hop != NO_HOP {
        var i :| 0 <= i < |nbs[1..]| && nbs[1..][i].addr == hop && Open(a, hop)
          && forall j :: 0 <= j < i ==> !Open(a, nbs[1..][j].addr);
        assert nbs[i + 1].addr == hop;
      }
    }
  }

  /** A clone goes to the first neighbour but the previous hop; without one the ant turns back instead. */
  lemma {:induction false} CloneHopMeans(nbs: seq<Neighbor>, prevHop: Addr)
    requires forall i :: 0 <= i < |nbs| ==> nbs[i].addr >= 0
    ensures var hop := FirstOther(nbs, prevHop);
      && (hop == NO_TARGET <==> forall i :: 0 <= i < |nbs| ==> nbs[i].addr == prevHop)
      && (hop != NO_TARGET ==> exists i :: 0 <= i < |nbs| && nbs[i].addr == hop != prevHop
                                && forall j :: 0 <= j < i ==> nbs[j].addr == prevHop)
  {
    if nbs != [] && nbs[0].addr == prevHop {
      CloneHopMeans(nbs[1..], prevHop);
      var hop := FirstOther(nbs[1..], prevHop);
      assert forall i :: 1 <= i < |nbs| ==> nbs[i] == nbs[1..][i - 1];
      if hop != NO_TARGET {
        var i :| 0 <= i < |nbs[1..]| && nbs[1..][i].addr == hop != prevHop
          && forall j :: 0 <= j < i ==> nbs[1..][j].addr == prevHop;
        assert nbs[i + 1].addr == hop;
      }
    }
  }
}

/** What a hello and each of the seven timers do to a node, by what is in its lists before and after
    (antconf.cc:171-318, 473-514, 721-800, 1734-1765, 1806-1824, 1898-1906). */
module Upkeep {
  import opened Types
  import opened PacketQueue
  import opened RoutingTable
  import opened PheromoneTable
  import opened Protocol
  import opened NodeInvariant
  import opened HandlersKeep
  import opened Links
  import opened Demands
  import opened Outward
  import opened Withdrawals
  import Roulette

  /** A hello makes its sender a neighbour for 4.5 seconds, whatever it was before, and touches no other neighbour; only
      a new neighbour raises the node's number. */
  lemma HelloHeard(s: Node, now: real, origin: Addr, draw: nat, junk: Roulette.Slot)
    requires NodeInv(s, now)
    ensures var r := AfterRecv(s, now, Hello(origin), draw, junk);
      && r.outs == []
      && r.node == s.(nbs := r.node.nbs, nbNum := |r.node.nbs|, seqno := s.seqno + if Near(s, origin) then 0 else 2)
      && forall x :: x in r.node.nbs <==>
           if x.addr == origin then x == Neighbor(origin, now + HELLO_LIFE) else x in s.nbs
  {
    var k, nbs := FindNb(s.nbs, origin), AfterHello(s, now, origin).nbs;
    NearIsNb(s, origin);
    HeardIsListed(s, now, origin);
    forall x: Neighbor | x.addr != origin ensures x in nbs <==> x in s.nbs {
      if x in s.nbs {
        var i :| 0 <= i < |s.nbs| && s.nbs[i] == x;
        assert nbs[if k < 0 then i + 1 else i] == x;
      }
    }
  }

  // ---------------------------------------------------------------- the neighbour timer

  /** Neighbour a is listed from position i on and has not been heard in time. */
  ghost predicate Overdue(nbs: seq<Neighbor>, now: real, i: nat, a: Addr) {
    exists j :: i <= j < |nbs| && nbs[j].addr == a && nbs[j].expire <= now
  }

  /** Exactly the routes through overdue neighbours are withdrawn, and exactly these are nobody's precursors. */
  ghost predicate Pruned(s: Node, now: real, i: nat, t': seq<Entry>) {
    && |t'| == |s.rtable|
    && forall k :: 0 <= k < |t'| ==>
         && t'[k] == (if s.rtable[k].flag == UP && Overdue(s.nbs, now, i, s.rtable[k].nextHop)
                      then Gone(s.rtable[k], s.rtable[k].seqno + 1, t'[k].precursors)
                      else s.rtable[k].(precursors := t'[k].precursors))
         && forall p :: p in t'[k].precursors <==> p in s.rtable[k].precursors && !Overdue(s.nbs, now, i, p)
  }

  lemma DeletedOverdue(s: Node, now: real, i: nat, s1: Node)
    requires i < |s.nbs| && s.nbs[i].expire <= now && |s1.nbs| == |s.nbs| - 1 && s1.nbs[i..] == s.nbs[i + 1..]
    ensures forall a :: Overdue(s.nbs, now, i, a) <==> Overdue(s1.nbs, now, i, a) || a == s.nbs[i].addr
  {
    forall j | i <= j < |s1.nbs| ensures s1.nbs[j] == s.nbs[j + 1] {
      assert s1.nbs[i..][j - i] == s.nbs[i + 1..][j - i];
    }
    forall a | Overdue(s.nbs, now, i, a) && a != s.nbs[i].addr ensures Overdue(s1.nbs, now, i, a) {
      var j :| i <= j < |s.nbs| && s.nbs[j].addr == a && s.nbs[j].expire <= now;
      assert s1.nbs[j - 1] == s.nbs[j];
    }
  }

  lemma PrunedThen(s: Node, now: real, i: nat, s1: Node, t': seq<Entry>)
    requires i < |s.nbs| && s.nbs[i].expire <= now && |s1.nbs| == |s.nbs| - 1 && s1.nbs[i..] == s.nbs[i + 1..]
    requires GivesUp(s, s1, s.nbs[i].addr) && Pruned(s1, now, i, t')
    ensures Pruned(s, now, i, t')
  {
    hide Overdue, Near;
    DeletedOverdue(s, now, i, s1);
    forall k | 0 <= k < |t'|
      ensures t'[k] == (if s.rtable[k].flag == UP && Overdue(s.nbs, now, i, s.rtable[k].nextHop)
                        then Gone(s.rtable[k], s.rtable[k].seqno + 1, t'[k].precursors)
                        else s.rtable[k].(precursors := t'[k].precursors))
      ensures forall p :: p in t'[k].precursors <==> p in s.rtable[k].precursors && !Overdue(s.nbs, now, i, p)
    {
      assert Freed(s.rtable[k].precursors, s1.rtable[k].precursors, s.nbs[i].addr);
    }
  }

  lemma {:induction false} PurgePrunes(s: Node, now: real, i: nat)
    requires NodeInv(s, now) && i <= |s.nbs|
    ensures Pruned(s, now, i, AfterNbPurge(s, now, i).node.rtable)
    decreases |s.nbs| - i
  {
    hide NodeInv, AfterNbDelete, GivesUp, Pruned;
    if i == |s.nbs| {
      NothingPruned(s, now);
    } else if s.nbs[i].expire <= now {
      var id := s.nbs[i].addr;
      var r := AfterNbDelete(s, id);
      DeleteAt(s, now, i);
      DeleteGivesUp(s, now, id);
      PurgePrunes(r.node, now, i);
      PrunedThen(s, now, i, r.node, AfterNbPurge(r.node, now, i).node.rtable);
    } else {
      PurgePrunes(s, now, i + 1);
      SamePruned(s, now, i, AfterNbPurge(s, now, i + 1).node.rtable);
    }
  }

  /** Each neighbour given up raises the node's number once; only rectificators go out. */
  lemma {:induction false} PurgeFrame(s: Node, now: real, i: nat)
    requires NodeInv(s, now) && i <= |s.nbs|
    ensures var r := AfterNbPurge(s, now, i);
      && r.node == s.(nbs := r.node.nbs, nbNum := |r.node.nbs|, rtable := r.node.rtable, seqno := r.node.seqno)
      && r.node.seqno == s.seqno + 2 * (|s.nbs| - |r.node.nbs|)
      && forall j :: 0 <= j < |r.outs| ==>
           r.outs[j].Broadcast? && r.outs[j].note.Rectificator? && r.outs[j].note.sender == s.index
    decreases |s.nbs| - i
  {
    hide AfterNbDelete, Near, Freed, RoutesOk, WaitOk, QueueOk, AsksOk, TableOk;
    if i < |s.nbs| {
      if s.nbs[i].expire <= now {
        DeleteAt(s, now, i);
        DeleteGivesUp(s, now, s.nbs[i].addr);
        DeleteNames(s, now, s.nbs[i].addr);
        PurgeFrame(AfterNbDelete(s, s.nbs[i].addr).node, now, i);
      } else {
        PurgeFrame(s, now, i + 1);
      }
    }
  }

  lemma NothingPruned(s: Node, now: real)
    ensures Pruned(s, now, |s.nbs|, s.rtable)
  {
  }

  lemma SamePruned(s: Node, now: real, i: nat, t': seq<Entry>)
    requires i < |s.nbs| && s.nbs[i].expire > now && Pruned(s, now, i + 1, t')
    ensures Pruned(s, now, i, t')
  {
    forall a ensures Overdue(s.nbs, now, i, a) <==> Overdue(s.nbs, now, i + 1, a) { }
  }

  /** Some rectificator among the outputs carries the item. */
  ghost predicate Announced(outs: seq<Output>, x: Lost) {
    exists i :: 0 <= i < |outs| && outs[i].Broadcast? && outs[i].note.Rectificator? && x in outs[i].note.lost
  }

  /** The item names a route through an overdue neighbour. */
  ghost predicate LostNow(s: Node, now: real, i: nat, x: Lost) {
    exists k :: 0 <= k < |s.rtable| && s.rtable[k].flag == UP && Overdue(s.nbs, now, i, s.rtable[k].nextHop)
      && x == Lost(s.rtable[k].dst, s.rtable[k].seqno + 1)
  }

  lemma AnnouncedOnce(a: seq<Output>, b: seq<Output>, x: Lost)
    ensures Announced(a + b, x) <==> Announced(a, x) || Announced(b, x)
  {
    forall i | 0 <= i < |a| ensures (a + b)[i] == a[i] { }
    forall i | 0 <= i < |b| ensures (a + b)[|a| + i] == b[i] { }
  }

  lemma DeleteAnnounces(s: Node, now: real, id: Addr, x: Lost)
    requires NodeInv(s, now)
    ensures Announced(AfterNbDelete(s, id).outs, x) <==> IsLost(s.rtable, id, x)
  {
    hide NodeInv, AfterNbDelete, LeadsBy;
    DeleteNames(s, now, id);
  }

  lemma LostThen(s: Node, now: real, i: nat, s1: Node, x: Lost)
    requires i < |s.nbs| && s.nbs[i].expire <= now && |s1.nbs| == |s.nbs| - 1 && s1.nbs[i..] == s.nbs[i + 1..]
    requires GivesUp(s, s1, s.nbs[i].addr)
    ensures LostNow(s, now, i, x) <==> LostNow(s1, now, i, x) || IsLost(s.rtable, s.nbs[i].addr, x)
  {
    hide Overdue, Near, Freed;
    DeletedOverdue(s, now, i, s1);
    var id := s.nbs[i].addr;
    forall k | 0 <= k < |s.rtable| && !LeadsBy(s.rtable[k], id)
      ensures s1.rtable[k] == s.rtable[k].(precursors := s1.rtable[k].precursors)
    { }
    if LostNow(s, now, i, x) {
      var k :| 0 <= k < |s.rtable| && s.rtable[k].flag == UP && Overdue(s.nbs, now, i, s.rtable[k].nextHop)
        && x == Lost(s.rtable[k].dst, s.rtable[k].seqno + 1);
      assert LeadsBy(s.rtable[k], id) || (s1.rtable[k].flag == UP && Overdue(s1.nbs, now, i, s1.rtable[k].nextHop));
    }
    if LostNow(s1, now, i, x) {
      var k :| 0 <= k < |s1.rtable| && s1.rtable[k].flag == UP && Overdue(s1.nbs, now, i, s1.rtable[k].nextHop)
        && x == Lost(s1.rtable[k].dst, s1.rtable[k].seqno + 1);
      assert !LeadsBy(s.rtable[k], id);
    }
  }

  lemma {:induction false} PurgeAnnounces(s: Node, now: real, i: nat, x: Lost)
    requires NodeInv(s, now) && i <= |s.nbs|
    ensures Announced(AfterNbPurge(s, now, i).outs, x) <==> LostNow(s, now, i, x)
    decreases |s.nbs| - i
  {
    hide NodeInv, AfterNbDelete, GivesUp, LeadsBy;
    if i < |s.nbs| {
      if s.nbs[i].expire <= now {
        hide Overdue, LostNow, Announced;
        var id := s.nbs[i].addr;
        var r := AfterNbDelete(s, id);
        DeleteAt(s, now, i);
        DeleteGivesUp(s, now, id);
        PurgeAnnounces(r.node, now, i, x);
        LostThen(s, now, i, r.node, x);
        DeleteAnnounces(s, now, id, x);
        AnnouncedOnce(r.outs, AfterNbPurge(r.node, now, i).outs, x);
      } else {
        PurgeAnnounces(s, now, i + 1, x);
        forall a ensures Overdue(s.nbs, now, i, a) <==> Overdue(s.nbs, now, i + 1, a) { }
      }
    }
  }

  /** The neighbour timer leaves exactly the neighbours heard in time, in their order. It withdraws and announces
      exactly the routes through the others. */
  lemma NeighborTimerPrunes(s: Node, now: real, draw: nat)
    requires NodeInv(s, now)
    ensures var r := AfterTimer(s, now, NeighborTimer, draw);
      && r.node.nbs == InTime(s.nbs, now)
      && (forall x :: x in r.node.nbs <==> x in s.nbs && x.expire > now)
      && Pruned(s, now, 0, r.node.rtable)
      && (forall x :: Announced(r.outs, x) <==> LostNow(s, now, 0, x))
      && (forall j :: 0 <= j < |r.outs| ==>
            r.outs[j].Broadcast? && r.outs[j].note.Rectificator? && r.outs[j].note.sender == s.index)
      && r.node == s.(nbs := r.node.nbs, nbNum := |r.node.nbs|, rtable := r.node.rtable, seqno := r.node.seqno)
      && r.node.seqno == s.seqno + 2 * (|s.nbs| - |r.node.nbs|)
  {
    hide NodeInv, AfterNbPurge, Pruned, InTime, Announced, LostNow;
    NbPurgeExact(s, now, 0);
    assert s.nbs[0..] == s.nbs && s.nbs[..0] == [];
    PurgePrunes(s, now, 0);
    PurgeFrame(s, now, 0);
    forall x ensures Announced(AfterNbPurge(s, now, 0).outs, x) <==> LostNow(s, now, 0, x) {
      PurgeAnnounces(s, now, 0, x);
    }
    forall x ensures x in InTime(s.nbs, now) <==> x in s.nbs && x.expire > now {
      InTimeMembers(s.nbs, now, x);
    }
  }

  // ---------------------------------------------------------------- the other timers

  lemma {:induction false} PurgedIds(ids: seq<AgentId>, now: real, x: AgentId)
    ensures x in PurgeIds(ids, now) <==> x in ids && x.expire > now
  {
    if ids != [] {
      PurgedIds(ids[1..], now, x);
      assert ids == [ids[0]] + ids[1..];
    }
  }

  /** The identifier timer forgets exactly the agents whose time is over: one that has been here is let in again exactly
      when all its identifiers are overdue. */
  lemma IdTimerForgets(s: Node, now: real, draw: nat)
    ensures var r := AfterTimer(s, now, IdTimer, draw);
      && r.outs == [] && r.node == s.(ids := r.node.ids)
      && (forall x :: x in r.node.ids <==> x in s.ids && x.expire > now)
      && (forall a: GoAnt :: Admits(r.node, a) <==>
            s.index != a.src && forall x :: x in s.ids && x.src == a.src && x.id == a.id ==> x.expire <= now)
  {
    var ids := PurgeIds(s.ids, now);
    forall x ensures x in ids <==> x in s.ids && x.expire > now {
      PurgedIds(s.ids, now, x);
    }
    forall a: GoAnt ensures Seen(ids, a.src, a.id) <==>
      exists x: AgentId :: x in s.ids && x.src == a.src && x.id == a.id && x.expire > now
    {
      if Seen(ids, a.src, a.id) {
        var k :| 0 <= k < |ids| && ids[k].src == a.src && ids[k].id == a.id;
        assert ids[k] in ids;
      }
    }
  }

  /** The pheromone timer takes one step from every entry and with it those that have no more. */
  lemma PheromoneTimerEvaporates(s: Node, now: real, draw: nat)
    ensures var r := AfterTimer(s, now, PheromoneTimer, draw);
      && r.outs == [] && r.node == s.(phtable := r.node.phtable)
      && forall e :: e in r.node.phtable <==> e.qte > 0.0 && e.(qte := e.qte + PHEROMONE_STEP) in s.phtable
  {
    forall e ensures e in Evaporate(s.phtable) <==> e.qte > 0.0 && e.(qte := e.qte + PHEROMONE_STEP) in s.phtable {
      EvaporateEntry(s.phtable, e);
    }
  }

  /** The request timer adds one step to every demand. */
  lemma RequestTimerAges(s: Node, now: real, draw: nat)
    ensures var r := AfterTimer(s, now, RequestTimer, draw);
      && r.outs == [] && r.node == s.(asks := r.node.asks) && |r.node.asks| == |s.asks|
      && forall i :: 0 <= i < |s.asks| ==>
           r.node.asks[i] == Request(s.asks[i].dst, s.asks[i].expire, s.asks[i].qte + PHEROMONE_STEP)
  {
  }

  /** The route timer withdraws exactly the UP routes whose time is over, under the next number, and says so to nobody;
      it touches no request, and from the buffer takes at most what is too old. */
  lemma RouteTimerWithdraws(s: Node, now: real, draw: nat)
    requires NodeInv(s, now)
    ensures var r := AfterTimer(s, now, RouteTimer, draw);
      && r.outs == [] && r.node == s.(rtable := r.node.rtable, queue := r.node.queue)
      && (r.node.queue == s.queue || r.node.queue == Live(s.queue, now))
      && |r.node.rtable| == |s.rtable|
      && forall k :: 0 <= k < |s.rtable| ==>
           var e := s.rtable[k];
           r.node.rtable[k] == if e.flag == UP && e.expire < now then Gone(e, e.seqno + 1, e.precursors) else e
  {
    hide NodeInv;
    RtPurgeQuiet(s, now, 0);
  }

  /** The hello timer greets everybody and changes nothing. */
  lemma HelloTimerGreets(s: Node, now: real, draw: nat)
    ensures AfterTimer(s, now, HelloTimer, draw) == Step(s, [Broadcast(Hello(s.index))])
  {
  }

  /** The ant timer sends a new wandering ant to the neighbour that is picked. */
  lemma AntTimerLaunches(s: Node, now: real, draw: nat)
    requires NodeInv(s, now)
    ensures var r, n := AfterTimer(s, now, AntTimer, draw), |s.nbs|;
      && r.node == s.(seqno := s.seqno + 2, idAgent := s.idAgent + 1)
      && if n == 0 then r.outs == []
         else
           var pick := if draw % n <= 1 then 0 else draw % n - 1;
           r.outs == [Send(s.nbs[pick].addr, Go(GoAnt(
             s.seqno + 2, s.index, NO_TARGET, s.index, true, 1, s.idAgent, s.index, [s.index], false, 10, s.index)))]
  {
    if s.nbs != [] {
      assert s.nbs[0].addr >= 0;
    }
  }
}

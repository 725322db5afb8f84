/** Every handler and timer keeps the node invariant and sends only sound messages. */
module HandlersKeep {
  import opened Types
  import opened Lists
  import opened PacketQueue
  import opened RoutingTable
  import opened PheromoneTable
  import opened Requests
  import opened Protocol
  import opened NodeInvariant
  import Roulette

  // ---------------------------------------------------------------- table updates

  lemma PrependOk(t: seq<Entry>, nbs: seq<Neighbor>, e: Entry)
    requires RoutesOk(t, nbs) && EntryOk(e, nbs)
    requires e.flag == UP ==> FindVia(t, e.nextHop, e.dst) < 0
    ensures RoutesOk([e] + t, nbs)
    ensures forall d :: Routeless([e] + t, d) <==> Routeless(t, d) && !Leads(e, d)
  {
    var t1 := [e] + t;
    forall i, j | 0 <= i < |t1| && 0 <= j < |t1| && i != j ensures !Twins(t1[i], t1[j]) {
      if i > 0 && j > 0 {
        assert !Twins(t[i - 1], t[j - 1]);
      } else {
        assert !Via(t[if i > 0 then i - 1 else j - 1], e.nextHop, e.dst) || e.flag != UP;
      }
    }
    forall d ensures Routeless(t1, d) <==> Routeless(t, d) && !Leads(e, d) {
      assert t1[0] == e && forall j :: 0 <= j < |t| ==> t1[j + 1] == t[j];
      if Routeless(t1, d) {
        forall j | 0 <= j < |t| ensures !Leads(t[j], d) {
          assert t1[j + 1] == t[j];
        }
      }
    }
  }

  /** An accepted update of an UP entry keeps its way and its destination. */
  lemma UpdateOk(t: seq<Entry>, nbs: seq<Neighbor>, k: nat, e: Entry)
    requires RoutesOk(t, nbs) && k < |t| && t[k].flag == UP && EntryOk(e, nbs)
    requires e.flag == UP && e.dst == t[k].dst && e.nextHop == t[k].nextHop
    ensures RoutesOk(t[k := e], nbs)
    ensures forall d :: Routeless(t[k := e], d) <==> Routeless(t, d)
  {
    var t1 := t[k := e];
    forall d ensures Routeless(t1, d) <==> Routeless(t, d) {
      assert forall j :: 0 <= j < |t| ==> Leads(t[j], d) == Leads(t1[j], d);
    }
    forall i, j | 0 <= i < |t| && 0 <= j < |t| && i != j ensures !Twins(t1[i], t1[j]) {
      assert !Twins(t[i], t[j]);
    }
  }

  // ---------------------------------------------------------------- draining and learning

  ghost predicate OwnFresh(d: Data, index: Addr) {
    d.saddr == index && d.daddr != BROADCAST && d.ttl == NETWORK_DIAMETER && d.forwards == 0
  }

  /** The wait invariant with one destination suspended: its request is gone, its packets not yet. */
  ghost predicate WaitBut(q: seq<Data>, asks: seq<Request>, t: seq<Entry>, index: Addr, dst: Addr) {
    forall d :: d in q ==> OwnFresh(d, index) && (d.daddr != dst ==> Waits(d, asks, t, index))
  }

  ghost predicate InvBut(s: Node, now: real, dst: Addr) {
    && CountersOk(s) && NbsOk(s.nbs, s.nbNum) && AsksOk(s.asks, s.demNum, s.askRt) && TableOk(s.phtable)
    && RoutesOk(s.rtable, s.nbs) && QueueOk(s.queue, now)
    && WaitBut(s.queue, s.asks, s.rtable, s.index, dst)
  }

  lemma DrainOk(s: Node, now: real, at: nat)
    requires at < |s.rtable| && InvBut(s, now, s.rtable[at].dst)
    ensures StepOk(s, now, Drain(s, now, at))
  {
    var e := s.rtable[at];
    var live := Live(s.queue, now);
    KeepOk(s.queue, now, Within(now));
    KeepOk(live, now, Not(Bound(e.dst)));
    KeepMembers(live, Bound(e.dst));
    var ds := For(live, e.dst);
    TouchOk(s.rtable, s.nbs, at, Refreshed(e, s.index, ds, now));
    var r := Drain(s, now, at);
    forall i | 0 <= i < |r.outs| ensures OutOk(s.index, r.outs[i]) {
      assert ds[i] in ds;
    }
    assert WaitOk(r.node.queue, r.node.asks, r.node.rtable, s.index) by {
      forall d | d in r.node.queue ensures Waits(d, r.node.asks, r.node.rtable, s.index) {
        assert d in s.queue;
      }
    }
  }

  /** Deleting the request for dst suspends only the packets for dst. */
  lemma DropRequestOk(s: Node, now: real, dst: Addr)
    requires NodeInv(s, now)
    ensures InvBut(if Asked(s.asks, dst) then DropRequest(s, dst) else s, now, dst)
  {
    DeleteKeeps(s.asks, dst);
  }

  lemma LearnKnown(s: Node, now: real, k: nat, seqno: nat, hops: nat)
    requires k < |s.rtable| && s.rtable[k].flag == UP && InvBut(s, now, s.rtable[k].dst)
    requires WaitOk(s.queue, s.asks, s.rtable, s.index)
    requires SeqnoOk(seqno) && hops < INFINITY2
    ensures StepOk(s, now, Install(s, now, k, seqno, hops))
  {
    var e := s.rtable[k];
    if Accepts(e, seqno, hops) {
      var e1 := Updated(e, seqno, hops, Max(e.expire, now + ROUTE_LIFE));
      UpdateOk(s.rtable, s.nbs, k, e1);
      DrainOk(s.(rtable := s.rtable[k := e1]), now, k);
    }
  }

  lemma LearnNew(s: Node, now: real, prev: Addr, ner: Addr, seqno: nat, hops: nat)
    requires InvBut(s, now, ner) && IsNb(s.nbs, prev) && FindVia(s.rtable, prev, ner) < 0
    requires SeqnoOk(seqno) && hops < INFINITY2
    ensures StepOk(s, now, Install(s.(rtable := [Fresh(prev, ner)] + s.rtable), now, 0, seqno, hops))
  {
    var t := [Fresh(prev, ner)] + s.rtable;
    var e1 := Updated(t[0], seqno, hops, Max(t[0].expire, now + ROUTE_LIFE));
    PrependOk(s.rtable, s.nbs, e1);
    assert t[0 := e1] == [e1] + s.rtable;
    DrainOk(s.(rtable := [e1] + s.rtable), now, 0);
  }

  /** The whole of "learn a route": even when the request for ner is deleted and the update refused,
      no packet for ner is left behind, because a refused update means an UP entry was there. */
  lemma LearnOk(s: Node, now: real, prev: Addr, ner: Addr, seqno: nat, hops: nat, outward: bool)
    requires NodeInv(s, now) && IsNb(s.nbs, prev) && SeqnoOk(seqno) && hops < INFINITY2
    ensures StepOk(s, now, AfterLearn(s, now, prev, ner, seqno, hops, outward))
  {
    DropRequestOk(s, now, ner);
    var s1 := if Asked(s.asks, ner) then DropRequest(s, ner) else s;
    var k := FindVia(s1.rtable, prev, ner);
    if k < 0 {
      LearnNew(s1, now, prev, ner, seqno, hops);
    } else {
      var e := s1.rtable[k];
      assert EntryOk(e, s1.nbs) && e.flag == UP;
      forall d | d in s1.queue ensures Waits(d, s1.asks, s1.rtable, s1.index) {
        assert Waits(d, s.asks, s.rtable, s.index);
        assert Leads(e, ner);
      }
      if outward {
        var e1 := e.(expire := Max(e.expire, now + ROUTE_LIFE));
        TouchOk(s1.rtable, s1.nbs, k, e1);
        LearnKnown(s1.(rtable := s1.rtable[k := e1]), now, k, seqno, hops);
      } else {
        LearnKnown(s1, now, k, seqno, hops);
      }
    }
  }

  lemma AddPrecursorOk(s: Node, now: real, nextHop: Addr, dst: Addr, id: Addr)
    requires NodeInv(s, now)
    ensures NodeInv(AddPrecursor(s, nextHop, dst, id), now) && AddPrecursor(s, nextHop, dst, id).index == s.index
  {
    var k := FindVia(s.rtable, nextHop, dst);
    if k >= 0 {
      TouchOk(s.rtable, s.nbs, k, WithPrecursor(s.rtable[k], id));
    }
  }

  // ---------------------------------------------------------------- neighbours and broken links

  lemma HelloOk(s: Node, now: real, origin: Addr)
    requires NodeInv(s, now) && origin >= 0
    ensures NodeInv(AfterHello(s, now, origin), now) && AfterHello(s, now, origin).index == s.index
  {
    var s1 := AfterHello(s, now, origin);
    forall a | IsNb(s.nbs, a) ensures IsNb(s1.nbs, a) {
      var i := FindNb(s.nbs, a);
      assert s1.nbs[if FindNb(s.nbs, origin) < 0 then i + 1 else i].addr == a;
    }
    assert forall i :: 0 <= i < |s.rtable| ==> EntryOk(s.rtable[i], s.nbs);
  }

  lemma SeveredOk(e: Entry, nbs: seq<Neighbor>, left: seq<Neighbor>, id: Addr)
    requires EntryOk(e, nbs)
    requires forall a :: a != id && IsNb(nbs, a) ==> IsNb(left, a)
    ensures EntryOk(Severed(e, id), left)
    ensures Uses(e, id) ==> Severed(e, id).flag == DOWN
    ensures !Uses(e, id) ==> SameRoute(e, Severed(e, id))
    ensures Severed(e, id).flag == UP ==> Severed(e, id).nextHop != id
    ensures id !in Severed(e, id).precursors
  {
    WithoutNoDup(e.precursors, id);
  }

  lemma LinkFailureOk(s: Node, now: real, id: Addr, nbs: seq<Neighbor>)
    requires CountersOk(s) && NbsOk(s.nbs, s.nbNum) && AsksOk(s.asks, s.demNum, s.askRt) && TableOk(s.phtable)
    requires RoutesOk(s.rtable, nbs) && QueueOk(s.queue, now) && WaitOk(s.queue, s.asks, s.rtable, s.index)
    requires forall a :: a != id && IsNb(nbs, a) ==> IsNb(s.nbs, a)
    ensures StepOk(s, now, AfterLinkFailure(s, id))
  {
    var t, t1 := s.rtable, SeverAll(s.rtable, id);
    forall i | 0 <= i < |t| ensures EntryOk(t1[i], s.nbs) {
      SeveredOk(t[i], nbs, s.nbs, id);
    }
    forall i, j | 0 <= i < |t| && 0 <= j < |t| && i != j ensures !Twins(t1[i], t1[j]) {
      SeveredOk(t[i], nbs, s.nbs, id);
      SeveredOk(t[j], nbs, s.nbs, id);
      assert !Twins(t[i], t[j]);
    }
    forall d | Routeless(t, d) ensures Routeless(t1, d) {
      forall i | 0 <= i < |t1| ensures !Leads(t1[i], d) {
        SeveredOk(t[i], nbs, s.nbs, id);
        assert !Leads(t[i], d);
      }
    }
    LostByOk(t, nbs, id);
  }

  lemma {:induction false} LostByOk(t: seq<Entry>, nbs: seq<Neighbor>, id: Addr)
    requires forall i :: 0 <= i < |t| ==> EntryOk(t[i], nbs)
    ensures LostOk(LostBy(t, id))
  {
    if t != [] {
      var n := |t| - 1;
      assert forall i :: 0 <= i < n ==> t[..n][i] == t[i];
      LostByOk(t[..n], nbs, id);
      assert EntryOk(t[n], nbs);
    }
  }

  lemma WithoutNb(nbs: seq<Neighbor>, nbNum: int, k: nat)
    requires NbsOk(nbs, nbNum) && k < |nbs|
    ensures NbsOk(RemoveAt(nbs, k), nbNum - 1)
    ensures forall a :: IsNb(RemoveAt(nbs, k), a) <==> IsNb(nbs, a) && a != nbs[k].addr
  {
    var r := RemoveAt(nbs, k);
    forall a ensures IsNb(r, a) <==> IsNb(nbs, a) && a != nbs[k].addr {
      var i, j := FindNb(nbs, a), FindNb(r, a);
      if i >= 0 && i != k {
        assert r[if i < k then i else i - 1].addr == a;
      }
      if j >= 0 {
        assert nbs[if j < k then j else j + 1].addr == a;
      }
    }
  }

  lemma NbDeleteOk(s: Node, now: real, id: Addr)
    requires NodeInv(s, now)
    ensures StepOk(s, now, AfterNbDelete(s, id))
    ensures !IsNb(AfterNbDelete(s, id).node.nbs, id)
    ensures forall a :: a != id ==> (IsNb(AfterNbDelete(s, id).node.nbs, a) <==> IsNb(s.nbs, a))
  {
    var k := FindNb(s.nbs, id);
    if k >= 0 {
      WithoutNb(s.nbs, s.nbNum, k);
      LinkFailureOk(s.(nbs := RemoveAt(s.nbs, k), nbNum := s.nbNum - 1, seqno := s.seqno + 2), now, id, s.nbs);
    } else {
      LinkFailureOk(s.(seqno := s.seqno + 2), now, id, s.nbs);
    }
  }

  lemma {:induction false} NbPurgeOk(s: Node, now: real, i: nat)
    requires NodeInv(s, now)
    ensures StepOk(s, now, AfterNbPurge(s, now, i))
    decreases |s.nbs| - i
  {
    if i < |s.nbs| {
      if s.nbs[i].expire <= now {
        var r := AfterNbDelete(s, s.nbs[i].addr);
        NbDeleteOk(s, now, s.nbs[i].addr);
        NbPurgeOk(r.node, now, i);
        ThenOk(s, now, r, AfterNbPurge(r.node, now, i));
      } else {
        NbPurgeOk(s, now, i + 1);
      }
    }
  }

  lemma LinkLayerFailedOk(s: Node, now: real, d: Data, nextHop: Addr)
    requires NodeInv(s, now)
    ensures StepOk(s, now, AfterLinkLayerFailed(s, d, nextHop))
  {
    if d.daddr != BROADCAST && FindDst(s.rtable, d.daddr) >= 0 {
      NbDeleteOk(s, now, nextHop);
      ThenOk(s, now, Step(s, [Drop(d, MAC_CALLBACK)]), AfterNbDelete(s, nextHop));
    }
  }

  // ---------------------------------------------------------------- rectificators

  lemma HeedOneOk(t: seq<Entry>, nbs: seq<Neighbor>, sender: Addr, lost: Lost)
    requires RoutesOk(t, nbs) && (lost.seqno == 0 || lost.seqno % 2 == 1)
    ensures RoutesOk(HeedOne(t, sender, lost).table, nbs)
    ensures forall d :: Routeless(t, d) ==> Routeless(HeedOne(t, sender, lost).table, d)
    ensures LostOk(HeedOne(t, sender, lost).resend)
  {
    var k := FindDst(t, lost.dst);
    if k >= 0 && Heeds(t[k], sender, lost) {
      assert EntryOk(t[k], nbs);
      var e := TakeDown(t[k].(seqno := lost.seqno));
      DownOk(t, nbs, k, e);
      DownOk(t, nbs, k, e.(precursors := []));
    }
  }

  lemma {:induction false} HeedOk(t: seq<Entry>, nbs: seq<Neighbor>, sender: Addr, lost: seq<Lost>)
    requires RoutesOk(t, nbs) && LostOk(lost)
    ensures RoutesOk(Heed(t, sender, lost).table, nbs)
    ensures forall d :: Routeless(t, d) ==> Routeless(Heed(t, sender, lost).table, d)
    ensures LostOk(Heed(t, sender, lost).resend)
  {
    if lost != [] {
      var n := |lost| - 1;
      HeedOk(t, nbs, sender, lost[..n]);
      HeedOneOk(Heed(t, sender, lost[..n]).table, nbs, sender, lost[n]);
    }
  }

  lemma RectificatorOk(s: Node, now: real, sender: Addr, lost: seq<Lost>)
    requires NodeInv(s, now) && LostOk(lost)
    ensures StepOk(s, now, AfterRectificator(s, sender, lost))
  {
    HeedOk(s.rtable, s.nbs, sender, lost);
  }

  // ---------------------------------------------------------------- data packets and the purge of the table

  /** A packet handed to recv: its own application's, or off the wire with one more delivery counted. */
  ghost predicate DataArrives(s: Node, d: Data) {
    d.daddr != BROADCAST ==>
      if d.forwards == 0 then d.saddr == s.index else 1 <= d.ttl && d.ttl + d.forwards == NETWORK_DIAMETER + 1
  }

  lemma AddRequestOk(s: Node, now: real, dst: Addr)
    requires NodeInv(s, now) && !Asked(s.asks, dst)
    ensures NodeInv(AddRequest(s, dst, 0.0, now).(askRt := true), now)
  {
    InsertKeeps(s.asks, dst, 0.0, now);
    assert PHEROMONE_QTE == Quantity(0);
    var s1 := AddRequest(s, dst, 0.0, now).(askRt := true);
    assert s1.asks[0].qte == PHEROMONE_QTE;
  }

  lemma BufferOk(s: Node, now: real, d: Data)
    requires NodeInv(s, now) && OwnFresh(d, s.index) && Routeless(s.rtable, d.daddr)
    ensures var s1 := s.(queue := Enque(s.queue, d, now).queue);
      NodeInv(if Asked(s.asks, d.daddr) then s1 else AddRequest(s1, d.daddr, 0.0, now).(askRt := true), now)
  {
    EnqueKeeps(s.queue, d, now);
    var s1 := s.(queue := Enque(s.queue, d, now).queue);
    if Asked(s.asks, d.daddr) {
      assert WaitOk(s1.queue, s1.asks, s1.rtable, s1.index);
    } else {
      AddRequestOk(s, now, d.daddr);
      var s2 := AddRequest(s1, d.daddr, 0.0, now).(askRt := true);
      InsertKeeps(s.asks, d.daddr, 0.0, now);
      assert WaitOk(s2.queue, s2.asks, s2.rtable, s2.index);
    }
  }

  lemma ResolutionOk(s: Node, now: real, d: Data)
    requires NodeInv(s, now) && d.daddr != BROADCAST && DataOk(d) && (d.saddr == s.index ==> OwnFresh(d, s.index))
    ensures StepOk(s, now, AfterResolution(s, now, d))
  {
    hide FindNb, Keep;
    if !IsNb(s.nbs, d.daddr) {
      var k := FindOptimal(s.rtable, d.daddr);
      if k >= 0 {
        TouchOk(s.rtable, s.nbs, k, Refreshed(s.rtable[k], s.index, [d], now));
      } else {
        PrependOk(s.rtable, s.nbs, Fresh(NO_TARGET, d.daddr));
        var s1 := s.(rtable := [Fresh(NO_TARGET, d.daddr)] + s.rtable);
        if d.saddr == s.index {
          BufferOk(s1, now, d);
        }
      }
    }
  }

  lemma DataHandled(s: Node, now: real, d: Data)
    requires NodeInv(s, now) && DataArrives(s, d)
    ensures StepOk(s, now, AfterData(s, now, d))
  {
    if !(d.saddr == s.index && d.forwards != 0) && d.daddr != BROADCAST {
      var d1 := d.(ttl := if d.saddr == s.index then NETWORK_DIAMETER else d.ttl - 1);
      if d.saddr == s.index || d1.ttl != 0 {
        ResolutionOk(s, now, d1);
      }
    }
  }

  /** For a destination with an UP entry there is nothing to drain. */
  lemma NothingWaits(s: Node, now: real, i: nat)
    requires NodeInv(s, now) && i < |s.rtable| && s.rtable[i].flag == UP
    ensures For(Live(s.queue, now), s.rtable[i].dst) == []
    ensures Others(Live(s.queue, now), s.rtable[i].dst) == Live(s.queue, now)
  {
    var live, dst := Live(s.queue, now), s.rtable[i].dst;
    KeepMembers(s.queue, Within(now));
    forall j | 0 <= j < |live| ensures live[j].daddr != dst {
      assert live[j] in live && Waits(live[j], s.asks, s.rtable, s.index);
      assert Leads(s.rtable[i], dst);
    }
    KeepNone(live, Bound(dst));
    KeepAll(live, Not(Bound(dst)));
  }

  /** What rt_purge does to one entry. */
  function Expired(e: Entry, now: real): Entry {
    if e.flag == UP && e.expire < now then TakeDown(e.(seqno := e.seqno + 1)) else e
  }

  /** One turn of rt_purge: the drains and the re-ask do nothing; an overdue entry goes down. */
  lemma PurgeEntryQuiet(s: Node, now: real, i: nat)
    requires NodeInv(s, now) && i < |s.rtable|
    ensures var r := PurgeEntry(s, now, i);
      && r.outs == []
      && r.node == s.(rtable := s.rtable[i := Expired(s.rtable[i], now)], queue := r.node.queue)
      && (r.node.queue == s.queue || r.node.queue == Live(s.queue, now))
      && NodeInv(r.node, now)
  {
    hide Keep, First, Twins;
    var e := s.rtable[i];
    assert EntryOk(e, s.nbs);
    KeepOk(s.queue, now, Within(now));
    if e.flag == UP {
      NothingWaits(s, now, i);
      if e.expire < now {
        DownOk(s.rtable, s.nbs, i, Expired(e, now));
      } else {
        assert s.rtable[i := e] == s.rtable;
      }
    } else {
      var j := First(s.queue, Bound(e.dst));
      if j >= 0 {
        assert s.queue[j] in s.queue && Waits(s.queue[j], s.asks, s.rtable, s.index);
      }
      assert s.rtable[i := e] == s.rtable;
    }
  }

  /** rt_purge as a whole: nothing is sent or dropped, no request is made; exactly the overdue UP
      entries are taken down; the buffer at most loses what had expired anyway. */
  lemma {:induction false} RtPurgeQuiet(s: Node, now: real, i: nat)
    requires NodeInv(s, now) && i <= |s.rtable|
    ensures var r := AfterRtPurge(s, now, i);
      && r.outs == [] && NodeInv(r.node, now)
      && r.node == s.(rtable := r.node.rtable, queue := r.node.queue)
      && |r.node.rtable| == |s.rtable|
      && (forall j :: 0 <= j < i ==> r.node.rtable[j] == s.rtable[j])
      && (forall j :: i <= j < |s.rtable| ==> r.node.rtable[j] == Expired(s.rtable[j], now))
      && (r.node.queue == s.queue || r.node.queue == Live(s.queue, now))
    decreases |s.rtable| - i
  {
    if i < |s.rtable| {
      PurgeEntryQuiet(s, now, i);
      KeepTwice(s.queue, Within(now));
      RtPurgeQuiet(PurgeEntry(s, now, i).node, now, i + 1);
    }
  }

  // ---------------------------------------------------------------- return ants

  lemma AdvertiseOk(s: Node, now: real, etab: Addr)
    requires NodeInv(s, now)
    ensures var adv := Advertise(s, now, etab);
      && NodeInv(adv.node, now) && adv.node.index == s.index && adv.node.nbs == s.nbs && adv.node.seqno == s.seqno
      && (adv.detask != NO_DEMAND ==> Stepped(adv.qte))
  {
    if s.askRt {
      if etab != -1 && Asked(s.asks, etab) {
        assert s.asks[FindRequest(s.asks, etab)] in s.asks;
      } else {
        var last := s.asks[|s.asks| - 1];
        assert last in s.asks;
        DeleteKeeps(s.asks, last.dst);
        InsertKeeps(Delete(s.asks, last.dst), last.dst, last.qte, now);
        var s1 := Advertise(s, now, etab).node;
        assert Asked(s.asks, last.dst);
        assert s1.asks[0].qte == last.qte;
        assert forall r :: r in s1.asks ==> r == s1.asks[0] || r in s.asks;
        assert forall d :: Asked(s1.asks, d) <==> Asked(s.asks, d);
      }
    }
  }

  lemma SendReturnOk(s: Node, now: real, trail: seq<Addr>, src: Addr, etab: Addr)
    requires NodeInv(s, now) && TrailOk(trail, src) && s.index != src
    ensures StepOk(s, now, AfterSendReturn(s, now, trail, src, etab))
  {
    hide FindNb, Advertise;
    AdvertiseOk(s.(seqno := s.seqno + 2), now, etab);
  }

  lemma DemandOk(s: Node, now: real, a: ReturnAnt)
    requires NodeInv(s, now) && a.ner >= 0 && a.prevNode >= 0 && (a.detask != NO_DEMAND ==> Stepped(a.qte))
    ensures StepOk(s, now, AfterDemand(s, a))
  {
    hide FindOptimal, Deposit, TableOk, RoutesOk, WaitOk, QueueOk;
    if a.detask != NO_DEMAND {
      SteppedIsWhole(a.qte);
      DepositKeeps(s.phtable, a.ner, a.detask, a.qte, a.prevNode);
    }
  }

  /** A return ant met at the node it was sent to goes one cell back, or stops exactly at its source. */
  lemma PassBackOk(s: Node, now: real, a: ReturnAnt)
    requires NodeInv(s, now) && ReturnOk(a, s.index) && a.hops < INFINITY2
    ensures StepOk(s, now, AfterPassBack(s, a))
  {
    AddPrecursorOk(s, now, a.prevNode, a.ner, Cell(a.trail, a.count));
  }

  lemma ReturnHandled(s: Node, now: real, a: ReturnAnt)
    requires NodeInv(s, now) && ReturnOk(a, s.index) && a.hops < INFINITY2
    ensures StepOk(s, now, AfterReturn(s, now, a))
  {
    var r := if a.valid && IsNb(s.nbs, a.prevNode)
      then AfterLearn(s, now, a.prevNode, a.ner, a.seqno, a.hops, false) else Step(s, []);
    if a.valid && IsNb(s.nbs, a.prevNode) {
      LearnOk(s, now, a.prevNode, a.ner, a.seqno, a.hops, false);
    }
    DemandOk(r.node, now, a);
    ThenOk(s, now, r, AfterDemand(r.node, a));
    var r2 := Then(r, AfterDemand(r.node, a));
    PassBackOk(r2.node, now, a);
    ThenOk(s, now, r2, AfterPassBack(r2.node, a));
  }

  // ---------------------------------------------------------------- outward ants

  /** An outward ant after recv has taken one from its ttl. */
  ghost predicate GoArrived(a: GoAnt) {
    GoOk(a.(ttl := a.ttl + 1)) && a.hops < INFINITY2
  }

  lemma SendCloneOk(s: Node, now: real, a: GoAnt)
    requires NodeInv(s, now) && GoArrived(a) && Wandering(a) && a.ttl != 0 && s.index != a.src
    ensures StepOk(s, now, AfterSendClone(s, now, a))
  {
    SendReturnOk(s, now, a.trail, a.src, -1);
  }

  /** Whatever the scan adopts comes from an UP entry, so it is a sound number and distance. */
  lemma {:induction false} ScanEntriesOk(t: seq<Entry>, nbs: seq<Neighbor>, nb: Addr, ner: Addr, hop: Addr, f: Found)
    requires nb >= 0 && forall i :: 0 <= i < |t| ==> EntryOk(t[i], nbs)
    requires SeqnoOk(f.seqno) && f.hops < INFINITY2
    ensures var g := ScanEntries(t, nb, ner, hop, f); SeqnoOk(g.seqno) && g.hops < INFINITY2
  {
    if t != [] {
      assert EntryOk(t[0], nbs);
      var g := if t[0].dst == ner && t[0].nextHop == nb
        then Found(true, f.visited, t[0].hops, t[0].seqno, t[0].nextHop) else f;
      ScanEntriesOk(t[1..], nbs, nb, ner, hop, g);
    }
  }

  lemma {:induction false} ScanNeighborsOk(
    ns: seq<Neighbor>, t: seq<Entry>, nbs: seq<Neighbor>, ner: Addr, hop: Addr, f: Found)
    requires forall i :: 0 <= i < |ns| ==> ns[i].addr >= 0
    requires forall i :: 0 <= i < |t| ==> EntryOk(t[i], nbs)
    requires SeqnoOk(f.seqno) && f.hops < INFINITY2
    ensures var g := ScanNeighbors(ns, t, ner, hop, f); SeqnoOk(g.seqno) && g.hops < INFINITY2
  {
    if ns != [] {
      ScanEntriesOk(t, nbs, ns[0].addr, ner, hop, f);
      ScanNeighborsOk(ns[1..], t, nbs, ner, hop, ScanEntries(t, ns[0].addr, ner, hop, f));
    }
  }

  lemma AimOk(s: Node, now: real, a: GoAnt, hop: Addr)
    requires NodeInv(s, now) && SeqnoOk(a.seqno) && a.hops < INFINITY2
    ensures var r := Aim(s, a, hop);
      && NodeInv(r.node, now) && r.node.index == s.index
      && SeqnoOk(r.ant.seqno) && r.ant.hops < INFINITY2
      && r.ant == a.(seqno := r.ant.seqno, hops := r.ant.hops, valid := r.ant.valid)
  {
    var f0 := Found(false, false, a.hops, a.seqno, NO_HOP);
    ScanNeighborsOk(s.nbs, s.rtable, s.nbs, a.ner, hop, f0);
    var f := ScanNeighbors(s.nbs, s.rtable, a.ner, hop, f0);
    AddPrecursorOk(s, now, f.via, a.ner, hop);
  }

  lemma RelayOk(s: Node, now: real, a: GoAnt, hop: Addr)
    requires NodeInv(s, now) && s.index != a.src && !a.direct
    requires SeqnoOk(a.seqno) && a.hops < INFINITY2 && TrailOk(a.trail, a.src)
    requires Wandering(a) ==> a.ttl + |a.trail| == ANT_TTL && 1 <= a.ttl && a.hops == |a.trail| && a.ner == a.src
    ensures StepOk(s, now, AfterRelay(s, now, a, hop))
  {
    if hop == NO_HOP {
      SendReturnOk(s, now, a.trail, a.src, -1);
    }
  }

  lemma SearchOk(s: Node, now: real, a: GoAnt, draw: nat, junk: Roulette.Slot)
    requires NodeInv(s, now) && GoArrived(a) && Wandering(a) && a.ttl != 0 && s.index != a.src
    ensures StepOk(s, now, AfterSearch(s, now, a, draw, junk))
  {
    var w := Roulette.Build(s.nbs, s.phtable, junk);
    if w.touched && w.size > 0 && w.cells[draw % w.size].claimant != -1 {
      var slot := w.cells[draw % w.size];
      var r := AfterSendClone(s, now, a);
      SendCloneOk(s, now, a);
      var a1 := a.(target := slot.claimant, ner := slot.asked, ttl := ANT_TTL);
      AimOk(r.node, now, a1, slot.hop);
      var aimed := Aim(r.node, a1, slot.hop);
      RelayOk(aimed.node, now, aimed.ant, slot.hop);
      ThenOk(s, now, r, AfterRelay(aimed.node, now, aimed.ant, slot.hop));
    } else {
      var hop := if w.touched && w.size > 0 then w.cells[draw % w.size].hop else FirstUnvisited(s.nbs, a);
      AddPrecursorOk(s, now, a.prevNode, a.ner, hop);
      RelayOk(if s.index != a.src then AddPrecursor(s, a.prevNode, a.ner, hop) else s, now, a, hop);
    }
  }

  lemma ChooseOk(s: Node, now: real, a: GoAnt, draw: nat, junk: Roulette.Slot)
    requires NodeInv(s, now) && GoArrived(a) && !a.direct && s.index != a.src
    ensures StepOk(s, now, AfterChoose(s, now, a, draw, junk))
  {
    if a.target != NO_TARGET {
      if a.target == s.index {
        SendReturnOk(s, now, a.trail, a.src, a.ner);
      } else {
        var k := FindKey(s.phtable, a.target, a.ner);
        var hop := if k < 0 then NO_HOP
          else if s.phtable[k].nbs == [] then UNWRITTEN else s.phtable[k].nbs[0];
        AimOk(s, now, a, hop);
        var aimed := Aim(s, a, hop);
        RelayOk(aimed.node, now, aimed.ant, hop);
      }
    } else if s.askRt {
      SendReturnOk(s, now, a.trail, a.src, -1);
      var r := AfterSendReturn(s, now, a.trail, a.src, -1);
      if a.ttl != 0 {
        SendCloneOk(r.node, now, a);
        ThenOk(s, now, r, AfterSendClone(r.node, now, a));
      }
    } else if a.ttl == 0 {
      SendReturnOk(s, now, a.trail, a.src, -1);
    } else {
      SearchOk(s, now, a, draw, junk);
    }
  }

  lemma GoHandled(s: Node, now: real, a: GoAnt, draw: nat, junk: Roulette.Slot)
    requires NodeInv(s, now) && GoArrived(a)
    ensures StepOk(s, now, AfterGo(s, now, a, draw, junk))
  {
    if Admits(s, a) {
      var s1 := s.(ids := [AgentId(a.src, a.id, now + AGENT_ID_SAVE)] + s.ids);
      assert NodeInv(s1, now);
      var r := if a.valid && IsNb(s1.nbs, a.prevNode)
        then AfterLearn(s1, now, a.prevNode, a.ner, a.seqno, a.hops, true) else Step(s1, []);
      if a.valid && IsNb(s1.nbs, a.prevNode) {
        LearnOk(s1, now, a.prevNode, a.ner, a.seqno, a.hops, true);
      }
      if !a.direct {
        ChooseOk(r.node, now, a, draw, junk);
      }
      ThenOk(s1, now, r, if a.direct then AfterDirect(r.node, a) else AfterChoose(r.node, now, a, draw, junk));
    }
  }

  lemma SendAntOk(s: Node, now: real, draw: nat)
    requires NodeInv(s, now)
    ensures StepOk(s, now, AfterSendAnt(s, draw))
  {
  }

  // ---------------------------------------------------------------- dispatch

  /** A message as the node finds it: a data packet has one more delivery counted and travels up. */
  function Delivered(m: Msg): Msg {
    match m
    case DataMsg(d) => DataMsg(d.(forwards := d.forwards + 1, up := true))
    case _ => m
  }

  lemma RecvAntOk(s: Node, now: real, from: Addr, m: Msg, draw: nat, junk: Roulette.Slot)
    requires NodeInv(s, now) && Arrives(m) && (m.Go? || m.Return?) && MsgOk(from, s.index, m)
    ensures StepOk(s, now, AfterRecv(s, now, m, draw, junk))
  {
    hide NodeInv, StepOk, AfterGo, AfterReturn;
    if m.Go? {
      var a := m.go;
      assert a.(ttl := a.ttl - 1).(ttl := a.ttl) == a;
      GoHandled(s, now, a.(ttl := a.ttl - 1), draw, junk);
    } else {
      ReturnHandled(s, now, m.back);
    }
  }

  lemma RecvOk(s: Node, now: real, from: Addr, m: Msg, draw: nat, junk: Roulette.Slot)
    requires NodeInv(s, now) && Arrives(m)
    requires MsgOk(from, s.index, m) || NoteOk(from, m)
    ensures StepOk(s, now, AfterRecv(s, now, Delivered(m), draw, junk))
  {
    if m.Go? || m.Return? {
      RecvAntOk(s, now, from, m, draw, junk);
    } else if m.Rectificator? {
      RectificatorOk(s, now, m.sender, m.lost);
    } else if m.Hello? {
      HelloOk(s, now, m.origin);
    } else {
      DataHandled(s, now, m.data.(forwards := m.data.forwards + 1, up := true));
    }
  }

  lemma TimerOk(s: Node, now: real, t: Timer, draw: nat)
    requires NodeInv(s, now)
    ensures StepOk(s, now, AfterTimer(s, now, t, draw))
  {
    match t
    case AntTimer => SendAntOk(s, now, draw);
    case IdTimer =>
    case HelloTimer =>
    case NeighborTimer => NbPurgeOk(s, now, 0);
    case RouteTimer => RtPurgeQuiet(s, now, 0);
    case PheromoneTimer => EvaporateKeeps(s.phtable);
    case RequestTimer => AgeOk(s, now);
  }

  lemma AgeOk(s: Node, now: real)
    requires NodeInv(s, now)
    ensures NodeInv(s.(asks := Age(s.asks)), now)
  {
    var asks := Age(s.asks);
    forall r | r in asks ensures Stepped(r.qte) {
      var i :| 0 <= i < |asks| && asks[i] == r;
      assert s.asks[i] in s.asks;
      var n: nat :| s.asks[i].qte == Quantity(n);
      assert (n + 1) as real * PHEROMONE_STEP == n as real * PHEROMONE_STEP + PHEROMONE_STEP;
      assert r.qte == Quantity(n + 1);
    }
    forall d ensures Asked(asks, d) <==> Asked(s.asks, d) {
      if Asked(s.asks, d) {
        assert asks[FindRequest(s.asks, d)].dst == d;
      }
      if Asked(asks, d) {
        assert s.asks[FindRequest(asks, d)].dst == d;
      }
    }
  }
}

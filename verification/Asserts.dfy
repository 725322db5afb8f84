/** The assertions written into the code that hold in every run, at the points where they stand. The
    invariant of every run (Network.EveryRunOk) supplies NodeInv; the two assertions of rt_add, which fail in
    some runs, are in Additions. */
module Asserts {
  import opened Types
  import opened PacketQueue
  import opened RoutingTable
  import opened Requests
  import opened Protocol
  import opened NodeInvariant
  import opened HandlersKeep
  import opened Network

  /** antconf.cc:385-386: what link_failure_management(id) is about to take down is UP and even. The entry
      it has reached is still as it was: earlier turns change earlier entries only. */
  lemma LinkFailureAsserts(s: Node, now: real, id: Addr, i: nat)
    requires NodeInv(s, now) && i < |s.rtable| && Uses(Forget(s, id).rtable[i], id)
    ensures s.rtable[i].flag == UP && s.rtable[i].seqno % 2 == 0
  {
    assert EntryOk(s.rtable[i], s.nbs);
  }

  /** The node when rt_purge comes to position i. */
  function AtEntry(s: Node, now: real, i: nat): (r: Node)
    requires i <= |s.rtable|
    ensures |r.rtable| == |s.rtable|
  {
    if i == 0 then s else PurgeEntry(AtEntry(s, now, i - 1), now, i - 1).node
  }

  lemma {:induction false} AtEntryOk(s: Node, now: real, i: nat)
    requires NodeInv(s, now) && i <= |s.rtable|
    ensures NodeInv(AtEntry(s, now, i), now)
    ensures AfterRtPurge(AtEntry(s, now, i), now, i).node == AfterRtPurge(s, now, 0).node
  {
    hide NodeInv, PurgeEntry;
    if i > 0 {
      AtEntryOk(s, now, i - 1);
      PurgeEntryQuiet(AtEntry(s, now, i - 1), now, i - 1);
    }
  }

  /** antconf.cc:485, 494, 499: at each turn of rt_purge an UP entry has a finite distance, and if it is
      overdue its incremented number is odd. */
  lemma RtPurgeAsserts(s: Node, now: real, i: nat)
    requires NodeInv(s, now) && i < |s.rtable|
    ensures var e := AtEntry(s, now, i).rtable[i];
      e.flag == UP ==> e.hops != INFINITY2 && (e.seqno + 1) % 2 == 1
  {
    hide AtEntry, AfterRtPurge, PurgeEntry, WaitOk, QueueOk, AsksOk;
    AtEntryOk(s, now, i);
    var r := AtEntry(s, now, i);
    assert EntryOk(r.rtable[i], r.nbs);
  }

  /** The entry rt_resolution works with. */
  function Consulted(s: Node, dst: Addr): Entry {
    var k := FindOptimal(s.rtable, dst);
    if k >= 0 then s.rtable[k] else Fresh(NO_TARGET, dst)
  }

  /** antconf.cc:615, 650: an entry of any run is UP or DOWN and never in repair, so rt_resolution forwards
      by an UP entry, and where it neither forwards nor buffers its entry is DOWN. */
  lemma ResolutionAsserts(s: Node, now: real, dst: Addr)
    requires NodeInv(s, now)
    ensures forall e :: e in s.rtable ==> e.flag != IN_REPAIR
    ensures Consulted(s, dst).flag != UP ==> Consulted(s, dst).flag == DOWN && Routeless(s.rtable, dst)
  {
    forall e | e in s.rtable ensures e.flag != IN_REPAIR {
      var i :| 0 <= i < |s.rtable| && s.rtable[i] == e;
      assert EntryOk(s.rtable[i], s.nbs);
    }
  }

  /** antconf.cc:665: what is taken from the buffer and forwarded by a route is never a broadcast. */
  lemma ForwardAsserts(s: Node, now: real, dst: Addr)
    requires NodeInv(s, now)
    ensures forall d :: d in For(Live(s.queue, now), dst) ==> d.daddr != BROADCAST
  {
    KeepMembers(s.queue, Within(now));
    KeepMembers(Live(s.queue, now), Bound(dst));
    forall d | d in For(Live(s.queue, now), dst) ensures d.daddr != BROADCAST {
      assert Waits(d, s.asks, s.rtable, s.index);
    }
  }

  /** antconf.cc:857, 864, 1466, 1473: an accepted update leaves the entry UP at a finite distance, and
      forwarding the buffered packets leaves it so. */
  lemma LearnAsserts(s: Node, now: real, prev: Addr, ner: Addr, seqno: nat, hops: nat, outward: bool, ds: seq<Data>)
    requires hops < INFINITY2
    ensures var p := Prepare(s, now, prev, ner, outward);
      var e := p.node.rtable[p.at];
      Accepts(e, seqno, hops) ==>
        var r := Refreshed(Updated(e, seqno, hops, Max(e.expire, now + ROUTE_LIFE)), s.index, ds, now);
        r.flag == UP && r.hops != INFINITY2
  {
  }

  /** antconf.cc:1625-1626: at each turn of recvRectificatorAgent the entry to be taken down is UP and even. */
  lemma RectificatorAsserts(s: Node, now: real, sender: Addr, lost: seq<Lost>, i: nat)
    requires NodeInv(s, now) && LostOk(lost) && i < |lost|
    ensures var t := Heed(s.rtable, sender, lost[..i]).table;
      var k := FindDst(t, lost[i].dst);
      k >= 0 && Heeds(t[k], sender, lost[i]) ==> t[k].flag == UP && t[k].seqno % 2 == 0
  {
    HeedOk(s.rtable, s.nbs, sender, lost[..i]);
    var t := Heed(s.rtable, sender, lost[..i]).table;
    var k := FindDst(t, lost[i].dst);
    assert k >= 0 ==> EntryOk(t[k], s.nbs);
  }

  /** antconf.cc:740, 1354, 1557, 1763, 1787, and the assertions on entries read from any table: in every run
      each node's own number is even and every entry has the shape they demand. */
  lemma EveryRunAsserts(ids: set<Addr>, evs: seq<Event>, n: Addr)
    requires (forall i :: i in ids ==> i >= 0) && Legal(Start(ids), evs) && n in ids
    ensures n in Run(Start(ids), evs).nodes
    ensures var s := Run(Start(ids), evs).nodes[n];
      && s.seqno % 2 == 0
      && (forall e :: e in s.rtable && e.flag == UP ==> e.hops != INFINITY2 && e.seqno % 2 == 0)
      && (forall e :: e in s.rtable && e.hops != INFINITY2 ==> e.flag == UP)
      && (forall e :: e in s.rtable && e.flag != UP ==> e.flag == DOWN)
  {
    EveryRunOk(ids, evs);
    var s := Run(Start(ids), evs).nodes[n];
    assert NodeInv(s, Run(Start(ids), evs).now);
    forall e | e in s.rtable ensures Shape(e) {
      var i :| 0 <= i < |s.rtable| && s.rtable[i] == e;
      assert EntryOk(s.rtable[i], s.nbs);
    }
  }

  /** The hypothesis on hop counts is exact: news at distance 255 makes the entry UP with the distance that
      means DOWN, and the invariant is broken; at any smaller distance it is kept. */
  lemma HopLimitExact(s: Node, now: real, prev: Addr, ner: Addr, seqno: nat, hops: nat, outward: bool)
    requires NodeInv(s, now) && IsNb(s.nbs, prev) && SeqnoOk(seqno) && hops <= INFINITY2
    requires FindVia(s.rtable, prev, ner) < 0 || Accepts(s.rtable[FindVia(s.rtable, prev, ner)], seqno, hops)
    ensures NodeInv(AfterLearn(s, now, prev, ner, seqno, hops, outward).node, now) <==> hops < INFINITY2
  {
    if hops < INFINITY2 {
      LearnOk(s, now, prev, ner, seqno, hops, outward);
    } else {
      LearnBreaks(s, now, prev, ner, seqno, outward);
    }
  }

  lemma LearnBreaks(s: Node, now: real, prev: Addr, ner: Addr, seqno: nat, outward: bool)
    requires seqno > 0
    requires FindVia(s.rtable, prev, ner) < 0 || Accepts(s.rtable[FindVia(s.rtable, prev, ner)], seqno, INFINITY2)
    ensures !NodeInv(AfterLearn(s, now, prev, ner, seqno, INFINITY2, outward).node, now)
  {
    hide FindVia, FindRequest, Keep, Delete;
    var p := Prepare(s, now, prev, ner, outward);
    var r := AfterLearn(s, now, prev, ner, seqno, INFINITY2, outward).node;
    assert r.rtable[p.at].flag == UP && r.rtable[p.at].hops == INFINITY2;
    assert NodeInv(r, now) ==> EntryOk(r.rtable[p.at], r.nbs);
  }
}

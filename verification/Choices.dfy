/** What the forwarding decisions mean. */
module Choices {
  import opened Types
  import opened PacketQueue
  import opened RoutingTable
  import opened Requests
  import opened Protocol
  import opened NodeInvariant

  /** What becomes of a packet that is forwarded along the route e. */
  ghost predicate Follows(index: Addr, e: Entry, d: Data, o: Output) {
    if d.ttl == 0 then o == Drop(d, TTL_OVER)
    else if d.daddr == index || (d.up && d.daddr == BROADCAST) then o == Local(d)
    else o.Send? && o.to == e.nextHop && o.msg == DataMsg(d.(up := false))
  }

  /** A packet for a neighbour goes straight there. For another destination it is forwarded exactly when some
      entry for it is UP, and then by the first of the best ones; otherwise the node's own packet is buffered and
      asked for, and anybody else's is dropped with a rectificator. */
  lemma ResolutionForwardsIffRouted(s: Node, now: real, d: Data)
    ensures var r := AfterResolution(s, now, d);
      && (IsNb(s.nbs, d.daddr) ==> r == Step(s, [Send(d.daddr, DataMsg(d.(up := false)))]))
      && (!IsNb(s.nbs, d.daddr) && !Routeless(s.rtable, d.daddr) ==> exists k: nat ::
            && IsOptimal(s.rtable, d.daddr, k) && |r.outs| == 1 && Follows(s.index, s.rtable[k], d, r.outs[0])
            && r.node == s.(rtable := s.rtable[k := s.rtable[k].(expire :=
                 if r.outs[0].Send? then now + ROUTE_LIFE else s.rtable[k].expire)]))
      && (!IsNb(s.nbs, d.daddr) && Routeless(s.rtable, d.daddr) ==>
            r.node.rtable == [Entry(d.daddr, 0, INFINITY2, NO_TARGET, [], 0.0, DOWN)] + s.rtable)
      && (!IsNb(s.nbs, d.daddr) && Routeless(s.rtable, d.daddr) && d.saddr == s.index ==>
            && r.node.queue != [] && r.node.queue[|r.node.queue| - 1] == d.(ts := now + RTQ_TIMEOUT)
            && Asked(r.node.asks, d.daddr)
            && forall i :: 0 <= i < |r.outs| ==> r.outs[i].Drop?)
      && (!IsNb(s.nbs, d.daddr) && Routeless(s.rtable, d.daddr) && d.saddr != s.index ==>
            && r.node == s.(rtable := r.node.rtable)
            && r.outs == [Broadcast(Rectificator(s.index, [Lost(d.daddr, 0)])), Drop(d, NO_ROUTE)])
  {
    hide IsOptimal, Routeless;
    var k := FindOptimal(s.rtable, d.daddr);
    if !IsNb(s.nbs, d.daddr) && k >= 0 {
      ForwardFollows(s, now, d, k);
    } else if !IsNb(s.nbs, d.daddr) && d.saddr == s.index {
      var q := Enque(s.queue, d, now).queue;
      assert q[|q| - 1] == d.(ts := now + RTQ_TIMEOUT);
    }
  }

  lemma ForwardFollows(s: Node, now: real, d: Data, k: nat)
    requires k < |s.rtable|
    ensures var o := ForwardOne(s.index, s.rtable[k].nextHop, d);
      && Follows(s.index, s.rtable[k], d, o)
      && Refreshed(s.rtable[k], s.index, [d], now)
        == s.rtable[k].(expire := if o.Send? then now + ROUTE_LIFE else s.rtable[k].expire)
  {
    assert [d][1..] == [];
  }

  // ---------------------------------------------------------------- the scan of chooseNextHop

  ghost predicate AllOk(t: seq<Entry>, nbs: seq<Neighbor>) {
    forall i :: 0 <= i < |t| ==> EntryOk(t[i], nbs)
  }

  /** f was filled in from some entry for ner reached through nb. */
  ghost predicate Copied(f: Found, t: seq<Entry>, ner: Addr) {
    exists i :: 0 <= i < |t| && Via(t[i], f.via, ner) && t[i].hops == f.hops && t[i].seqno == f.seqno
  }

  lemma {:induction false} ScanEntriesMeans(t: seq<Entry>, nbs: seq<Neighbor>, nb: Addr, ner: Addr, hop: Addr, f: Found)
    requires AllOk(t, nbs) && nb >= 0 && !f.visited
    ensures var g, found := ScanEntries(t, nb, ner, hop, f), FindVia(t, nb, ner) >= 0;
      && (g.visited <==> found && nb == hop)
      && (nb == hop ==> g == f.(visited := g.visited))
      && (nb != hop ==> if found then g.valider && g.via == nb && Copied(g, t, ner) else g == f)
  {
    if t != [] {
      assert EntryOk(t[0], nbs);
      assert AllOk(t[1..], nbs);
      if Via(t[0], nb, ner) && nb != hop {
        var f1 := Found(true, false, t[0].hops, t[0].seqno, nb);
        ScanEntriesMeans(t[1..], nbs, nb, ner, hop, f1);
        var g := ScanEntries(t[1..], nb, ner, hop, f1);
        if FindVia(t[1..], nb, ner) >= 0 {
          CopiedLater(g, t, ner);
        } else {
          assert Via(t[0], g.via, ner);
        }
      } else if !Via(t[0], nb, ner) {
        ScanEntriesMeans(t[1..], nbs, nb, ner, hop, f);
        if FindVia(t[1..], nb, ner) >= 0 && nb != hop {
          CopiedLater(ScanEntries(t[1..], nb, ner, hop, f), t, ner);
        }
      }
    }
  }

  lemma CopiedLater(g: Found, t: seq<Entry>, ner: Addr)
    requires t != [] && Copied(g, t[1..], ner)
    ensures Copied(g, t, ner)
  {
    var i :| 0 <= i < |t[1..]| && Via(t[1..][i], g.via, ner) && t[1..][i].hops == g.hops && t[1..][i].seqno == g.seqno;
    assert t[i + 1] == t[1..][i];
  }

  /** The last neighbour in list order through which some entry for ner leads, -1 without one. */
  function LastRouted(ns: seq<Neighbor>, t: seq<Entry>, ner: Addr): (i: int)
    ensures -1 <= i < |ns|
    ensures i >= 0 ==> FindVia(t, ns[i].addr, ner) >= 0 && forall j :: i < j < |ns| ==> FindVia(t, ns[j].addr, ner) < 0
    ensures i < 0 ==> forall j :: 0 <= j < |ns| ==> FindVia(t, ns[j].addr, ner) < 0
  {
    if ns == [] then -1
    else
      var i := LastRouted(ns[1..], t, ner);
      if i >= 0 then i + 1
      else if FindVia(t, ns[0].addr, ner) >= 0 then 0 else -1
  }

  lemma {:induction false} ScanNeighborsMeans(
    ns: seq<Neighbor>, t: seq<Entry>, nbs: seq<Neighbor>, ner: Addr, hop: Addr, f: Found)
    requires AllOk(t, nbs) && !f.visited && forall i :: 0 <= i < |ns| ==> ns[i].addr >= 0
    requires f.valider ==> f.via != hop && f.via >= 0 && Copied(f, t, ner)
    ensures var g := ScanNeighbors(ns, t, ner, hop, f);
      && (g.visited <==> IsNb(ns, hop) && FindVia(t, hop, ner) >= 0)
      && (g.valider && !g.visited ==> g.via != hop && g.via >= 0 && Copied(g, t, ner))
      && (!g.visited ==>
            var m := LastRouted(ns, t, ner);
            if m >= 0 then g.valider && g.via == ns[m].addr else g == f)
  {
    if ns != [] {
      var nb := ns[0].addr;
      ScanEntriesMeans(t, nbs, nb, ner, hop, f);
      var g := ScanEntries(t, nb, ner, hop, f);
      if !g.visited {
        ScanNeighborsMeans(ns[1..], t, nbs, ner, hop, g);
        assert forall i :: 1 <= i < |ns| ==> ns[i] == ns[1..][i - 1];
      }
    }
  }

  /** An entry found through a neighbour is UP. */
  lemma ViaNeighborsLeads(s: Node, now: real, ner: Addr)
    requires NodeInv(s, now)
    ensures forall nb :: nb >= 0 && FindVia(s.rtable, nb, ner) >= 0 ==> Leads(s.rtable[FindVia(s.rtable, nb, ner)], ner)
    ensures forall nb :: IsNb(s.nbs, nb) ==> nb >= 0
  {
    forall nb | nb >= 0 && FindVia(s.rtable, nb, ner) >= 0
      ensures Leads(s.rtable[FindVia(s.rtable, nb, ner)], ner)
    {
      assert EntryOk(s.rtable[FindVia(s.rtable, nb, ner)], s.nbs);
    }
  }

  /** The adopted entry is the only one that way, so the lookup that follows finds it. */
  lemma CopiedIsFirst(t: seq<Entry>, nbs: seq<Neighbor>, ner: Addr, f: Found)
    requires RoutesOk(t, nbs) && Copied(f, t, ner)
    requires f.via >= 0
    ensures var k := FindVia(t, f.via, ner);
      k >= 0 && Leads(t[k], ner) && t[k].hops == f.hops && t[k].seqno == f.seqno
  {
    var i :| 0 <= i < |t| && Via(t[i], f.via, ner) && t[i].hops == f.hops && t[i].seqno == f.seqno;
    var k := FindVia(t, f.via, ner);
    assert EntryOk(t[i], nbs) && EntryOk(t[k], nbs);
    assert Twins(t[i], t[k]);
  }

  /** No route to ner leads by way of hop. */
  ghost predicate Avoids(t: seq<Entry>, ner: Addr, hop: Addr) {
    forall i :: 0 <= i < |t| && Leads(t[i], ner) ==> t[i].nextHop != hop
  }

  /** What the scan finds in the node's own tables: a usable route exactly when there is one at all and
      none of them leads the way the ant is sent. It is the route through the last neighbour in list order
      that has one, whatever the numbers and distances. */
  lemma ScanMeans(s: Node, now: real, ner: Addr, hop: Addr, f0: Found)
    requires NodeInv(s, now) && !f0.visited && !f0.valider
    ensures var f := ScanNeighbors(s.nbs, s.rtable, ner, hop, f0);
      && (f.valider && !f.visited <==> !Routeless(s.rtable, ner) && Avoids(s.rtable, ner, hop))
      && (f.valider && !f.visited ==>
            var m := LastRouted(s.nbs, s.rtable, ner);
            m >= 0 && f.via == s.nbs[m].addr && f.via >= 0 && Copied(f, s.rtable, ner))
  {
    var t := s.rtable;
    ScanNeighborsMeans(s.nbs, t, s.nbs, ner, hop, f0);
    ViaNeighborsLeads(s, now, ner);
    forall i | 0 <= i < |t| && Leads(t[i], ner)
      ensures IsNb(s.nbs, t[i].nextHop) && FindVia(t, t[i].nextHop, ner) >= 0
    {
      assert EntryOk(t[i], s.nbs) && Via(t[i], t[i].nextHop, ner);
    }
    if !Routeless(t, ner) {
      var i :| 0 <= i < |t| && Leads(t[i], ner);
      assert s.nbs[FindNb(s.nbs, t[i].nextHop)].addr == t[i].nextHop;
    }
    if IsNb(s.nbs, hop) && FindVia(t, hop, ner) >= 0 {
      assert t[FindVia(t, hop, ner)].nextHop == hop;
    }
    forall i | 0 <= i < |s.nbs| && FindVia(t, s.nbs[i].addr, ner) >= 0 ensures !Routeless(t, ner) {
      assert IsNb(s.nbs, s.nbs[i].addr);
    }
  }

  /** The ant carries the number and distance of an UP route of t to its subject. */
  ghost predicate Adopts(a: GoAnt, t: seq<Entry>, k: int) {
    0 <= k < |t| && Leads(t[k], a.ner) && a.seqno == t[k].seqno && a.hops == t[k].hops
  }

  /** An ant that passes a node with another goal keeps its valid mark exactly when the node has an UP
      route to the ant's subject and none of these routes leads the way the ant is sent. It then carries
      the number and distance of the one through the last neighbour in list order that has one, and the
      way it is sent becomes a precursor of that route. */
  lemma AimMeans(s: Node, now: real, a: GoAnt, hop: Addr)
    requires NodeInv(s, now) && a.ner != s.index
    ensures var r := Aim(s, a, hop);
      && (r.ant.valid <==> (!Routeless(s.rtable, a.ner) && Avoids(s.rtable, a.ner, hop)))
      && (r.ant.valid ==>
            var m := LastRouted(s.nbs, s.rtable, a.ner);
            && m >= 0
            && var k := FindVia(s.rtable, s.nbs[m].addr, a.ner);
               Adopts(r.ant, s.rtable, k) && |r.node.rtable| == |s.rtable| && hop in r.node.rtable[k].precursors)
  {
    var f0 := Found(false, false, a.hops, a.seqno, NO_HOP);
    ScanMeans(s, now, a.ner, hop, f0);
    var f := ScanNeighbors(s.nbs, s.rtable, a.ner, hop, f0);
    if f.valider && !f.visited {
      CopiedIsFirst(s.rtable, s.nbs, a.ner, f);
      var k := FindVia(s.rtable, f.via, a.ner);
      assert EntryOk(s.rtable[k], s.nbs);
      assert Adopts(Aim(s, a, hop).ant, s.rtable, k);
    }
  }

  /** t' is t with id put among the precursors of the first route to dst through nextHop, if there is one. */
  ghost predicate Relied(t: seq<Entry>, t': seq<Entry>, nextHop: Addr, dst: Addr, id: Addr) {
    && |t'| == |t|
    && forall i :: 0 <= i < |t| ==>
         && t'[i] == t[i].(precursors := t'[i].precursors)
         && t'[i].precursors
           == if FirstVia(t, i, nextHop, dst) && id !in t[i].precursors then [id] + t[i].precursors
              else t[i].precursors
  }

  ghost predicate FirstVia(t: seq<Entry>, i: nat, nextHop: Addr, dst: Addr)
    requires i < |t|
  {
    t[i].dst == dst && t[i].nextHop == nextHop && forall j :: 0 <= j < i ==> t[j].dst != dst || t[j].nextHop != nextHop
  }

  lemma PrecursorAdded(s: Node, nextHop: Addr, dst: Addr, id: Addr)
    ensures var r := AddPrecursor(s, nextHop, dst, id);
      r == s.(rtable := r.rtable) && Relied(s.rtable, r.rtable, nextHop, dst, id)
  {
    var t, k := s.rtable, FindVia(s.rtable, nextHop, dst);
    forall i | 0 <= i < |t| ensures FirstVia(t, i, nextHop, dst) <==> i == k {
      assert i > k >= 0 ==> Via(t[k], nextHop, dst);
      assert i == k ==> forall j :: 0 <= j < i ==> !Via(t[j], nextHop, dst);
    }
  }

  /** The default branch of sendAntLightReturn is one turn of the round robin; it withdraws the demand flag
      exactly when there was a single request, although that request is still there afterwards. */
  lemma DefaultBranchRotates(s: Node, now: real, etab: Addr)
    requires NodeInv(s, now) && s.askRt && (etab == -1 || !Asked(s.asks, etab))
    ensures var adv, last := Advertise(s, now, etab), s.asks[|s.asks| - 1];
      && adv.node.asks == Rotate(s.asks, now) && adv.detask == last.dst && adv.qte == last.qte
      && adv.node.demNum == s.demNum && |adv.node.asks| == |s.asks|
      && (adv.node.askRt <==> |s.asks| >= 2)
  {
    var last := s.asks[|s.asks| - 1];
    assert last in s.asks;
    RotateMoves(s.asks, now);
    assert FindRequest(s.asks, last.dst) == |s.asks| - 1;
  }
}

/** How routes are withdrawn: what a rectificator and a failed transmission do to the table, entry by entry, and what
    is passed on (antconf.cc:331-412, 1609-1659, 1781-1802). */
module Withdrawals {
  import opened Types
  import opened Lists
  import opened RoutingTable
  import opened Protocol
  import opened NodeInvariant
  import opened HandlersKeep
  import opened Links
  import opened Outward
  import Roulette

  // ---------------------------------------------------------------- rectificators

  /** The item withdraws entry k: the first for its destination, leading through the sender under no newer number. */
  ghost predicate Strikes(t: seq<Entry>, sender: Addr, x: Lost, k: nat)
    requires k < |t|
  {
    && t[k].dst == x.dst && (forall i :: 0 <= i < k ==> t[i].dst != x.dst)
    && t[k].hops != INFINITY2 && t[k].nextHop == sender && t[k].seqno <= x.seqno
  }

  /** The first item that withdraws entry k of the table as it was when the rectificator came, -1 without one. */
  ghost function Striker(t: seq<Entry>, sender: Addr, lost: seq<Lost>, k: nat): (j: int)
    requires k < |t|
    ensures -1 <= j < |lost|
    ensures j >= 0 ==> Strikes(t, sender, lost[j], k) && forall i :: 0 <= i < j ==> !Strikes(t, sender, lost[i], k)
    ensures j < 0 ==> forall i :: 0 <= i < |lost| ==> !Strikes(t, sender, lost[i], k)
  {
    if lost == [] then -1
    else
      var n := |lost| - 1;
      var j := Striker(t, sender, lost[..n], k);
      if j >= 0 then j else if Strikes(t, sender, lost[n], k) then n else -1
  }

  /** Item j withdraws an entry somebody depends on. */
  ghost predicate Matters(t: seq<Entry>, sender: Addr, lost: seq<Lost>, j: int) {
    exists k :: 0 <= k < |t| && Striker(t, sender, lost, k) == j && t[k].precursors != []
  }

  /** These items, in their order. */
  ghost function Spread(t: seq<Entry>, sender: Addr, lost: seq<Lost>): seq<Lost> {
    if lost == [] then []
    else
      var n := |lost| - 1;
      Spread(t, sender, lost[..n]) + if Matters(t, sender, lost, n) then [lost[n]] else []
  }

  /** The entry, withdrawn under this number. */
  function Gone(e: Entry, seqno: nat, precursors: seq<Addr>): Entry {
    Entry(e.dst, seqno, INFINITY2, NO_TARGET, precursors, 0.0, DOWN)
  }

  /** The table, after all items. */
  ghost predicate Struck(t: seq<Entry>, t': seq<Entry>, sender: Addr, lost: seq<Lost>) {
    && |t'| == |t|
    && forall k :: 0 <= k < |t| ==>
         var j := Striker(t, sender, lost, k);
         t'[k] == if j < 0 then t[k] else Gone(t[k], lost[j].seqno, [])
  }

  lemma HeedOneStrikes(t: seq<Entry>, nbs: seq<Neighbor>, mid: seq<Entry>, sender: Addr, lost: seq<Lost>)
    requires lost != [] && (forall i :: 0 <= i < |t| ==> EntryOk(t[i], nbs))
    requires Struck(t, mid, sender, lost[..|lost| - 1])
    ensures var n := |lost| - 1;
      var h := HeedOne(mid, sender, lost[n]);
      && Struck(t, h.table, sender, lost)
      && h.resend == if Matters(t, sender, lost, n) then [lost[n]] else []
  {
    var n := |lost| - 1;
    var x, front := lost[n], lost[..n];
    var k := FindDst(mid, x.dst);
    forall i | 0 <= i < |t| && i != k ensures !Strikes(t, sender, x, i) {
      assert t[i].dst == mid[i].dst;
      assert k >= 0 ==> mid[k].dst == t[k].dst;
    }
    if k >= 0 {
      assert EntryOk(t[k], nbs);
      assert forall i :: 0 <= i < k ==> mid[i].dst == t[i].dst;
      assert Heeds(mid[k], sender, x) <==> Striker(t, sender, front, k) < 0 && Strikes(t, sender, x, k);
    }
  }

  lemma {:induction false} HeedStrikes(t: seq<Entry>, nbs: seq<Neighbor>, sender: Addr, lost: seq<Lost>)
    requires forall i :: 0 <= i < |t| ==> EntryOk(t[i], nbs)
    ensures var h := Heed(t, sender, lost);
      Struck(t, h.table, sender, lost) && h.resend == Spread(t, sender, lost)
  {
    if lost != [] {
      var n := |lost| - 1;
      HeedStrikes(t, nbs, sender, lost[..n]);
      HeedOneStrikes(t, nbs, Heed(t, sender, lost[..n]).table, sender, lost);
    }
  }

  /** A rectificator withdraws exactly the entries that one of its items withdraws, each under the number of the first
      such item, and leaves every other as it was. Exactly the items that withdrew an entry somebody depended on are
      sent on, in their order; without one nothing is sent. */
  lemma RectificatorStrikes(s: Node, now: real, sender: Addr, lost: seq<Lost>, draw: nat, junk: Roulette.Slot)
    requires NodeInv(s, now)
    ensures var r, on := AfterRecv(s, now, Rectificator(sender, lost), draw, junk), Spread(s.rtable, sender, lost);
      && r.node == s.(rtable := r.node.rtable) && Struck(s.rtable, r.node.rtable, sender, lost)
      && r.outs == if on == [] then [] else [Broadcast(Rectificator(s.index, on))]
  {
    HeedStrikes(s.rtable, s.nbs, sender, lost);
  }

  /** What is sent on, by membership. */
  lemma {:induction false} SpreadMembers(t: seq<Entry>, sender: Addr, lost: seq<Lost>, x: Lost)
    ensures x in Spread(t, sender, lost) <==> exists j :: 0 <= j < |lost| && lost[j] == x && Matters(t, sender, lost, j)
  {
    if lost != [] {
      var n := |lost| - 1;
      SpreadMembers(t, sender, lost[..n], x);
      forall j | 0 <= j < n ensures Matters(t, sender, lost[..n], j) <==> Matters(t, sender, lost, j) {
        forall k | 0 <= k < |t|
          ensures Striker(t, sender, lost, k) == j <==> Striker(t, sender, lost[..n], k) == j
        { }
      }
    }
  }

  // ---------------------------------------------------------------- failed transmissions

  predicate LeadsBy(e: Entry, id: Addr) {
    e.flag == UP && e.nextHop == id
  }

  /** The precursors without id. */
  ghost predicate Freed(a: seq<Addr>, b: seq<Addr>, id: Addr) {
    id !in b && forall p :: p != id ==> (p in b <==> p in a)
  }

  /** Neighbour id is given up: it alone is no neighbour any more, the routes through it are withdrawn under the next
      number, every other route stays, and no precursor list names it. */
  ghost predicate GivesUp(s: Node, s': Node, id: Addr) {
    && s' == s.(nbs := s'.nbs, nbNum := s'.nbNum, seqno := s.seqno + 2, rtable := s'.rtable)
    && (forall a :: Near(s', a) <==> Near(s, a) && a != id)
    && |s'.rtable| == |s.rtable|
    && forall k :: 0 <= k < |s.rtable| ==>
         var e, e' := s.rtable[k], s'.rtable[k];
         && e' == (if LeadsBy(e, id) then Gone(e, e.seqno + 1, e'.precursors) else e.(precursors := e'.precursors))
         && Freed(e.precursors, e'.precursors, id)
  }

  /** The item names a route through id with its next number. */
  ghost predicate IsLost(t: seq<Entry>, id: Addr, x: Lost) {
    exists k :: 0 <= k < |t| && LeadsBy(t[k], id) && x == Lost(t[k].dst, t[k].seqno + 1)
  }

  /** The rectificator names exactly the lost routes with their new numbers, each destination once. */
  ghost predicate Names(t: seq<Entry>, id: Addr, lost: seq<Lost>) {
    && DistinctDsts(lost)
    && forall x :: x in lost <==> IsLost(t, id, x)
  }

  lemma UsesIsUp(s: Node, now: real, id: Addr)
    requires NodeInv(s, now)
    ensures forall k :: 0 <= k < |s.rtable| ==> (Uses(s.rtable[k], id) <==> LeadsBy(s.rtable[k], id))
  {
    forall k | 0 <= k < |s.rtable| ensures Uses(s.rtable[k], id) <==> LeadsBy(s.rtable[k], id) {
      assert EntryOk(s.rtable[k], s.nbs);
    }
  }

  lemma SeveredIs(e: Entry, nbs: seq<Neighbor>, id: Addr)
    requires EntryOk(e, nbs)
    ensures var e' := Severed(e, id);
      && e' == (if LeadsBy(e, id) then Gone(e, e.seqno + 1, e'.precursors) else e.(precursors := e'.precursors))
      && Freed(e.precursors, e'.precursors, id)
  {
    WithoutNoDup(e.precursors, id);
  }

  lemma DeleteGivesUp(s: Node, now: real, id: Addr)
    requires NodeInv(s, now)
    ensures GivesUp(s, AfterNbDelete(s, id).node, id)
  {
    hide Near, FindNb, Severed, RemoveAt, Freed;
    var s' := AfterNbDelete(s, id).node;
    NbDeleteOk(s, now, id);
    forall a ensures Near(s', a) <==> Near(s, a) && a != id {
      NearIsNb(s', a);
      NearIsNb(s, a);
    }
    forall k | 0 <= k < |s.rtable| ensures EntryOk(s.rtable[k], s.nbs) && s'.rtable[k] == Severed(s.rtable[k], id) {
      SeveredIs(s.rtable[k], s.nbs, id);
    }
    forall k | 0 <= k < |s.rtable|
      ensures var e, e' := s.rtable[k], s'.rtable[k];
        && e' == (if LeadsBy(e, id) then Gone(e, e.seqno + 1, e'.precursors) else e.(precursors := e'.precursors))
        && Freed(e.precursors, e'.precursors, id)
    {
      SeveredIs(s.rtable[k], s.nbs, id);
    }
  }

  lemma DeleteNames(s: Node, now: real, id: Addr)
    requires NodeInv(s, now)
    ensures var outs := AfterNbDelete(s, id).outs;
      if forall k :: 0 <= k < |s.rtable| ==> !LeadsBy(s.rtable[k], id) then outs == []
      else
        && |outs| == 1 && outs[0].Broadcast? && outs[0].note.Rectificator? && outs[0].note.sender == s.index
        && Names(s.rtable, id, outs[0].note.lost)
  {
    hide NodeInv, LostBy, AfterNbDelete, Uses, LeadsBy;
    var t, lost := s.rtable, LostBy(s.rtable, id);
    UsesIsUp(s, now, id);
    NbDeleteReports(s, now, id);
    forall x ensures x in lost <==> IsLost(t, id, x) {
      LostByMembers(t, id, x);
    }
    assert lost != [] ==> IsLost(t, id, lost[0]);
    if k :| 0 <= k < |t| && LeadsBy(t[k], id) {
      assert IsLost(t, id, Lost(t[k].dst, t[k].seqno + 1));
    }
  }

  /** The transmission of a packet to nextHop has failed. The packet is dropped. If it was no broadcast and its
      destination is in the table, the neighbour is given up, and a rectificator goes out exactly when a route is lost
      with it; otherwise nothing changes. */
  lemma FailureGivesUp(s: Node, now: real, d: Data, nextHop: Addr)
    requires NodeInv(s, now)
    ensures var t, r := s.rtable, AfterLinkLayerFailed(s, d, nextHop);
      && r.outs != [] && r.outs[0] == Drop(d, MAC_CALLBACK)
      && if d.daddr == BROADCAST || (forall k :: 0 <= k < |t| ==> t[k].dst != d.daddr) then r.node == s && |r.outs| == 1
         else
           && GivesUp(s, r.node, nextHop)
           && if forall k :: 0 <= k < |t| ==> !LeadsBy(t[k], nextHop) then |r.outs| == 1
              else
                && |r.outs| == 2 && r.outs[1].Broadcast? && r.outs[1].note.Rectificator?
                && r.outs[1].note.sender == s.index && Names(t, nextHop, r.outs[1].note.lost)
  {
    hide NodeInv, AfterNbDelete, GivesUp, Names;
    DeleteGivesUp(s, now, nextHop);
    DeleteNames(s, now, nextHop);
  }
}

/** What deleting a neighbour severs and what the rectificator says about it. */
module Links {
  import opened Types
  import opened Lists
  import opened RoutingTable
  import opened Protocol
  import opened NodeInvariant
  import opened HandlersKeep

  /** The rectificator names a destination exactly when its route was lost, with the number now stored. */
  lemma {:induction false} LostByMembers(t: seq<Entry>, id: Addr, x: Lost)
    ensures x in LostBy(t, id) <==> exists i :: 0 <= i < |t| && Uses(t[i], id) && x == Lost(t[i].dst, t[i].seqno + 1)
  {
    if t != [] {
      var n := |t| - 1;
      LostByMembers(t[..n], id, x);
      assert forall i :: 0 <= i < n ==> t[..n][i] == t[i];
    }
  }

  ghost predicate DistinctDsts(lost: seq<Lost>) {
    forall i, j :: 0 <= i < j < |lost| ==> lost[i].dst != lost[j].dst
  }

  lemma {:induction false} LostByDistinct(t: seq<Entry>, nbs: seq<Neighbor>, id: Addr)
    requires RoutesOk(t, nbs)
    ensures DistinctDsts(LostBy(t, id))
  {
    if t != [] {
      var n := |t| - 1;
      var front, before := t[..n], LostBy(t[..n], id);
      assert forall i :: 0 <= i < n ==> front[i] == t[i];
      LostByDistinct(front, nbs, id);
      forall i | 0 <= i < |before| && Uses(t[n], id) ensures before[i].dst != t[n].dst {
        LostByMembers(front, id, before[i]);
        var k :| 0 <= k < n && Uses(front[k], id) && before[i] == Lost(front[k].dst, front[k].seqno + 1);
        assert EntryOk(t[k], nbs) && EntryOk(t[n], nbs);
        assert !Twins(t[k], t[n]);
      }
    }
  }

  /** The rectificator reports d. */
  ghost predicate Reports(lost: seq<Lost>, d: Addr) {
    exists x :: x in lost && x.dst == d
  }

  /** Some live route to d leads through id. */
  ghost predicate Relies(t: seq<Entry>, id: Addr, d: Addr) {
    exists i :: 0 <= i < |t| && Uses(t[i], id) && t[i].dst == d
  }

  /** After nb_delete(id): id is no neighbour, no UP entry leads through it, no precursor list names it;
      what led through it is down under the next number, everything else keeps its route. */
  lemma NbDeleteSevers(s: Node, now: real, id: Addr)
    requires NodeInv(s, now)
    ensures var t, r := s.rtable, AfterNbDelete(s, id); var t' := r.node.rtable;
      && !IsNb(r.node.nbs, id) && |t'| == |t|
      && (forall i :: 0 <= i < |t| ==> (t'[i].flag == UP ==> t'[i].nextHop != id) && id !in t'[i].precursors)
      && (forall i :: 0 <= i < |t| && Uses(t[i], id) ==> t'[i].flag == DOWN && t'[i].seqno == t[i].seqno + 1)
      && (forall i :: 0 <= i < |t| && !Uses(t[i], id) ==> SameRoute(t[i], t'[i]))
  {
    NbDeleteOk(s, now, id);
    forall i | 0 <= i < |s.rtable|
      ensures var e, e' := s.rtable[i], Severed(s.rtable[i], id);
        && (e'.flag == UP ==> e'.nextHop != id) && id !in e'.precursors
        && (Uses(e, id) ==> e'.flag == DOWN && e'.seqno == e.seqno + 1)
        && (!Uses(e, id) ==> SameRoute(e, e'))
    {
      assert EntryOk(s.rtable[i], s.nbs);
      WithoutNoDup(s.rtable[i].precursors, id);
    }
  }

  /** A rectificator goes out exactly when some route was lost, and it lists precisely the lost
      destinations, each once, with their new odd numbers. */
  lemma NbDeleteReports(s: Node, now: real, id: Addr)
    requires NodeInv(s, now)
    ensures var lost := LostBy(s.rtable, id);
      && AfterNbDelete(s, id).outs == (if lost == [] then [] else [Broadcast(Rectificator(s.index, lost))])
      && DistinctDsts(lost)
      && (forall x :: x in lost ==> x.seqno % 2 == 1)
      && (forall d :: Reports(lost, d) <==> Relies(s.rtable, id, d))
  {
    var t, lost := s.rtable, LostBy(s.rtable, id);
    LostByDistinct(t, s.nbs, id);
    forall x | x in lost ensures x.seqno % 2 == 1 && Relies(t, id, x.dst) {
      LostByMembers(t, id, x);
      var i :| 0 <= i < |t| && Uses(t[i], id) && x == Lost(t[i].dst, t[i].seqno + 1);
      assert EntryOk(t[i], s.nbs);
    }
    forall d | Relies(t, id, d) ensures Reports(lost, d) {
      var i :| 0 <= i < |t| && Uses(t[i], id) && t[i].dst == d;
      LostByMembers(t, id, Lost(d, t[i].seqno + 1));
    }
  }

  /** The neighbours nb_purge leaves. */
  function InTime(nbs: seq<Neighbor>, now: real): seq<Neighbor> {
    if nbs == [] then []
    else if nbs[0].expire <= now then InTime(nbs[1..], now)
    else [nbs[0]] + InTime(nbs[1..], now)
  }

  lemma InTimeSplit(nbs: seq<Neighbor>, now: real, i: nat)
    requires i < |nbs|
    ensures nbs[i].expire <= now ==> InTime(nbs[i..], now) == InTime(nbs[i + 1..], now)
    ensures nbs[i].expire > now ==> nbs[..i] + InTime(nbs[i..], now) == nbs[..i + 1] + InTime(nbs[i + 1..], now)
  {
    assert nbs[i..][1..] == nbs[i + 1..];
    assert nbs[..i + 1] == nbs[..i] + [nbs[i]];
  }

  lemma DeleteAt(s: Node, now: real, i: nat)
    requires NodeInv(s, now) && i < |s.nbs|
    ensures var s1 := AfterNbDelete(s, s.nbs[i].addr).node;
      NodeInv(s1, now) && |s1.nbs| == |s.nbs| - 1 && s1.nbs[..i] == s.nbs[..i] && s1.nbs[i..] == s.nbs[i + 1..]
  {
    NbDeleteOk(s, now, s.nbs[i].addr);
    var k := FindNb(s.nbs, s.nbs[i].addr);
    assert k == i;
  }

  /** nb_purge deletes exactly the overdue neighbours, although it deletes from the list it walks. */
  lemma {:induction false} NbPurgeExact(s: Node, now: real, i: nat)
    requires NodeInv(s, now) && i <= |s.nbs|
    ensures AfterNbPurge(s, now, i).node.nbs == s.nbs[..i] + InTime(s.nbs[i..], now)
    decreases |s.nbs| - i
  {
    if i < |s.nbs| {
      InTimeSplit(s.nbs, now, i);
      if s.nbs[i].expire <= now {
        DeleteAt(s, now, i);
        NbPurgeExact(AfterNbDelete(s, s.nbs[i].addr).node, now, i);
      } else {
        NbPurgeExact(s, now, i + 1);
      }
    }
  }
}

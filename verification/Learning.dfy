/** What an arriving ant teaches the node that receives it, be it on its way out or back, read off the routing table
    before and after the handler (antconf.cc:832-869, 1443-1478). */
module Learning {
  import opened Types
  import opened PacketQueue
  import opened RoutingTable
  import opened PheromoneTable
  import opened Requests
  import opened Protocol
  import opened NodeInvariant
  import opened Frames
  import opened Choices
  import opened Demands
  import opened Outward
  import Roulette

  // ---------------------------------------------------------------- what is learned

  /** Nothing but precursor lists differs. */
  ghost predicate OnlyPrecursors(t: seq<Entry>, t': seq<Entry>) {
    |t'| == |t| && forall i :: 0 <= i < |t| ==> t'[i] == t[i].(precursors := t'[i].precursors)
  }

  /** What the news makes of the entry that leads to its subject by the way it came. Fresher news, and news as fresh
      of a shorter way, replaces number and distance; other news leaves them, and only an ant on its way out
      prolongs the entry then. */
  ghost predicate Takes(e: Entry, e': Entry, seqno: nat, hops: nat, now: real, outward: bool) {
    if seqno > e.seqno || (seqno == e.seqno && hops < e.hops) then
      && e' == e.(seqno := seqno, hops := hops, flag := UP, expire := e'.expire, precursors := e'.precursors)
      && e'.expire >= now + ROUTE_LIFE
    else
      e' == e.(expire := if outward && e.expire < now + ROUTE_LIFE then now + ROUTE_LIFE else e.expire,
               precursors := e'.precursors)
  }

  /** The table t' is t with the news taken in: by the entry that way, or else by a new one in front. */
  ghost predicate Taught(t: seq<Entry>, t': seq<Entry>, prev: Addr, ner: Addr, seqno: nat, hops: nat, now: real,
                         outward: bool) {
    if exists i :: 0 <= i < |t| && Via(t[i], prev, ner) then
      && |t'| == |t|
      && forall i :: 0 <= i < |t| ==>
           if Via(t[i], prev, ner) then Takes(t[i], t'[i], seqno, hops, now, outward)
           else t'[i] == t[i].(precursors := t'[i].precursors)
    else
      && |t'| == |t| + 1
      && t'[0] == Entry(ner, seqno, hops, prev, t'[0].precursors, t'[0].expire, UP)
      && t'[0].expire >= now + ROUTE_LIFE
      && OnlyPrecursors(t, t'[1..])
  }

  /** Learning itself touches no precursor list. */
  ghost predicate PrecursorsKept(t: seq<Entry>, t': seq<Entry>) {
    if |t'| == |t| then forall i :: 0 <= i < |t| ==> t'[i].precursors == t[i].precursors
    else
      && |t'| == |t| + 1 && t'[0].precursors == []
      && forall i :: 0 <= i < |t| ==> t'[i + 1].precursors == t[i].precursors
  }

  lemma InstallTakes(s: Node, now: real, at: nat, seqno: nat, hops: nat)
    requires at < |s.rtable|
    ensures var t, t' := s.rtable, Install(s, now, at, seqno, hops).node.rtable;
      && |t'| == |t| && Takes(t[at], t'[at], seqno, hops, now, false) && t' == t[at := t'[at]]
      && t'[at].precursors == t[at].precursors
  {
    var e := s.rtable[at];
    if Accepts(e, seqno, hops) {
      var e1 := Updated(e, seqno, hops, Max(e.expire, now + ROUTE_LIFE));
      RefreshedLater(e1, s.index, For(Live(s.queue, now), e.dst), now);
    }
  }

  lemma OnlyOneVia(s: Node, now: real, prev: Addr, ner: Addr, i: nat, j: nat)
    requires NodeInv(s, now) && prev >= 0 && i < |s.rtable| && j < |s.rtable|
    requires Via(s.rtable[i], prev, ner) && Via(s.rtable[j], prev, ner)
    ensures i == j
  {
    assert EntryOk(s.rtable[i], s.nbs) && EntryOk(s.rtable[j], s.nbs);
    assert Twins(s.rtable[i], s.rtable[j]);
  }

  /** The table when the news comes to be accepted or refused. */
  lemma PrepareLeaves(s: Node, now: real, prev: Addr, ner: Addr, outward: bool)
    ensures var t, p, k := s.rtable, Prepare(s, now, prev, ner, outward), FindVia(s.rtable, prev, ner);
      && (k < 0 ==> p.at == 0 && p.node.rtable == [Fresh(prev, ner)] + t)
      && (k >= 0 ==>
            var expire := if outward && t[k].expire < now + ROUTE_LIFE then now + ROUTE_LIFE else t[k].expire;
            p.at == k && p.node.rtable == t[k := t[k].(expire := expire)])
  {
    hide FindVia, FindRequest, Delete;
  }

  lemma KnownTakes(e: Entry, e1: Entry, e': Entry, seqno: nat, hops: nat, now: real, outward: bool)
    requires e1 == e.(expire := if outward && e.expire < now + ROUTE_LIFE then now + ROUTE_LIFE else e.expire)
    requires Takes(e1, e', seqno, hops, now, false)
    ensures Takes(e, e', seqno, hops, now, outward)
  {
  }

  lemma LearnTeaches(s: Node, now: real, prev: Addr, ner: Addr, seqno: nat, hops: nat, outward: bool)
    requires NodeInv(s, now) && IsNb(s.nbs, prev) && SeqnoOk(seqno) && hops < INFINITY2
    ensures Taught(s.rtable, AfterLearn(s, now, prev, ner, seqno, hops, outward).node.rtable, prev, ner, seqno, hops,
                   now, outward)
    ensures PrecursorsKept(s.rtable, AfterLearn(s, now, prev, ner, seqno, hops, outward).node.rtable)
  {
    hide NodeInv, Install, Prepare, FindVia, Takes;
    assert prev >= 0 by { ViaNeighborsLeads(s, now, ner); }
    var t, p, k := s.rtable, Prepare(s, now, prev, ner, outward), FindVia(s.rtable, prev, ner);
    var t' := Install(p.node, now, p.at, seqno, hops).node.rtable;
    PrepareLeaves(s, now, prev, ner, outward);
    InstallTakes(p.node, now, p.at, seqno, hops);
    if k < 0 {
      NewTakes(prev, ner, t'[0], seqno, hops, now);
      assert t'[1..] == t;
    } else {
      KnownTakes(t[k], p.node.rtable[k], t'[k], seqno, hops, now, outward);
      forall i | 0 <= i < |t| && Via(t[i], prev, ner) ensures i == k {
        OnlyOneVia(s, now, prev, ner, i, k);
      }
    }
  }

  lemma NewTakes(prev: Addr, ner: Addr, e': Entry, seqno: nat, hops: nat, now: real)
    requires Takes(Fresh(prev, ner), e', seqno, hops, now, false) && seqno > 0
    ensures e' == Entry(ner, seqno, hops, prev, e'.precursors, e'.expire, UP) && e'.expire >= now + ROUTE_LIFE
  {
  }

  lemma TaughtThen(t: seq<Entry>, t1: seq<Entry>, t2: seq<Entry>, prev: Addr, ner: Addr, seqno: nat, hops: nat,
                   now: real, outward: bool)
    requires Taught(t, t1, prev, ner, seqno, hops, now, outward) && OnlyPrecursors(t1, t2)
    ensures Taught(t, t2, prev, ner, seqno, hops, now, outward)
  {
    if !exists i :: 0 <= i < |t| && Via(t[i], prev, ner) {
      assert OnlyPrecursors(t, t2[1..]);
    }
  }

  // ---------------------------------------------------------------- what follows only touches precursors

  lemma ReliedOnly(t: seq<Entry>, t': seq<Entry>, nextHop: Addr, dst: Addr, id: Addr)
    requires Relied(t, t', nextHop, dst, id)
    ensures OnlyPrecursors(t, t')
  {
  }

  lemma AimOnly(s: Node, a: GoAnt, hop: Addr)
    ensures OnlyPrecursors(s.rtable, Aim(s, a, hop).node.rtable)
  {
    hide AddPrecursor, Relied;
    if a.ner != s.index {
      var f := ScanNeighbors(s.nbs, s.rtable, a.ner, hop, Found(false, false, a.hops, a.seqno, NO_HOP));
      PrecursorAdded(s, f.via, a.ner, hop);
      ReliedOnly(s.rtable, AddPrecursor(s, f.via, a.ner, hop).rtable, f.via, a.ner, hop);
    }
  }

  lemma SearchOnly(s: Node, now: real, a: GoAnt, draw: nat, junk: Roulette.Slot)
    ensures OnlyPrecursors(s.rtable, AfterSearch(s, now, a, draw, junk).node.rtable)
  {
    hide Aim, AfterSendClone, AfterRelay, AddPrecursor, Relied;
    var w := Roulette.Build(s.nbs, s.phtable, junk);
    if w.touched && w.size > 0 && w.cells[draw % w.size].claimant != -1 {
      var slot := w.cells[draw % w.size];
      var a1 := a.(target := slot.claimant, ner := slot.asked, ttl := ANT_TTL);
      CloneFrame(s, now, a);
      var s1 := AfterSendClone(s, now, a).node;
      AimOnly(s1, a1, slot.hop);
      var aimed := Aim(s1, a1, slot.hop);
      RelayFrame(aimed.node, now, aimed.ant, slot.hop);
    } else {
      var hop := if w.touched && w.size > 0 then w.cells[draw % w.size].hop else FirstUnvisited(s.nbs, a);
      PrecursorAdded(s, a.prevNode, a.ner, hop);
      var s1 := if s.index != a.src then AddPrecursor(s, a.prevNode, a.ner, hop) else s;
      assert OnlyPrecursors(s.rtable, s1.rtable) by {
        if s.index != a.src {
          ReliedOnly(s.rtable, s1.rtable, a.prevNode, a.ner, hop);
        }
      }
      RelayFrame(s1, now, a, hop);
    }
  }

  lemma ChooseOnly(s: Node, now: real, a: GoAnt, draw: nat, junk: Roulette.Slot)
    ensures OnlyPrecursors(s.rtable, AfterChoose(s, now, a, draw, junk).node.rtable)
  {
    hide AfterSearch, Aim, AfterRelay, AfterSendClone, AfterSendReturn;
    SendReturnFrame(s, now, a.trail, a.src, if a.target != NO_TARGET then a.ner else -1);
    if a.target != NO_TARGET {
      if a.target != s.index {
        var k := FindKey(s.phtable, a.target, a.ner);
        var hop := if k < 0 then NO_HOP else if s.phtable[k].nbs == [] then UNWRITTEN else s.phtable[k].nbs[0];
        AimOnly(s, a, hop);
        var aimed := Aim(s, a, hop);
        RelayFrame(aimed.node, now, aimed.ant, hop);
      }
    } else if s.askRt && s.index != a.src {
      CloneFrame(AfterSendReturn(s, now, a.trail, a.src, -1).node, now, a);
    } else if a.ttl != 0 {
      SearchOnly(s, now, a, draw, junk);
    }
  }

  // ---------------------------------------------------------------- the two handlers

  /** An outward ant that is let in, from a neighbour and still valid, is learned from; nothing else that it does
      changes a route. */
  lemma GoTeaches(s: Node, now: real, a: GoAnt, draw: nat, junk: Roulette.Slot)
    requires NodeInv(s, now) && GoOk(a) && a.hops < INFINITY2 && Admits(s, a)
    ensures var t' := AfterRecv(s, now, Go(a), draw, junk).node.rtable;
      if a.valid && Near(s, a.prevNode) then Taught(s.rtable, t', a.prevNode, a.ner, a.seqno, a.hops, now, true)
      else OnlyPrecursors(s.rtable, t')
    ensures PrecursorsKept(s.rtable, Admitted(s, now, Taken(a)).node.rtable)
  {
    hide AfterLearn, AfterChoose, NodeInv, Taught, FindNb;
    var b := Taken(a);
    var s1 := s.(ids := [AgentId(a.src, a.id, now + AGENT_ID_SAVE)] + s.ids);
    IdsAside(s, now, s1.ids);
    NearIsNb(s, a.prevNode);
    var r := Admitted(s, now, b).node;
    NodeOfGo(s, now, a, draw, junk);
    ChooseOnly(r, now, b, draw, junk);
    if a.valid && Near(s, a.prevNode) {
      LearnTeaches(s1, now, a.prevNode, a.ner, a.seqno, a.hops, true);
      TaughtThen(s.rtable, r.rtable, AfterRecv(s, now, Go(a), draw, junk).node.rtable,
                 a.prevNode, a.ner, a.seqno, a.hops, now, true);
    }
  }
}

/** The routing agent itself (class ANTCONF): its fields, updated in place, and its handlers and timers,
    each proved to do to the fields what the function of the same purpose in Protocol does to the value. */
module Agent {
  import opened Types
  import opened Lists
  import opened PacketQueue
  import opened RoutingTable
  import opened PheromoneTable
  import opened Requests
  import opened Protocol
  import Roulette
  import RQueue

  class Antconf {
    const index: Addr
    var seqno: nat
    var idAgent: nat
    var askRt: bool
    var nbNum: int
    var demNum: int
    var nbhead: seq<Neighbor>
    var bihead: seq<AgentId>
    var arhead: seq<Request>
    const rtable: RTable
    const phtable: PhTable
    const rqueue: RQueue.RQueue

    ghost predicate Valid()
      reads this, phtable, rqueue, rqueue.repr
    {
      phtable.Valid() && rqueue.Valid()
    }

    /** The node as a value. */
    ghost function State(): Node
      reads this, rtable, phtable, rqueue, rqueue.repr
      requires Valid()
    {
      Node(index, seqno, idAgent, askRt, nbNum, demNum, nbhead, bihead, arhead,
           rtable.rthead, phtable.phthead, rqueue.contents)
    }

    ghost function Repr(): set<object>
      reads rqueue
    {
      {this, rtable, phtable, rqueue} + rqueue.repr
    }

    constructor (id: Addr)
      ensures Valid() && State() == Initial(id) && fresh(Repr())
    {
      index := id;
      seqno, idAgent, askRt, nbNum, demNum := 2, 1, false, 0, 0;
      nbhead, bihead, arhead := [], [], [];
      rtable := new RTable();
      phtable := new PhTable();
      rqueue := new RQueue.RQueue();
    }

    // -------------------------------------------------------------- agent identifiers

    method IdInsert(src: Addr, id: nat, now: real)
      modifies this`bihead
      ensures bihead == [AgentId(src, id, now + AGENT_ID_SAVE)] + old(bihead)
    {
      bihead := [AgentId(src, id, now + AGENT_ID_SAVE)] + bihead;
    }

    method IdLookup(src: Addr, id: nat) returns (found: bool)
      ensures found == Seen(bihead, src, id)
    {
      var i := 0;
      while i < |bihead|
        invariant 0 <= i <= |bihead|
        invariant forall j :: 0 <= j < i ==> bihead[j].src != src || bihead[j].id != id
      {
        if bihead[i].src == src && bihead[i].id == id {
          return true;
        }
        i := i + 1;
      }
      return false;
    }

    method IdPurge(now: real)
      requires Valid()
      modifies this`bihead
      ensures Valid() && State() == old(State()).(ids := PurgeIds(old(bihead), now))
    {
      hide RemoveAt;
      var i := 0;
      while i < |bihead|
        invariant 0 <= i <= |bihead|
        invariant bihead[..i] + PurgeIds(bihead[i..], now) == PurgeIds(old(bihead), now)
        decreases |bihead| - i
      {
        ghost var was := bihead;
        assert was[i..][1..] == was[i + 1..];
        if bihead[i].expire <= now {
          bihead := RemoveAt(bihead, i);
          assert bihead[..i] == was[..i] && bihead[i..] == was[i + 1..];
        } else {
          assert was[..i + 1] == was[..i] + [was[i]];
          i := i + 1;
        }
      }
      assert bihead[..i] == bihead && bihead[i..] == [];
    }

    // -------------------------------------------------------------- pheromone and request timers

    method PhtPurge()
      requires Valid()
      modifies phtable
      ensures Valid() && State() == old(State()).(phtable := Evaporate(old(phtable.phthead)))
    {
      phtable.PhtPurge();
    }

    method PhdPurge()
      requires Valid()
      modifies this`arhead
      ensures Valid() && State() == old(State()).(asks := Age(old(arhead)))
    {
      var i := 0;
      while i < |arhead|
        invariant 0 <= i <= |arhead| == |old(arhead)|
        invariant forall j :: 0 <= j < i ==> arhead[j] == Age(old(arhead))[j]
        invariant forall j :: i <= j < |arhead| ==> arhead[j] == old(arhead)[j]
      {
        arhead := arhead[i := arhead[i].(qte := arhead[i].qte + PHEROMONE_STEP)];
        i := i + 1;
      }
      assert arhead == Age(old(arhead));
    }

    // -------------------------------------------------------------- route requests

    method ArLookup(dst: Addr) returns (found: bool)
      ensures found == Asked(arhead, dst)
    {
      var i := 0;
      while i < |arhead|
        invariant 0 <= i <= |arhead|
        invariant forall j :: 0 <= j < i ==> arhead[j].dst != dst
      {
        if arhead[i].dst == dst {
          return true;
        }
        i := i + 1;
      }
      return false;
    }

    method ArInsert(dst: Addr, qte: real, now: real)
      requires Valid()
      modifies this`arhead, this`demNum
      ensures Valid() && State() == AddRequest(old(State()), dst, qte, now)
    {
      var ar := Request(dst, now + EXPIRE_AR_INTERVAL, PHEROMONE_QTE);
      if qte != 0.0 {
        ar := ar.(qte := qte);
      }
      arhead := [ar] + arhead;
      demNum := demNum + 1;
    }

    method ArDelete(dst: Addr)
      requires Valid()
      modifies this`arhead, this`demNum, this`askRt
      ensures Valid() && State() == DropRequest(old(State()), dst)
    {
      var i := 0;
      while i < |arhead|
        invariant 0 <= i <= |arhead|
        invariant arhead == old(arhead) && demNum == old(demNum) && askRt == old(askRt)
        invariant forall j :: 0 <= j < i ==> arhead[j].dst != dst
      {
        if arhead[i].dst == dst {
          assert FindRequest(arhead, dst) == i;
          arhead := RemoveAt(arhead, i);
          demNum := demNum - 1;
          break;
        }
        i := i + 1;
      }
      if arhead == [] {
        askRt := false;
      }
    }

    // -------------------------------------------------------------- neighbours

    method NbLookup(id: Addr) returns (i: int)
      ensures i == FindNb(nbhead, id)
    {
      i := 0;
      while i < |nbhead|
        invariant 0 <= i <= |nbhead|
        invariant forall j :: 0 <= j < i ==> nbhead[j].addr != id
      {
        if nbhead[i].addr == id {
          return;
        }
        i := i + 1;
      }
      i := -1;
    }

    method RecvHello(origin: Addr, now: real)
      requires Valid()
      modifies this
      ensures Valid() && State() == AfterHello(old(State()), now, origin)
    {
      var k := NbLookup(origin);
      if k < 0 {
        nbhead := [Neighbor(origin, now + HELLO_LIFE)] + nbhead;
        seqno := seqno + 2;
        nbNum := nbNum + 1;
      } else {
        nbhead := nbhead[k := nbhead[k].(expire := now + HELLO_LIFE)];
      }
    }

    // -------------------------------------------------------------- broken links

    method RtDown(i: nat)
      requires i < |rtable.rthead|
      modifies rtable
      ensures rtable.rthead == old(rtable.rthead)[i := TakeDown(old(rtable.rthead[i]))]
    {
      var rt := rtable.rthead[i];
      if rt.flag == DOWN {
        return;
      }
      rtable.rthead := rtable.rthead[i := rt.(hops := INFINITY2, flag := DOWN, nextHop := NO_TARGET, expire := 0.0)];
    }

    /** The body of link_failure_management's loop. */
    method Sever(i: nat, id: Addr) returns (lost: seq<Lost>)
      requires i < |rtable.rthead|
      modifies rtable
      ensures var e := old(rtable.rthead[i]);
        && rtable.rthead == old(rtable.rthead)[i := Severed(e, id)]
        && lost == if Uses(e, id) then [Lost(e.dst, e.seqno + 1)] else []
    {
      lost := [];
      var rt := rtable.rthead[i];
      if rt.hops != INFINITY2 && rt.nextHop == id {
        rtable.rthead := rtable.rthead[i := rt.(seqno := rt.seqno + 1)];
        lost := [Lost(rt.dst, rt.seqno + 1)];
        RtDown(i);
      }
      rtable.PcDelete(i, id);
    }

    method LinkFailureManagement(id: Addr) returns (outs: seq<Output>)
      requires Valid()
      modifies rtable
      ensures Valid()
      ensures AfterLinkFailure(old(State()), id) == Step(State(), outs)
    {
      hide Severed;
      var i, lost: seq<Lost> := 0, [];
      ghost var t := rtable.rthead;
      while i < |rtable.rthead|
        invariant 0 <= i <= |t| == |rtable.rthead|
        invariant forall j :: 0 <= j < i ==> rtable.rthead[j] == Severed(t[j], id)
        invariant forall j :: i <= j < |t| ==> rtable.rthead[j] == t[j]
        invariant lost == LostBy(t[..i], id)
      {
        assert t[..i + 1][..i] == t[..i];
        var more := Sever(i, id);
        lost := lost + more;
        i := i + 1;
      }
      assert t[..i] == t;
      assert rtable.rthead == SeverAll(t, id);
      outs := if lost != [] then [Broadcast(Rectificator(index, lost))] else [];
    }

    /** The list half of nb_delete. */
    method ForgetNeighbor(id: Addr)
      requires Valid()
      modifies this`seqno, this`nbhead, this`nbNum
      ensures Valid() && State() == Forget(old(State()), id)
    {
      hide FindNb, RemoveAt;
      seqno := seqno + 2;
      var k := NbLookup(id);
      if k >= 0 {
        nbhead := RemoveAt(nbhead, k);
        nbNum := nbNum - 1;
      }
    }

    method NbDelete(id: Addr) returns (outs: seq<Output>)
      requires Valid()
      modifies this`seqno, this`nbhead, this`nbNum, rtable
      ensures Valid()
      ensures AfterNbDelete(old(State()), id) == Step(State(), outs)
    {
      ForgetNeighbor(id);
      outs := LinkFailureManagement(id);
    }

    method NbPurge(now: real) returns (outs: seq<Output>)
      requires Valid()
      modifies this, rtable
      ensures Valid()
      ensures AfterNbPurge(old(State()), now, 0) == Step(State(), outs)
    {
      var i := 0;
      outs := [];
      ghost var full := AfterNbPurge(State(), now, 0);
      while i < |nbhead|
        invariant 0 <= i <= |nbhead| && Valid()
        invariant full.node == AfterNbPurge(State(), now, i).node
        invariant full.outs == outs + AfterNbPurge(State(), now, i).outs
        decreases |nbhead| - i
      {
        if nbhead[i].expire <= now {
          ghost var s := State();
          var more := NbDelete(nbhead[i].addr);
          assert AfterNbPurge(s, now, i).outs == more + AfterNbPurge(State(), now, i).outs;
          outs := outs + more;
        } else {
          i := i + 1;
        }
      }
    }

    method LinklayerFailed(d: Data, brokenNbr: Addr) returns (outs: seq<Output>)
      requires Valid()
      modifies this, rtable
      ensures Valid()
      ensures AfterLinkLayerFailed(old(State()), d, brokenNbr) == Step(State(), outs)
    {
      if d.daddr == BROADCAST {
        return [Drop(d, MAC_CALLBACK)];
      }
      var rt := rtable.RtLookup(d.daddr);
      if rt < 0 {
        return [Drop(d, MAC_CALLBACK)];
      }
      outs := NbDelete(brokenNbr);
      outs := [Drop(d, MAC_CALLBACK)] + outs;
    }

    // -------------------------------------------------------------- rectificators

    method RecvRectificatorAgent(sender: Addr, lost: seq<Lost>) returns (outs: seq<Output>)
      requires Valid()
      modifies rtable
      ensures Valid()
      ensures AfterRectificator(old(State()), sender, lost) == Step(State(), outs)
    {
      hide FindDst;
      var i, resend := 0, [];
      ghost var t := rtable.rthead;
      while i < |lost|
        invariant 0 <= i <= |lost|
        invariant Heeded(rtable.rthead, resend) == Heed(t, sender, lost[..i])
      {
        assert lost[..i + 1][..i] == lost[..i];
        var k := rtable.RtLookup(lost[i].dst);
        if k >= 0 {
          var rt := rtable.rthead[k];
          if rt.hops != INFINITY2 && rt.nextHop == sender && rt.seqno <= lost[i].seqno {
            rtable.rthead := rtable.rthead[k := rt.(seqno := lost[i].seqno)];
            RtDown(k);
            rt := rtable.rthead[k];
            if rt.precursors != [] {
              resend := resend + [Lost(rt.dst, rt.seqno)];
              rtable.rthead := rtable.rthead[k := rt.(precursors := [])];
            }
          }
        }
        i := i + 1;
      }
      assert lost[..i] == lost;
      outs := if resend != [] then [Broadcast(Rectificator(index, resend))] else [];
    }

    // -------------------------------------------------------------- data packets

    /** forward() with the route at position i. */
    method Forward(i: nat, d: Data, now: real) returns (out: Output)
      requires i < |rtable.rthead|
      modifies rtable
      ensures var e := old(rtable.rthead[i]);
        && rtable.rthead == old(rtable.rthead)[i := Refreshed(e, index, [d], now)]
        && out == ForwardOne(index, e.nextHop, d)
        && (d.ttl == 0 ==> out == Drop(d, TTL_OVER))
        && (d.ttl != 0 && d.daddr == index ==> out == Local(d))
        && (d.ttl != 0 && d.daddr != index && d.daddr != BROADCAST ==> out == Send(e.nextHop, DataMsg(d.(up := false))))
    {
      var rt := rtable.rthead[i];
      if d.ttl == 0 {
        return Drop(d, TTL_OVER);
      }
      if (d.up && d.daddr == BROADCAST) || d.daddr == index {
        return Local(d);
      }
      rtable.rthead := rtable.rthead[i := rt.(expire := now + ROUTE_LIFE)];
      out := Send(rt.nextHop, DataMsg(d.(up := false)));
    }

    /** One turn of such a loop: the first packet bound for dst leaves, everything else stays. */
    method Next(dst: Addr, now: real, ghost ds: seq<Data>, ghost others: seq<Data>) returns (p: RQueue.Packet?)
      requires rqueue.Valid()
      requires For(Live(rqueue.contents, now), dst) == ds && Others(Live(rqueue.contents, now), dst) == others
      modifies rqueue, rqueue.repr
      ensures rqueue.Valid() && rqueue.repr == old(rqueue.repr)
      ensures p == null ==> ds == [] && rqueue.contents == others
      ensures p != null ==> ds != [] && p.hdr == ds[0] && For(Live(rqueue.contents, now), dst) == ds[1..]
      ensures p != null ==> Others(Live(rqueue.contents, now), dst) == others
    {
      ghost var live := Live(rqueue.contents, now);
      KeepTwice(rqueue.contents, Within(now));
      PopFor(live, dst, now);
      p := rqueue.DequeFor(dst, now);
    }

    /** The loop that empties the buffer for the destination of the entry at position i. */
    method DrainTo(i: nat, now: real) returns (outs: seq<Output>)
      requires rqueue.Valid() && i < |rtable.rthead|
      modifies rtable, rqueue, rqueue.repr
      ensures rqueue.Valid() && rqueue.repr == old(rqueue.repr)
      ensures var e, live := old(rtable.rthead[i]), Live(old(rqueue.contents), now);
        var ds := For(live, e.dst);
        && rtable.rthead == old(rtable.rthead)[i := Refreshed(e, index, ds, now)]
        && rqueue.contents == Others(live, e.dst)
        && outs == ForwardAll(index, e.nextHop, ds)
    {
      hide Keep, First, RQueue.RQueue.Valid;
      var dst := rtable.rthead[i].dst;
      ghost var e, t := rtable.rthead[i], rtable.rthead;
      ghost var live := Live(rqueue.contents, now);
      ghost var ds, others := For(live, dst), Others(live, dst);
      outs := [];
      ghost var rt, left := e, ds;
      var p := Next(dst, now, left, others);
      while p != null
        invariant rqueue.Valid() && rqueue.repr == old(rqueue.repr)
        invariant |rtable.rthead| == |t| && rtable.rthead[i] == rt == e.(expire := rt.expire)
        invariant forall j :: 0 <= j < |t| && j != i ==> rtable.rthead[j] == t[j]
        invariant p == null ==> left == [] && rqueue.contents == others
        invariant p != null ==> left != [] && p.hdr == left[0] && For(Live(rqueue.contents, now), dst) == left[1..]
        invariant p != null ==> Others(Live(rqueue.contents, now), dst) == others
        invariant |outs| <= |ds| && left == ds[|outs|..]
        invariant forall j :: 0 <= j < |outs| ==> outs[j] == ForwardOne(index, e.nextHop, ds[j])
        invariant Refreshed(rt, index, left, now) == Refreshed(e, index, ds, now)
        decreases |left|
      {
        RefreshSplits(index, rt, left, now);
        rt := Refreshed(rt, index, [p.hdr], now);
        left := left[1..];
        var out := Forward(i, p.hdr, now);
        outs := outs + [out];
        p := Next(dst, now, left, others);
      }
    }

    lemma RefreshSplits(index: Addr, e: Entry, ds: seq<Data>, now: real)
      requires ds != []
      ensures Refreshed(e, index, ds, now) == Refreshed(Refreshed(e, index, [ds[0]], now), index, ds[1..], now)
    {
      assert [ds[0]][1..] == [];
    }

    /** The loop that drops what waits for dst. */
    method DropWaiting(dst: Addr, now: real) returns (outs: seq<Output>)
      requires rqueue.Valid()
      modifies rqueue, rqueue.repr
      ensures rqueue.Valid() && rqueue.repr == old(rqueue.repr)
      ensures var live := Live(old(rqueue.contents), now);
        rqueue.contents == Others(live, dst) && outs == DropAll(For(live, dst), NO_ROUTE)
    {
      hide Keep, First;
      ghost var live := Live(rqueue.contents, now);
      ghost var ds, others := For(live, dst), Others(live, dst);
      outs := [];
      ghost var left := ds;
      var p := Next(dst, now, left, others);
      while p != null
        invariant rqueue.Valid() && rqueue.repr == old(rqueue.repr)
        invariant p == null ==> left == [] && rqueue.contents == others
        invariant p != null ==> left != [] && p.hdr == left[0] && For(Live(rqueue.contents, now), dst) == left[1..]
        invariant p != null ==> Others(Live(rqueue.contents, now), dst) == others
        invariant |outs| <= |ds| && left == ds[|outs|..]
        invariant forall j :: 0 <= j < |outs| ==> outs[j] == Drop(ds[j], NO_ROUTE)
        decreases |left|
      {
        outs := outs + [Drop(p.hdr, NO_ROUTE)];
        left := left[1..];
        p := Next(dst, now, left, others);
      }
    }

    /** rt_purge re-asks for a destination without a route that packets wait for. */
    method AskAgain(dst: Addr, now: real)
      requires Valid()
      modifies this`arhead, this`demNum, this`askRt
      ensures Valid()
      ensures State() == if First(old(State()).queue, Bound(dst)) >= 0 && !Asked(old(State()).asks, dst)
                         then AddRequest(old(State()), dst, 0.0, now).(askRt := true) else old(State())
    {
      hide FindRequest;
      ghost var q := rqueue.contents;
      var found := rqueue.Find(dst);
      assert found <==> First(q, Bound(dst)) >= 0;
      if found {
        var asked := ArLookup(dst);
        if !asked {
          askRt := true;
          ArInsert(dst, 0.0, now);
        }
      }
    }

    /** The body of rt_purge's loop. */
    method PurgeOne(i: nat, now: real) returns (outs: seq<Output>)
      requires Valid() && i < |rtable.rthead|
      modifies this`arhead, this`demNum, this`askRt, rtable, rqueue, rqueue.repr
      ensures Valid() && rqueue.repr == old(rqueue.repr) && |rtable.rthead| == |old(rtable.rthead)|
      ensures PurgeEntry(old(State()), now, i) == Step(State(), outs)
    {
      outs := [];
      var rt := rtable.rthead[i];
      if rt.flag == UP && rt.expire < now {
        outs := DropWaiting(rt.dst, now);
        rtable.rthead := rtable.rthead[i := rt.(seqno := rt.seqno + 1)];
        RtDown(i);
        assert rtable.rthead == old(rtable.rthead)[i := TakeDown(rt.(seqno := rt.seqno + 1))];
      } else if rt.flag == UP {
        outs := DrainTo(i, now);
      } else {
        AskAgain(rt.dst, now);
      }
    }

    lemma PurgeEnds(s: Node, now: real)
      ensures AfterRtPurge(s, now, |s.rtable|) == Step(s, [])
    {
    }

    lemma PurgeUnfolds(s: Node, now: real, i: nat)
      requires i < |s.rtable|
      ensures var r := PurgeEntry(s, now, i);
        AfterRtPurge(s, now, i) == Then(r, AfterRtPurge(r.node, now, i + 1))
    {
    }

    method RtPurge(now: real) returns (outs: seq<Output>)
      requires Valid()
      modifies this, rtable, rqueue, rqueue.repr
      ensures Valid() && rqueue.repr == old(rqueue.repr)
      ensures AfterRtPurge(old(State()), now, 0) == Step(State(), outs)
    {
      hide AfterRtPurge, PurgeEntry;
      var i := 0;
      outs := [];
      ghost var full := AfterRtPurge(State(), now, 0);
      while i < |rtable.rthead|
        invariant 0 <= i <= |rtable.rthead|
        invariant Valid() && rqueue.repr == old(rqueue.repr)
        invariant full.node == AfterRtPurge(State(), now, i).node
        invariant full.outs == outs + AfterRtPurge(State(), now, i).outs
        decreases |rtable.rthead| - i
      {
        ghost var s, sofar := State(), outs;
        var more := PurgeOne(i, now);
        PurgeUnfolds(s, now, i);
        outs := outs + more;
        i := i + 1;
        assert outs + AfterRtPurge(State(), now, i).outs == sofar + (more + AfterRtPurge(State(), now, i).outs);
      }
      PurgeEnds(State(), now);
    }

    /** Buffering the node's own packet and asking for its destination. */
    method BufferAndAsk(p: RQueue.Packet, now: real) returns (outs: seq<Output>)
      requires Valid() && p !in rqueue.spine
      modifies this, rqueue, rqueue.repr, p
      ensures Valid() && rqueue.repr <= old(rqueue.repr) + {p}
      ensures var s, d := old(State()), old(p.hdr); var q := PacketQueue.Enque(s.queue, d, now);
        var s1 := s.(queue := q.queue);
        && State() == (if Asked(s.asks, d.daddr) then s1 else AddRequest(s1, d.daddr, 0.0, now).(askRt := true))
        && outs == q.dropped
    {
      hide PacketQueue.Enque, FindRequest;
      var dst := p.hdr.daddr;
      outs := rqueue.Enque(p, now);
      var asked := ArLookup(dst);
      if !asked {
        askRt := true;
        ArInsert(dst, 0.0, now);
      }
    }

    method RtResolution(p: RQueue.Packet, now: real) returns (outs: seq<Output>)
      requires Valid() && p !in rqueue.spine
      modifies this, rtable, rqueue, rqueue.repr, p
      ensures Valid() && rqueue.repr <= old(rqueue.repr) + {p}
      ensures AfterResolution(old(State()), now, old(p.hdr)) == Step(State(), outs)
    {
      hide PacketQueue.Enque, FindOptimal, FindNb;
      ghost var s := State();
      var dst := p.hdr.daddr;
      var nb := NbLookup(dst);
      if nb >= 0 {
        return [Send(dst, DataMsg(p.hdr.(up := false)))];
      }
      var rt := rtable.RtLookupOptimal(dst);
      if rt < 0 {
        rtable.RtAdd(dst);
        rt := 0;
        assert rtable.rthead[0] == Fresh(NO_TARGET, dst);
        assert State() == s.(rtable := [Fresh(NO_TARGET, dst)] + s.rtable);
      }
      if rtable.rthead[rt].flag == UP {
        var out := Forward(rt, p.hdr, now);
        outs := [out];
      } else if p.hdr.saddr == index {
        outs := BufferAndAsk(p, now);
      } else {
        outs := [Broadcast(Rectificator(index, [Lost(dst, rtable.rthead[rt].seqno)])), Drop(p.hdr, NO_ROUTE)];
      }
    }

    /** recv, for a data packet. */
    method RecvData(p: RQueue.Packet, now: real) returns (outs: seq<Output>)
      requires Valid() && p !in rqueue.spine
      modifies this, rtable, rqueue, rqueue.repr, p
      ensures Valid() && rqueue.repr <= old(rqueue.repr) + {p}
      ensures AfterData(old(State()), now, old(p.hdr)) == Step(State(), outs)
    {
      if p.hdr.saddr == index && p.hdr.forwards == 0 {
        if p.hdr.daddr != BROADCAST {
          p.hdr := p.hdr.(ttl := NETWORK_DIAMETER);
        }
      } else if p.hdr.saddr == index {
        return [Drop(p.hdr, ROUTE_LOOP)];
      } else {
        p.hdr := p.hdr.(ttl := p.hdr.ttl - 1);
        if p.hdr.ttl == 0 {
          return [Drop(p.hdr, TTL_OVER)];
        }
      }
      assert Valid() && State() == old(State());
      if p.hdr.daddr != BROADCAST {
        outs := RtResolution(p, now);
      } else if p.hdr.ttl == 0 {
        outs := [Drop(p.hdr, TTL_OVER)];
      } else if p.hdr.up || p.hdr.daddr == index {
        outs := [Local(p.hdr)];
      } else {
        outs := [Broadcast(DataMsg(p.hdr))];
      }
    }

    // -------------------------------------------------------------- learning a route from an ant

    /** The acceptance test and update of both ant handlers, for the entry at position i. */
    method AcceptAt(i: nat, now: real, srcSeqno: nat, hops: nat) returns (outs: seq<Output>)
      requires Valid() && i < |rtable.rthead|
      modifies rtable, rqueue, rqueue.repr
      ensures Valid() && rqueue.repr == old(rqueue.repr)
      ensures Install(old(State()), now, i, srcSeqno, hops) == Step(State(), outs)
    {
      outs := [];
      var rt0 := rtable.rthead[i];
      if srcSeqno > rt0.seqno || (srcSeqno == rt0.seqno && hops < rt0.hops) {
        rtable.rthead := rtable.rthead[i := Updated(rt0, srcSeqno, hops, Max(rt0.expire, now + ROUTE_LIFE))];
        outs := DrainTo(i, now);
      }
    }

    method PrepareRoute(now: real, prev: Addr, ner: Addr, outward: bool) returns (rt0: int)
      requires Valid()
      modifies this`arhead, this`demNum, this`askRt, rtable
      ensures Valid()
      ensures Prepare(old(State()), now, prev, ner, outward) == Prepared(State(), rt0)
    {
      hide FindVia, FindRequest, RemoveAt;
      var asked := ArLookup(ner);
      if asked {
        ArDelete(ner);
      }
      rt0 := rtable.RtLookupVia(prev, ner);
      if rt0 < 0 {
        rtable.RtAddVia(prev, ner);
        rt0 := 0;
      } else if outward {
        var e := rtable.rthead[rt0];
        rtable.rthead := rtable.rthead[rt0 := e.(expire := Max(e.expire, now + ROUTE_LIFE))];
      }
    }

    method Learn(now: real, prev: Addr, ner: Addr, srcSeqno: nat, hops: nat, outward: bool) returns (outs: seq<Output>)
      requires Valid()
      modifies this`arhead, this`demNum, this`askRt, rtable, rqueue, rqueue.repr
      ensures Valid() && rqueue.repr == old(rqueue.repr)
      ensures AfterLearn(old(State()), now, prev, ner, srcSeqno, hops, outward) == Step(State(), outs)
    {
      var rt0 := PrepareRoute(now, prev, ner, outward);
      outs := AcceptAt(rt0, now, srcSeqno, hops);
    }

    method Precursor(nextHop: Addr, dst: Addr, id: Addr)
      requires Valid()
      modifies rtable
      ensures Valid() && State() == AddPrecursor(old(State()), nextHop, dst, id)
    {
      var ln := rtable.RtLookupVia(nextHop, dst);
      if ln >= 0 {
        rtable.PcInsert(ln, id);
      }
    }

    // -------------------------------------------------------------- return ants

    /** The search for the request of etab. */
    method FindDemand(etab: Addr) returns (detask: Addr, qte: real)
      requires Asked(arhead, etab)
      ensures detask == etab && qte == arhead[FindRequest(arhead, etab)].qte
    {
      var i := 0;
      while i < |arhead|
        invariant 0 <= i <= FindRequest(arhead, etab)
      {
        if arhead[i].dst == etab {
          return arhead[i].dst, arhead[i].qte;
        }
        i := i + 1;
      }
    }

    /** The walk to the end of the request list. */
    method LastDemand() returns (detask: Addr, qte: real)
      ensures if arhead == [] then detask == 0 && qte == 0.0
        else detask == arhead[|arhead| - 1].dst && qte == arhead[|arhead| - 1].qte
    {
      detask, qte := 0, 0.0;
      var i := 0;
      while i < |arhead|
        invariant 0 <= i <= |arhead|
        invariant if i == 0 then detask == 0 && qte == 0.0 else detask == arhead[i - 1].dst && qte == arhead[i - 1].qte
      {
        detask, qte := arhead[i].dst, arhead[i].qte;
        i := i + 1;
      }
    }

    /** The askRt branches of sendAntLightReturn. */
    method ChooseDemand(now: real, etab: Addr) returns (detask: Addr, qte: real)
      requires Valid()
      modifies this`arhead, this`demNum, this`askRt
      ensures Valid()
      ensures Advertise(old(State()), now, etab) == Advert(State(), detask, qte)
    {
      if !askRt {
        return NO_DEMAND, 0.0;
      }
      var asked := ArLookup(etab);
      if etab != -1 && asked {
        detask, qte := FindDemand(etab);
      } else {
        detask, qte := LastDemand();
        ArDelete(detask);
        ArInsert(detask, qte, now);
      }
    }

    method SendAntLightReturn(trail: seq<Addr>, src: Addr, etab: Addr, now: real) returns (outs: seq<Output>)
      requires Valid()
      modifies this`seqno, this`arhead, this`demNum, this`askRt
      ensures Valid()
      ensures AfterSendReturn(old(State()), now, trail, src, etab) == Step(State(), outs)
    {
      hide FindNb, Cell, Advertise;
      ghost var s := State();
      var hop := Cell(trail, |trail|);
      var nb := NbLookup(hop);
      if nb < 0 {
        return [];
      }
      seqno := seqno + 2;
      assert State() == s.(seqno := s.seqno + 2);
      var detask, qte := ChooseDemand(now, etab);
      outs := [Send(hop, Return(ReturnAnt(
        seqno, index, detask, index, true, 1, src, if trail == [] then 255 else |trail| - 1, trail, qte)))];
    }

    method SendAntLightRt(dem: Addr, dst: Addr, nxt: Addr, hops: nat) returns (outs: seq<Output>)
      requires Valid()
      modifies this`seqno, this`idAgent
      ensures Valid()
      ensures AfterSendRt(old(State()), dem, dst, nxt, hops) == Step(State(), outs)
    {
      idAgent := idAgent + 1;
      seqno := seqno + 2;
      outs := [Send(nxt, Go(GoAnt(
        seqno, index, dem, dst, true, U8(hops), idAgent - 1, index, [index], true, 0, index)))];
    }

    /** The deposit of pheromone. */
    method DepositAt(claimant: Addr, asked: Addr, qte: real, hop: Addr)
      requires Valid()
      modifies phtable
      ensures Valid() && phtable.phthead == Deposit(old(phtable.phthead), claimant, asked, qte, hop)
    {
      var rtph0 := phtable.RtphLookup(claimant, asked);
      if rtph0 < 0 {
        phtable.RtphAdd(claimant, asked, qte);
        phtable.NbphInsert(0, hop);
      } else {
        phtable.PheromoneAdd(claimant, asked, qte);
        phtable.NbphInsert(rtph0, hop);
      }
    }

    /** The pheromone part of recvAntLightReturn. */
    method RecordDemand(a: ReturnAnt) returns (outs: seq<Output>)
      requires Valid()
      modifies this`seqno, this`idAgent, phtable
      ensures Valid()
      ensures AfterDemand(old(State()), a) == Step(State(), outs)
    {
      outs := [];
      if a.detask == NO_DEMAND {
        return;
      }
      var rt := rtable.RtLookupOptimal(a.detask);
      if rt >= 0 {
        outs := SendAntLightRt(a.ner, rtable.rthead[rt].dst, a.prevNode, rtable.rthead[rt].hops);
      }
      DepositAt(a.ner, a.detask, a.qte, a.prevNode);
    }

    /** The last part of recvAntLightReturn. */
    method PassBack(a: ReturnAnt) returns (outs: seq<Output>)
      requires Valid()
      modifies rtable
      ensures Valid()
      ensures AfterPassBack(old(State()), a) == Step(State(), outs)
    {
      if a.src == index {
        return [];
      }
      var hop := Cell(a.trail, a.count);
      var nb := NbLookup(hop);
      if a.valid && nb >= 0 {
        Precursor(a.prevNode, a.ner, hop);
        outs := [Send(hop, Return(a.(
          hops := U8(a.hops + 1), prevNode := index, count := if a.count == 0 then 255 else a.count - 1)))];
      } else {
        outs := [];
      }
    }

    method RecvAntLightReturn(a: ReturnAnt, now: real) returns (outs: seq<Output>)
      requires Valid()
      modifies this, rtable, phtable, rqueue, rqueue.repr
      ensures Valid() && rqueue.repr == old(rqueue.repr)
      ensures AfterReturn(old(State()), now, a) == Step(State(), outs)
    {
      ghost var s := State();
      outs := [];
      var nb := NbLookup(a.prevNode);
      if a.valid && nb >= 0 {
        outs := Learn(now, a.prevNode, a.ner, a.seqno, a.hops, false);
      }
      ghost var r := if a.valid && IsNb(s.nbs, a.prevNode)
        then AfterLearn(s, now, a.prevNode, a.ner, a.seqno, a.hops, false) else Step(s, []);
      assert r == Step(State(), outs);
      var more := RecordDemand(a);
      outs := outs + more;
      ghost var r2 := Then(r, AfterDemand(r.node, a));
      assert r2 == Step(State(), outs);
      more := PassBack(a);
      outs := outs + more;
    }

    // -------------------------------------------------------------- outward ants

    method SendAntLightClone(a: GoAnt, now: real) returns (outs: seq<Output>)
      requires Valid()
      modifies this`seqno, this`arhead, this`demNum, this`askRt
      ensures Valid()
      ensures AfterSendClone(old(State()), now, a) == Step(State(), outs)
    {
      var hop, i := NO_TARGET, 0;
      while i < |nbhead|
        invariant 0 <= i <= |nbhead| && hop == NO_TARGET
        invariant FirstOther(nbhead, a.prevHop) == FirstOther(nbhead[i..], a.prevHop)
      {
        assert nbhead[i..][1..] == nbhead[i + 1..];
        if nbhead[i].addr != a.prevHop {
          hop := nbhead[i].addr;
          break;
        }
        i := i + 1;
      }
      if hop == NO_TARGET {
        outs := SendAntLightReturn(a.trail, a.src, -1, now);
      } else {
        outs := [Send(hop, Go(a.(
          hops := U8(a.hops + 1), prevNode := index, target := NO_TARGET, ner := a.src,
          trail := a.trail + [index], prevHop := index)))];
      }
    }

    /** The inner loop of the route scan. */
    method ScanFor(nb: Addr, ner: Addr, hop: Addr, f0: Found) returns (f: Found)
      requires !f0.visited
      ensures f == ScanEntries(rtable.rthead, nb, ner, hop, f0)
    {
      f := f0;
      var j := 0;
      ghost var t := rtable.rthead;
      while j < |rtable.rthead|
        invariant 0 <= j <= |t| && !f.visited
        invariant ScanEntries(t, nb, ner, hop, f0) == ScanEntries(t[j..], nb, ner, hop, f)
      {
        assert t[j..][1..] == t[j + 1..];
        var rt := rtable.rthead[j];
        if rt.dst == ner && rt.nextHop == nb && nb == hop {
          f := f.(visited := true);
          return;
        }
        if rt.dst == ner && rt.nextHop == nb && (rt.seqno > 0 || (rt.seqno == 0 && rt.hops < 10000)) {
          f := Found(true, f.visited, rt.hops, rt.seqno, rt.nextHop);
        }
        j := j + 1;
      }
    }

    /** The nested loops over neighbours and routes. */
    method Scan(ner: Addr, hop: Addr, f0: Found) returns (f: Found)
      requires !f0.visited
      ensures f == ScanNeighbors(nbhead, rtable.rthead, ner, hop, f0)
    {
      f := f0;
      var i := 0;
      while i < |nbhead|
        invariant 0 <= i <= |nbhead| && !f.visited
        invariant var t := rtable.rthead;
          ScanNeighbors(nbhead, t, ner, hop, f0) == ScanNeighbors(nbhead[i..], t, ner, hop, f)
      {
        assert nbhead[i..][1..] == nbhead[i + 1..];
        f := ScanFor(nbhead[i].addr, ner, hop, f);
        if f.visited {
          return;
        }
        i := i + 1;
      }
    }

    /** The ant takes over what this node knows about its subject. */
    method AimAnt(a: GoAnt, hop: Addr) returns (b: GoAnt)
      requires Valid()
      modifies rtable
      ensures Valid()
      ensures Aim(old(State()), a, hop) == Aimed(State(), b)
    {
      if a.ner == index {
        return a.(hops := 0, seqno := seqno, valid := true);
      }
      var f := Scan(a.ner, hop, Found(false, false, a.hops, a.seqno, NO_HOP));
      b := a.(hops := if f.valider then U8(f.hops) else a.hops, seqno := f.seqno, valid := f.valider && !f.visited);
      if b.valid {
        Precursor(f.via, a.ner, hop);
      }
    }

    /** The end of chooseNextHop. */
    method Relay(a: GoAnt, hop: Addr, now: real) returns (outs: seq<Output>)
      requires Valid()
      modifies this`seqno, this`arhead, this`demNum, this`askRt
      ensures Valid()
      ensures AfterRelay(old(State()), now, a, hop) == Step(State(), outs)
    {
      if hop == NO_HOP {
        outs := SendAntLightReturn(a.trail, a.src, -1, now);
      } else {
        outs := [Send(hop, Go(a.(prevNode := index, trail := a.trail + [index], hops := U8(a.hops + 1))))];
      }
    }

    method VisitedNode(nb: Addr, trail: seq<Addr>) returns (visited: bool)
      ensures visited <==> nb in trail
    {
      var k := 0;
      while k < |trail|
        invariant 0 <= k <= |trail| && nb !in trail[..k]
      {
        if trail[k] == nb {
          return true;
        }
        k := k + 1;
      }
      return false;
    }

    method FindUnvisited(a: GoAnt) returns (hop: Addr)
      ensures hop == FirstUnvisited(nbhead, a)
    {
      var i := 0;
      while i < |nbhead|
        invariant 0 <= i <= |nbhead|
        invariant FirstUnvisited(nbhead, a) == FirstUnvisited(nbhead[i..], a)
      {
        assert nbhead[i..][1..] == nbhead[i + 1..];
        var visited := VisitedNode(nbhead[i].addr, a.trail);
        if nbhead[i].addr != a.prevNode && nbhead[i].addr != a.src && !visited {
          return nbhead[i].addr;
        }
        i := i + 1;
      }
      return NO_HOP;
    }

    /** A satisfied claim: a clone wanders on, the ant itself turns to the claimant. */
    method Satisfy(a: GoAnt, slot: Roulette.Slot, now: real) returns (outs: seq<Output>)
      requires Valid()
      modifies this`seqno, this`arhead, this`demNum, this`askRt, rtable
      ensures Valid()
      ensures var r := AfterSendClone(old(State()), now, a);
        var aimed := Aim(r.node, a.(target := slot.claimant, ner := slot.asked, ttl := ANT_TTL), slot.hop);
        Then(r, AfterRelay(aimed.node, now, aimed.ant, slot.hop)) == Step(State(), outs)
    {
      outs := SendAntLightClone(a, now);
      var b := AimAnt(a.(target := slot.claimant, ner := slot.asked, ttl := ANT_TTL), slot.hop);
      var more := Relay(b, slot.hop, now);
      outs := outs + more;
    }

    /** The search branch of chooseNextHop. overrun: the source writes beyond its arrays, and nothing is said
        of what follows. */
    method Search(a: GoAnt, now: real, draw: nat, junk: Roulette.Slot) returns (outs: seq<Output>, overrun: bool)
      requires Valid()
      modifies this`seqno, this`arhead, this`demNum, this`askRt, rtable
      ensures Valid()
      ensures overrun <==> !Roulette.Fits(nbhead, phtable.phthead)
      ensures !overrun ==> AfterSearch(old(State()), now, a, draw, junk) == Step(State(), outs)
    {
      hide Roulette.Fits, Roulette.Slots, Roulette.Spare, Roulette.AnyNamed, Roulette.Cells, PhTable.Valid;
      hide FirstUnvisited, AfterSendClone, Aim, AfterRelay, AddPrecursor;
      outs := [];
      var claimanttab, dstasktab, nexthooptab, taille, intable;
      claimanttab, dstasktab, nexthooptab, taille, intable, overrun := Roulette.Fill(nbhead, phtable.phthead, junk);
      if overrun {
        return;
      }
      var hop := NO_HOP;
      if intable && taille > 0 {
        var r := draw % taille;
        hop := nexthooptab[r];
        if claimanttab[r] != -1 {
          outs := Satisfy(a, Roulette.Slot(claimanttab[r], dstasktab[r], hop), now);
          return;
        }
      } else {
        hop := FindUnvisited(a);
      }
      if index != a.src {
        Precursor(a.prevNode, a.ner, hop);
      }
      outs := Relay(a, hop, now);
    }

    method ChooseNextHop(a: GoAnt, now: real, draw: nat, junk: Roulette.Slot) returns (outs: seq<Output>, overrun: bool)
      requires Valid()
      modifies this`seqno, this`arhead, this`demNum, this`askRt, rtable
      ensures Valid()
      ensures overrun <==> Searches(old(State()), a) && !Roulette.Fits(nbhead, phtable.phthead)
      ensures !overrun ==> AfterChoose(old(State()), now, a, draw, junk) == Step(State(), outs)
    {
      overrun := false;
      if a.target != NO_TARGET {
        if a.target == index {
          outs := SendAntLightReturn(a.trail, a.src, a.ner, now);
        } else {
          var hop := NO_HOP;
          var phrt := phtable.RtphLookup(a.target, a.ner);
          if phrt >= 0 {
            var nbs := phtable.phthead[phrt].nbs;
            hop := if nbs == [] then UNWRITTEN else nbs[0];
          }
          var b := AimAnt(a, hop);
          outs := Relay(b, hop, now);
        }
      } else if askRt && index != a.src {
        outs := SendAntLightReturn(a.trail, a.src, -1, now);
        if a.ttl != 0 {
          var more := SendAntLightClone(a, now);
          outs := outs + more;
        }
      } else if a.ttl == 0 {
        outs := SendAntLightReturn(a.trail, a.src, -1, now);
      } else {
        outs, overrun := Search(a, now, draw, junk);
      }
    }

    /** The direct ants of sendAntLightRt. */
    method FollowRoute(a: GoAnt) returns (outs: seq<Output>)
      requires Valid()
      ensures AfterDirect(State(), a) == Step(State(), outs)
    {
      outs := [];
      if a.target != index {
        var rt := rtable.RtLookupOptimal(a.target);
        if rt >= 0 {
          outs := [Send(rtable.rthead[rt].nextHop, Go(a.(prevNode := index, hops := U8(a.hops + 1))))];
        }
      }
    }

    /** The last decision of recvAntLightGo. */
    method Onward(a: GoAnt, now: real, draw: nat, junk: Roulette.Slot) returns (outs: seq<Output>, overrun: bool)
      requires Valid()
      modifies this`seqno, this`arhead, this`demNum, this`askRt, rtable
      ensures Valid()
      ensures overrun <==> !a.direct && Searches(old(State()), a) && !Roulette.Fits(nbhead, phtable.phthead)
      ensures !overrun && a.direct ==> AfterDirect(old(State()), a) == Step(State(), outs)
      ensures !overrun && !a.direct ==> AfterChoose(old(State()), now, a, draw, junk) == Step(State(), outs)
    {
      overrun := false;
      if a.direct {
        outs := FollowRoute(a);
      } else {
        outs, overrun := ChooseNextHop(a, now, draw, junk);
      }
    }

    /** The id cached, the route learned. */
    method Admit(a: GoAnt, now: real) returns (outs: seq<Output>)
      requires Valid()
      modifies this, rtable, rqueue, rqueue.repr
      ensures Valid() && rqueue.repr == old(rqueue.repr)
      ensures Protocol.Admitted(old(State()), now, a) == Step(State(), outs)
    {
      hide AfterLearn;
      ghost var s1 := State().(ids := [AgentId(a.src, a.id, now + AGENT_ID_SAVE)] + State().ids);
      IdInsert(a.src, a.id, now);
      assert State() == s1;
      outs := [];
      var nb := NbLookup(a.prevNode);
      if a.valid && nb >= 0 {
        outs := Learn(now, a.prevNode, a.ner, a.seqno, a.hops, true);
      }
    }

    /** recvAntLightGo; the ttl has been taken by recv. */
    method RecvAntLightGo(a: GoAnt, now: real, draw: nat, junk: Roulette.Slot)
      returns (outs: seq<Output>, overrun: bool)
      requires Valid()
      modifies this, rtable, rqueue, rqueue.repr
      ensures Valid() && rqueue.repr == old(rqueue.repr)
      ensures overrun <==> Overruns(old(State()), now, a)
      ensures !overrun ==> AfterGo(old(State()), now, a, draw, junk) == Step(State(), outs)
    {
      hide Protocol.Admitted, AfterDirect, AfterChoose, Searches;
      var seen := IdLookup(a.src, a.id);
      if index == a.src || seen {
        return [], false;
      }
      outs := Admit(a, now);
      var more;
      more, overrun := Onward(a, now, draw, junk);
      outs := outs + more;
    }

    method SendAntLight(draw: nat) returns (outs: seq<Output>)
      requires Valid()
      modifies this`seqno, this`idAgent
      ensures Valid()
      ensures AfterSendAnt(old(State()), draw) == Step(State(), outs)
    {
      idAgent := idAgent + 1;
      seqno := seqno + 2;
      var nexthp := NO_TARGET;
      if nbNum > 0 {
        var v := draw % nbNum;
        if v == 0 {
          v := 1;
        }
        var i, k := 0, 0;
        while k < |nbhead|
          invariant 0 <= k <= |nbhead| && i == k < v && nexthp == NO_TARGET
        {
          i := i + 1;
          if i == v {
            nexthp := nbhead[k].addr;
            break;
          }
          k := k + 1;
        }
      }
      if nexthp == NO_TARGET {
        return [];
      }
      outs := [Send(nexthp, Go(GoAnt(
        seqno, index, NO_TARGET, index, true, 1, idAgent - 1, index, [index], false, ANT_TTL, index)))];
    }

    method SendHello() returns (outs: seq<Output>)
      ensures outs == [Broadcast(Hello(index))]
    {
      outs := [Broadcast(Hello(index))];
    }

    // -------------------------------------------------------------- dispatch

    /** recv and recvANTCONF: whatever arrives, the fields change as AfterRecv says. */
    method Recv(m: Msg, now: real, draw: nat, junk: Roulette.Slot) returns (outs: seq<Output>, overrun: bool)
      requires Valid()
      modifies Repr()
      ensures Valid() && fresh(Repr() - old(Repr()))
      ensures overrun <==> m.Go? && Overruns(old(State()), now, m.go.(ttl := m.go.ttl - 1))
      ensures !overrun ==> AfterRecv(old(State()), now, m, draw, junk) == Step(State(), outs)
    {
      overrun := false;
      match m
      case Go(a) => outs, overrun := RecvAntLightGo(a.(ttl := a.ttl - 1), now, draw, junk);
      case Return(a) => outs := RecvAntLightReturn(a, now);
      case Rectificator(sender, lost) => outs := RecvRectificatorAgent(sender, lost);
      case Hello(origin) =>
        RecvHello(origin, now);
        outs := [];
      case DataMsg(d) =>
        var p := new RQueue.Packet(d);
        outs := RecvData(p, now);
    }

    /** The handlers of the seven timers that do anything. */
    method OnTimer(t: Timer, now: real, draw: nat) returns (outs: seq<Output>)
      requires Valid()
      modifies Repr()
      ensures Valid() && fresh(Repr() - old(Repr()))
      ensures AfterTimer(old(State()), now, t, draw) == Step(State(), outs)
    {
      outs := [];
      match t
      case AntTimer => outs := SendAntLight(draw);
      case IdTimer => IdPurge(now);
      case HelloTimer => outs := SendHello();
      case NeighborTimer => outs := NbPurge(now);
      case RouteTimer => outs := RtPurge(now);
      case PheromoneTimer => PhtPurge();
      case RequestTimer => PhdPurge();
    }

    /** One input of any kind. */
    method Take(i: Input) returns (outs: seq<Output>, overrun: bool)
      requires Valid()
      modifies Repr()
      ensures Valid() && fresh(Repr() - old(Repr()))
      ensures overrun <==> TooMuch(old(State()), i)
      ensures !overrun ==> AfterInput(old(State()), i) == Step(State(), outs)
    {
      overrun := false;
      match i
      case Arrival(m, now, draw, junk) => outs, overrun := Recv(m, now, draw, junk);
      case Tick(timer, now, draw) => outs := OnTimer(timer, now, draw);
      case Failure(d, nextHop) => outs := LinklayerFailed(d, nextHop);
    }

    /** Any sequence of inputs, up to the first that is too much for the arrays. */
    method TakeAll(inputs: seq<Input>) returns (outs: seq<Output>, overrun: bool)
      requires Valid()
      modifies Repr()
      ensures Valid() && fresh(Repr() - old(Repr()))
      ensures overrun <==> TooMuchInAll(old(State()), inputs)
      ensures !overrun ==> AfterAll(old(State()), inputs) == Step(State(), outs)
    {
      hide AfterInput, TooMuch;
      outs, overrun := [], false;
      for i := 0 to |inputs|
        invariant Valid() && fresh(Repr() - old(Repr()))
        invariant AfterAll(old(State()), inputs[..i]) == Step(State(), outs)
        invariant forall j :: 0 <= j < i ==> !TooMuch(AfterAll(old(State()), inputs[..j]).node, inputs[j])
      {
        assert inputs[..i + 1][..i] == inputs[..i];
        var more;
        more, overrun := Take(inputs[i]);
        if overrun {
          return;
        }
        outs := outs + more;
      }
      assert inputs[..|inputs|] == inputs;
    }
  }
}

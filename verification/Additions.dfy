/** The calls of rt_add over a run, and the assertion that each of them meets or not (antconf_rtable.cc:175
    and 189: no entry for the destination is there yet). */
module Additions {
  import opened Types
  import opened PacketQueue
  import opened RoutingTable
  import opened PheromoneTable
  import opened Requests
  import opened Protocol
  import opened NodeInvariant
  import opened HandlersKeep
  import opened Frames
  import opened Network
  import Roulette

  // ---------------------------------------------------------------- where rt_add is called

  /** antconf.cc:832-850 and 1445-1461: the ant handlers look up the way through prev and miss it. */
  predicate LearnAdds(s: Node, valid: bool, prev: Addr, ner: Addr) {
    valid && IsNb(s.nbs, prev) && FindVia(s.rtable, prev, ner) < 0
  }

  /** antconf.cc:532-556: recv hands the packet to rt_resolution. */
  predicate Resolves(s: Node, p: Data) {
    p.daddr != BROADCAST && if p.saddr == s.index then p.forwards == 0 else p.ttl != 1
  }

  /** antconf.cc:574-589: rt_resolution finds no neighbour and no optimal route. */
  predicate ResolveAdds(s: Node, p: Data) {
    Resolves(s, p) && !IsNb(s.nbs, p.daddr) && FindOptimal(s.rtable, p.daddr) < 0
  }

  /** The destination rt_add is called for when m is received, if it is called. */
  function AddedFor(s: Node, m: Msg): (r: seq<Addr>)
    ensures |r| <= 1
  {
    match m
    case Go(a) => if Admits(s, a) && LearnAdds(s, a.valid, a.prevNode, a.ner) then [a.ner] else []
    case Return(a) => if LearnAdds(s, a.valid, a.prevNode, a.ner) then [a.ner] else []
    case DataMsg(p) => if ResolveAdds(s, p) then [p.daddr] else []
    case _ => []
  }

  // ---------------------------------------------------------------- one node

  function Dsts(t: seq<Entry>): (r: seq<Addr>)
    ensures |r| == |t| && forall i :: 0 <= i < |t| ==> r[i] == t[i].dst
  {
    if t == [] then [] else Dsts(t[..|t| - 1]) + [t[|t| - 1].dst]
  }

  /** The table has grown at its head by an entry for each destination in added. */
  ghost predicate Grown(t: seq<Entry>, t': seq<Entry>, added: seq<Addr>) {
    Dsts(t') == added + Dsts(t)
  }

  lemma SameDsts(t: seq<Entry>, t': seq<Entry>)
    requires |t| == |t'| && forall i :: 0 <= i < |t| ==> t'[i].dst == t[i].dst
    ensures Grown(t, t', [])
  {
    assert Dsts(t') == Dsts(t) == [] + Dsts(t);
  }

  lemma OneMore(t: seq<Entry>, e: Entry)
    ensures Grown(t, [e] + t, [e.dst])
  {
    assert Dsts([e] + t) == [e.dst] + Dsts(t);
  }

  lemma GrownThen(a: seq<Entry>, b: seq<Entry>, c: seq<Entry>, added: seq<Addr>)
    requires Grown(a, b, added) && Grown(b, c, [])
    ensures Grown(a, c, added)
  {
  }

  lemma NothingGrown(t: seq<Entry>)
    ensures Grown(t, t, [])
  {
    SameDsts(t, t);
  }

  lemma PrepareGrown(s: Node, now: real, prev: Addr, ner: Addr, outward: bool)
    ensures Grown(s.rtable, Prepare(s, now, prev, ner, outward).node.rtable,
                  if FindVia(s.rtable, prev, ner) < 0 then [ner] else [])
  {
    hide FindVia, FindRequest, Grown, Delete;
    var t' := Prepare(s, now, prev, ner, outward).node.rtable;
    if FindVia(s.rtable, prev, ner) < 0 {
      OneMore(s.rtable, Fresh(prev, ner));
    } else {
      SameDsts(s.rtable, t');
    }
  }

  lemma LearnGrown(s: Node, now: real, prev: Addr, ner: Addr, seqno: nat, hops: nat, outward: bool)
    ensures Grown(s.rtable, AfterLearn(s, now, prev, ner, seqno, hops, outward).node.rtable,
                  if FindVia(s.rtable, prev, ner) < 0 then [ner] else [])
  {
    hide FindVia, Grown, Keep, Prepare;
    PrepareGrown(s, now, prev, ner, outward);
    var p := Prepare(s, now, prev, ner, outward);
    var t' := Install(p.node, now, p.at, seqno, hops).node.rtable;
    SameDsts(p.node.rtable, t');
    GrownThen(s.rtable, p.node.rtable, t', if FindVia(s.rtable, prev, ner) < 0 then [ner] else []);
  }

  lemma AimGrown(s: Node, a: GoAnt, hop: Addr)
    ensures Grown(s.rtable, Aim(s, a, hop).node.rtable, [])
  {
    hide FindVia, ScanNeighbors, Grown;
    SameDsts(s.rtable, Aim(s, a, hop).node.rtable);
  }

  lemma SearchGrown(s: Node, now: real, a: GoAnt, draw: nat, junk: Roulette.Slot)
    ensures Grown(s.rtable, AfterSearch(s, now, a, draw, junk).node.rtable, [])
  {
    hide Aim, AfterSendClone, AfterRelay, FindVia, Grown;
    var w := Roulette.Build(s.nbs, s.phtable, junk);
    if w.touched && w.size > 0 && w.cells[draw % w.size].claimant != -1 {
      var slot := w.cells[draw % w.size];
      var b := a.(target := slot.claimant, ner := slot.asked, ttl := ANT_TTL);
      CloneFrame(s, now, a);
      var s1 := AfterSendClone(s, now, a).node;
      AimGrown(s1, b, slot.hop);
      RelayFrame(Aim(s1, b, slot.hop).node, now, Aim(s1, b, slot.hop).ant, slot.hop);
    } else {
      var hop := if w.touched && w.size > 0 then w.cells[draw % w.size].hop else FirstUnvisited(s.nbs, a);
      var s1 := if s.index != a.src then AddPrecursor(s, a.prevNode, a.ner, hop) else s;
      SameDsts(s.rtable, s1.rtable);
      RelayFrame(s1, now, a, hop);
    }
  }

  lemma ChooseGrown(s: Node, now: real, a: GoAnt, draw: nat, junk: Roulette.Slot)
    ensures Grown(s.rtable, AfterChoose(s, now, a, draw, junk).node.rtable, [])
  {
    hide AfterSearch, Aim, AfterRelay, AfterSendClone, AfterSendReturn, Grown;
    NothingGrown(s.rtable);
    SendReturnFrame(s, now, a.trail, a.src, if a.target != NO_TARGET then a.ner else -1);
    if a.target != NO_TARGET {
      var k := FindKey(s.phtable, a.target, a.ner);
      var hop := if k < 0 then NO_HOP else if s.phtable[k].nbs == [] then UNWRITTEN else s.phtable[k].nbs[0];
      AimGrown(s, a, hop);
      RelayFrame(Aim(s, a, hop).node, now, Aim(s, a, hop).ant, hop);
    } else if s.askRt && s.index != a.src {
      CloneFrame(AfterSendReturn(s, now, a.trail, a.src, -1).node, now, a);
    } else if a.ttl != 0 {
      SearchGrown(s, now, a, draw, junk);
    }
  }

  lemma GoGrown(s: Node, now: real, a: GoAnt, draw: nat, junk: Roulette.Slot)
    ensures Grown(s.rtable, AfterGo(s, now, a, draw, junk).node.rtable, AddedFor(s, Go(a)))
  {
    hide AfterLearn, AfterChoose, Grown, FindVia;
    if Admits(s, a) {
      var s1 := s.(ids := [AgentId(a.src, a.id, now + AGENT_ID_SAVE)] + s.ids);
      LearnGrown(s1, now, a.prevNode, a.ner, a.seqno, a.hops, true);
      var r := Admitted(s, now, a).node;
      NothingGrown(s.rtable);
      ChooseGrown(r, now, a, draw, junk);
      NothingGrown(r.rtable);
      GrownThen(s.rtable, r.rtable, AfterGo(s, now, a, draw, junk).node.rtable, AddedFor(s, Go(a)));
    } else {
      NothingGrown(s.rtable);
    }
  }

  lemma ReturnGrown(s: Node, now: real, a: ReturnAnt)
    ensures Grown(s.rtable, AfterReturn(s, now, a).node.rtable, AddedFor(s, Return(a)))
  {
    hide AfterLearn, AfterDemand, AfterPassBack, Grown, FindVia;
    NothingGrown(s.rtable);
    var r := if a.valid && IsNb(s.nbs, a.prevNode)
      then AfterLearn(s, now, a.prevNode, a.ner, a.seqno, a.hops, false) else Step(s, []);
    LearnGrown(s, now, a.prevNode, a.ner, a.seqno, a.hops, false);
    assert Grown(s.rtable, r.node.rtable, AddedFor(s, Return(a)));
    DemandFrame(r.node, a);
    var d := AfterDemand(r.node, a).node;
    PassBackGrown(d, a);
    GrownThen(s.rtable, d.rtable, AfterPassBack(d, a).node.rtable, AddedFor(s, Return(a)));
  }

  lemma PassBackGrown(s: Node, a: ReturnAnt)
    ensures Grown(s.rtable, AfterPassBack(s, a).node.rtable, [])
  {
    hide FindVia, Grown;
    SameDsts(s.rtable, AfterPassBack(s, a).node.rtable);
  }

  lemma DataGrown(s: Node, now: real, p: Data)
    ensures Grown(s.rtable, AfterData(s, now, p).node.rtable, AddedFor(s, DataMsg(p)))
  {
    hide FindNb, Enque, Grown, FindOptimal;
    var t' := AfterData(s, now, p).node.rtable;
    if AddedFor(s, DataMsg(p)) == [] {
      SameDsts(s.rtable, t');
    } else {
      OneMore(s.rtable, Fresh(NO_TARGET, p.daddr));
    }
  }

  lemma {:induction false} HeedGrown(t: seq<Entry>, sender: Addr, lost: seq<Lost>)
    ensures Grown(t, Heed(t, sender, lost).table, [])
  {
    NothingGrown(t);
    if lost != [] {
      var n := |lost| - 1;
      var mid := Heed(t, sender, lost[..n]).table;
      HeedGrown(t, sender, lost[..n]);
      SameDsts(mid, HeedOne(mid, sender, lost[n]).table);
      GrownThen(t, mid, Heed(t, sender, lost).table, []);
    }
  }

  lemma {:induction false} NbPurgeGrown(s: Node, now: real, i: nat)
    ensures Grown(s.rtable, AfterNbPurge(s, now, i).node.rtable, [])
    decreases |s.nbs| - i
  {
    hide Grown;
    NothingGrown(s.rtable);
    if i < |s.nbs| {
      if s.nbs[i].expire <= now {
        var r := AfterNbDelete(s, s.nbs[i].addr).node;
        SameDsts(s.rtable, r.rtable);
        NbPurgeGrown(r, now, i);
        GrownThen(s.rtable, r.rtable, AfterNbPurge(r, now, i).node.rtable, []);
      } else {
        NbPurgeGrown(s, now, i + 1);
      }
    }
  }

  lemma RecvGrown(s: Node, now: real, m: Msg, draw: nat, junk: Roulette.Slot)
    ensures Grown(s.rtable, AfterRecv(s, now, m, draw, junk).node.rtable, AddedFor(s, m))
  {
    hide Grown, AfterGo, AfterReturn, AfterData;
    match m
    case Go(a) => GoGrown(s, now, a.(ttl := a.ttl - 1), draw, junk);
    case Return(a) => ReturnGrown(s, now, a);
    case Rectificator(sender, lost) => HeedGrown(s.rtable, sender, lost);
    case Hello(_) => NothingGrown(s.rtable);
    case DataMsg(p) => DataGrown(s, now, p);
  }

  lemma TimerGrown(s: Node, now: real, t: Timer, draw: nat)
    requires NodeInv(s, now)
    ensures Grown(s.rtable, AfterTimer(s, now, t, draw).node.rtable, [])
  {
    hide Grown, AfterNbPurge, AfterRtPurge, NodeInv;
    NothingGrown(s.rtable);
    if t.NeighborTimer? {
      NbPurgeGrown(s, now, 0);
    } else if t.RouteTimer? {
      RtPurgeQuiet(s, now, 0);
      SameDsts(s.rtable, AfterRtPurge(s, now, 0).node.rtable);
    }
  }

  // ---------------------------------------------------------------- the network

  /** The destination rt_add is called for in an event, if it is called. */
  function Added(net: Net, ev: Event): seq<Addr>
    requires Enabled(net, ev)
  {
    match ev
    case Deliver(i, _, _, _) => AddedFor(net.nodes[net.wire[i].to], Delivered(net.wire[i].msg))
    case Originate(n, _, _, _, _) => AddedFor(net.nodes[n], DataMsg(NewData(net, ev)))
    case _ => []
  }

  /** In this event node n calls rt_add for d. */
  ghost predicate Calls(net: Net, ev: Event, n: Addr, d: Addr) {
    Enabled(net, ev) && (ev.Deliver? || ev.Originate?) && Actor(net, ev) == n && Added(net, ev) == [d]
  }

  lemma EventGrown(net: Net, ev: Event, n: Addr)
    requires NetInv(net) && Enabled(net, ev) && n in net.nodes
    ensures n in Apply(net, ev).nodes
    ensures Grown(net.nodes[n].rtable, Apply(net, ev).nodes[n].rtable,
                  if (ev.Deliver? || ev.Originate?) && Actor(net, ev) == n then Added(net, ev) else [])
  {
    hide Grown, AfterRecv, Launch;
    NothingGrown(net.nodes[n].rtable);
    if !ev.Lose? && !ev.Elapse? && Actor(net, ev) == n {
      StepGrown(net, ev);
    }
  }

  lemma StepGrown(net: Net, ev: Event)
    requires NetInv(net) && Enabled(net, ev) && !ev.Lose? && !ev.Elapse?
    ensures Actor(net, ev) in net.nodes
    ensures Grown(net.nodes[Actor(net, ev)].rtable, StepOf(net, ev).node.rtable,
                  if ev.Deliver? || ev.Originate? then Added(net, ev) else [])
  {
    hide AfterRecv, AfterTimer, AfterData, Grown;
    var s := net.nodes[Actor(net, ev)];
    assert NodeInv(s, net.now);
    match ev
    case Deliver(i, draw, junk, _) => RecvGrown(s, net.now, Delivered(net.wire[i].msg), draw, junk);
    case LinkFail(_, _) => SameDsts(s.rtable, StepOf(net, ev).node.rtable);
    case Fire(_, timer, draw, _) => TimerGrown(s, net.now, timer, draw);
    case Originate(_, _, _, _, _) => DataGrown(s, net.now, NewData(net, ev));
  }

  /** The i-th event of the run is a call of rt_add for d at node n. */
  ghost predicate CallsAt(net: Net, evs: seq<Event>, i: nat, n: Addr, d: Addr) {
    i < |evs| && Legal(net, evs[..i]) && Calls(Run(net, evs[..i]), evs[i], n, d)
  }

  lemma KnownDst(t: seq<Entry>, d: Addr)
    ensures FindDst(t, d) >= 0 <==> d in Dsts(t)
  {
    var k := FindDst(t, d);
    if k >= 0 {
      assert Dsts(t)[k] == d;
    }
  }

  lemma GrownKnows(t: seq<Entry>, t': seq<Entry>, added: seq<Addr>, d: Addr)
    requires Grown(t, t', added) && |added| <= 1
    ensures FindDst(t', d) >= 0 <==> FindDst(t, d) >= 0 || added == [d]
  {
    KnownDst(t, d);
    KnownDst(t', d);
    assert d in Dsts(t') <==> d in added || d in Dsts(t);
  }

  lemma CallsExtend(net: Net, evs: seq<Event>, n: Addr, d: Addr)
    requires evs != [] && Legal(net, evs)
    ensures var last := |evs| - 1; var front := evs[..last];
      (exists i :: CallsAt(net, evs, i, n, d))
        <==> ((exists i :: CallsAt(net, front, i, n, d)) || Calls(Run(net, front), evs[last], n, d))
  {
    hide Calls, Run;
    var last := |evs| - 1;
    var front := evs[..last];
    forall i: nat | i < last ensures CallsAt(net, evs, i, n, d) <==> CallsAt(net, front, i, n, d) {
      assert front[..i] == evs[..i];
    }
    if Calls(Run(net, front), evs[last], n, d) {
      assert CallsAt(net, evs, last, n, d);
    }
  }

  /** In every run a node has an entry for d exactly when it has called rt_add for d. */
  lemma {:induction false} KnownIffAdded(ids: set<Addr>, evs: seq<Event>, n: Addr, d: Addr)
    requires (forall i :: i in ids ==> i >= 0) && Legal(Start(ids), evs) && n in ids
    ensures n in Run(Start(ids), evs).nodes
    ensures FindDst(Run(Start(ids), evs).nodes[n].rtable, d) >= 0 <==> exists i :: CallsAt(Start(ids), evs, i, n, d)
  {
    hide Apply, Calls;
    EveryRunOk(ids, evs);
    if evs != [] {
      var front, ev := evs[..|evs| - 1], evs[|evs| - 1];
      var net := Run(Start(ids), front);
      KnownIffAdded(ids, front, n, d);
      EveryRunOk(ids, front);
      CallsExtend(Start(ids), evs, n, d);
      LastEvent(net, ev, n, d);
    }
  }

  lemma LastEvent(net: Net, ev: Event, n: Addr, d: Addr)
    requires NetInv(net) && Enabled(net, ev) && n in net.nodes
    ensures n in Apply(net, ev).nodes
    ensures var t, t' := net.nodes[n].rtable, Apply(net, ev).nodes[n].rtable;
      FindDst(t', d) >= 0 <==> FindDst(t, d) >= 0 || Calls(net, ev, n, d)
  {
    hide Grown, Apply;
    EventGrown(net, ev, n);
    GrownKnows(net.nodes[n].rtable, Apply(net, ev).nodes[n].rtable,
               if (ev.Deliver? || ev.Originate?) && Actor(net, ev) == n then Added(net, ev) else [], d);
  }

  /** Exactly when the assertion of rt_add holds: a call for d at node n meets it if and only if it is the
      first call for d at that node in the run. */
  lemma RtAddAssertExact(ids: set<Addr>, evs: seq<Event>, ev: Event, n: Addr, d: Addr)
    requires (forall i :: i in ids ==> i >= 0) && Legal(Start(ids), evs) && n in ids
    requires Calls(Run(Start(ids), evs), ev, n, d)
    ensures n in Run(Start(ids), evs).nodes
    ensures FindDst(Run(Start(ids), evs).nodes[n].rtable, d) < 0 <==> forall i :: !CallsAt(Start(ids), evs, i, n, d)
  {
    KnownIffAdded(ids, evs, n, d);
  }

  /** For the caller at antconf.cc:586-589: under the guard of the branch, rt_add(daddr) meets the assertion
      if and only if no packet and no ant has made this node call it for daddr before. */
  lemma ResolutionAddExact(ids: set<Addr>, evs: seq<Event>, n: Addr, p: Data)
    requires (forall i :: i in ids ==> i >= 0) && Legal(Start(ids), evs) && n in ids
    requires n in Run(Start(ids), evs).nodes && ResolveAdds(Run(Start(ids), evs).nodes[n], p)
    ensures var s := Run(Start(ids), evs).nodes[n];
      && AddedFor(s, DataMsg(p)) == [p.daddr]
      && (FindDst(s.rtable, p.daddr) < 0 <==> forall i :: !CallsAt(Start(ids), evs, i, n, p.daddr))
  {
    KnownIffAdded(ids, evs, n, p.daddr);
  }

  /** For the callers at antconf.cc:845-850 and 1454-1461: the same, under the guard of their branch. */
  lemma LearnAddExact(ids: set<Addr>, evs: seq<Event>, n: Addr, valid: bool, prev: Addr, ner: Addr)
    requires (forall i :: i in ids ==> i >= 0) && Legal(Start(ids), evs) && n in ids
    requires n in Run(Start(ids), evs).nodes && LearnAdds(Run(Start(ids), evs).nodes[n], valid, prev, ner)
    ensures var s := Run(Start(ids), evs).nodes[n];
      FindDst(s.rtable, ner) < 0 <==> forall i :: !CallsAt(Start(ids), evs, i, n, ner)
  {
    KnownIffAdded(ids, evs, n, ner);
  }

  // ---------------------------------------------------------------- runs in which it fails

  /** A node that has asked for dst once. */
  ghost predicate AskedOnce(s: Node, dst: Addr) {
    s.nbs == [] && s.rtable == [Fresh(NO_TARGET, dst)]
  }

  lemma FirstPacket(net: Net, dst: Addr)
    requires net == Start({0}) && dst > 0
    ensures var e := Originate(0, dst, 0, false, []);
      Enabled(net, e) && 0 in Apply(net, e).nodes && AskedOnce(Apply(net, e).nodes[0], dst)
  {
  }

  lemma SecondPacket(s: Node, d: Data)
    requires AskedOnce(s, d.daddr)
    ensures FindDst(s.rtable, d.daddr) >= 0 && FindOptimal(s.rtable, d.daddr) < 0 && !IsNb(s.nbs, d.daddr)
    ensures AfterResolution(s, 0.0, d).node.rtable == [Fresh(NO_TARGET, d.daddr), Fresh(NO_TARGET, d.daddr)]
  {
    assert s.rtable[0].dst == d.daddr && !Leads(s.rtable[0], d.daddr);
  }

  /** antconf_rtable.cc:189: rt_add(dst) is called by rt_resolution although an entry for dst exists as soon
      as a node has two packets for a destination it has no route to. One event leads to such a state. */
  lemma RtAddAssertFails(dst: Addr, d: Data)
    requires dst > 0 && d.daddr == dst
    ensures var first := [Originate(0, dst, 0, false, [])];
      && Legal(Start({0}), first) && 0 in Run(Start({0}), first).nodes
      && var s := Run(Start({0}), first).nodes[0];
         && FindDst(s.rtable, dst) >= 0 && FindOptimal(s.rtable, dst) < 0 && !IsNb(s.nbs, dst)
         && AfterResolution(s, 0.0, d).node.rtable == [Fresh(NO_TARGET, dst), Fresh(NO_TARGET, dst)]
  {
    hide Apply, Enabled, AfterResolution;
    var net, ev := Start({0}), Originate(0, dst, 0, false, []);
    assert Run(net, []) == net && [] + [ev] == [ev];
    FirstPacket(net, dst);
    Snoc(net, [], ev);
    SecondPacket(Run(net, [ev]).nodes[0], d);
  }

  /** antconf_rtable.cc:175: the ant waiting on the wire of this network will make its receiver call rt_add
      for a destination it has an entry for. */
  ghost predicate AddsBeside(net: Net) {
    && |net.wire| == 1 && net.wire[0].to in net.nodes && net.wire[0].msg.Go?
    && var s, a := net.nodes[net.wire[0].to], net.wire[0].msg.go;
       && Admits(s, a) && a.valid && IsNb(s.nbs, a.prevNode)
       && FindVia(s.rtable, a.prevNode, a.ner) < 0 && FindDst(s.rtable, a.ner) >= 0
  }

  /** Node 0 has been asked for node 1 before it heard of it. */
  ghost predicate Asking(net: Net) {
    && net.nodes.Keys == {0, 1} && net.wire == []
    && net.nodes[1] == Initial(1)
    && net.nodes[0].index == 0 && net.nodes[0].nbs == [] && net.nodes[0].ids == []
    && net.nodes[0].rtable == [Fresh(NO_TARGET, 1)]
  }

  /** Then the two have heard each other. */
  ghost predicate Acquainted(net: Net, heard0: bool, heard1: bool) {
    && net.nodes.Keys == {0, 1} && net.wire == []
    && net.nodes[0].index == 0 && net.nodes[0].ids == [] && net.nodes[0].rtable == [Fresh(NO_TARGET, 1)]
    && net.nodes[1].index == 1
    && (if heard0 then |net.nodes[0].nbs| == 1 && net.nodes[0].nbs[0].addr == 1 else net.nodes[0].nbs == [])
    && net.nodes[1].nbNum == |net.nodes[1].nbs|
    && (if heard1 then |net.nodes[1].nbs| == 1 && net.nodes[1].nbs[0].addr == 0 else net.nodes[1].nbs == [])
  }

  lemma AskFirst(net: Net)
    requires net == Start({0, 1})
    ensures Enabled(net, Originate(0, 1, 0, false, [])) && Asking(Apply(net, Originate(0, 1, 0, false, [])))
  {
  }

  /** A hello of node n is sent, and heard by node m. */
  lemma HearHello(net: Net, heard0: bool, heard1: bool, n: Addr, m: Addr)
    requires Acquainted(net, heard0, heard1) && n in {0, 1} && m == 1 - n && !(if m == 0 then heard0 else heard1)
    ensures var e1, e2 := Fire(n, HelloTimer, 0, [m]), Deliver(0, 0, Roulette.Slot(0, 0, 0), []);
      && Enabled(net, e1) && Enabled(Apply(net, e1), e2)
      && Acquainted(Apply(Apply(net, e1), e2), heard0 || m == 0, heard1 || m == 1)
  {
    var e1 := Fire(n, HelloTimer, 0, [m]);
    var net1 := Apply(net, e1);
    OneOutput(n, Broadcast(Hello(n)), [m]);
    OneHearer(n, Hello(n), m);
    assert net1.wire == [Flight(n, m, Hello(n))];
    assert FindNb(net1.nodes[m].nbs, n) < 0;
  }

  lemma AntLeaves(net: Net)
    requires Acquainted(net, true, true)
    ensures var e := Fire(1, AntTimer, 0, []); Enabled(net, e) && AddsBeside(Apply(net, e))
  {
    var net1 := Apply(net, Fire(1, AntTimer, 0, []));
    OneOutput(1, AfterSendAnt(net.nodes[1], 0).outs[0], []);
    assert |net1.wire| == 1 && net1.nodes[0] == net.nodes[0];
    assert net1.nodes[0].nbs[0].addr == 1 && net1.nodes[0].rtable[0] == Fresh(NO_TARGET, 1);
  }

  /** There is a run that ends there. */
  lemma RtAddViaAssertFails()
    ensures exists evs :: Legal(Start({0, 1}), evs) && AddsBeside(Run(Start({0, 1}), evs))
  {
    hide Apply, Enabled, Acquainted, AddsBeside;
    var net, memory := Start({0, 1}), Roulette.Slot(0, 0, 0);
    var e1, e2, e3 := Originate(0, 1, 0, false, []), Fire(1, HelloTimer, 0, [0]), Deliver(0, 0, memory, []);
    var e4, e5, e6 := Fire(0, HelloTimer, 0, [1]), Deliver(0, 0, memory, []), Fire(1, AntTimer, 0, []);
    assert Run(net, []) == net;
    AskFirst(net);
    Snoc(net, [], e1);
    AskingIsAcquainted(Run(net, [] + [e1]));
    HearHello(Run(net, [] + [e1]), false, false, 1, 0);
    Snoc(net, [] + [e1], e2);
    Snoc(net, [] + [e1] + [e2], e3);
    HearHello(Run(net, [] + [e1] + [e2] + [e3]), true, false, 0, 1);
    Snoc(net, [] + [e1] + [e2] + [e3], e4);
    Snoc(net, [] + [e1] + [e2] + [e3] + [e4], e5);
    AntLeaves(Run(net, [] + [e1] + [e2] + [e3] + [e4] + [e5]));
    Snoc(net, [] + [e1] + [e2] + [e3] + [e4] + [e5], e6);
  }

  lemma AskingIsAcquainted(net: Net)
    requires Asking(net)
    ensures Acquainted(net, false, false)
  {
  }
}

/** How long a learned route lasts in a run: as long as it was learned for, while its neighbour stays and does
    not withdraw it (antconf.cc:473-514, 832-869, 1445-1478). */
module RouteLife {
  import opened Types
  import opened PacketQueue
  import opened RoutingTable
  import opened PheromoneTable
  import opened Requests
  import opened Protocol
  import opened NodeInvariant
  import opened HandlersKeep
  import opened Frames
  import opened Lifecycle
  import opened Links
  import opened Demands
  import opened Network
  import Roulette

  // ---------------------------------------------------------------- one table

  /** An entry UP through prev until due at least stays so. */
  ghost predicate StaysUp(e: Entry, e': Entry, prev: Addr, due: real) {
    e.flag == UP && e.nextHop == prev && e.expire >= due ==>
      e'.flag == UP && e'.nextHop == prev && e'.dst == e.dst && e'.expire >= due
  }

  ghost predicate Lives(t: seq<Entry>, t': seq<Entry>, prev: Addr, due: real) {
    && |t| <= |t'|
    && forall i :: 0 <= i < |t| ==> StaysUp(FromTail(t, i), FromTail(t', i), prev, due)
  }

  lemma LivesTrans(a: seq<Entry>, b: seq<Entry>, c: seq<Entry>, prev: Addr, due: real)
    requires Lives(a, b, prev, due) && Lives(b, c, prev, due)
    ensures Lives(a, c, prev, due)
  {
    forall i | 0 <= i < |a| ensures StaysUp(FromTail(a, i), FromTail(c, i), prev, due) {
      assert StaysUp(FromTail(a, i), FromTail(b, i), prev, due);
      assert StaysUp(FromTail(b, i), FromTail(c, i), prev, due);
    }
  }

  lemma EachLives(t: seq<Entry>, t': seq<Entry>, prev: Addr, due: real)
    requires |t| == |t'| && forall i :: 0 <= i < |t| ==> StaysUp(t[i], t'[i], prev, due)
    ensures Lives(t, t', prev, due)
  {
  }

  lemma OneLives(t: seq<Entry>, k: nat, e: Entry, prev: Addr, due: real)
    requires k < |t| && StaysUp(t[k], e, prev, due)
    ensures Lives(t, t[k := e], prev, due)
  {
    EachLives(t, t[k := e], prev, due);
  }

  lemma PrependLives(t: seq<Entry>, e: Entry, prev: Addr, due: real)
    ensures Lives(t, [e] + t, prev, due)
  {
    forall i | 0 <= i < |t| ensures FromTail([e] + t, i) == FromTail(t, i) {
    }
  }

  lemma KnownLives(t: seq<Entry>, t': seq<Entry>, prev: Addr, ner: Addr, due: real)
    requires Lives(t, t', prev, due) && KnownUntil(t, prev, ner, due)
    ensures KnownUntil(t', prev, ner, due)
  {
    var i :| 0 <= i < |t| && Leads(t[i], ner) && t[i].nextHop == prev && t[i].expire >= due;
    assert FromTail(t, |t| - 1 - i) == t[i];
    var e := FromTail(t', |t| - 1 - i);
    assert t'[|t'| - |t| + i] == e;
  }

  // ---------------------------------------------------------------- one node

  lemma RefreshedStays(e: Entry, index: Addr, ds: seq<Data>, now: real, due: real)
    requires due <= now + ROUTE_LIFE && e.expire >= due
    ensures Refreshed(e, index, ds, now).expire >= due
    decreases ds
  {
    if ds != [] {
      var e1 := if ForwardOne(index, e.nextHop, ds[0]).Send? then e.(expire := now + ROUTE_LIFE) else e;
      RefreshedStays(e1, index, ds[1..], now, due);
    }
  }

  lemma InstallLives(s: Node, now: real, at: nat, seqno: nat, hops: nat, prev: Addr, due: real)
    requires at < |s.rtable| && due <= now + ROUTE_LIFE
    ensures Lives(s.rtable, Install(s, now, at, seqno, hops).node.rtable, prev, due)
  {
    hide Lives, Keep;
    var e := s.rtable[at];
    if Accepts(e, seqno, hops) {
      var e1 := Updated(e, seqno, hops, Max(e.expire, now + ROUTE_LIFE));
      var ds := For(Live(s.queue, now), e.dst);
      RefreshedStays(e1, s.index, ds, now, due);
      var r := Refreshed(e1, s.index, ds, now);
      OneLives(s.rtable, at, r, prev, due);
      assert s.rtable[at := e1][at := r] == s.rtable[at := r];
    } else {
      EachLives(s.rtable, s.rtable, prev, due);
    }
  }

  lemma PrepareLives(s: Node, now: real, via: Addr, ner: Addr, outward: bool, prev: Addr, due: real)
    ensures Lives(s.rtable, Prepare(s, now, via, ner, outward).node.rtable, prev, due)
  {
    hide Lives, FindVia, FindRequest, Delete;
    var k := FindVia(s.rtable, via, ner);
    if k < 0 {
      PrependLives(s.rtable, Fresh(via, ner), prev, due);
    } else if outward {
      OneLives(s.rtable, k, s.rtable[k].(expire := Max(s.rtable[k].expire, now + ROUTE_LIFE)), prev, due);
    } else {
      EachLives(s.rtable, s.rtable, prev, due);
    }
  }

  lemma LearnLives(s: Node, now: real, via: Addr, ner: Addr, seqno: nat, hops: nat, outward: bool,
                   prev: Addr, due: real)
    requires due <= now + ROUTE_LIFE
    ensures Lives(s.rtable, AfterLearn(s, now, via, ner, seqno, hops, outward).node.rtable, prev, due)
  {
    hide Lives, Prepare, Install;
    var p := Prepare(s, now, via, ner, outward);
    PrepareLives(s, now, via, ner, outward, prev, due);
    InstallLives(p.node, now, p.at, seqno, hops, prev, due);
    LivesTrans(s.rtable, p.node.rtable, Install(p.node, now, p.at, seqno, hops).node.rtable, prev, due);
  }

  lemma AddPrecursorLives(s: Node, nextHop: Addr, dst: Addr, id: Addr, prev: Addr, due: real)
    ensures Lives(s.rtable, AddPrecursor(s, nextHop, dst, id).rtable, prev, due)
  {
    hide Lives, FindVia;
    EachLives(s.rtable, AddPrecursor(s, nextHop, dst, id).rtable, prev, due);
  }

  lemma AimLives(s: Node, a: GoAnt, hop: Addr, prev: Addr, due: real)
    ensures Lives(s.rtable, Aim(s, a, hop).node.rtable, prev, due)
  {
    hide Lives, ScanNeighbors, AddPrecursor;
    EachLives(s.rtable, s.rtable, prev, due);
    var f := ScanNeighbors(s.nbs, s.rtable, a.ner, hop, Found(false, false, a.hops, a.seqno, NO_HOP));
    AddPrecursorLives(s, f.via, a.ner, hop, prev, due);
  }

  lemma SearchLives(s: Node, now: real, a: GoAnt, draw: nat, junk: Roulette.Slot, prev: Addr, due: real)
    ensures Lives(s.rtable, AfterSearch(s, now, a, draw, junk).node.rtable, prev, due)
  {
    hide Lives, Aim, AfterSendClone, AfterRelay, AddPrecursor;
    EachLives(s.rtable, s.rtable, prev, due);
    var w := Roulette.Build(s.nbs, s.phtable, junk);
    if w.touched && w.size > 0 && w.cells[draw % w.size].claimant != -1 {
      var slot := w.cells[draw % w.size];
      var b := a.(target := slot.claimant, ner := slot.asked, ttl := ANT_TTL);
      CloneFrame(s, now, a);
      var s1 := AfterSendClone(s, now, a).node;
      AimLives(s1, b, slot.hop, prev, due);
      RelayFrame(Aim(s1, b, slot.hop).node, now, Aim(s1, b, slot.hop).ant, slot.hop);
    } else {
      var hop := if w.touched && w.size > 0 then w.cells[draw % w.size].hop else FirstUnvisited(s.nbs, a);
      AddPrecursorLives(s, a.prevNode, a.ner, hop, prev, due);
      RelayFrame(if s.index != a.src then AddPrecursor(s, a.prevNode, a.ner, hop) else s, now, a, hop);
    }
  }

  lemma ChooseLives(s: Node, now: real, a: GoAnt, draw: nat, junk: Roulette.Slot, prev: Addr, due: real)
    ensures Lives(s.rtable, AfterChoose(s, now, a, draw, junk).node.rtable, prev, due)
  {
    hide Lives, AfterSearch, Aim, AfterRelay, AfterSendClone, AfterSendReturn;
    EachLives(s.rtable, s.rtable, prev, due);
    SendReturnFrame(s, now, a.trail, a.src, if a.target != NO_TARGET then a.ner else -1);
    if a.target != NO_TARGET {
      var k := FindKey(s.phtable, a.target, a.ner);
      var hop := if k < 0 then NO_HOP else if s.phtable[k].nbs == [] then UNWRITTEN else s.phtable[k].nbs[0];
      AimLives(s, a, hop, prev, due);
      RelayFrame(Aim(s, a, hop).node, now, Aim(s, a, hop).ant, hop);
    } else if s.askRt && s.index != a.src {
      CloneFrame(AfterSendReturn(s, now, a.trail, a.src, -1).node, now, a);
    } else if a.ttl != 0 {
      SearchLives(s, now, a, draw, junk, prev, due);
    }
  }

  lemma GoLives(s: Node, now: real, a: GoAnt, draw: nat, junk: Roulette.Slot, prev: Addr, due: real)
    requires due <= now + ROUTE_LIFE
    ensures Lives(s.rtable, AfterGo(s, now, a, draw, junk).node.rtable, prev, due)
    ensures Admits(s, a) ==>
      Lives(Admitted(s, now, a).node.rtable, AfterGo(s, now, a, draw, junk).node.rtable, prev, due)
  {
    hide Lives, AfterLearn, AfterChoose;
    EachLives(s.rtable, s.rtable, prev, due);
    if Admits(s, a) {
      var s1 := s.(ids := [AgentId(a.src, a.id, now + AGENT_ID_SAVE)] + s.ids);
      LearnLives(s1, now, a.prevNode, a.ner, a.seqno, a.hops, true, prev, due);
      var r := Admitted(s, now, a).node;
      ChooseLives(r, now, a, draw, junk, prev, due);
      EachLives(r.rtable, r.rtable, prev, due);
      LivesTrans(s.rtable, r.rtable, AfterGo(s, now, a, draw, junk).node.rtable, prev, due);
    }
  }

  lemma ReturnLives(s: Node, now: real, a: ReturnAnt, prev: Addr, due: real)
    requires due <= now + ROUTE_LIFE
    ensures Lives(s.rtable, AfterReturn(s, now, a).node.rtable, prev, due)
    ensures Lives(Heard(s, now, a).rtable, AfterReturn(s, now, a).node.rtable, prev, due)
  {
    hide Lives, AfterLearn, AfterDemand, AddPrecursor;
    var r := Heard(s, now, a);
    LearnLives(s, now, a.prevNode, a.ner, a.seqno, a.hops, false, prev, due);
    EachLives(s.rtable, s.rtable, prev, due);
    DemandFrame(r, a);
    var d := AfterDemand(r, a).node;
    EachLives(d.rtable, d.rtable, prev, due);
    AddPrecursorLives(d, a.prevNode, a.ner, Cell(a.trail, a.count), prev, due);
    LivesTrans(s.rtable, r.rtable, AfterReturn(s, now, a).node.rtable, prev, due);
  }

  lemma DataLives(s: Node, now: real, d: Data, prev: Addr, due: real)
    requires due <= now + ROUTE_LIFE
    ensures Lives(s.rtable, AfterData(s, now, d).node.rtable, prev, due)
  {
    hide Lives, FindOptimal, FindNb, Enque;
    EachLives(s.rtable, s.rtable, prev, due);
    PrependLives(s.rtable, Fresh(NO_TARGET, d.daddr), prev, due);
    var k := FindOptimal(s.rtable, d.daddr);
    if k >= 0 {
      forall ds ensures Lives(s.rtable, s.rtable[k := Refreshed(s.rtable[k], s.index, ds, now)], prev, due) {
        if s.rtable[k].expire >= due {
          RefreshedStays(s.rtable[k], s.index, ds, now, due);
        }
        OneLives(s.rtable, k, Refreshed(s.rtable[k], s.index, ds, now), prev, due);
      }
    }
  }

  lemma SeverLives(t: seq<Entry>, id: Addr, prev: Addr, due: real)
    requires id != prev
    ensures Lives(t, SeverAll(t, id), prev, due)
  {
    EachLives(t, SeverAll(t, id), prev, due);
  }

  lemma {:induction false} HeedLives(t: seq<Entry>, sender: Addr, lost: seq<Lost>, prev: Addr, due: real)
    requires sender != prev
    ensures Lives(t, Heed(t, sender, lost).table, prev, due)
  {
    hide Lives, FindDst;
    EachLives(t, t, prev, due);
    if lost != [] {
      var n := |lost| - 1;
      var mid := Heed(t, sender, lost[..n]).table;
      HeedLives(t, sender, lost[..n], prev, due);
      EachLives(mid, HeedOne(mid, sender, lost[n]).table, prev, due);
      LivesTrans(t, mid, Heed(t, sender, lost).table, prev, due);
    }
  }

  lemma {:induction false} NbPurgeLives(s: Node, now: real, i: nat, prev: Addr, due: real)
    requires NodeInv(s, now) && IsNb(AfterNbPurge(s, now, i).node.nbs, prev)
    ensures IsNb(s.nbs, prev)
    ensures Lives(s.rtable, AfterNbPurge(s, now, i).node.rtable, prev, due)
    decreases |s.nbs| - i
  {
    hide NodeInv, Lives, FindNb;
    if i < |s.nbs| {
      if s.nbs[i].expire <= now {
        var id := s.nbs[i].addr;
        var r := AfterNbDelete(s, id).node;
        NbDeleteOk(s, now, id);
        NbPurgeLives(r, now, i, prev, due);
        DeletedIsGone(s, now, id, prev);
        SeverLives(s.rtable, id, prev, due);
        LivesTrans(s.rtable, r.rtable, AfterNbPurge(r, now, i).node.rtable, prev, due);
      } else {
        NbPurgeLives(s, now, i + 1, prev, due);
      }
    } else {
      EachLives(s.rtable, s.rtable, prev, due);
    }
  }

  lemma DeletedIsGone(s: Node, now: real, id: Addr, nb: Addr)
    requires NodeInv(s, now) && IsNb(AfterNbDelete(s, id).node.nbs, nb)
    ensures nb != id && IsNb(s.nbs, nb)
  {
    NbDeleteSevers(s, now, id);
    var left := AfterNbDelete(s, id).node.nbs;
    var k := FindNb(left, nb);
    assert left[k] in s.nbs;
  }

  lemma RtPurgeLives(s: Node, now: real, prev: Addr, due: real)
    requires NodeInv(s, now) && now <= due
    ensures Lives(s.rtable, AfterRtPurge(s, now, 0).node.rtable, prev, due)
  {
    hide NodeInv, Lives, AfterRtPurge;
    RtPurgeQuiet(s, now, 0);
    EachLives(s.rtable, AfterRtPurge(s, now, 0).node.rtable, prev, due);
  }

  // ---------------------------------------------------------------- the network

  /** Node n receives a rectificator from prev. */
  predicate Withdrawn(net: Net, ev: Event, n: Addr, prev: Addr)
    requires Enabled(net, ev)
  {
    ev.Deliver? && net.wire[ev.i].to == n && net.wire[ev.i].msg.Rectificator? && net.wire[ev.i].msg.sender == prev
  }

  lemma RecvLives(s: Node, now: real, m: Msg, draw: nat, junk: Roulette.Slot, prev: Addr, due: real)
    requires due <= now + ROUTE_LIFE && (m.Rectificator? ==> m.sender != prev)
    ensures Lives(s.rtable, AfterRecv(s, now, m, draw, junk).node.rtable, prev, due)
  {
    hide Lives, AfterGo, AfterReturn, AfterData;
    match m
    case Go(a) => GoLives(s, now, a.(ttl := a.ttl - 1), draw, junk, prev, due);
    case Return(a) => ReturnLives(s, now, a, prev, due);
    case Rectificator(sender, lost) => HeedLives(s.rtable, sender, lost, prev, due);
    case Hello(_) => EachLives(s.rtable, s.rtable, prev, due);
    case DataMsg(d) => DataLives(s, now, d, prev, due);
  }

  lemma TimerLives(s: Node, now: real, t: Timer, draw: nat, prev: Addr, due: real)
    requires NodeInv(s, now) && now <= due && IsNb(AfterTimer(s, now, t, draw).node.nbs, prev)
    ensures Lives(s.rtable, AfterTimer(s, now, t, draw).node.rtable, prev, due)
  {
    hide NodeInv, Lives, AfterNbPurge, AfterRtPurge, FindNb;
    EachLives(s.rtable, s.rtable, prev, due);
    if t.NeighborTimer? {
      NbPurgeLives(s, now, 0, prev, due);
    } else if t.RouteTimer? {
      RtPurgeLives(s, now, prev, due);
    }
  }

  lemma FailureLives(s: Node, now: real, d: Data, nextHop: Addr, prev: Addr, due: real)
    requires NodeInv(s, now) && IsNb(AfterLinkLayerFailed(s, d, nextHop).node.nbs, prev)
    ensures Lives(s.rtable, AfterLinkLayerFailed(s, d, nextHop).node.rtable, prev, due)
  {
    hide NodeInv, Lives, FindNb, FindDst;
    EachLives(s.rtable, s.rtable, prev, due);
    if d.daddr != BROADCAST && FindDst(s.rtable, d.daddr) >= 0 {
      DeletedIsGone(s, now, nextHop, prev);
      SeverLives(s.rtable, nextHop, prev, due);
    }
  }

  lemma EventLives(net: Net, ev: Event, n: Addr, prev: Addr, due: real)
    requires NetInv(net) && Enabled(net, ev) && n in net.nodes && net.now <= due <= net.now + ROUTE_LIFE
    requires n in Apply(net, ev).nodes && IsNb(Apply(net, ev).nodes[n].nbs, prev) && !Withdrawn(net, ev, n, prev)
    ensures Lives(net.nodes[n].rtable, Apply(net, ev).nodes[n].rtable, prev, due)
  {
    hide NodeInv, Lives, Launch, AfterRecv, AfterTimer, AfterData, AfterLinkLayerFailed, FindNb;
    var s := net.nodes[n];
    EachLives(s.rtable, s.rtable, prev, due);
    if !ev.Lose? && !ev.Elapse? && Actor(net, ev) == n {
      match ev
      case Deliver(i, draw, junk, _) => RecvLives(s, net.now, Delivered(net.wire[i].msg), draw, junk, prev, due);
      case LinkFail(i, _) => FailureLives(s, net.now, net.wire[i].msg.data, net.wire[i].to, prev, due);
      case Fire(_, timer, draw, _) => TimerLives(s, net.now, timer, draw, prev, due);
      case Originate(_, _, _, _, _) => DataLives(s, net.now, NewData(net, ev), prev, due);
    }
  }

  /** Over the whole stretch prev stays a neighbour of n and sends it no rectificator. */
  ghost predicate Undisturbed(net: Net, evs: seq<Event>, n: Addr, prev: Addr)
    requires Legal(net, evs)
    decreases |evs|
  {
    evs == [] || (
      var front, ev := evs[..|evs| - 1], evs[|evs| - 1];
      && Undisturbed(net, front, n, prev) && !Withdrawn(Run(net, front), ev, n, prev)
      && n in Run(net, evs).nodes && IsNb(Run(net, evs).nodes[n].nbs, prev))
  }

  /** A route known until a time that is no further off than ten seconds is known until then, over any
      stretch of a run in which its neighbour stays and does not withdraw it. */
  lemma {:induction false} KnownRouteLives(net: Net, evs: seq<Event>, n: Addr, prev: Addr, ner: Addr, due: real)
    requires NetInv(net) && Legal(net, evs) && n in net.nodes && Undisturbed(net, evs, n, prev)
    requires KnownUntil(net.nodes[n].rtable, prev, ner, due) && due <= net.now + ROUTE_LIFE && Run(net, evs).now <= due
    ensures NetInv(Run(net, evs)) && n in Run(net, evs).nodes && net.now <= Run(net, evs).now
    ensures KnownUntil(Run(net, evs).nodes[n].rtable, prev, ner, due)
  {
    hide NetInv, KnownUntil, Apply, FindNb;
    if evs != [] {
      var front, ev := evs[..|evs| - 1], evs[|evs| - 1];
      TimeGoesOn(Run(net, front), ev);
      KnownRouteLives(net, front, n, prev, ner, due);
      ApplyOk(Run(net, front), ev);
      EventLives(Run(net, front), ev, n, prev, due);
      KnownLives(Run(net, front).nodes[n].rtable, Run(net, evs).nodes[n].rtable, prev, ner, due);
    }
  }

  lemma TimeGoesOn(net: Net, ev: Event)
    requires Enabled(net, ev)
    ensures net.now <= Apply(net, ev).now
  {
  }

  /** In this event node n is told of ner by its neighbour prev: by an outward ant it lets in, or by a return
      ant with news. */
  ghost predicate Told(net: Net, ev: Event, n: Addr, prev: Addr, ner: Addr) {
    && Enabled(net, ev) && ev.Deliver? && net.wire[ev.i].to == n
    && var s, m := net.nodes[n], net.wire[ev.i].msg;
       && IsNb(s.nbs, prev)
       && ((m.Go? && Admits(s, m.go) && m.go.valid && m.go.prevNode == prev && m.go.ner == ner)
           || (m.Return? && m.back.prevNode == prev && m.back.ner == ner
               && News(s, prev, ner, m.back.seqno, m.back.hops)))
  }

  lemma ToldKnows(net: Net, ev: Event, n: Addr, prev: Addr, ner: Addr)
    requires NetInv(net) && Told(net, ev, n, prev, ner)
    ensures n in Apply(net, ev).nodes
    ensures KnownUntil(Apply(net, ev).nodes[n].rtable, prev, ner, net.now + ROUTE_LIFE)
  {
    hide AfterLearn, AfterGo, AfterReturn, KnownUntil, Launch;
    var s, f, due := net.nodes[n], net.wire[ev.i], net.now + ROUTE_LIFE;
    assert FlightOk(f) && NodeInv(s, net.now);
    if f.msg.Go? {
      var a := f.msg.go.(ttl := f.msg.go.ttl - 1);
      var s1 := s.(ids := [AgentId(a.src, a.id, net.now + AGENT_ID_SAVE)] + s.ids);
      assert NodeInv(s1, net.now);
      LearnAnswers(s1, net.now, prev, ner, a.seqno, a.hops, true);
      GoLives(s, net.now, a, ev.draw, ev.junk, prev, due);
      var r := AfterGo(s, net.now, a, ev.draw, ev.junk).node;
      KnownLives(Admitted(s, net.now, a).node.rtable, r.rtable, prev, ner, due);
    } else {
      var a := f.msg.back;
      LearnAnswers(s, net.now, prev, ner, a.seqno, a.hops, false);
      ReturnLives(s, net.now, a, prev, due);
      KnownLives(Heard(s, net.now, a).rtable, AfterReturn(s, net.now, a).node.rtable, prev, ner, due);
    }
  }

  /** A route learned from an ant is there for the next ten seconds of any run, whatever else happens, as long
      as the neighbour it leads through stays a neighbour and sends no rectificator. */
  lemma LearnedRouteLives(net: Net, ev: Event, evs: seq<Event>, n: Addr, prev: Addr, ner: Addr)
    requires NetInv(net) && Told(net, ev, n, prev, ner)
    requires Legal(Apply(net, ev), evs) && Undisturbed(Apply(net, ev), evs, n, prev)
    requires Run(Apply(net, ev), evs).now <= net.now + ROUTE_LIFE
    ensures n in Run(Apply(net, ev), evs).nodes
    ensures KnownUntil(Run(Apply(net, ev), evs).nodes[n].rtable, prev, ner, net.now + ROUTE_LIFE)
  {
    hide Apply, NetInv, KnownUntil, Told;
    TimeGoesOnToo(net, ev, n, prev, ner);
    ApplyOk(net, ev);
    ToldKnows(net, ev, n, prev, ner);
    KnownRouteLives(Apply(net, ev), evs, n, prev, ner, net.now + ROUTE_LIFE);
  }

  lemma TimeGoesOnToo(net: Net, ev: Event, n: Addr, prev: Addr, ner: Addr)
    requires Told(net, ev, n, prev, ner)
    ensures Enabled(net, ev) && net.now == Apply(net, ev).now
  {
  }
}

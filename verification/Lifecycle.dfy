/** How a routing entry may change over a whole run. */
module Lifecycle {
  import opened Types
  import opened RoutingTable
  import opened Requests
  import opened PheromoneTable
  import opened Protocol
  import opened NodeInvariant
  import opened HandlersKeep
  import opened Frames
  import opened Network
  import Roulette

  /** (seqno, -hops) grew lexicographically. */
  predicate Fresher(e: Entry, e': Entry) {
    e'.seqno > e.seqno || (e'.seqno == e.seqno && e'.hops < e.hops)
  }

  /** Any change of the route makes it fresher; the way is kept or given up; what is down stays down. */
  ghost predicate EntryEvolves(e: Entry, e': Entry) {
    && e'.dst == e.dst
    && e.seqno <= e'.seqno
    && (SameRoute(e, e') || Fresher(e, e'))
    && (e'.nextHop == e.nextHop || e'.nextHop == NO_TARGET)
    && (e.flag == DOWN ==> SameRoute(e, e'))
  }

  /** Entries are inserted at the head, so an entry is known by its place counted from the tail. */
  function FromTail(t: seq<Entry>, i: nat): Entry
    requires i < |t|
  {
    t[|t| - 1 - i]
  }

  ghost predicate Evolves(t: seq<Entry>, t': seq<Entry>) {
    && |t| <= |t'|
    && forall i :: 0 <= i < |t| ==> EntryEvolves(FromTail(t, i), FromTail(t', i))
  }

  lemma EvolvesTrans(a: seq<Entry>, b: seq<Entry>, c: seq<Entry>)
    requires Evolves(a, b) && Evolves(b, c)
    ensures Evolves(a, c)
  {
    forall i | 0 <= i < |a| ensures EntryEvolves(FromTail(a, i), FromTail(c, i)) {
      assert EntryEvolves(FromTail(a, i), FromTail(b, i));
      assert EntryEvolves(FromTail(b, i), FromTail(c, i));
    }
  }

  lemma Pointwise(t: seq<Entry>, t': seq<Entry>)
    requires |t| == |t'| && forall i :: 0 <= i < |t| ==> EntryEvolves(t[i], t'[i])
    ensures Evolves(t, t')
  {
  }

  lemma UpdateEvolves(t: seq<Entry>, k: nat, e: Entry)
    requires k < |t| && EntryEvolves(t[k], e)
    ensures Evolves(t, t[k := e])
  {
    Pointwise(t, t[k := e]);
  }

  lemma PrependEvolves(t: seq<Entry>, e: Entry)
    ensures Evolves(t, [e] + t)
  {
    forall i | 0 <= i < |t| ensures FromTail([e] + t, i) == FromTail(t, i) {
    }
  }

  lemma SeverEvolves(t: seq<Entry>, nbs: seq<Neighbor>, id: Addr)
    requires forall i :: 0 <= i < |t| ==> EntryOk(t[i], nbs)
    ensures Evolves(t, SeverAll(t, id))
  {
    forall i | 0 <= i < |t| ensures EntryEvolves(t[i], SeverAll(t, id)[i]) {
      assert EntryOk(t[i], nbs);
    }
    Pointwise(t, SeverAll(t, id));
  }

  lemma {:induction false} NbPurgeEvolves(s: Node, now: real, i: nat)
    requires NodeInv(s, now)
    ensures Evolves(s.rtable, AfterNbPurge(s, now, i).node.rtable)
    decreases |s.nbs| - i
  {
    if i < |s.nbs| {
      if s.nbs[i].expire <= now {
        var r := AfterNbDelete(s, s.nbs[i].addr);
        NbDeleteOk(s, now, s.nbs[i].addr);
        SeverEvolves(s.rtable, s.nbs, s.nbs[i].addr);
        NbPurgeEvolves(r.node, now, i);
        EvolvesTrans(s.rtable, r.node.rtable, AfterNbPurge(r.node, now, i).node.rtable);
      } else {
        NbPurgeEvolves(s, now, i + 1);
      }
    } else {
      Pointwise(s.rtable, s.rtable);
    }
  }

  lemma HeedOneEvolves(t: seq<Entry>, nbs: seq<Neighbor>, sender: Addr, lost: Lost)
    requires RoutesOk(t, nbs) && (lost.seqno == 0 || lost.seqno % 2 == 1)
    ensures Evolves(t, HeedOne(t, sender, lost).table)
  {
    var k := FindDst(t, lost.dst);
    if k >= 0 && Heeds(t[k], sender, lost) {
      assert EntryOk(t[k], nbs);
      UpdateEvolves(t, k, HeedOne(t, sender, lost).table[k]);
    } else {
      Pointwise(t, t);
    }
  }

  lemma {:induction false} HeedEvolves(t: seq<Entry>, nbs: seq<Neighbor>, sender: Addr, lost: seq<Lost>)
    requires RoutesOk(t, nbs) && LostOk(lost)
    ensures Evolves(t, Heed(t, sender, lost).table)
  {
    if lost != [] {
      var n := |lost| - 1;
      var mid := Heed(t, sender, lost[..n]).table;
      HeedEvolves(t, nbs, sender, lost[..n]);
      HeedOk(t, nbs, sender, lost[..n]);
      HeedOneEvolves(mid, nbs, sender, lost[n]);
      EvolvesTrans(t, mid, Heed(t, sender, lost).table);
    } else {
      Pointwise(t, t);
    }
  }

  /** Install writes one entry: an accepted update is fresher and goes the same way. */
  lemma InstallWrites(s: Node, now: real, at: nat, seqno: nat, hops: nat)
    requires at < |s.rtable|
    ensures var t' := Install(s, now, at, seqno, hops).node.rtable;
      && |t'| == |s.rtable| && t' == s.rtable[at := t'[at]]
      && (SameRoute(s.rtable[at], t'[at]) || Fresher(s.rtable[at], t'[at]))
      && t'[at].dst == s.rtable[at].dst && t'[at].nextHop == s.rtable[at].nextHop
  {
  }

  lemma LearnEvolves(s: Node, now: real, prev: Addr, ner: Addr, seqno: nat, hops: nat, outward: bool)
    requires NodeInv(s, now) && IsNb(s.nbs, prev)
    ensures Evolves(s.rtable, AfterLearn(s, now, prev, ner, seqno, hops, outward).node.rtable)
  {
    var s1 := if Asked(s.asks, ner) then DropRequest(s, ner) else s;
    var t := s.rtable;
    var k := FindVia(t, prev, ner);
    if k < 0 {
      var t1 := [Fresh(prev, ner)] + t;
      InstallWrites(s1.(rtable := t1), now, 0, seqno, hops);
      var t' := Install(s1.(rtable := t1), now, 0, seqno, hops).node.rtable;
      assert t' == [t'[0]] + t;
      PrependEvolves(t, t'[0]);
    } else {
      assert EntryOk(t[k], s.nbs);
      var e := if outward then t[k].(expire := Max(t[k].expire, now + ROUTE_LIFE)) else t[k];
      var t1 := t[k := e];
      assert !outward ==> t1 == t;
      InstallWrites(s1.(rtable := t1), now, k, seqno, hops);
      var t' := Install(s1.(rtable := t1), now, k, seqno, hops).node.rtable;
      UpdateEvolves(t, k, t'[k]);
      assert t' == t[k := t'[k]];
    }
  }

  lemma AddPrecursorEvolves(s: Node, nextHop: Addr, dst: Addr, id: Addr)
    ensures Evolves(s.rtable, AddPrecursor(s, nextHop, dst, id).rtable)
  {
    Pointwise(s.rtable, AddPrecursor(s, nextHop, dst, id).rtable);
  }

  lemma AimEvolves(s: Node, a: GoAnt, hop: Addr)
    ensures Evolves(s.rtable, Aim(s, a, hop).node.rtable)
  {
    var f := ScanNeighbors(s.nbs, s.rtable, a.ner, hop, Found(false, false, a.hops, a.seqno, NO_HOP));
    AddPrecursorEvolves(s, f.via, a.ner, hop);
    Pointwise(s.rtable, s.rtable);
  }

  lemma SatisfyEvolves(s: Node, now: real, a: GoAnt, b: GoAnt, hop: Addr)
    ensures Evolves(s.rtable, Aim(AfterSendClone(s, now, a).node, b, hop).node.rtable)
  {
    CloneFrame(s, now, a);
    AimEvolves(AfterSendClone(s, now, a).node, b, hop);
  }

  lemma RelayKeepsTable(s: Node, now: real, a: GoAnt, hop: Addr)
    ensures AfterRelay(s, now, a, hop).node.rtable == s.rtable
  {
    RelayFrame(s, now, a, hop);
  }

  lemma SearchEvolves(s: Node, now: real, a: GoAnt, draw: nat, junk: Roulette.Slot)
    ensures Evolves(s.rtable, AfterSearch(s, now, a, draw, junk).node.rtable)
  {
    var w := Roulette.Build(s.nbs, s.phtable, junk);
    if w.touched && w.size > 0 && w.cells[draw % w.size].claimant != -1 {
      var slot := w.cells[draw % w.size];
      var b := a.(target := slot.claimant, ner := slot.asked, ttl := ANT_TTL);
      SatisfyEvolves(s, now, a, b, slot.hop);
      var aimed := Aim(AfterSendClone(s, now, a).node, b, slot.hop);
      RelayKeepsTable(aimed.node, now, aimed.ant, slot.hop);
    } else {
      var hop := if w.touched && w.size > 0 then w.cells[draw % w.size].hop else FirstUnvisited(s.nbs, a);
      var s1 := if s.index != a.src then AddPrecursor(s, a.prevNode, a.ner, hop) else s;
      Pointwise(s.rtable, s.rtable);
      AddPrecursorEvolves(s, a.prevNode, a.ner, hop);
      RelayKeepsTable(s1, now, a, hop);
    }
  }

  /** chooseNextHop touches no more than a precursor list. */
  lemma ChooseEvolves(s: Node, now: real, a: GoAnt, draw: nat, junk: Roulette.Slot)
    ensures Evolves(s.rtable, AfterChoose(s, now, a, draw, junk).node.rtable)
  {
    hide AfterSearch, Aim, Evolves, AfterRelay;
    Pointwise(s.rtable, s.rtable);
    if a.target != NO_TARGET {
      var k := FindKey(s.phtable, a.target, a.ner);
      var hop := if k < 0 then NO_HOP else if s.phtable[k].nbs == [] then UNWRITTEN else s.phtable[k].nbs[0];
      AimEvolves(s, a, hop);
      var aimed := Aim(s, a, hop);
      RelayKeepsTable(aimed.node, now, aimed.ant, hop);
    } else {
      SearchEvolves(s, now, a, draw, junk);
    }
  }

  lemma GoEvolves(s: Node, now: real, a: GoAnt, draw: nat, junk: Roulette.Slot)
    requires NodeInv(s, now)
    ensures Evolves(s.rtable, AfterGo(s, now, a, draw, junk).node.rtable)
  {
    Pointwise(s.rtable, s.rtable);
    if Admits(s, a) {
      var s1 := s.(ids := [AgentId(a.src, a.id, now + AGENT_ID_SAVE)] + s.ids);
      assert NodeInv(s1, now);
      var r := if a.valid && IsNb(s1.nbs, a.prevNode)
        then AfterLearn(s1, now, a.prevNode, a.ner, a.seqno, a.hops, true) else Step(s1, []);
      if a.valid && IsNb(s1.nbs, a.prevNode) {
        LearnEvolves(s1, now, a.prevNode, a.ner, a.seqno, a.hops, true);
      }
      if !a.direct {
        ChooseEvolves(r.node, now, a, draw, junk);
        EvolvesTrans(s.rtable, r.node.rtable, AfterChoose(r.node, now, a, draw, junk).node.rtable);
      }
    }
  }

  lemma ReturnEvolves(s: Node, now: real, a: ReturnAnt)
    requires NodeInv(s, now)
    ensures Evolves(s.rtable, AfterReturn(s, now, a).node.rtable)
  {
    Pointwise(s.rtable, s.rtable);
    var r := if a.valid && IsNb(s.nbs, a.prevNode)
      then AfterLearn(s, now, a.prevNode, a.ner, a.seqno, a.hops, false) else Step(s, []);
    if a.valid && IsNb(s.nbs, a.prevNode) {
      LearnEvolves(s, now, a.prevNode, a.ner, a.seqno, a.hops, false);
    }
    var s2 := AfterDemand(r.node, a).node;
    Pointwise(s2.rtable, s2.rtable);
    AddPrecursorEvolves(s2, a.prevNode, a.ner, Cell(a.trail, a.count));
    EvolvesTrans(s.rtable, s2.rtable, AfterPassBack(s2, a).node.rtable);
  }

  lemma DataEvolves(s: Node, now: real, d: Data)
    ensures Evolves(s.rtable, AfterData(s, now, d).node.rtable)
  {
    Pointwise(s.rtable, s.rtable);
    PrependEvolves(s.rtable, Fresh(NO_TARGET, d.daddr));
    var k := FindOptimal(s.rtable, d.daddr);
    if k >= 0 {
      forall ds ensures Evolves(s.rtable, s.rtable[k := Refreshed(s.rtable[k], s.index, ds, now)]) {
        UpdateEvolves(s.rtable, k, Refreshed(s.rtable[k], s.index, ds, now));
      }
    }
  }

  lemma RtPurgeEvolves(s: Node, now: real)
    requires NodeInv(s, now)
    ensures Evolves(s.rtable, AfterRtPurge(s, now, 0).node.rtable)
  {
    RtPurgeQuiet(s, now, 0);
    var t' := AfterRtPurge(s, now, 0).node.rtable;
    forall i | 0 <= i < |t'| ensures EntryEvolves(s.rtable[i], t'[i]) {
      assert EntryOk(s.rtable[i], s.nbs);
    }
    Pointwise(s.rtable, t');
  }

  lemma StepEvolves(net: Net, ev: Event)
    requires NetInv(net) && Enabled(net, ev) && !ev.Lose? && !ev.Elapse?
    ensures Actor(net, ev) in net.nodes
    ensures Evolves(net.nodes[Actor(net, ev)].rtable, StepOf(net, ev).node.rtable)
  {
    hide Evolves, AfterGo, AfterReturn, AfterData, Heed, AfterRtPurge, AfterNbPurge, SeverAll;
    var s := net.nodes[Actor(net, ev)];
    assert NodeInv(s, net.now);
    Pointwise(s.rtable, s.rtable);
    match ev
    case Deliver(i, draw, junk, _) =>
      assert FlightOk(net.wire[i]);
      match Delivered(net.wire[i].msg) {
        case Go(a) => GoEvolves(s, net.now, a.(ttl := a.ttl - 1), draw, junk);
        case Return(a) => ReturnEvolves(s, net.now, a);
        case Rectificator(sender, lost) => HeedEvolves(s.rtable, s.nbs, sender, lost);
        case Hello(_) =>
        case DataMsg(d) => DataEvolves(s, net.now, d);
      }
    case LinkFail(i, _) => SeverEvolves(s.rtable, s.nbs, net.wire[i].to);
    case Fire(_, timer, _, _) =>
      NbPurgeEvolves(s, net.now, 0);
      RtPurgeEvolves(s, net.now);
    case Originate(_, _, _, _, _) => DataEvolves(s, net.now, NewData(net, ev));
  }

  /** Over any stretch of any run, from any state the invariant allows: no entry is removed, numbers
      never fall, every change of a route makes it fresher, and an entry once down never comes up. */
  lemma {:induction false} EntriesOnlyEvolve(net: Net, evs: seq<Event>, n: Addr)
    requires NetInv(net) && Legal(net, evs) && n in net.nodes
    ensures NetInv(Run(net, evs)) && n in Run(net, evs).nodes
    ensures Evolves(net.nodes[n].rtable, Run(net, evs).nodes[n].rtable)
  {
    Pointwise(net.nodes[n].rtable, net.nodes[n].rtable);
    if evs != [] {
      var front, ev := evs[..|evs| - 1], evs[|evs| - 1];
      EntriesOnlyEvolve(net, front, n);
      var mid := Run(net, front);
      ApplyOk(mid, ev);
      Pointwise(mid.nodes[n].rtable, mid.nodes[n].rtable);
      if !ev.Lose? && !ev.Elapse? {
        StepEvolves(mid, ev);
      }
      EvolvesTrans(net.nodes[n].rtable, mid.nodes[n].rtable, Run(net, evs).nodes[n].rtable);
    }
  }
}

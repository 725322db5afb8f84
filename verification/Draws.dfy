/** The roulette in runs: inside the arrays a draw always lands on a written cell, so memory nobody has
    written never matters (antconf.cc:1022-1103). */
module Draws {
  import opened Types
  import opened PheromoneTable
  import opened Protocol
  import opened NodeInvariant
  import opened Frames
  import opened Network
  import opened Overflow
  import Roulette

  lemma SearchIgnores(s: Node, now: real, a: GoAnt, draw: nat, x: Roulette.Slot, y: Roulette.Slot)
    requires TableOk(s.phtable)
    ensures AfterSearch(s, now, a, draw, x) == AfterSearch(s, now, a, draw, y)
  {
    hide TableOk, Aim, AfterSendClone, AfterRelay, Roulette.Slots, Roulette.Spare, Roulette.AnyNamed;
    if Roulette.AnyNamed(s.nbs, s.phtable) {
      Roulette.WheelIsWritten(s.nbs, s.phtable, x, y);
    }
  }

  lemma GoIgnores(s: Node, now: real, a: GoAnt, draw: nat, x: Roulette.Slot, y: Roulette.Slot)
    requires TableOk(s.phtable)
    ensures AfterGo(s, now, a, draw, x) == AfterGo(s, now, a, draw, y)
  {
    hide TableOk, AfterSearch, AfterLearn, AfterSendReturn, AfterSendClone, AfterRelay, Aim, Drained;
    var s1 := s.(ids := [AgentId(a.src, a.id, now + AGENT_ID_SAVE)] + s.ids);
    LearnFrame(s1, now, a.prevNode, a.ner, a.seqno, a.hops, true);
    SearchIgnores(s1, now, a, draw, x, y);
    SearchIgnores(AfterLearn(s1, now, a.prevNode, a.ner, a.seqno, a.hops, true).node, now, a, draw, x, y);
  }

  /** Two events that differ at most in what lies in unwritten memory. */
  predicate Alike(e: Event, e': Event) {
    e == e' || (e.Deliver? && e'.Deliver? && e.i == e'.i && e.draw == e'.draw && e.hearers == e'.hearers)
  }

  lemma ApplyIgnores(net: Net, e: Event, e': Event)
    requires NetInv(net) && Enabled(net, e) && Alike(e, e') && !Spills(net, e)
    ensures Enabled(net, e') && !Spills(net, e') && Apply(net, e') == Apply(net, e)
  {
    hide AfterGo, NodeInv, Launch, Overruns;
    if e.Deliver? && net.wire[e.i].msg.Go? {
      var s, a := net.nodes[net.wire[e.i].to], net.wire[e.i].msg.go;
      assert TableOk(s.phtable) by { SoundTable(net, net.wire[e.i].to); }
      GoIgnores(s, net.now, a.(ttl := a.ttl - 1), e.draw, e.junk, e'.junk);
    }
    if e.Deliver? {
      assert StepOf(net, e') == StepOf(net, e);
    }
  }

  lemma SoundTable(net: Net, n: Addr)
    requires NetInv(net) && n in net.nodes
    ensures TableOk(net.nodes[n].phtable)
  {
    assert NodeInv(net.nodes[n], net.now);
  }

  /** In this event a draw is made. */
  ghost predicate Draws(net: Net, ev: Event) {
    && Enabled(net, ev) && ev.Deliver? && net.wire[ev.i].msg.Go?
    && var s, a := Drawer(net, ev), net.wire[ev.i].msg.go;
       && Admits(net.nodes[net.wire[ev.i].to], a) && !a.direct && Searches(s, a.(ttl := a.ttl - 1))
       && Roulette.AnyNamed(s.nbs, s.phtable)
  }

  /** The node as it comes to the roulette. */
  ghost function Drawer(net: Net, ev: Event): Node
    requires Enabled(net, ev) && ev.Deliver? && net.wire[ev.i].msg.Go?
  {
    var a := net.wire[ev.i].msg.go;
    Admitted(net.nodes[net.wire[ev.i].to], net.now, a.(ttl := a.ttl - 1)).node
  }

  lemma DrawerTable(net: Net, ev: Event)
    requires NetInv(net) && Enabled(net, ev) && ev.Deliver? && net.wire[ev.i].msg.Go?
    ensures TableOk(Drawer(net, ev).phtable)
  {
    hide AfterLearn, TableOk, NetInv;
    var s, a := net.nodes[net.wire[ev.i].to], net.wire[ev.i].msg.go;
    SoundTable(net, net.wire[ev.i].to);
    var s1 := s.(ids := [AgentId(a.src, a.id, net.now + AGENT_ID_SAVE)] + s.ids);
    LearnFrame(s1, net.now, a.prevNode, a.ner, a.seqno, a.hops, true);
  }

  /** In every run in which no handler has gone beyond its arrays: wherever a draw is made and the arrays are
      long enough for it, rand()%taille is the index of a cell inside them, and that cell has been written. */
  lemma DrawsAreWritten(ids: set<Addr>, evs: seq<Event>, ev: Event, memory: Roulette.Slot)
    requires (forall i :: i in ids ==> i >= 0) && Legal(Start(ids), evs) && InBounds(Start(ids), evs)
    requires var net := Run(Start(ids), evs); Draws(net, ev) && !Spills(net, ev)
    ensures var s := Drawer(Run(Start(ids), evs), ev);
      var w := Roulette.Build(s.nbs, s.phtable, ev.junk);
      && Roulette.Slots(s.nbs, s.phtable) != [] && w.size > 0 && ev.draw % w.size < Roulette.WHEEL_CELLS
      && w == Roulette.Build(s.nbs, s.phtable, memory)
  {
    hide Admitted, Roulette.Need, Roulette.AnyNamed, Roulette.Slots, Roulette.Spare, NetInv;
    EveryRunOk(ids, evs);
    var net := Run(Start(ids), evs);
    var s := Drawer(net, ev);
    DrawerTable(net, ev);
    Roulette.NamedPays(s.nbs, s.phtable);
    Roulette.WheelIsWritten(s.nbs, s.phtable, ev.junk, memory);
    Roulette.WantedIs(s.nbs, s.phtable, ev.junk);
  }

  /** Runs that stay inside the arrays and differ only in the contents of unwritten memory are the same run. */
  lemma {:induction false} RunsIgnoreMemory(ids: set<Addr>, evs: seq<Event>, evs': seq<Event>)
    requires (forall i :: i in ids ==> i >= 0) && Legal(Start(ids), evs) && InBounds(Start(ids), evs)
    requires |evs'| == |evs| && forall i :: 0 <= i < |evs| ==> Alike(evs[i], evs'[i])
    ensures Legal(Start(ids), evs') && InBounds(Start(ids), evs')
    ensures Run(Start(ids), evs') == Run(Start(ids), evs)
  {
    if evs != [] {
      var n := |evs| - 1;
      RunsIgnoreMemory(ids, evs[..n], evs'[..n]);
      EveryRunOk(ids, evs[..n]);
      ApplyIgnores(Run(Start(ids), evs[..n]), evs[n], evs'[n]);
    }
  }
}

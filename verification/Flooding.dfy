/** Rectificator flooding: what is passed on, idempotence, and termination. */
module Flooding {
  import opened Types
  import opened Lists
  import opened RoutingTable
  import opened Protocol
  import opened NodeInvariant
  import opened HandlersKeep
  import opened Network

  // ---------------------------------------------------------------- one node

  /** sub is obtained from full by leaving items out. */
  ghost predicate InOrder(sub: seq<Lost>, full: seq<Lost>) {
    if sub == [] then true
    else if full == [] then false
    else
      var m, n := |sub| - 1, |full| - 1;
      (sub[m] == full[n] && InOrder(sub[..m], full[..n])) || InOrder(sub, full[..n])
  }

  /** What is sent on is part of what arrived, in its order. */
  lemma {:induction false} ResendsInOrder(t: seq<Entry>, sender: Addr, lost: seq<Lost>)
    ensures InOrder(Heed(t, sender, lost).resend, lost)
  {
    if lost != [] {
      var n := |lost| - 1;
      ResendsInOrder(t, sender, lost[..n]);
      var before := Heed(t, sender, lost[..n]);
      var one := HeedOne(before.table, sender, lost[n]);
      if one.resend != [] {
        assert one.resend == [lost[n]];
        assert (before.resend + [lost[n]])[..|before.resend|] == before.resend;
      } else {
        assert before.resend + one.resend == before.resend;
      }
    }
  }

  /** The table takes no notice of this item. */
  ghost predicate Deaf(t: seq<Entry>, sender: Addr, x: Lost) {
    var k := FindDst(t, x.dst);
    k < 0 || !Heeds(t[k], sender, x)
  }

  lemma HeedOneDeafens(t: seq<Entry>, nbs: seq<Neighbor>, sender: Addr, x: Lost, y: Lost)
    requires RoutesOk(t, nbs)
    ensures Deaf(HeedOne(t, sender, x).table, sender, x)
    ensures Deaf(t, sender, y) ==> Deaf(HeedOne(t, sender, x).table, sender, y)
  {
    var t' := HeedOne(t, sender, x).table;
    var k := FindDst(t, x.dst);
    if k >= 0 {
      assert EntryOk(t[k], nbs);
      assert forall j :: 0 <= j < |t| ==> t'[j].dst == t[j].dst;
      assert FindDst(t', x.dst) == k;
      assert FindDst(t', y.dst) == FindDst(t, y.dst);
    }
  }

  lemma {:induction false} HeedDeafens(t: seq<Entry>, nbs: seq<Neighbor>, sender: Addr, lost: seq<Lost>)
    requires RoutesOk(t, nbs) && LostOk(lost)
    ensures forall x :: x in lost ==> Deaf(Heed(t, sender, lost).table, sender, x)
  {
    if lost != [] {
      var n := |lost| - 1;
      HeedDeafens(t, nbs, sender, lost[..n]);
      HeedOk(t, nbs, sender, lost[..n]);
      var mid := Heed(t, sender, lost[..n]).table;
      assert lost == lost[..n] + [lost[n]];
      forall x | x in lost ensures Deaf(Heed(t, sender, lost).table, sender, x) {
        HeedOneDeafens(mid, nbs, sender, lost[n], x);
      }
    }
  }

  lemma {:induction false} DeafHeed(t: seq<Entry>, sender: Addr, lost: seq<Lost>)
    requires forall x :: x in lost ==> Deaf(t, sender, x)
    ensures Heed(t, sender, lost) == Heeded(t, [])
  {
    if lost != [] {
      var n := |lost| - 1;
      DeafHeed(t, sender, lost[..n]);
      assert lost[n] in lost;
    }
  }

  /** Processing the same rectificator again changes nothing and sends nothing. */
  lemma RectificatorIdempotent(s: Node, now: real, sender: Addr, lost: seq<Lost>)
    requires NodeInv(s, now) && LostOk(lost)
    ensures var s1 := AfterRectificator(s, sender, lost).node;
      AfterRectificator(s1, sender, lost) == Step(s1, [])
  {
    HeedDeafens(s.rtable, s.nbs, sender, lost);
    DeafHeed(Heed(s.rtable, sender, lost).table, sender, lost);
  }

  function UpCount(t: seq<Entry>): nat {
    if t == [] then 0 else UpCount(t[..|t| - 1]) + if t[|t| - 1].flag == UP then 1 else 0
  }

  lemma {:induction false} UpCountUpdate(t: seq<Entry>, k: nat, e: Entry)
    requires k < |t| && t[k].flag == UP && e.flag == DOWN
    ensures UpCount(t[k := e]) == UpCount(t) - 1
  {
    var n := |t| - 1;
    if k == n {
      assert t[k := e][..n] == t[..n];
    } else {
      assert t[k := e][..n] == t[..n][k := e];
      UpCountUpdate(t[..n], k, e);
    }
  }

  lemma {:induction false} HeedCounts(t: seq<Entry>, nbs: seq<Neighbor>, sender: Addr, lost: seq<Lost>)
    requires RoutesOk(t, nbs) && LostOk(lost)
    ensures var h := Heed(t, sender, lost);
      UpCount(h.table) <= UpCount(t) && (h.resend != [] ==> UpCount(h.table) < UpCount(t))
  {
    if lost != [] {
      var n := |lost| - 1;
      HeedCounts(t, nbs, sender, lost[..n]);
      HeedOk(t, nbs, sender, lost[..n]);
      var mid := Heed(t, sender, lost[..n]).table;
      var k := FindDst(mid, lost[n].dst);
      if k >= 0 && Heeds(mid[k], sender, lost[n]) {
        assert EntryOk(mid[k], nbs);
        UpCountUpdate(mid, k, HeedOne(mid, sender, lost[n]).table[k]);
      }
    }
  }

  // ---------------------------------------------------------------- the network

  /** UP entries of all the nodes in order. */
  function TotalUp(nodes: map<Addr, Node>, order: seq<Addr>): nat
    requires forall i :: 0 <= i < |order| ==> order[i] in nodes
  {
    if order == [] then 0
    else
      UpCount(nodes[order[0]].rtable) + TotalUp(nodes, order[1..])
  }

  ghost predicate Enumerates(order: seq<Addr>, nodes: map<Addr, Node>) {
    NoDup(order) && (forall i :: 0 <= i < |order| ==> order[i] in nodes) && (forall n :: n in nodes ==> n in order)
  }

  lemma {:induction false} TotalUpUpdate(nodes: map<Addr, Node>, order: seq<Addr>, n: Addr, s: Node)
    requires NoDup(order) && (forall i :: 0 <= i < |order| ==> order[i] in nodes) && n in nodes
    ensures TotalUp(nodes[n := s], order)
      == TotalUp(nodes, order) + if n in order then UpCount(s.rtable) - UpCount(nodes[n].rtable) else 0
  {
    if order != [] {
      var rest := order[1..];
      forall i, j | 0 <= i < j < |rest| ensures rest[i] != rest[j] {
        assert order[i + 1] != order[j + 1];
      }
      TotalUpUpdate(nodes, rest, n, s);
      assert order[0] !in rest;
    }
  }

  /** Rectificators in flight. */
  function Floating(wire: seq<Flight>): nat {
    if wire == [] then 0 else Floating(wire[..|wire| - 1]) + if wire[|wire| - 1].msg.Rectificator? then 1 else 0
  }

  lemma {:induction false} FloatingAppend(a: seq<Flight>, b: seq<Flight>)
    ensures Floating(a + b) == Floating(a) + Floating(b)
  {
    if b == [] {
      assert a + b == a;
    } else {
      assert (a + b)[..|a + b| - 1] == a + b[..|b| - 1];
      FloatingAppend(a, b[..|b| - 1]);
    }
  }

  lemma FloatingTakeOff(wire: seq<Flight>, i: nat)
    requires i < |wire| && wire[i].msg.Rectificator?
    ensures Floating(wire[..i] + wire[i + 1..]) == Floating(wire) - 1
  {
    FloatingAppend(wire[..i], wire[i + 1..]);
    FloatingAppend(wire[..i], [wire[i]]);
    FloatingAppend(wire[..i] + [wire[i]], wire[i + 1..]);
    assert wire == wire[..i] + [wire[i]] + wire[i + 1..];
    assert [wire[i]][..0] == [];
  }

  lemma {:induction false} FloatingBound(fs: seq<Flight>)
    ensures Floating(fs) <= |fs|
  {
    if fs != [] {
      FloatingBound(fs[..|fs| - 1]);
    }
  }

  /** A rectificator is delivered or lost. */
  ghost predicate Floods(net: Net, ev: Event) {
    Enabled(net, ev) && (ev.Deliver? || ev.Lose?) && net.wire[ev.i].msg.Rectificator?
  }

  lemma HearingCopies(from: Addr, outs: seq<Output>, hearers: seq<Addr>)
    requires outs == [] || (|outs| == 1 && outs[0].Broadcast?)
    ensures |Launch(from, outs, hearers)| == if outs == [] then 0 else |hearers|
  {
    if outs != [] {
      assert outs[1..] == [];
    }
  }

  /** The table side of a delivery. */
  lemma FloodTables(net: Net, ev: Event, order: seq<Addr>)
    requires NetInv(net) && Floods(net, ev) && ev.Deliver? && Enumerates(order, net.nodes)
    ensures var r := StepOf(net, ev);
      && (r.outs == [] || (|r.outs| == 1 && r.outs[0].Broadcast?))
      && (forall i :: 0 <= i < |order| ==> order[i] in net.nodes[net.wire[ev.i].to := r.node])
      && TotalUp(net.nodes[net.wire[ev.i].to := r.node], order) <= TotalUp(net.nodes, order)
      && (r.outs != [] ==> TotalUp(net.nodes[net.wire[ev.i].to := r.node], order) < TotalUp(net.nodes, order))
  {
    var f := net.wire[ev.i];
    var s := net.nodes[f.to];
    assert FlightOk(f) && NodeInv(s, net.now);
    HeedCounts(s.rtable, s.nbs, f.msg.sender, f.msg.lost);
    TotalUpUpdate(net.nodes, order, f.to, StepOf(net, ev).node);
  }

  /** The wire side. */
  lemma FloodWire(net: Net, ev: Event)
    requires Floods(net, ev)
    requires ev.Deliver? ==>
      StepOf(net, ev).outs == [] || (|StepOf(net, ev).outs| == 1 && StepOf(net, ev).outs[0].Broadcast?)
    ensures Floating(Apply(net, ev).wire)
      <= Floating(net.wire) - 1 + (if ev.Deliver? && StepOf(net, ev).outs != [] then |ev.hearers| else 0)
  {
    FloatingTakeOff(net.wire, ev.i);
    if ev.Deliver? {
      var to, outs := net.wire[ev.i].to, StepOf(net, ev).outs;
      var flights := Launch(to, outs, ev.hearers);
      HearingCopies(to, outs, ev.hearers);
      FloatingAppend(TakeOff(net, ev.i).wire, flights);
      FloatingBound(flights);
    }
  }

  /** One step of the flood: there is one copy less, unless some route was lost, and then at most one
      copy per hearer is added. */
  lemma FloodStep(net: Net, ev: Event, order: seq<Addr>)
    requires NetInv(net) && Floods(net, ev) && Enumerates(order, net.nodes)
    ensures Enumerates(order, Apply(net, ev).nodes)
    ensures var up, up' := TotalUp(net.nodes, order), TotalUp(Apply(net, ev).nodes, order);
      var floating, floating' := Floating(net.wire), Floating(Apply(net, ev).wire);
      up' <= up && floating' <= floating - 1 + (if ev.Deliver? && up' < up then |ev.hearers| else 0)
  {
    ApplyOk(net, ev);
    if ev.Deliver? {
      FloodTables(net, ev, order);
      assert Apply(net, ev).nodes == net.nodes[net.wire[ev.i].to := StepOf(net, ev).node];
    }
    FloodWire(net, ev);
  }

  /** (UP entries, copies in flight) decreases lexicographically at every flooding step. */
  lemma FloodDecreases(net: Net, ev: Event, order: seq<Addr>)
    requires NetInv(net) && Floods(net, ev) && Enumerates(order, net.nodes)
    ensures var up, up' := TotalUp(net.nodes, order), TotalUp(Apply(net, ev).nodes, order);
      up' < up || (up' == up && Floating(Apply(net, ev).wire) < Floating(net.wire))
  {
    FloodStep(net, ev, order);
  }

  /** Every step of the run is a flooding step heard by at most b nodes. */
  ghost predicate FloodRun(net: Net, evs: seq<Event>, b: nat)
    requires Legal(net, evs)
    decreases |evs|
  {
    evs == [] || (
      var front, ev := evs[..|evs| - 1], evs[|evs| - 1];
      FloodRun(net, front, b) && Floods(Run(net, front), ev) && (ev.Deliver? ==> |ev.hearers| <= b))
  }

  /** A flood is over after at most (copies in flight) + b * (UP entries in the network) steps, where b
      bounds the number of hearers of a broadcast. */
  lemma {:induction false} FloodEnds(net: Net, evs: seq<Event>, b: nat, order: seq<Addr>)
    requires NetInv(net) && Enumerates(order, net.nodes) && Legal(net, evs) && FloodRun(net, evs, b)
    ensures NetInv(Run(net, evs)) && Enumerates(order, Run(net, evs).nodes)
    ensures var end := Run(net, evs);
      |evs| + Floating(end.wire) + b * TotalUp(end.nodes, order) <= Floating(net.wire) + b * TotalUp(net.nodes, order)
  {
    if evs != [] {
      var front, ev := evs[..|evs| - 1], evs[|evs| - 1];
      FloodEnds(net, front, b, order);
      var mid := Run(net, front);
      ApplyOk(mid, ev);
      FloodStep(mid, ev, order);
      var up, up' := TotalUp(mid.nodes, order), TotalUp(Apply(mid, ev).nodes, order);
      var heard := if ev.Deliver? && up' < up then |ev.hearers| else 0;
      Drops(b, up, up', heard);
      assert Run(net, evs) == Apply(mid, ev);
    }
  }

  lemma {:induction false} Drops(b: nat, up: nat, up': nat, heard: nat)
    requires up' <= up && heard <= (if up' < up then b else 0)
    ensures b * up' + heard <= b * up
  {
    if b > 0 && up' < up {
      Drops(b - 1, up, up', if heard > 0 then heard - 1 else 0);
      assert b * up == (b - 1) * up + up && b * up' == (b - 1) * up' + up';
    }
  }
}

/** Data packets are never duplicated and go over the wire at most thirty times, whatever the tables hold. */
module DataPackets {
  import opened Types
  import opened PacketQueue
  import opened PheromoneTable
  import opened Protocol
  import opened NodeInvariant
  import opened HandlersKeep
  import opened Frames
  import opened Network
  import opened Counting
  import Roulette

  // ---------------------------------------------------------------- one node

  predicate Same(k: Key, d: Data)
    requires k.Pkt?
  {
    Hit(k, DataMsg(d))
  }

  function Held(q: seq<Data>, k: Key): nat
    requires k.Pkt?
  {
    if q == [] then 0 else (if Same(k, q[0]) then 1 else 0) + Held(q[1..], k)
  }

  lemma {:induction false} HeldAppend(a: seq<Data>, b: seq<Data>, k: Key)
    requires k.Pkt?
    ensures Held(a + b, k) == Held(a, k) + Held(b, k)
  {
    if a == [] {
      assert a + b == b;
    } else {
      assert (a + b)[1..] == a[1..] + b;
      HeldAppend(a[1..], b, k);
    }
  }

  lemma {:induction false} HeldSplits(q: seq<Data>, t: Test, k: Key)
    requires k.Pkt?
    ensures Held(Keep(q, t), k) + Held(Keep(q, Not(t)), k) == Held(q, k)
  {
    if q != [] {
      HeldSplits(q[1..], t, k);
    }
  }

  lemma {:induction false} HeldNone(q: seq<Data>, k: Key)
    requires k.Pkt? && forall d :: d in q ==> !Same(k, d)
    ensures Held(q, k) == 0
  {
    if q != [] {
      assert q[0] in q;
      HeldNone(q[1..], k);
    }
  }

  lemma {:induction false} ForwardAllCounts(index: Addr, via: Addr, ds: seq<Data>, k: Key)
    requires k.Pkt?
    ensures OutCount(ForwardAll(index, via, ds), k) <= Held(ds, k)
  {
    if ds != [] {
      ForwardAllCounts(index, via, ds[1..], k);
    }
  }

  /** What leaves and what stays is no more than what was there, plus extra; what leaves the buffer does
      so with its full ttl. */
  ghost predicate Conserves(s: Node, r: Step, k: Key, extra: nat)
    requires k.Pkt?
  {
    && OutCount(r.outs, k) + Held(r.node.queue, k) <= Held(s.queue, k) + extra
    && forall i :: 0 <= i < |r.outs| && OutHit(k, r.outs[i]) ==> r.outs[i].msg.data.ttl == NETWORK_DIAMETER
  }

  lemma DrainedConserves(s: Node, now: real, via: Addr, dst: Addr, r: Step, k: Key)
    requires k.Pkt? && Drained(s, now, via, dst, r) && WaitOk(s.queue, s.asks, s.rtable, s.index)
    ensures Conserves(s, r, k, 0)
  {
    if r.outs != [] || r.node.queue != s.queue {
      var live := Live(s.queue, now);
      HeldSplits(s.queue, Within(now), k);
      HeldSplits(live, Bound(dst), k);
      KeepMembers(s.queue, Within(now));
      KeepMembers(live, Bound(dst));
      var ds := For(live, dst);
      ForwardAllCounts(s.index, via, ds, k);
      forall i | 0 <= i < |r.outs| && OutHit(k, r.outs[i]) ensures r.outs[i].msg.data.ttl == NETWORK_DIAMETER {
        assert ds[i] in ds && Waits(ds[i], s.asks, s.rtable, s.index);
      }
    }
  }

  lemma LearnConserves(s: Node, now: real, prev: Addr, ner: Addr, seqno: nat, hops: nat, outward: bool, k: Key)
    requires k.Pkt? && WaitOk(s.queue, s.asks, s.rtable, s.index)
    ensures Conserves(s, AfterLearn(s, now, prev, ner, seqno, hops, outward), k, 0)
  {
    LearnFrame(s, now, prev, ner, seqno, hops, outward);
    DrainedConserves(s, now, prev, ner, AfterLearn(s, now, prev, ner, seqno, hops, outward), k);
  }

  lemma ThenConserves(s: Node, r: Step, c: Step, k: Key)
    requires k.Pkt? && Conserves(s, r, k, 0)
    requires OutCount(c.outs, k) == 0 && c.node.queue == r.node.queue
    requires forall i :: 0 <= i < |c.outs| ==> !OutHit(k, c.outs[i])
    ensures Conserves(s, Then(r, c), k, 0)
  {
    OutCountAppend(r.outs, c.outs, k);
  }

  lemma GoConserves(s: Node, now: real, a: GoAnt, draw: nat, junk: Roulette.Slot, k: Key)
    requires k.Pkt? && WaitOk(s.queue, s.asks, s.rtable, s.index)
    ensures Conserves(s, AfterGo(s, now, a, draw, junk), k, 0)
  {
    if Admits(s, a) {
      var s1 := s.(ids := [AgentId(a.src, a.id, now + AGENT_ID_SAVE)] + s.ids);
      var r := if a.valid && IsNb(s1.nbs, a.prevNode)
        then AfterLearn(s1, now, a.prevNode, a.ner, a.seqno, a.hops, true) else Step(s1, []);
      LearnConserves(s1, now, a.prevNode, a.ner, a.seqno, a.hops, true, k);
      var c := if a.direct then AfterDirect(r.node, a) else AfterChoose(r.node, now, a, draw, junk);
      ChooseFrame(r.node, now, a, draw, junk);
      OutCountNone(c.outs, k);
      ThenConserves(s, r, c, k);
    }
  }

  lemma ReturnConserves(s: Node, now: real, a: ReturnAnt, k: Key)
    requires k.Pkt? && WaitOk(s.queue, s.asks, s.rtable, s.index)
    ensures Conserves(s, AfterReturn(s, now, a), k, 0)
  {
    hide AfterLearn, AfterDemand, AfterPassBack, Conserves;
    var r := if a.valid && IsNb(s.nbs, a.prevNode)
      then AfterLearn(s, now, a.prevNode, a.ner, a.seqno, a.hops, false) else Step(s, []);
    LearnConserves(s, now, a.prevNode, a.ner, a.seqno, a.hops, false, k);
    var d := AfterDemand(r.node, a);
    DemandFrame(r.node, a);
    PassBackFrame(d.node, a);
    OutCountNone(d.outs, k);
    OutCountNone(AfterPassBack(d.node, a).outs, k);
    ThenConserves(s, r, d, k);
    ThenConserves(s, Then(r, d), AfterPassBack(d.node, a), k);
  }

  lemma {:induction false} NbPurgeConserves(s: Node, now: real, i: nat, k: Key)
    requires k.Pkt?
    ensures var r := AfterNbPurge(s, now, i);
      && r.node.queue == s.queue && forall j :: 0 <= j < |r.outs| ==> !OutHit(k, r.outs[j])
    decreases |s.nbs| - i
  {
    if i < |s.nbs| {
      if s.nbs[i].expire <= now {
        NbPurgeConserves(AfterNbDelete(s, s.nbs[i].addr).node, now, i, k);
      } else {
        NbPurgeConserves(s, now, i + 1, k);
      }
    }
  }

  lemma TimerConserves(s: Node, now: real, t: Timer, draw: nat, k: Key)
    requires k.Pkt? && NodeInv(s, now)
    ensures Conserves(s, AfterTimer(s, now, t, draw), k, 0)
  {
    var r := AfterTimer(s, now, t, draw);
    if t.RouteTimer? {
      RtPurgeQuiet(s, now, 0);
      HeldSplits(s.queue, Within(now), k);
    } else {
      if t.NeighborTimer? {
        NbPurgeConserves(s, now, 0, k);
      }
      OutCountNone(r.outs, k);
    }
  }

  lemma EnqueCounts(q: seq<Data>, d: Data, now: real, k: Key)
    requires k.Pkt?
    ensures Held(Enque(q, d, now).queue, k) <= Held(q, k) + if Same(k, d) then 1 else 0
  {
    var live := Live(q, now);
    HeldSplits(q, Within(now), k);
    var stamped := d.(ts := now + RTQ_TIMEOUT);
    HeldAppend(live, [stamped], k);
    if |live| == RTQ_MAX_LEN {
      HeldAppend(live[1..], [stamped], k);
    }
    assert [stamped][1..] == [];
  }

  /** A packet off the wire is passed on at most once, with one ttl less, and never waits here; at its
      own source it is dropped. */
  ghost predicate Relays(s: Node, r: Step, k: Key, d: Data)
    requires k.Pkt?
  {
    && r.node.queue == s.queue
    && OutCount(r.outs, k) <= (if Same(k, d) && s.index != k.src then 1 else 0)
    && forall i :: 0 <= i < |r.outs| && OutHit(k, r.outs[i]) ==> r.outs[i].msg.data.ttl == d.ttl - 1
  }

  lemma ResolvedForeign(s: Node, now: real, d: Data, k: Key)
    requires k.Pkt? && d.saddr != s.index
    ensures var r := AfterResolution(s, now, d);
      && r.node.queue == s.queue
      && OutCount(r.outs, k) <= (if Same(k, d) then 1 else 0)
      && forall i :: 0 <= i < |r.outs| && OutHit(k, r.outs[i]) ==> r.outs[i].msg.data.ttl == d.ttl
  {
    var r := AfterResolution(s, now, d);
    if |r.outs| == 2 {
      OutCountNone(r.outs, k);
    } else {
      assert |r.outs| == 1 && r.outs[1..] == [];
    }
  }

  lemma RelayedData(s: Node, now: real, d: Data, k: Key)
    requires k.Pkt? && d.forwards > 0
    ensures Relays(s, AfterData(s, now, d), k, d)
  {
    if d.saddr == s.index || d.ttl == 1 || d.daddr == BROADCAST {
      OutCountNone(AfterData(s, now, d).outs, k);
    } else {
      ResolvedForeign(s, now, d.(ttl := d.ttl - 1), k);
    }
  }

  lemma OwnData(s: Node, now: real, d: Data, k: Key)
    requires k.Pkt? && d.forwards == 0 && d.saddr == s.index
    ensures Conserves(s, AfterData(s, now, d), k, if Same(k, d) then 1 else 0)
  {
    var r := AfterData(s, now, d);
    EnqueCounts(s.queue, d.(ttl := NETWORK_DIAMETER), now, k);
    assert |r.outs| <= 1;
  }

  // ---------------------------------------------------------------- the network

  /** Copies of packet k waiting at its source: nobody else buffers it. */
  function Waiting(net: Net, k: Key): nat
    requires k.Pkt?
  {
    if k.src in net.nodes then Held(net.nodes[k.src].queue, k) else 0
  }

  /** At most one copy exists; on the wire its remaining ttl tells how often it was sent. */
  ghost predicate Tracked(wire: seq<Flight>, waiting: nat, sent: seq<Flight>, k: Key)
    requires k.Pkt?
  {
    && Count(wire, k) + waiting <= 1
    && Count(sent, k) <= NETWORK_DIAMETER as nat
    && (forall f :: f in wire && Hit(k, f.msg) ==> Count(sent, k) == NETWORK_DIAMETER + 1 - f.msg.data.ttl)
    && (waiting > 0 ==> Count(sent, k) == 0)
  }

  ghost predicate DataInv(net: Net, k: Key)
    requires k.Pkt?
  {
    && Tracked(net.wire, Waiting(net, k), net.sent, k)
    && (k.uid >= net.nextUid ==> Count(net.wire, k) == 0 && Waiting(net, k) == 0 && Count(net.sent, k) == 0)
  }

  lemma TrackSend(wire: seq<Flight>, flights: seq<Flight>, waiting: nat, sent: seq<Flight>, k: Key)
    requires k.Pkt? && Tracked(wire, 0, sent, k) && Count(wire, k) + Count(flights, k) + waiting <= 1
    requires waiting > 0 ==> Count(sent, k) == 0
    requires forall f :: f in flights && Hit(k, f.msg) ==>
      1 <= f.msg.data.ttl && Count(sent, k) + 1 == NETWORK_DIAMETER + 1 - f.msg.data.ttl
    ensures Tracked(wire + flights, waiting, sent + flights, k)
  {
    CountAppend(wire, flights, k);
    CountAppend(sent, flights, k);
    forall f | f in wire + flights && Hit(k, f.msg)
      ensures Count(sent + flights, k) == NETWORK_DIAMETER + 1 - f.msg.data.ttl
    {
      if f in wire {
        var i :| 0 <= i < |wire| && wire[i] == f;
        CountPositive(wire, k, i);
      } else {
        var i :| 0 <= i < |flights| && flights[i] == f;
        CountPositive(flights, k, i);
      }
    }
    if Count(flights, k) > 0 {
      var i := FindHit(flights, k);
      assert flights[i] in flights;
    }
  }

  lemma TrackTakeOff(wire: seq<Flight>, waiting: nat, sent: seq<Flight>, i: nat, k: Key)
    requires k.Pkt? && Tracked(wire, waiting, sent, k) && i < |wire|
    ensures Tracked(wire[..i] + wire[i + 1..], waiting, sent, k)
  {
    CountTakeOff(wire, i, k);
    forall f | f in wire[..i] + wire[i + 1..] ensures f in wire { }
  }

  /** What a step does to packet k: it lets go of the buffered copy with full ttl, or relays the copy
      just taken off the wire, or puts its own new packet on the way. */
  ghost predicate StepCarries(net: Net, ev: Event, k: Key)
    requires Enabled(net, ev) && !ev.Lose? && !ev.Elapse? && k.Pkt?
  {
    var r, n := StepOf(net, ev), Actor(net, ev);
    && n in net.nodes
    && var s := net.nodes[n];
       if ev.Deliver? && net.wire[ev.i].msg.DataMsg? then
         Relays(s, r, k, net.wire[ev.i].msg.data)
       else
         Conserves(s, r, k, if ev.Originate? && Same(k, NewData(net, ev)) then 1 else 0)
  }

  lemma RecvCarries(s: Node, now: real, m: Msg, draw: nat, junk: Roulette.Slot, k: Key)
    requires k.Pkt? && NodeInv(s, now)
    ensures var r := AfterRecv(s, now, Delivered(m), draw, junk);
      if m.DataMsg? then Relays(s, r, k, m.data) else Conserves(s, r, k, 0)
  {
    match m
    case Go(a) => GoConserves(s, now, a.(ttl := a.ttl - 1), draw, junk, k);
    case Return(a) => ReturnConserves(s, now, a, k);
    case Rectificator(_, _) => OutCountNone(AfterRecv(s, now, m, draw, junk).outs, k);
    case Hello(_) =>
    case DataMsg(d) =>
      var d1 := d.(forwards := d.forwards + 1, up := true);
      RelayedData(s, now, d1, k);
      assert Same(k, d1) <==> Same(k, d);
  }

  lemma StepCarriesOk(net: Net, ev: Event, k: Key)
    requires NetInv(net) && Enabled(net, ev) && !ev.Lose? && !ev.Elapse? && k.Pkt?
    ensures StepCarries(net, ev, k)
  {
    var s := net.nodes[Actor(net, ev)];
    assert NodeInv(s, net.now) && s.index == Actor(net, ev);
    match ev
    case Deliver(i, draw, junk, _) => RecvCarries(s, net.now, net.wire[i].msg, draw, junk, k);
    case LinkFail(_, _) => OutCountNone(StepOf(net, ev).outs, k);
    case Fire(_, timer, draw, _) => TimerConserves(s, net.now, timer, draw, k);
    case Originate(_, _, _, _, _) => OwnData(s, net.now, NewData(net, ev), k);
  }

  /** Only its source buffers a packet. */
  lemma OthersHoldNothing(s: Node, k: Key)
    requires k.Pkt? && WaitOk(s.queue, s.asks, s.rtable, s.index) && s.index != k.src
    ensures Held(s.queue, k) == 0
  {
    forall d | d in s.queue ensures !Same(k, d) {
      assert Waits(d, s.asks, s.rtable, s.index);
    }
    HeldNone(s.queue, k);
  }

  lemma NotesAreNotFollowed(from: Addr, outs: seq<Output>, k: Key)
    requires k.Pkt? && OutsOk(from, outs)
    ensures QuietNotes(outs, k)
  {
    forall i | 0 <= i < |outs| && outs[i].Broadcast? ensures !Hit(k, outs[i].note) {
      assert OutOk(from, outs[i]);
    }
  }

  /** How the packet's copies are spread after one step: arithmetic of the three places. */
  lemma SpreadOk(net: Net, ev: Event, k: Key)
    requires NetInv(net) && Enabled(net, ev) && !ev.Lose? && !ev.Elapse? && k.Pkt? && DataInv(net, k)
    ensures var o, w' := OutCount(StepOf(net, ev).outs, k), Waiting(Apply(net, ev), k);
      && Count(Taken(net, ev).wire, k) + o + w' <= 1
      && (w' > 0 ==> Count(net.sent, k) == 0)
      && (k.uid >= Taken(net, ev).nextUid ==> o == 0 && w' == 0 && Count(Taken(net, ev).wire, k) == 0)
  {
    hide Launch, LaunchOne, NbsOk, AsksOk, TableOk, RoutesOk, QueueOk, CountersOk;
    StepCarriesOk(net, ev, k);
    StepOfOk(net, ev);
    var n := Actor(net, ev);
    var s, r := net.nodes[n], StepOf(net, ev);
    assert NodeInv(s, net.now) && s.index == n;
    if n != k.src {
      OthersHoldNothing(s, k);
      OthersHoldNothing(r.node, k);
    }
    if ev.Deliver? || ev.LinkFail? {
      CountTakeOff(net.wire, ev.i, k);
    }
  }

  lemma LeavesWithTtl(net: Net, ev: Event, k: Key, o: Output)
    requires NetInv(net) && Enabled(net, ev) && !ev.Lose? && !ev.Elapse? && k.Pkt? && DataInv(net, k)
    requires o in StepOf(net, ev).outs && OutHit(k, o)
    ensures 1 <= o.msg.data.ttl && Count(net.sent, k) + 1 == NETWORK_DIAMETER + 1 - o.msg.data.ttl
  {
    StepCarriesOk(net, ev, k);
    StepOfOk(net, ev);
    var n := Actor(net, ev);
    var s, r := net.nodes[n], StepOf(net, ev);
    assert NodeInv(s, net.now) && s.index == n;
    var j :| 0 <= j < |r.outs| && r.outs[j] == o;
    assert OutOk(n, r.outs[j]);
    OutCountPositive(r.outs, k, j);
    if n != k.src {
      OthersHoldNothing(s, k);
    }
    if ev.Deliver? {
      assert net.wire[ev.i] in net.wire;
    }
  }

  lemma DataSettles(net: Net, ev: Event, k: Key)
    requires NetInv(net) && Enabled(net, ev) && !ev.Lose? && !ev.Elapse? && k.Pkt? && DataInv(net, k)
    ensures DataInv(Apply(net, ev), k)
  {
    hide StepOf, Launch;
    var n, r := Actor(net, ev), StepOf(net, ev);
    StepOfOk(net, ev);
    SpreadOk(net, ev, k);
    NotesAreNotFollowed(n, r.outs, k);
    var flights := Launch(n, r.outs, ev.hearers);
    LaunchCounts(n, r.outs, ev.hearers, k);
    if ev.Deliver? || ev.LinkFail? {
      TrackTakeOff(net.wire, Waiting(net, k), net.sent, ev.i, k);
    }
    forall f | f in flights && Hit(k, f.msg)
      ensures 1 <= f.msg.data.ttl && Count(net.sent, k) + 1 == NETWORK_DIAMETER + 1 - f.msg.data.ttl
    {
      LeavesWithTtl(net, ev, k, Send(f.to, f.msg));
    }
    TrackSend(Taken(net, ev).wire, flights, Waiting(Apply(net, ev), k), net.sent, k);
    CountAppend(Taken(net, ev).wire, flights, k);
    CountAppend(net.sent, flights, k);
  }

  lemma DataStep(net: Net, ev: Event, k: Key)
    requires NetInv(net) && Enabled(net, ev) && k.Pkt? && DataInv(net, k)
    ensures DataInv(Apply(net, ev), k)
  {
    if ev.Lose? {
      CountTakeOff(net.wire, ev.i, k);
      TrackTakeOff(net.wire, Waiting(net, k), net.sent, ev.i, k);
    } else if !ev.Elapse? {
      DataSettles(net, ev, k);
    }
  }

  lemma {:induction false} DataRun(ids: set<Addr>, evs: seq<Event>, k: Key)
    requires (forall n :: n in ids ==> n >= 0) && Legal(Start(ids), evs) && k.Pkt?
    ensures DataInv(Run(Start(ids), evs), k)
  {
    if evs != [] {
      var front := evs[..|evs| - 1];
      DataRun(ids, front, k);
      EveryRunOk(ids, front);
      DataStep(Run(Start(ids), front), evs[|evs| - 1], k);
    }
  }

  /** In every run, under any tables and even with routing loops: of a unicast packet there is never more
      than one copy, in flight or waiting, and it is transmitted at most thirty times. */
  lemma ThirtyTransmissions(ids: set<Addr>, evs: seq<Event>, src: Addr, uid: nat)
    requires (forall n :: n in ids ==> n >= 0) && Legal(Start(ids), evs)
    ensures var net, k := Run(Start(ids), evs), Pkt(src, uid);
      Count(net.sent, k) <= 30 && Count(net.wire, k) + Waiting(net, k) <= 1
  {
    DataRun(ids, evs, Pkt(src, uid));
  }
}

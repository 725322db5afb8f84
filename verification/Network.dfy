/** A network of nodes, the messages in flight between them, and the invariant of every run. */
module Network {
  import opened Types
  import opened Lists
  import opened PheromoneTable
  import opened RoutingTable
  import opened Requests
  import opened PacketQueue
  import opened Protocol
  import opened NodeInvariant
  import opened HandlersKeep
  import Roulette

  datatype Flight = Flight(from: Addr, to: Addr, msg: Msg)

  /** A node letting an outward ant past its two filters. */
  datatype Acceptance = Acceptance(node: Addr, src: Addr, id: nat, at: real)

  /** The nodes, the wire and the clock, with the history of transmissions and acceptances. */
  datatype Net = Net(
    nodes: map<Addr, Node>, wire: seq<Flight>, now: real, nextUid: nat,
    sent: seq<Flight>, accepted: seq<Acceptance>)

  /** What may happen next. draw and junk are the value of rand() and the contents of unwritten memory;
      hearers are the nodes a broadcast made in this step reaches. */
  datatype Event =
    | Deliver(i: nat, draw: nat, junk: Roulette.Slot, hearers: seq<Addr>)
    | Lose(i: nat)
    | LinkFail(i: nat, hearers: seq<Addr>)
    | Fire(n: Addr, timer: Timer, draw: nat, hearers: seq<Addr>)
    | Originate(n: Addr, daddr: Addr, ttl: int, up: bool, hearers: seq<Addr>)
    | Elapse(span: real)

  function Copies(from: Addr, m: Msg, hearers: seq<Addr>): (r: seq<Flight>)
    ensures |r| == |hearers| && forall i :: 0 <= i < |r| ==> r[i] == Flight(from, hearers[i], m)
  {
    if hearers == [] then [] else [Flight(from, hearers[0], m)] + Copies(from, m, hearers[1..])
  }

  function LaunchOne(from: Addr, o: Output, hearers: seq<Addr>): seq<Flight> {
    match o
    case Send(to, m) => [Flight(from, to, m)]
    case Broadcast(m) => Copies(from, m, hearers)
    case Local(_) => []
    case Drop(_, _) => []
  }

  function Launch(from: Addr, outs: seq<Output>, hearers: seq<Addr>): seq<Flight> {
    if outs == [] then [] else LaunchOne(from, outs[0], hearers) + Launch(from, outs[1..], hearers)
  }

  /** Node n has made step r. */
  function Settle(net: Net, n: Addr, r: Step, hearers: seq<Addr>): Net {
    var flights := Launch(n, r.outs, hearers);
    net.(nodes := net.nodes[n := r.node], wire := net.wire + flights, sent := net.sent + flights)
  }

  function TakeOff(net: Net, i: nat): Net
    requires i < |net.wire|
  {
    net.(wire := net.wire[..i] + net.wire[i + 1..])
  }

  /** A message is delivered at the node its next hop names, and only if its hop count is a distance. */
  predicate Enabled(net: Net, ev: Event) {
    match ev
    case Deliver(i, _, _, _) => i < |net.wire| && net.wire[i].to in net.nodes && Arrives(net.wire[i].msg)
    case Lose(i) => i < |net.wire|
    case LinkFail(i, _) => i < |net.wire| && net.wire[i].from in net.nodes && net.wire[i].msg.DataMsg?
    case Fire(n, _, _, _) => n in net.nodes
    case Originate(n, _, _, _, _) => n in net.nodes
    case Elapse(span) => span >= 0.0
  }

  /** A packet as its application hands it over: never yet delivered, ttl and direction as may be. */
  function NewData(net: Net, ev: Event): Data
    requires ev.Originate?
  {
    Data(net.nextUid, ev.n, ev.daddr, ev.ttl, 0, ev.up, 0.0)
  }

  /** The step node net.nodes[n] makes in an event that is not a loss or a delay. */
  function StepOf(net: Net, ev: Event): Step
    requires Enabled(net, ev) && !ev.Lose? && !ev.Elapse?
  {
    match ev
    case Deliver(i, draw, junk, _) =>
      AfterRecv(net.nodes[net.wire[i].to], net.now, Delivered(net.wire[i].msg), draw, junk)
    case LinkFail(i, _) => AfterLinkLayerFailed(net.nodes[net.wire[i].from], net.wire[i].msg.data, net.wire[i].to)
    case Fire(n, timer, draw, _) => AfterTimer(net.nodes[n], net.now, timer, draw)
    case Originate(n, _, _, _, _) => AfterData(net.nodes[n], net.now, NewData(net, ev))
  }

  function Actor(net: Net, ev: Event): Addr
    requires Enabled(net, ev) && !ev.Lose? && !ev.Elapse?
  {
    match ev
    case Deliver(i, _, _, _) => net.wire[i].to
    case LinkFail(i, _) => net.wire[i].from
    case Fire(n, _, _, _) => n
    case Originate(n, _, _, _, _) => n
  }

  function Accepting(net: Net, ev: Event): seq<Acceptance>
    requires Enabled(net, ev)
  {
    if ev.Deliver? && net.wire[ev.i].msg.Go? then
      var f := net.wire[ev.i];
      var a := f.msg.go;
      if Admits(net.nodes[f.to], a) then [Acceptance(f.to, a.src, a.id, net.now)] else []
    else []
  }

  /** The net an acting node starts from: its message is off the wire, its packet numbered. */
  function Taken(net: Net, ev: Event): Net
    requires Enabled(net, ev) && !ev.Lose? && !ev.Elapse?
  {
    match ev
    case Deliver(i, _, _, _) => TakeOff(net, i)
    case LinkFail(i, _) => TakeOff(net, i)
    case Fire(_, _, _, _) => net
    case Originate(_, _, _, _, _) => net.(nextUid := net.nextUid + 1)
  }

  function Apply(net: Net, ev: Event): Net
    requires Enabled(net, ev)
  {
    match ev
    case Lose(i) => TakeOff(net, i)
    case Elapse(span) => net.(now := net.now + span)
    case _ =>
      Settle(Taken(net, ev), Actor(net, ev), StepOf(net, ev), ev.hearers)
        .(accepted := net.accepted + Accepting(net, ev))
  }

  /** Freshly constructed nodes, silence, time zero. */
  function Start(ids: set<Addr>): Net {
    Net(map n | n in ids :: Initial(n), [], 0.0, 0, [], [])
  }

  /** A run of enabled events. */
  ghost predicate Legal(net: Net, evs: seq<Event>)
    decreases |evs|, 0
  {
    evs == [] || (Legal(net, evs[..|evs| - 1]) && Enabled(Run(net, evs[..|evs| - 1]), evs[|evs| - 1]))
  }

  ghost function Run(net: Net, evs: seq<Event>): Net
    requires Legal(net, evs)
    decreases |evs|, 1
  {
    if evs == [] then net else Apply(Run(net, evs[..|evs| - 1]), evs[|evs| - 1])
  }

  // ---------------------------------------------------------------- the invariant

  ghost predicate FlightOk(f: Flight) {
    MsgOk(f.from, f.to, f.msg)
  }

  ghost predicate NetInv(net: Net) {
    && (forall n :: n in net.nodes ==> net.nodes[n].index == n && NodeInv(net.nodes[n], net.now))
    && (forall i :: 0 <= i < |net.wire| ==> FlightOk(net.wire[i]))
  }

  lemma {:induction false} LaunchOk(from: Addr, outs: seq<Output>, hearers: seq<Addr>)
    requires OutsOk(from, outs)
    ensures forall i :: 0 <= i < |Launch(from, outs, hearers)| ==> FlightOk(Launch(from, outs, hearers)[i])
  {
    if outs != [] {
      assert OutOk(from, outs[0]);
      LaunchOk(from, outs[1..], hearers);
    }
  }

  lemma StepOfOk(net: Net, ev: Event)
    requires NetInv(net) && Enabled(net, ev) && !ev.Lose? && !ev.Elapse?
    ensures Actor(net, ev) in net.nodes
    ensures StepOk(net.nodes[Actor(net, ev)], net.now, StepOf(net, ev))
  {
    var n := Actor(net, ev);
    var s := net.nodes[n];
    match ev
    case Deliver(i, draw, junk, _) =>
      assert FlightOk(net.wire[i]);
      RecvOk(s, net.now, net.wire[i].from, net.wire[i].msg, draw, junk);
    case LinkFail(i, _) => LinkLayerFailedOk(s, net.now, net.wire[i].msg.data, net.wire[i].to);
    case Fire(_, timer, draw, _) => TimerOk(s, net.now, timer, draw);
    case Originate(_, _, _, _, _) => DataHandled(s, net.now, NewData(net, ev));
  }

  lemma {:induction false} AllOkAppend(a: seq<Flight>, b: seq<Flight>)
    requires forall i :: 0 <= i < |a| ==> FlightOk(a[i])
    requires forall i :: 0 <= i < |b| ==> FlightOk(b[i])
    ensures forall i :: 0 <= i < |a + b| ==> FlightOk((a + b)[i])
  {
  }

  /** A sound step of one node, its flights added, leaves a sound network. */
  lemma SettleOk(net: Net, n: Addr, r: Step, hearers: seq<Addr>)
    requires NetInv(net) && n in net.nodes && StepOk(net.nodes[n], net.now, r)
    ensures NetInv(Settle(net, n, r, hearers))
  {
    LaunchOk(n, r.outs, hearers);
    AllOkAppend(net.wire, Launch(n, r.outs, hearers));
  }

  /** Every event keeps the invariant of the whole network. */
  lemma ApplyOk(net: Net, ev: Event)
    requires NetInv(net) && Enabled(net, ev)
    ensures NetInv(Apply(net, ev))
    ensures Apply(net, ev).nodes.Keys == net.nodes.Keys
  {
    hide NodeInv, StepOf, Launch;
    if ev.Elapse? {
      forall n | n in net.nodes ensures NodeInv(net.nodes[n], net.now + ev.span) {
        InvLater(net.nodes[n], net.now, net.now + ev.span);
      }
    } else if !ev.Lose? {
      StepOfOk(net, ev);
      assert NetInv(Taken(net, ev));
      SettleOk(Taken(net, ev), Actor(net, ev), StepOf(net, ev), ev.hearers);
    }
  }

  /** In every run from freshly started nodes, under any schedule, losses and draws, the invariant holds. */
  lemma {:induction false} EveryRunOk(ids: set<Addr>, evs: seq<Event>)
    requires (forall n :: n in ids ==> n >= 0) && Legal(Start(ids), evs)
    ensures NetInv(Run(Start(ids), evs))
    ensures Run(Start(ids), evs).nodes.Keys == ids
  {
    if evs == [] {
      assert Run(Start(ids), evs) == Start(ids);
    } else {
      var front := evs[..|evs| - 1];
      EveryRunOk(ids, front);
      ApplyOk(Run(Start(ids), front), evs[|evs| - 1]);
    }
  }

  // ---------------------------------------------------------------- building runs

  lemma Snoc(net: Net, evs: seq<Event>, ev: Event)
    requires Legal(net, evs) && Enabled(Run(net, evs), ev)
    ensures Legal(net, evs + [ev]) && Run(net, evs + [ev]) == Apply(Run(net, evs), ev)
  {
    assert (evs + [ev])[..|evs|] == evs;
  }

  lemma OneOutput(from: Addr, o: Output, hearers: seq<Addr>)
    ensures Launch(from, [o], hearers) == LaunchOne(from, o, hearers)
  {
    assert [o][1..] == [];
  }

  lemma OneHearer(from: Addr, m: Msg, to: Addr)
    ensures Copies(from, m, [to]) == [Flight(from, to, m)]
  {
    assert [to][1..] == [];
  }

  // ---------------------------------------------------------------- what the invariant says

  /** At every node of every run: a waiting packet is asked for and has no route, so whatever has an UP
      route is not waiting; the counters count; the demand flag is never raised over an empty list. */
  lemma WaitingPacketsAreAskedFor(ids: set<Addr>, evs: seq<Event>, n: Addr)
    requires (forall i :: i in ids ==> i >= 0) && Legal(Start(ids), evs) && n in ids
    ensures n in Run(Start(ids), evs).nodes
    ensures var s := Run(Start(ids), evs).nodes[n];
      && (forall d, e :: d in s.queue && e in s.rtable && e.flag == UP ==> e.dst != d.daddr)
      && (forall d :: d in s.queue ==> exists r :: r in s.asks && r.dst == d.daddr)
      && (forall d :: d in s.queue ==> d.saddr == n) && |s.queue| <= RTQ_MAX_LEN && Sorted(s.queue)
      && RequestsUnique(s.asks) && s.demNum == |s.asks| && (s.askRt ==> s.asks != []) && s.nbNum == |s.nbs|
  {
    EveryRunOk(ids, evs);
    var s := Run(Start(ids), evs).nodes[n];
    assert NodeInv(s, Run(Start(ids), evs).now);
    forall d | d in s.queue
      ensures exists r :: r in s.asks && r.dst == d.daddr
      ensures forall e :: e in s.rtable && e.flag == UP ==> e.dst != d.daddr
    {
      assert Waits(d, s.asks, s.rtable, s.index);
      assert s.asks[FindRequest(s.asks, d.daddr)] in s.asks;
    }
  }

  /** Parity and shape everywhere: tables, ants and rectificators. */
  lemma ParityEverywhere(ids: set<Addr>, evs: seq<Event>)
    requires (forall i :: i in ids ==> i >= 0) && Legal(Start(ids), evs)
    ensures var net := Run(Start(ids), evs);
      && (forall n, e :: n in net.nodes && e in net.nodes[n].rtable ==> Shape(e))
      && (forall f :: f in net.wire && f.msg.Go? ==> SeqnoOk(f.msg.go.seqno))
      && (forall f :: f in net.wire && f.msg.Return? ==> SeqnoOk(f.msg.back.seqno))
      && (forall f :: f in net.wire && f.msg.Rectificator? ==> LostOk(f.msg.lost))
  {
    EveryRunOk(ids, evs);
    var net := Run(Start(ids), evs);
    forall n, e | n in net.nodes && e in net.nodes[n].rtable ensures Shape(e) {
      assert NodeInv(net.nodes[n], net.now);
      var i :| 0 <= i < |net.nodes[n].rtable| && net.nodes[n].rtable[i] == e;
      assert EntryOk(net.nodes[n].rtable[i], net.nodes[n].nbs);
    }
    forall f | f in net.wire ensures FlightOk(f) {
    }
  }

  /** Every UP entry leads through a current neighbour, by a way of its own. */
  lemma UpEntriesUseNeighbors(ids: set<Addr>, evs: seq<Event>, n: Addr)
    requires (forall i :: i in ids ==> i >= 0) && Legal(Start(ids), evs) && n in ids
    ensures n in Run(Start(ids), evs).nodes
    ensures var s := Run(Start(ids), evs).nodes[n];
      && (forall i :: 0 <= i < |s.rtable| && s.rtable[i].flag == UP ==>
            exists k :: 0 <= k < |s.nbs| && s.nbs[k].addr == s.rtable[i].nextHop)
      && (forall i, j :: 0 <= i < |s.rtable| && 0 <= j < |s.rtable| && i != j ==> !Twins(s.rtable[i], s.rtable[j]))
  {
    EveryRunOk(ids, evs);
    var net := Run(Start(ids), evs);
    var s := net.nodes[n];
    assert NodeInv(s, net.now);
    forall i | 0 <= i < |s.rtable| && s.rtable[i].flag == UP
      ensures exists k :: 0 <= k < |s.nbs| && s.nbs[k].addr == s.rtable[i].nextHop
    {
      assert EntryOk(s.rtable[i], s.nbs);
      assert s.nbs[FindNb(s.nbs, s.rtable[i].nextHop)].addr == s.rtable[i].nextHop;
    }
  }

  /** Every return ant in flight is on its way to the next cell of its trail, at the distance walked. */
  lemma ReturnsFollowTheirTrail(ids: set<Addr>, evs: seq<Event>)
    requires (forall i :: i in ids ==> i >= 0) && Legal(Start(ids), evs)
    ensures forall f :: f in Run(Start(ids), evs).wire && f.msg.Return? ==> ReturnOk(f.msg.back, f.to)
  {
    EveryRunOk(ids, evs);
    var wire := Run(Start(ids), evs).wire;
    forall f | f in wire && f.msg.Return? ensures ReturnOk(f.msg.back, f.to) {
      var i :| 0 <= i < |wire| && wire[i] == f;
      assert FlightOk(wire[i]);
    }
  }

  /** Pheromone tables: unique keys, quantities a positive whole number of steps, non-empty duplicate-free
      neighbour lists; requests: every quantity is the initial one plus a whole number of ageing steps. */
  lemma QuantitiesEverywhere(ids: set<Addr>, evs: seq<Event>, n: Addr)
    requires (forall i :: i in ids ==> i >= 0) && Legal(Start(ids), evs) && n in ids
    ensures n in Run(Start(ids), evs).nodes
    ensures var s := Run(Start(ids), evs).nodes[n];
      && KeysUnique(s.phtable)
      && (forall e :: e in s.phtable ==> e.qte > 0.0 && Whole(e.qte) && e.nbs != [] && NoDup(e.nbs))
      && (forall r :: r in s.asks ==> Stepped(r.qte))
  {
    EveryRunOk(ids, evs);
    var s := Run(Start(ids), evs).nodes[n];
    assert NodeInv(s, Run(Start(ids), evs).now);
    forall e | e in s.phtable ensures Filled(e) && e.qte > 0.0 {
      WholeSum(e.qte, e.qte);
    }
  }
}

/** What holds of a node between handlers and of a message on the wire, and that every handler keeps it. */
module NodeInvariant {
  import opened Types
  import opened Lists
  import opened PacketQueue
  import opened RoutingTable
  import opened PheromoneTable
  import opened Requests
  import opened Protocol

  // ---------------------------------------------------------------- the node

  /** UP with an even positive number, a finite distance and a real next hop; or DOWN, wiped. */
  ghost predicate Shape(e: Entry) {
    || (e.flag == UP && e.seqno > 0 && e.seqno % 2 == 0 && e.hops < INFINITY2 && e.nextHop >= 0)
    || (e.flag == DOWN && e.hops == INFINITY2 && e.nextHop == NO_TARGET && (e.seqno == 0 || e.seqno % 2 == 1))
  }

  ghost predicate EntryOk(e: Entry, nbs: seq<Neighbor>) {
    Shape(e) && NoDup(e.precursors) && (e.flag == UP ==> IsNb(nbs, e.nextHop))
  }

  ghost predicate Twins(a: Entry, b: Entry) {
    a.flag == UP && b.flag == UP && a.nextHop == b.nextHop && a.dst == b.dst
  }

  /** Every UP entry leads through a current neighbour, and no two lead the same way to the same place. */
  ghost predicate RoutesOk(t: seq<Entry>, nbs: seq<Neighbor>) {
    && (forall i :: 0 <= i < |t| ==> EntryOk(t[i], nbs))
    && (forall i, j :: 0 <= i < |t| && 0 <= j < |t| && i != j ==> !Twins(t[i], t[j]))
  }

  /** A waiting packet is the node's own, never yet sent, asked for, and without any route. */
  ghost predicate Waits(d: Data, asks: seq<Request>, t: seq<Entry>, index: Addr) {
    && d.saddr == index && d.daddr != BROADCAST && d.ttl == NETWORK_DIAMETER && d.forwards == 0
    && Asked(asks, d.daddr) && Routeless(t, d.daddr)
  }

  ghost predicate WaitOk(q: seq<Data>, asks: seq<Request>, t: seq<Entry>, index: Addr) {
    forall d :: d in q ==> Waits(d, asks, t, index)
  }

  ghost predicate QueueOk(q: seq<Data>, now: real) {
    Sorted(q) && |q| <= RTQ_MAX_LEN && forall d :: d in q ==> d.ts <= now + RTQ_TIMEOUT
  }

  /** A request is born with 0.5 and gains 0.1 at each ageing tick. */
  function Quantity(ticks: nat): (r: real)
    ensures r > 0.0
  {
    PHEROMONE_QTE + ticks as real * PHEROMONE_STEP
  }

  ghost predicate Stepped(qte: real) {
    exists n :: qte == Quantity(n)
  }

  lemma SteppedIsWhole(qte: real)
    requires Stepped(qte)
    ensures Whole(qte)
  {
    var n: nat :| qte == Quantity(n);
    assert qte == Steps(n + 5);
  }

  ghost predicate AsksOk(asks: seq<Request>, demNum: int, askRt: bool) {
    && RequestsUnique(asks) && demNum == |asks| && (askRt ==> asks != [])
    && forall r :: r in asks ==> Stepped(r.qte)
  }

  ghost predicate NbsOk(nbs: seq<Neighbor>, nbNum: int) {
    && nbNum == |nbs|
    && (forall i :: 0 <= i < |nbs| ==> nbs[i].addr >= 0)
    && (forall i, j :: 0 <= i < j < |nbs| ==> nbs[i].addr != nbs[j].addr)
  }

  ghost predicate CountersOk(s: Node) {
    s.index >= 0 && s.seqno >= 2 && s.seqno % 2 == 0 && s.idAgent >= 1
  }

  ghost predicate NodeInv(s: Node, now: real) {
    && CountersOk(s)
    && NbsOk(s.nbs, s.nbNum)
    && AsksOk(s.asks, s.demNum, s.askRt)
    && TableOk(s.phtable)
    && RoutesOk(s.rtable, s.nbs)
    && QueueOk(s.queue, now)
    && WaitOk(s.queue, s.asks, s.rtable, s.index)
  }

  // ---------------------------------------------------------------- the wire

  ghost predicate SeqnoOk(n: nat) {
    n > 0 && n % 2 == 0
  }

  /** The trail names nodes, starts at the source and never comes back to it. */
  ghost predicate TrailOk(trail: seq<Addr>, src: Addr) {
    && trail != [] && trail[0] == src
    && (forall j :: 1 <= j < |trail| ==> trail[j] != src)
    && (forall j :: 0 <= j < |trail| ==> trail[j] >= 0)
  }

  /** antL_nodetarget == -1 and antL_rt == 0 */
  predicate Wandering(a: GoAnt) {
    a.target == NO_TARGET && !a.direct
  }

  ghost predicate GoOk(a: GoAnt) {
    && SeqnoOk(a.seqno) && a.hops < 256
    && (!a.direct ==> TrailOk(a.trail, a.src) && a.trail[|a.trail| - 1] == a.prevNode)
    && (Wandering(a) ==>
      a.ttl + |a.trail| == ANT_TTL + 1 && 1 <= a.ttl && a.hops == |a.trail| && a.ner == a.src)
  }

  /** A return ant launched by ner over trail, met on its way to trail[count]. */
  ghost predicate ReturnOk(a: ReturnAnt, to: Addr) {
    && SeqnoOk(a.seqno) && a.valid && a.ner >= 0 && a.ner != a.src
    && TrailOk(a.trail, a.src)
    && a.hops >= 1 && a.count < |a.trail| && a.hops + a.count == |a.trail|
    && to == a.trail[a.count]
    && a.prevNode == (if a.count == |a.trail| - 1 then a.ner else a.trail[a.count + 1])
    && (a.detask != NO_DEMAND ==> Stepped(a.qte))
  }

  ghost predicate LostOk(lost: seq<Lost>) {
    forall i :: 0 <= i < |lost| ==> lost[i].seqno == 0 || lost[i].seqno % 2 == 1
  }

  /** Deliveries and remaining ttl of a unicast packet always add up to the network diameter. */
  ghost predicate DataOk(d: Data) {
    d.daddr != BROADCAST ==> 1 <= d.ttl && d.ttl + d.forwards == NETWORK_DIAMETER
  }

  ghost predicate MsgOk(from: Addr, to: Addr, m: Msg) {
    match m
    case Go(a) => GoOk(a) && a.prevNode == from
    case Return(a) => ReturnOk(a, to) && a.prevNode == from
    case Rectificator(sender, lost) => LostOk(lost) && sender == from
    case Hello(origin) => origin == from && from >= 0
    case DataMsg(d) => DataOk(d)
  }

  ghost predicate NoteOk(from: Addr, m: Msg) {
    (m.Rectificator? || m.Hello? || (m.DataMsg? && m.data.daddr == BROADCAST)) && MsgOk(from, BROADCAST, m)
  }

  ghost predicate OutOk(from: Addr, o: Output) {
    match o
    case Send(to, m) => MsgOk(from, to, m)
    case Broadcast(m) => NoteOk(from, m)
    case Local(_) => true
    case Drop(_, _) => true
  }

  ghost predicate OutsOk(from: Addr, outs: seq<Output>) {
    forall i :: 0 <= i < |outs| ==> OutOk(from, outs[i])
  }

  /** What every handler must deliver. */
  ghost predicate StepOk(s: Node, now: real, r: Step) {
    NodeInv(r.node, now) && r.node.index == s.index && OutsOk(s.index, r.outs)
  }

  /** The hypothesis on arriving ants: their hop count is a distance, not INFINITY2. */
  predicate Arrives(m: Msg) {
    match m
    case Go(a) => a.hops < INFINITY2
    case Return(a) => a.hops < INFINITY2
    case _ => true
  }

  // ---------------------------------------------------------------- time and composition

  lemma InvLater(s: Node, now: real, later: real)
    requires NodeInv(s, now) && now <= later
    ensures NodeInv(s, later)
  {
  }

  lemma ThenOk(s: Node, now: real, r: Step, r2: Step)
    requires StepOk(s, now, r) && StepOk(r.node, now, r2)
    ensures StepOk(s, now, Then(r, r2))
  {
  }

  // ---------------------------------------------------------------- the table

  ghost predicate SameRoute(a: Entry, b: Entry) {
    a.dst == b.dst && a.seqno == b.seqno && a.hops == b.hops && a.nextHop == b.nextHop && a.flag == b.flag
  }

  /** Changing an entry's precursors or deadline changes no route. */
  lemma TouchOk(t: seq<Entry>, nbs: seq<Neighbor>, k: nat, e: Entry)
    requires RoutesOk(t, nbs) && k < |t| && SameRoute(t[k], e) && NoDup(e.precursors)
    ensures RoutesOk(t[k := e], nbs)
    ensures forall d :: Routeless(t[k := e], d) <==> Routeless(t, d)
  {
    var t1 := t[k := e];
    forall d ensures Routeless(t1, d) <==> Routeless(t, d) {
      assert forall j :: 0 <= j < |t| ==> Leads(t[j], d) == Leads(t1[j], d);
    }
    forall i, j | 0 <= i < |t| && 0 <= j < |t| && i != j ensures !Twins(t1[i], t1[j]) {
      assert !Twins(t[i], t[j]);
    }
  }

  /** Taking an entry down can only leave destinations without a route. */
  lemma DownOk(t: seq<Entry>, nbs: seq<Neighbor>, k: nat, e: Entry)
    requires RoutesOk(t, nbs) && k < |t| && e.flag == DOWN && Shape(e) && NoDup(e.precursors)
    ensures RoutesOk(t[k := e], nbs)
    ensures forall d :: Routeless(t, d) ==> Routeless(t[k := e], d)
  {
    var t1 := t[k := e];
    forall i, j | 0 <= i < |t| && 0 <= j < |t| && i != j ensures !Twins(t1[i], t1[j]) {
      assert !Twins(t[i], t[j]);
    }
  }

  lemma KeepOk(q: seq<Data>, now: real, t: Test)
    requires QueueOk(q, now)
    ensures QueueOk(Keep(q, t), now) && forall d :: d in Keep(q, t) <==> d in q && t.Holds(d)
  {
    KeepSorted(q, t);
    KeepMembers(q, t);
  }
}

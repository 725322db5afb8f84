/** One node as a value, and what each handler and timer of antconf.cc makes of it. */
module Protocol {
  import opened Types
  import opened Lists
  import opened PacketQueue
  import opened RoutingTable
  import opened PheromoneTable
  import opened Requests
  import Roulette

  datatype Node = Node(
    index: Addr, seqno: nat, idAgent: nat, askRt: bool, nbNum: int, demNum: int,
    nbs: seq<Neighbor>, ids: seq<AgentId>, asks: seq<Request>,
    rtable: seq<Entry>, phtable: seq<PhEntry>, queue: seq<Data>)

  datatype Step = Step(node: Node, outs: seq<Output>)

  /** The ANTCONF constructor. */
  function Initial(index: Addr): Node {
    Node(index, 2, 1, false, 0, 0, [], [], [], [], [], [])
  }

  // ---------------------------------------------------------------- neighbours

  function FindNb(nbs: seq<Neighbor>, id: Addr): (i: int)
    ensures -1 <= i < |nbs|
    ensures i >= 0 ==> nbs[i].addr == id && forall j :: 0 <= j < i ==> nbs[j].addr != id
    ensures i < 0 ==> forall j :: 0 <= j < |nbs| ==> nbs[j].addr != id
  {
    FirstWhere(nbs, (nb: Neighbor) => nb.addr == id)
  }

  /** nb_lookup */
  predicate IsNb(nbs: seq<Neighbor>, id: Addr) {
    FindNb(nbs, id) >= 0
  }

  /** recvHello, nb_insert */
  function AfterHello(s: Node, now: real, origin: Addr): Node {
    var k := FindNb(s.nbs, origin);
    if k < 0 then
      s.(nbs := [Neighbor(origin, now + HELLO_LIFE)] + s.nbs, seqno := s.seqno + 2, nbNum := s.nbNum + 1)
    else
      s.(nbs := s.nbs[k := Neighbor(origin, now + HELLO_LIFE)])
  }

  // ---------------------------------------------------------------- broken links

  predicate Uses(e: Entry, id: Addr) {
    e.hops != INFINITY2 && e.nextHop == id
  }

  /** What link_failure_management(id) makes of one entry. */
  function Severed(e: Entry, id: Addr): Entry {
    var e1 := if Uses(e, id) then TakeDown(e.(seqno := e.seqno + 1)) else e;
    e1.(precursors := Without(e1.precursors, id))
  }

  function SeverAll(t: seq<Entry>, id: Addr): (r: seq<Entry>)
    ensures |r| == |t| && forall i :: 0 <= i < |t| ==> r[i] == Severed(t[i], id)
  {
    if t == [] then [] else SeverAll(t[..|t| - 1], id) + [Severed(t[|t| - 1], id)]
  }

  /** The destinations written into the rectificator. */
  function LostBy(t: seq<Entry>, id: Addr): seq<Lost> {
    if t == [] then []
    else
      var e := t[|t| - 1];
      LostBy(t[..|t| - 1], id) + if Uses(e, id) then [Lost(e.dst, e.seqno + 1)] else []
  }

  function AfterLinkFailure(s: Node, id: Addr): Step {
    var lost := LostBy(s.rtable, id);
    Step(s.(rtable := SeverAll(s.rtable, id)),
         if lost == [] then [] else [Broadcast(Rectificator(s.index, lost))])
  }

  /** The list half of nb_delete. */
  function Forget(s: Node, id: Addr): Node {
    var k := FindNb(s.nbs, id);
    if k < 0 then s.(seqno := s.seqno + 2)
    else s.(nbs := RemoveAt(s.nbs, k), nbNum := s.nbNum - 1, seqno := s.seqno + 2)
  }

  /** nb_delete */
  function AfterNbDelete(s: Node, id: Addr): Step {
    AfterLinkFailure(Forget(s, id), id)
  }

  /** nb_purge from position i on: a deleted neighbour leaves its successor at the same position. */
  function AfterNbPurge(s: Node, now: real, i: nat): Step
    decreases |s.nbs| - i
  {
    if i >= |s.nbs| then Step(s, [])
    else if s.nbs[i].expire <= now then
      var r := AfterNbDelete(s, s.nbs[i].addr);
      var rest := AfterNbPurge(r.node, now, i);
      Step(rest.node, r.outs + rest.outs)
    else AfterNbPurge(s, now, i + 1)
  }

  /** linklayer_failed, for a data packet that could not reach nextHop. */
  function AfterLinkLayerFailed(s: Node, d: Data, nextHop: Addr): Step {
    if d.daddr == BROADCAST || FindDst(s.rtable, d.daddr) < 0 then Step(s, [Drop(d, MAC_CALLBACK)])
    else
      var r := AfterNbDelete(s, nextHop);
      Step(r.node, [Drop(d, MAC_CALLBACK)] + r.outs)
  }

  // ---------------------------------------------------------------- rectificators

  predicate Heeds(e: Entry, sender: Addr, lost: Lost) {
    e.hops != INFINITY2 && e.nextHop == sender && e.seqno <= lost.seqno
  }

  datatype Heeded = Heeded(table: seq<Entry>, resend: seq<Lost>)

  /** The loop body of recvRectificatorAgent for one destination. */
  function HeedOne(t: seq<Entry>, sender: Addr, lost: Lost): Heeded {
    var k := FindDst(t, lost.dst);
    if k >= 0 && Heeds(t[k], sender, lost) then
      var e := TakeDown(t[k].(seqno := lost.seqno));
      if e.precursors != [] then Heeded(t[k := e.(precursors := [])], [Lost(e.dst, e.seqno)])
      else Heeded(t[k := e], [])
    else Heeded(t, [])
  }

  function Heed(t: seq<Entry>, sender: Addr, lost: seq<Lost>): Heeded {
    if lost == [] then Heeded(t, [])
    else
      var before := Heed(t, sender, lost[..|lost| - 1]);
      var one := HeedOne(before.table, sender, lost[|lost| - 1]);
      Heeded(one.table, before.resend + one.resend)
  }

  function AfterRectificator(s: Node, sender: Addr, lost: seq<Lost>): Step {
    var h := Heed(s.rtable, sender, lost);
    Step(s.(rtable := h.table), if h.resend == [] then [] else [Broadcast(Rectificator(s.index, h.resend))])
  }

  // ---------------------------------------------------------------- route requests

  function AddRequest(s: Node, dst: Addr, qte: real, now: real): Node {
    s.(asks := Insert(s.asks, dst, qte, now), demNum := s.demNum + 1)
  }

  /** ar_delete, which also withdraws askRt when nothing is left. */
  function DropRequest(s: Node, dst: Addr): Node {
    var asks := Delete(s.asks, dst);
    s.(asks := asks,
       demNum := if Asked(s.asks, dst) then s.demNum - 1 else s.demNum,
       askRt := s.askRt && asks != [])
  }

  // ---------------------------------------------------------------- forwarding data

  /** forward() with a route. */
  function ForwardOne(index: Addr, nextHop: Addr, d: Data): Output {
    if d.ttl == 0 then Drop(d, TTL_OVER)
    else if (d.up && d.daddr == BROADCAST) || d.daddr == index then Local(d)
    else Send(nextHop, DataMsg(d.(up := false)))
  }

  function ForwardAll(index: Addr, nextHop: Addr, ds: seq<Data>): (r: seq<Output>)
    ensures |r| == |ds| && forall i :: 0 <= i < |ds| ==> r[i] == ForwardOne(index, nextHop, ds[i])
  {
    if ds == [] then [] else [ForwardOne(index, nextHop, ds[0])] + ForwardAll(index, nextHop, ds[1..])
  }

  /** rt_expire after forwarding ds: refreshed by each packet that really goes out. */
  function Refreshed(e: Entry, index: Addr, ds: seq<Data>, now: real): (r: Entry)
    ensures r == e.(expire := r.expire)
    decreases ds
  {
    if ds == [] then e
    else
      var e1 := if ForwardOne(index, e.nextHop, ds[0]).Send? then e.(expire := now + ROUTE_LIFE) else e;
      Refreshed(e1, index, ds[1..], now)
  }

  /** The loop "while deque(rt_dst) forward": every live packet for the entry's destination leaves. */
  function Drain(s: Node, now: real, at: nat): Step
    requires at < |s.rtable|
  {
    var e := s.rtable[at];
    var live := Live(s.queue, now);
    var ds := For(live, e.dst);
    Step(s.(queue := Others(live, e.dst), rtable := s.rtable[at := Refreshed(e, s.index, ds, now)]),
         ForwardAll(s.index, e.nextHop, ds))
  }

  function DropAll(ds: seq<Data>, reason: Reason): (r: seq<Output>)
    ensures |r| == |ds| && forall i :: 0 <= i < |ds| ==> r[i] == Drop(ds[i], reason)
  {
    if ds == [] then [] else [Drop(ds[0], reason)] + DropAll(ds[1..], reason)
  }

  /** The body of rt_purge's loop for the entry at position i. */
  function PurgeEntry(s: Node, now: real, i: nat): Step
    requires i < |s.rtable|
  {
    var e := s.rtable[i];
    if e.flag == UP && e.expire < now then
      var live := Live(s.queue, now);
      Step(s.(queue := Others(live, e.dst), rtable := s.rtable[i := TakeDown(e.(seqno := e.seqno + 1))]),
           DropAll(For(live, e.dst), NO_ROUTE))
    else if e.flag == UP then Drain(s, now, i)
    else if First(s.queue, Bound(e.dst)) >= 0 && !Asked(s.asks, e.dst) then
      Step(AddRequest(s, e.dst, 0.0, now).(askRt := true), [])
    else Step(s, [])
  }

  function AfterRtPurge(s: Node, now: real, i: nat): Step
    decreases |s.rtable| - i
  {
    if i >= |s.rtable| then Step(s, [])
    else
      var r := PurgeEntry(s, now, i);
      var rest := AfterRtPurge(r.node, now, i + 1);
      Step(rest.node, r.outs + rest.outs)
  }

  /** rt_resolution */
  function AfterResolution(s: Node, now: real, d: Data): Step {
    if IsNb(s.nbs, d.daddr) then Step(s, [Send(d.daddr, DataMsg(d.(up := false)))])
    else
      var k := FindOptimal(s.rtable, d.daddr);
      if k >= 0 then
        var e := s.rtable[k];
        Step(s.(rtable := s.rtable[k := Refreshed(e, s.index, [d], now)]), [ForwardOne(s.index, e.nextHop, d)])
      else
        var s1 := s.(rtable := [Fresh(NO_TARGET, d.daddr)] + s.rtable);
        if d.saddr == s.index then
          var q := Enque(s1.queue, d, now);
          var s2 := s1.(queue := q.queue);
          Step(if Asked(s2.asks, d.daddr) then s2 else AddRequest(s2, d.daddr, 0.0, now).(askRt := true), q.dropped)
        else
          Step(s1, [Broadcast(Rectificator(s.index, [Lost(d.daddr, s1.rtable[0].seqno)])), Drop(d, NO_ROUTE)])
  }

  /** recv, for a data packet. */
  function AfterData(s: Node, now: real, d: Data): Step {
    if d.saddr == s.index && d.forwards != 0 then Step(s, [Drop(d, ROUTE_LOOP)])
    else
      var d1 := if d.saddr == s.index
        then (if d.daddr != BROADCAST then d.(ttl := NETWORK_DIAMETER) else d)
        else d.(ttl := d.ttl - 1);
      if d.saddr != s.index && d1.ttl == 0 then Step(s, [Drop(d1, TTL_OVER)])
      else if d1.daddr != BROADCAST then AfterResolution(s, now, d1)
      else if d1.ttl == 0 then Step(s, [Drop(d1, TTL_OVER)])
      else if d1.up || d1.daddr == s.index then Step(s, [Local(d1)])
      else Step(s, [Broadcast(DataMsg(d1))])
  }

  // ---------------------------------------------------------------- learning a route from an ant

  /** The acceptance test of recvAntLightGo and recvAntLightReturn. */
  predicate Accepts(e: Entry, seqno: nat, hops: nat) {
    seqno > e.seqno || (seqno == e.seqno && hops < e.hops)
  }

  function Install(s: Node, now: real, at: nat, seqno: nat, hops: nat): Step
    requires at < |s.rtable|
  {
    var e := s.rtable[at];
    if Accepts(e, seqno, hops) then
      Drain(s.(rtable := s.rtable[at := Updated(e, seqno, hops, Max(e.expire, now + ROUTE_LIFE))]), now, at)
    else Step(s, [])
  }

  datatype Prepared = Prepared(node: Node, at: int)

  /** The request for ner withdrawn, and the route to ner through prev looked up, created when missing. An
      outward ant also prolongs an old one. */
  function Prepare(s: Node, now: real, prev: Addr, ner: Addr, outward: bool): (p: Prepared)
    ensures 0 <= p.at < |p.node.rtable|
  {
    var s1 := if Asked(s.asks, ner) then DropRequest(s, ner) else s;
    var k := FindVia(s1.rtable, prev, ner);
    if k < 0 then Prepared(s1.(rtable := [Fresh(prev, ner)] + s1.rtable), 0)
    else if outward then
      var e := s1.rtable[k];
      Prepared(s1.(rtable := s1.rtable[k := e.(expire := Max(e.expire, now + ROUTE_LIFE))]), k)
    else Prepared(s1, k)
  }

  /** The common part of both ant handlers: prepare the route, then accept or refuse the news. */
  function AfterLearn(s: Node, now: real, prev: Addr, ner: Addr, seqno: nat, hops: nat, outward: bool): Step {
    var p := Prepare(s, now, prev, ner, outward);
    Install(p.node, now, p.at, seqno, hops)
  }

  /** rt_lookup followed by pc_insert */
  function AddPrecursor(s: Node, nextHop: Addr, dst: Addr, id: Addr): Node {
    var k := FindVia(s.rtable, nextHop, dst);
    if k < 0 then s else s.(rtable := s.rtable[k := WithPrecursor(s.rtable[k], id)])
  }

  // ---------------------------------------------------------------- return ants

  datatype Advert = Advert(node: Node, detask: Addr, qte: real)

  /** What a return ant asks for on behalf of the node that launches it. */
  function Advertise(s: Node, now: real, etab: Addr): Advert {
    if !s.askRt then Advert(s, NO_DEMAND, 0.0)
    else if etab != -1 && Asked(s.asks, etab) then Advert(s, etab, s.asks[FindRequest(s.asks, etab)].qte)
    else
      var last := if s.asks == [] then Request(0, 0.0, 0.0) else s.asks[|s.asks| - 1];
      Advert(AddRequest(DropRequest(s, last.dst), last.dst, last.qte, now), last.dst, last.qte)
  }

  /** The cell NodeVisited[nc] with nc = count - 1 held in a byte. */
  function Cell(trail: seq<Addr>, count: nat): Addr {
    var nc := if count == 0 then 255 else count - 1;
    if nc < |trail| then trail[nc] else UNWRITTEN
  }

  /** sendAntLightReturn */
  function AfterSendReturn(s: Node, now: real, trail: seq<Addr>, src: Addr, etab: Addr): Step {
    var hop := Cell(trail, |trail|);
    if !IsNb(s.nbs, hop) then Step(s, [])
    else
      var adv := Advertise(s.(seqno := s.seqno + 2), now, etab);
      Step(adv.node, [Send(hop, Return(ReturnAnt(
        adv.node.seqno, s.index, adv.detask, s.index, true, 1, src,
        if trail == [] then 255 else |trail| - 1, trail, adv.qte)))])
  }

  /** sendAntLightRt */
  function AfterSendRt(s: Node, dem: Addr, dst: Addr, nxt: Addr, hops: nat): Step {
    var s1 := s.(seqno := s.seqno + 2, idAgent := s.idAgent + 1);
    Step(s1, [Send(nxt, Go(GoAnt(
      s1.seqno, s.index, dem, dst, true, U8(hops), s.idAgent, s.index, [s.index], true, 0, s.index)))])
  }

  /** The pheromone part of recvAntLightReturn. */
  function AfterDemand(s: Node, a: ReturnAnt): Step {
    if a.detask == NO_DEMAND then Step(s, [])
    else
      var k := FindOptimal(s.rtable, a.detask);
      var r := if k < 0 then Step(s, []) else AfterSendRt(s, a.ner, s.rtable[k].dst, a.prevNode, s.rtable[k].hops);
      Step(r.node.(phtable := Deposit(r.node.phtable, a.ner, a.detask, a.qte, a.prevNode)), r.outs)
  }

  /** The last part of recvAntLightReturn: one hop further back along the trail. */
  function AfterPassBack(s: Node, a: ReturnAnt): Step {
    var hop := Cell(a.trail, a.count);
    if a.src == s.index || !a.valid || !IsNb(s.nbs, hop) then Step(s, [])
    else
      Step(AddPrecursor(s, a.prevNode, a.ner, hop),
           [Send(hop, Return(a.(
             hops := U8(a.hops + 1), prevNode := s.index, count := if a.count == 0 then 255 else a.count - 1)))])
  }

  function Then(r: Step, r2: Step): Step {
    Step(r2.node, r.outs + r2.outs)
  }

  /** recvAntLightReturn */
  function AfterReturn(s: Node, now: real, a: ReturnAnt): Step {
    var r := if a.valid && IsNb(s.nbs, a.prevNode)
      then AfterLearn(s, now, a.prevNode, a.ner, a.seqno, a.hops, false) else Step(s, []);
    var r2 := Then(r, AfterDemand(r.node, a));
    Then(r2, AfterPassBack(r2.node, a))
  }

  // ---------------------------------------------------------------- outward ants

  function FirstOther(nbs: seq<Neighbor>, not: Addr): Addr {
    if nbs == [] then NO_TARGET
    else if nbs[0].addr != not then nbs[0].addr
    else FirstOther(nbs[1..], not)
  }

  /** sendAntLightClone */
  function AfterSendClone(s: Node, now: real, a: GoAnt): Step {
    var hop := FirstOther(s.nbs, a.prevHop);
    if hop == NO_TARGET then AfterSendReturn(s, now, a.trail, a.src, -1)
    else
      Step(s, [Send(hop, Go(a.(
        hops := U8(a.hops + 1), prevNode := s.index, target := NO_TARGET, ner := a.src,
        trail := a.trail + [s.index], prevHop := s.index)))])
  }

  datatype Found = Found(valider: bool, visited: bool, hops: nat, seqno: nat, via: Addr)

  /** The inner loop of the route scan in chooseNextHop, for neighbour nb. seq and d keep 0 and 10000. */
  function ScanEntries(t: seq<Entry>, nb: Addr, ner: Addr, hop: Addr, f: Found): Found {
    if t == [] then f
    else if t[0].dst == ner && t[0].nextHop == nb && nb == hop then f.(visited := true)
    else if t[0].dst == ner && t[0].nextHop == nb && (t[0].seqno > 0 || (t[0].seqno == 0 && t[0].hops < 10000)) then
      ScanEntries(t[1..], nb, ner, hop, Found(true, f.visited, t[0].hops, t[0].seqno, t[0].nextHop))
    else ScanEntries(t[1..], nb, ner, hop, f)
  }

  function ScanNeighbors(nbs: seq<Neighbor>, t: seq<Entry>, ner: Addr, hop: Addr, f: Found): Found {
    if nbs == [] then f
    else
      var g := ScanEntries(t, nbs[0].addr, ner, hop, f);
      if g.visited then g else ScanNeighbors(nbs[1..], t, ner, hop, g)
  }

  datatype Aimed = Aimed(node: Node, ant: GoAnt)

  /** The ant takes over the route the node knows for ner, or loses its valid mark. */
  function Aim(s: Node, a: GoAnt, hop: Addr): Aimed {
    if a.ner == s.index then Aimed(s, a.(hops := 0, seqno := s.seqno, valid := true))
    else
      var f := ScanNeighbors(s.nbs, s.rtable, a.ner, hop, Found(false, false, a.hops, a.seqno, NO_HOP));
      var valid := f.valider && !f.visited;
      Aimed(if valid then AddPrecursor(s, f.via, a.ner, hop) else s,
            a.(hops := if f.valider then U8(f.hops) else a.hops, seqno := f.seqno, valid := valid))
  }

  /** The end of chooseNextHop: send the ant on, or turn back when no hop was chosen. */
  function AfterRelay(s: Node, now: real, a: GoAnt, hop: Addr): Step {
    if hop == NO_HOP then AfterSendReturn(s, now, a.trail, a.src, -1)
    else
      Step(s, [Send(hop, Go(a.(prevNode := s.index, trail := a.trail + [s.index], hops := U8(a.hops + 1))))])
  }

  function FirstUnvisited(nbs: seq<Neighbor>, a: GoAnt): Addr {
    if nbs == [] then NO_HOP
    else if nbs[0].addr != a.prevNode && nbs[0].addr != a.src && nbs[0].addr !in a.trail then nbs[0].addr
    else FirstUnvisited(nbs[1..], a)
  }

  /** The search branch: a draw on the roulette decides between satisfying a claimant and wandering on. */
  function AfterSearch(s: Node, now: real, a: GoAnt, draw: nat, junk: Roulette.Slot): Step {
    var w := Roulette.Build(s.nbs, s.phtable, junk);
    if w.touched && w.size > 0 && w.cells[draw % w.size].claimant != -1 then
      var slot := w.cells[draw % w.size];
      var r := AfterSendClone(s, now, a);
      var aimed := Aim(r.node, a.(target := slot.claimant, ner := slot.asked, ttl := ANT_TTL), slot.hop);
      Then(r, AfterRelay(aimed.node, now, aimed.ant, slot.hop))
    else
      var hop := if w.touched && w.size > 0 then w.cells[draw % w.size].hop else FirstUnvisited(s.nbs, a);
      var s1 := if s.index != a.src then AddPrecursor(s, a.prevNode, a.ner, hop) else s;
      AfterRelay(s1, now, a, hop)
  }

  /** The guards before the search branch of chooseNextHop. */
  predicate Searches(s: Node, a: GoAnt) {
    a.target == NO_TARGET && !(s.askRt && s.index != a.src) && a.ttl != 0
  }

  /** chooseNextHop */
  function AfterChoose(s: Node, now: real, a: GoAnt, draw: nat, junk: Roulette.Slot): Step {
    if a.target != NO_TARGET then
      if a.target == s.index then AfterSendReturn(s, now, a.trail, a.src, a.ner)
      else
        var k := FindKey(s.phtable, a.target, a.ner);
        var hop := if k < 0 then NO_HOP
          else if s.phtable[k].nbs == [] then UNWRITTEN else s.phtable[k].nbs[0];
        var aimed := Aim(s, a, hop);
        AfterRelay(aimed.node, now, aimed.ant, hop)
    else if s.askRt && s.index != a.src then
      var r := AfterSendReturn(s, now, a.trail, a.src, -1);
      if a.ttl != 0 then Then(r, AfterSendClone(r.node, now, a)) else r
    else if a.ttl == 0 then AfterSendReturn(s, now, a.trail, a.src, -1)
    else AfterSearch(s, now, a, draw, junk)
  }

  // ---------------------------------------------------------------- agent identifiers

  /** id_lookup */
  predicate Seen(ids: seq<AgentId>, src: Addr, id: nat) {
    exists k :: 0 <= k < |ids| && ids[k].src == src && ids[k].id == id
  }

  /** id_purge */
  function PurgeIds(ids: seq<AgentId>, now: real): seq<AgentId> {
    if ids == [] then []
    else (if ids[0].expire <= now then [] else [ids[0]]) + PurgeIds(ids[1..], now)
  }

  /** The direct ant of sendAntLightRt follows the best known route to its claimant. */
  function AfterDirect(s: Node, a: GoAnt): Step {
    if a.target == s.index then Step(s, [])
    else
      var k := FindOptimal(s.rtable, a.target);
      if k < 0 then Step(s, [])
      else Step(s, [Send(s.rtable[k].nextHop, Go(a.(prevNode := s.index, hops := U8(a.hops + 1))))])
  }

  /** The two filters at the top of recvAntLightGo. */
  predicate Admits(s: Node, a: GoAnt) {
    s.index != a.src && !Seen(s.ids, a.src, a.id)
  }

  /** The ant is remembered, and the route it tells of learned. */
  function Admitted(s: Node, now: real, a: GoAnt): Step {
    var s1 := s.(ids := [AgentId(a.src, a.id, now + AGENT_ID_SAVE)] + s.ids);
    if a.valid && IsNb(s1.nbs, a.prevNode)
    then AfterLearn(s1, now, a.prevNode, a.ner, a.seqno, a.hops, true) else Step(s1, [])
  }

  /** recvAntLightGo */
  function AfterGo(s: Node, now: real, a: GoAnt, draw: nat, junk: Roulette.Slot): Step {
    if !Admits(s, a) then Step(s, [])
    else
      var r := Admitted(s, now, a);
      Then(r, if a.direct then AfterDirect(r.node, a) else AfterChoose(r.node, now, a, draw, junk))
  }

  /** The ant comes to the search branch, and the slots it fills there go beyond the arrays. */
  predicate Overruns(s: Node, now: real, a: GoAnt) {
    && Admits(s, a) && !a.direct
    && var r := Admitted(s, now, a);
       Searches(r.node, a) && !Roulette.Fits(r.node.nbs, r.node.phtable)
  }

  /** sendAntLight; draw is the value of rand(). */
  function AfterSendAnt(s: Node, draw: nat): Step {
    var s1 := s.(seqno := s.seqno + 2, idAgent := s.idAgent + 1);
    if s.nbNum <= 0 then Step(s1, [])
    else
      var pick := draw % s.nbNum;
      var v := if pick == 0 then 1 else pick;
      if v > |s.nbs| || s.nbs[v - 1].addr == NO_TARGET then Step(s1, [])
      else
        Step(s1, [Send(s.nbs[v - 1].addr, Go(GoAnt(
          s1.seqno, s.index, NO_TARGET, s.index, true, 1, s.idAgent, s.index, [s.index], false, ANT_TTL, s.index)))])
  }

  // ---------------------------------------------------------------- dispatch

  /** recv: an arriving agent loses one ttl first. */
  function AfterRecv(s: Node, now: real, m: Msg, draw: nat, junk: Roulette.Slot): Step {
    match m
    case Go(a) => AfterGo(s, now, a.(ttl := a.ttl - 1), draw, junk)
    case Return(a) => AfterReturn(s, now, a)
    case Rectificator(sender, lost) => AfterRectificator(s, sender, lost)
    case Hello(origin) => Step(AfterHello(s, now, origin), [])
    case DataMsg(d) => AfterData(s, now, d)
  }

  datatype Timer = AntTimer | IdTimer | HelloTimer | NeighborTimer | RouteTimer | PheromoneTimer | RequestTimer

  function AfterTimer(s: Node, now: real, t: Timer, draw: nat): Step {
    match t
    case AntTimer => AfterSendAnt(s, draw)
    case IdTimer => Step(s.(ids := PurgeIds(s.ids, now)), [])
    case HelloTimer => Step(s, [Broadcast(Hello(s.index))])
    case NeighborTimer => AfterNbPurge(s, now, 0)
    case RouteTimer => AfterRtPurge(s, now, 0)
    case PheromoneTimer => Step(s.(phtable := Evaporate(s.phtable)), [])
    case RequestTimer => Step(s.(asks := Age(s.asks)), [])
  }

  // ---------------------------------------------------------------- sequences of inputs

  /** What reaches a node: a message or a packet of its own, a timer, or the failure of a transmission. */
  datatype Input =
    | Arrival(m: Msg, now: real, draw: nat, junk: Roulette.Slot)
    | Tick(timer: Timer, now: real, draw: nat)
    | Failure(d: Data, nextHop: Addr)

  function AfterInput(s: Node, i: Input): Step {
    match i
    case Arrival(m, now, draw, junk) => AfterRecv(s, now, m, draw, junk)
    case Tick(timer, now, draw) => AfterTimer(s, now, timer, draw)
    case Failure(d, nextHop) => AfterLinkLayerFailed(s, d, nextHop)
  }

  function AfterAll(s: Node, inputs: seq<Input>): Step {
    if inputs == [] then Step(s, [])
    else
      var r := AfterAll(s, inputs[..|inputs| - 1]);
      Then(r, AfterInput(r.node, inputs[|inputs| - 1]))
  }

  /** The one input that can make a handler write beyond an array. */
  predicate TooMuch(s: Node, i: Input) {
    i.Arrival? && i.m.Go? && Overruns(s, i.now, i.m.go.(ttl := i.m.go.ttl - 1))
  }

  /** One of the inputs is too much for the state the inputs before it lead to. */
  ghost predicate TooMuchInAll(s: Node, inputs: seq<Input>) {
    exists i :: 0 <= i < |inputs| && TooMuch(AfterAll(s, inputs[..i]).node, inputs[i])
  }
}

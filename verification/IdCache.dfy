/** The agent-id cache over whole runs (antconf.cc:258-298, 812-830). */
module IdCache {
  import opened Types
  import opened Protocol
  import opened NodeInvariant
  import opened HandlersKeep
  import opened Frames
  import opened Network
  import Roulette

  // ---------------------------------------------------------------- one node

  lemma GoIds(s: Node, now: real, a: GoAnt, draw: nat, junk: Roulette.Slot)
    ensures AfterGo(s, now, a, draw, junk).node.ids
      == if Admits(s, a) then [AgentId(a.src, a.id, now + AGENT_ID_SAVE)] + s.ids else s.ids
  {
    if Admits(s, a) {
      var s1 := s.(ids := [AgentId(a.src, a.id, now + AGENT_ID_SAVE)] + s.ids);
      var r := if a.valid && IsNb(s1.nbs, a.prevNode)
        then AfterLearn(s1, now, a.prevNode, a.ner, a.seqno, a.hops, true) else Step(s1, []);
      LearnFrame(s1, now, a.prevNode, a.ner, a.seqno, a.hops, true);
      ChooseFrame(r.node, now, a, draw, junk);
    }
  }

  lemma ReturnIds(s: Node, now: real, a: ReturnAnt)
    ensures AfterReturn(s, now, a).node.ids == s.ids
  {
    var r := if a.valid && IsNb(s.nbs, a.prevNode)
      then AfterLearn(s, now, a.prevNode, a.ner, a.seqno, a.hops, false) else Step(s, []);
    LearnFrame(s, now, a.prevNode, a.ner, a.seqno, a.hops, false);
    DemandFrame(r.node, a);
    PassBackFrame(AfterDemand(r.node, a).node, a);
  }

  lemma {:induction false} NbPurgeIds(s: Node, now: real, i: nat)
    ensures AfterNbPurge(s, now, i).node.ids == s.ids
    decreases |s.nbs| - i
  {
    if i < |s.nbs| {
      NbPurgeIds(if s.nbs[i].expire <= now then AfterNbDelete(s, s.nbs[i].addr).node else s, now,
                 if s.nbs[i].expire <= now then i else i + 1);
    }
  }

  lemma RecvIds(s: Node, now: real, m: Msg, draw: nat, junk: Roulette.Slot)
    ensures AfterRecv(s, now, Delivered(m), draw, junk).node.ids
      == if m.Go? && Admits(s, m.go) then [AgentId(m.go.src, m.go.id, now + AGENT_ID_SAVE)] + s.ids else s.ids
  {
    if m.Go? {
      GoIds(s, now, m.go.(ttl := m.go.ttl - 1), draw, junk);
    } else if m.Return? {
      ReturnIds(s, now, m.back);
    }
  }

  lemma TimerIds(s: Node, now: real, t: Timer, draw: nat)
    requires NodeInv(s, now)
    ensures AfterTimer(s, now, t, draw).node.ids == if t.IdTimer? then PurgeIds(s.ids, now) else s.ids
  {
    if t.NeighborTimer? {
      NbPurgeIds(s, now, 0);
    } else if t.RouteTimer? {
      RtPurgeQuiet(s, now, 0);
    }
  }

  // ---------------------------------------------------------------- the network

  predicate SameAgent(a: Acceptance, b: Acceptance) {
    a.node == b.node && a.src == b.src && a.id == b.id
  }

  /** The cache of the accepting node still holds the agent, until its six seconds are over. */
  ghost predicate Remembered(ids: seq<AgentId>, a: Acceptance) {
    exists k :: 0 <= k < |ids| && ids[k].src == a.src && ids[k].id == a.id && ids[k].expire >= a.at + AGENT_ID_SAVE
  }

  ghost predicate Spaced(accepted: seq<Acceptance>) {
    forall i, j :: 0 <= i < j < |accepted| && SameAgent(accepted[i], accepted[j]) ==>
      accepted[j].at >= accepted[i].at + AGENT_ID_SAVE
  }

  ghost predicate Kept(net: Net, a: Acceptance) {
    a.node in net.nodes && (a.at + AGENT_ID_SAVE <= net.now || Remembered(net.nodes[a.node].ids, a))
  }

  ghost predicate CacheInv(net: Net) {
    && Spaced(net.accepted)
    && (forall i :: 0 <= i < |net.accepted| ==>
          net.accepted[i].src != net.accepted[i].node && Kept(net, net.accepted[i]))
  }

  lemma {:induction false} PurgeKeeps(ids: seq<AgentId>, now: real, a: Acceptance)
    requires Remembered(ids, a) && now < a.at + AGENT_ID_SAVE
    ensures Remembered(PurgeIds(ids, now), a)
  {
    var k :| 0 <= k < |ids| && ids[k].src == a.src && ids[k].id == a.id && ids[k].expire >= a.at + AGENT_ID_SAVE;
    var r := PurgeIds(ids, now);
    if k == 0 {
      assert r[0] == ids[0];
    } else {
      assert ids[1..][k - 1] == ids[k];
      PurgeKeeps(ids[1..], now, a);
      var rest := PurgeIds(ids[1..], now);
      var j :| 0 <= j < |rest| && rest[j].src == a.src && rest[j].id == a.id && rest[j].expire >= a.at + AGENT_ID_SAVE;
      assert r[if ids[0].expire <= now then j else j + 1] == rest[j];
    }
  }

  lemma PrependKeeps(ids: seq<AgentId>, x: AgentId, a: Acceptance)
    requires Remembered(ids, a)
    ensures Remembered([x] + ids, a)
  {
    var k :| 0 <= k < |ids| && ids[k].src == a.src && ids[k].id == a.id && ids[k].expire >= a.at + AGENT_ID_SAVE;
    assert ([x] + ids)[k + 1] == ids[k];
  }

  /** The caches after a step: an admitted agent is put in front, the id timer purges, nothing else. */
  ghost predicate IdsAfter(net: Net, ev: Event)
    requires Enabled(net, ev) && !ev.Lose? && !ev.Elapse? && Actor(net, ev) in net.nodes
  {
    var ids, ids' := net.nodes[Actor(net, ev)].ids, StepOf(net, ev).node.ids;
    if Accepting(net, ev) != [] then
      var a := Accepting(net, ev)[0];
      a.node == Actor(net, ev) && ids' == [AgentId(a.src, a.id, net.now + AGENT_ID_SAVE)] + ids
    else ids' == ids || ids' == PurgeIds(ids, net.now)
  }

  lemma DeliverIds(net: Net, ev: Event)
    requires NetInv(net) && Enabled(net, ev) && ev.Deliver?
    ensures Actor(net, ev) in net.nodes && IdsAfter(net, ev)
  {
    RecvIds(net.nodes[net.wire[ev.i].to], net.now, net.wire[ev.i].msg, ev.draw, ev.junk);
  }

  lemma StepIds(net: Net, ev: Event)
    requires NetInv(net) && Enabled(net, ev) && !ev.Lose? && !ev.Elapse?
    ensures Actor(net, ev) in net.nodes && IdsAfter(net, ev)
  {
    if ev.Deliver? {
      DeliverIds(net, ev);
    } else if ev.Fire? {
      assert NodeInv(net.nodes[ev.n], net.now);
      TimerIds(net.nodes[ev.n], net.now, ev.timer, ev.draw);
    }
  }

  lemma StepKept(net: Net, ev: Event, a: Acceptance)
    requires NetInv(net) && Enabled(net, ev) && Kept(net, a)
    ensures Kept(Apply(net, ev), a)
  {
    if !ev.Lose? && !ev.Elapse? {
      StepIds(net, ev);
      if a.node == Actor(net, ev) && net.now < a.at + AGENT_ID_SAVE {
        var ids := net.nodes[a.node].ids;
        PurgeKeeps(ids, net.now, a);
        if Accepting(net, ev) != [] {
          PrependKeeps(ids, StepOf(net, ev).node.ids[0], a);
        }
      }
    }
  }

  lemma CacheStep(net: Net, ev: Event)
    requires NetInv(net) && Enabled(net, ev) && CacheInv(net)
    ensures CacheInv(Apply(net, ev))
  {
    var net' := Apply(net, ev);
    forall i | 0 <= i < |net.accepted| ensures Kept(net', net.accepted[i]) {
      StepKept(net, ev, net.accepted[i]);
    }
    if Accepting(net, ev) != [] {
      var b := Accepting(net, ev)[0];
      StepIds(net, ev);
      assert net'.accepted == net.accepted + [b];
      assert net'.nodes[b.node].ids[0] == AgentId(b.src, b.id, b.at + AGENT_ID_SAVE);
      assert net.nodes[b.node].index == b.node;
      forall i | 0 <= i < |net.accepted| && SameAgent(net.accepted[i], b)
        ensures b.at >= net.accepted[i].at + AGENT_ID_SAVE
      {
        assert Kept(net, net.accepted[i]);
      }
    } else {
      assert net'.accepted == net.accepted;
    }
  }

  /** In every run, two acceptances of the same (source, id) ant by the same node are at least six
      seconds apart, and no node lets its own ant in. */
  lemma {:induction false} AcceptancesSpaced(ids: set<Addr>, evs: seq<Event>)
    requires (forall n :: n in ids ==> n >= 0) && Legal(Start(ids), evs)
    ensures Spaced(Run(Start(ids), evs).accepted)
    ensures forall a :: a in Run(Start(ids), evs).accepted ==> a.src != a.node
    ensures CacheInv(Run(Start(ids), evs))
  {
    if evs != [] {
      var front := evs[..|evs| - 1];
      AcceptancesSpaced(ids, front);
      EveryRunOk(ids, front);
      CacheStep(Run(Start(ids), front), evs[|evs| - 1]);
    }
  }
}

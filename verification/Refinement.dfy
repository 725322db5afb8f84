/** The agent and the network model meet: what a node of any run is, the agent given the same inputs is. */
module Refinement {
  import opened Types
  import opened Protocol
  import opened HandlersKeep
  import opened Network
  import opened Overflow
  import Agent
  import Roulette

  /** What the acting node is given in an event. */
  function InputOf(net: Net, ev: Event): Input
    requires Enabled(net, ev) && !ev.Lose? && !ev.Elapse?
  {
    match ev
    case Deliver(i, draw, junk, _) => Arrival(Delivered(net.wire[i].msg), net.now, draw, junk)
    case LinkFail(i, _) => Failure(net.wire[i].msg.data, net.wire[i].to)
    case Fire(_, timer, draw, _) => Tick(timer, net.now, draw)
    case Originate(_, _, _, _, _) => Arrival(DataMsg(NewData(net, ev)), net.now, 0, Roulette.Slot(0, 0, 0))
  }

  /** The inputs of node n over a run, in their order. */
  ghost function Inputs(net: Net, evs: seq<Event>, n: Addr): seq<Input>
    requires Legal(net, evs)
  {
    if evs == [] then []
    else
      var front, ev := evs[..|evs| - 1], evs[|evs| - 1];
      var before, inputs := Run(net, front), Inputs(net, front, n);
      if !ev.Lose? && !ev.Elapse? && Actor(before, ev) == n then inputs + [InputOf(before, ev)] else inputs
  }

  lemma StepIsInput(net: Net, ev: Event)
    requires NetInv(net) && Enabled(net, ev) && !ev.Lose? && !ev.Elapse?
    ensures Actor(net, ev) in net.nodes
    ensures StepOf(net, ev) == AfterInput(net.nodes[Actor(net, ev)], InputOf(net, ev))
  {
    StepOfOk(net, ev);
  }

  lemma NoInputs(s: Node)
    ensures AfterAll(s, []) == Step(s, [])
  {
  }

  lemma AfterOneMore(s: Node, inputs: seq<Input>, i: Input)
    ensures AfterAll(s, inputs + [i]) == Then(AfterAll(s, inputs), AfterInput(AfterAll(s, inputs).node, i))
  {
    assert (inputs + [i])[..|inputs|] == inputs;
  }

  lemma OnlyTheActorMoves(net: Net, ev: Event, n: Addr)
    requires NetInv(net) && Enabled(net, ev) && n in net.nodes
    ensures n in Apply(net, ev).nodes
    ensures Apply(net, ev).nodes[n]
      == if !ev.Lose? && !ev.Elapse? && Actor(net, ev) == n then StepOf(net, ev).node else net.nodes[n]
  {
  }

  /** Each node of a run is what its inputs make of a freshly constructed one. */
  lemma {:induction false} NodeIsItsInputs(ids: set<Addr>, evs: seq<Event>, n: Addr)
    requires (forall i :: i in ids ==> i >= 0) && Legal(Start(ids), evs) && n in ids
    ensures n in Run(Start(ids), evs).nodes
    ensures Run(Start(ids), evs).nodes[n] == AfterAll(Initial(n), Inputs(Start(ids), evs, n)).node
  {
    hide AfterInput, StepOf, NetInv, Apply, InputOf, AfterAll;
    EveryRunOk(ids, evs);
    if evs == [] {
      NoInputs(Initial(n));
    } else {
      var front, ev := evs[..|evs| - 1], evs[|evs| - 1];
      var before := Run(Start(ids), front);
      NodeIsItsInputs(ids, front, n);
      EveryRunOk(ids, front);
      OnlyTheActorMoves(before, ev, n);
      if !ev.Lose? && !ev.Elapse? && Actor(before, ev) == n {
        StepIsInput(before, ev);
        AfterOneMore(Initial(n), Inputs(Start(ids), front, n), InputOf(before, ev));
      }
    }
  }

  lemma TooMuchOneMore(s: Node, inputs: seq<Input>, i: Input)
    ensures TooMuchInAll(s, inputs + [i]) <==> TooMuchInAll(s, inputs) || TooMuch(AfterAll(s, inputs).node, i)
  {
    hide TooMuch, AfterAll;
    var all := inputs + [i];
    assert forall k :: 0 <= k < |inputs| ==> all[..k] == inputs[..k] && all[k] == inputs[k];
    assert all[..|inputs|] == inputs && all[|inputs|] == i;
  }

  lemma TooMuchSpills(net: Net, ev: Event)
    requires NetInv(net) && Enabled(net, ev) && !ev.Lose? && !ev.Elapse?
    ensures Actor(net, ev) in net.nodes
    ensures TooMuch(net.nodes[Actor(net, ev)], InputOf(net, ev)) <==> Spills(net, ev)
  {
    hide Overruns;
    StepOfOk(net, ev);
  }

  /** While a run stays inside the arrays, no input of any of its nodes is too much. */
  lemma {:induction false} InBoundsIsNeverTooMuch(ids: set<Addr>, evs: seq<Event>, n: Addr)
    requires (forall i :: i in ids ==> i >= 0) && Legal(Start(ids), evs) && n in ids && InBounds(Start(ids), evs)
    ensures !TooMuchInAll(Initial(n), Inputs(Start(ids), evs, n))
  {
    hide AfterInput, StepOf, NetInv, Apply, InputOf, AfterAll, TooMuch, TooMuchInAll, Spills;
    if evs == [] {
      NoneTooMuch(Initial(n));
    } else {
      var front, ev := evs[..|evs| - 1], evs[|evs| - 1];
      var before := Run(Start(ids), front);
      InBoundsIsNeverTooMuch(ids, front, n);
      NodeIsItsInputs(ids, front, n);
      EveryRunOk(ids, front);
      if !ev.Lose? && !ev.Elapse? && Actor(before, ev) == n {
        TooMuchSpills(before, ev);
        TooMuchOneMore(Initial(n), Inputs(Start(ids), front, n), InputOf(before, ev));
      }
    }
  }

  lemma NoneTooMuch(s: Node)
    ensures !TooMuchInAll(s, [])
  {
  }

  /** So the agent, constructed and given those inputs, ends in the state the node has in the run, unless
      one of them makes it write beyond its arrays. */
  method Replay(inputs: seq<Input>, n: Addr, ghost ids: set<Addr>, ghost evs: seq<Event>)
    returns (agent: Agent.Antconf, outs: seq<Output>, overrun: bool)
    requires (forall i :: i in ids ==> i >= 0) && Legal(Start(ids), evs) && n in ids
    requires inputs == Inputs(Start(ids), evs, n)
    ensures fresh(agent) && agent.Valid() && n in Run(Start(ids), evs).nodes
    ensures overrun <==> TooMuchInAll(Initial(n), inputs)
    ensures InBounds(Start(ids), evs) ==> !overrun
    ensures !overrun ==> agent.State() == Run(Start(ids), evs).nodes[n]
  {
    agent := new Agent.Antconf(n);
    outs, overrun := agent.TakeAll(inputs);
    NodeIsItsInputs(ids, evs, n);
    if InBounds(Start(ids), evs) {
      InBoundsIsNeverTooMuch(ids, evs, n);
    }
  }
}

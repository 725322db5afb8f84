/** What the packet buffer means: operations on the sequence of waiting packets. */
module PacketQueue {
  import opened Types
  import Lists

  /** The three questions the buffer asks of a packet. */
  datatype Test = Within(now: real) | Bound(dst: Addr) | Not(t: Test) {
    predicate Holds(d: Data) {
      match this
      case Within(now) => d.ts >= now
      case Bound(dst) => d.daddr == dst
      case Not(t) => !t.Holds(d)
    }
  }

  function Keep(q: seq<Data>, t: Test): (r: seq<Data>)
    ensures |r| <= |q|
  {
    if q == [] then []
    else if t.Holds(q[0]) then [q[0]] + Keep(q[1..], t)
    else Keep(q[1..], t)
  }

  function Live(q: seq<Data>, now: real): seq<Data> { Keep(q, Within(now)) }

  function Aged(q: seq<Data>, now: real): seq<Data> { Keep(q, Not(Within(now))) }

  function For(q: seq<Data>, dst: Addr): seq<Data> { Keep(q, Bound(dst)) }

  function Others(q: seq<Data>, dst: Addr): seq<Data> { Keep(q, Not(Bound(dst))) }

  /** The position of the first packet passing the test, or -1. */
  function First(q: seq<Data>, t: Test): (i: int)
    ensures -1 <= i < |q|
    ensures i >= 0 ==> t.Holds(q[i]) && forall j :: 0 <= j < i ==> !t.Holds(q[j])
    ensures i < 0 ==> forall j :: 0 <= j < |q| ==> !t.Holds(q[j])
  {
    Lists.FirstWhere(q, (d: Data) => t.Holds(d))
  }

  lemma {:induction false} KeepMembers(q: seq<Data>, t: Test)
    ensures forall d :: d in Keep(q, t) <==> d in q && t.Holds(d)
  {
    if q != [] {
      KeepMembers(q[1..], t);
      assert q == [q[0]] + q[1..];
    }
  }

  lemma FirstIs(q: seq<Data>, t: Test, k: int)
    requires -1 <= k < |q|
    requires k >= 0 ==> t.Holds(q[k]) && forall j :: 0 <= j < k ==> !t.Holds(q[j])
    requires k < 0 ==> forall j :: 0 <= j < |q| ==> !t.Holds(q[j])
    ensures First(q, t) == k
  {
  }

  ghost predicate Sorted(q: seq<Data>) {
    forall i, j :: 0 <= i < j < |q| ==> q[i].ts <= q[j].ts
  }

  datatype Enqueued = Enqueued(queue: seq<Data>, dropped: seq<Output>)

  /** enque: stamp the deadline, make room when full, append. */
  function Enque(q: seq<Data>, d: Data, now: real): Enqueued {
    var live := Live(q, now);
    var stamped := d.(ts := now + RTQ_TIMEOUT);
    if |live| == RTQ_MAX_LEN then
      var reason := if live[0].ts > now then QUEUE_FULL else QUEUE_TIMEOUT;
      Enqueued(live[1..] + [stamped], [Drop(live[0], reason)])
    else
      Enqueued(live + [stamped], [])
  }

  lemma {:induction false} KeepAll(q: seq<Data>, t: Test)
    requires forall i :: 0 <= i < |q| ==> t.Holds(q[i])
    ensures Keep(q, t) == q
  {
    if q != [] {
      KeepAll(q[1..], t);
    }
  }

  lemma {:induction false} KeepNone(q: seq<Data>, t: Test)
    requires forall i :: 0 <= i < |q| ==> !t.Holds(q[i])
    ensures Keep(q, t) == []
  {
    if q != [] {
      KeepNone(q[1..], t);
    }
  }

  /** Taking out a packet the filter rejects changes nothing. */
  lemma {:induction false} KeepSkips(q: seq<Data>, k: nat, t: Test)
    requires k < |q| && !t.Holds(q[k])
    ensures Keep(Lists.RemoveAt(q, k), t) == Keep(q, t)
  {
    var r := Lists.RemoveAt(q, k);
    if k == 0 {
      assert r == q[1..];
    } else {
      assert r[1..] == Lists.RemoveAt(q[1..], k - 1);
      KeepSkips(q[1..], k - 1, t);
    }
  }

  /** Taking out the first packet the filter accepts takes out the filter's head. */
  lemma {:induction false} KeepPops(q: seq<Data>, k: nat, t: Test)
    requires k < |q| && k == First(q, t)
    ensures Keep(q, t) == [q[k]] + Keep(Lists.RemoveAt(q, k), t)
  {
    var r := Lists.RemoveAt(q, k);
    if k == 0 {
      assert r == q[1..];
    } else {
      assert r[1..] == Lists.RemoveAt(q[1..], k - 1);
      KeepPops(q[1..], k - 1, t);
    }
  }

  lemma {:induction false} KeptAll(q: seq<Data>, t: Test)
    requires Keep(q, t) == q
    ensures forall i :: 0 <= i < |q| ==> t.Holds(q[i])
  {
    if q != [] {
      assert |Keep(q[1..], t)| <= |q| - 1;
      assert Keep(q[1..], t) == q[1..];
      KeptAll(q[1..], t);
    }
  }

  lemma RemoveKept(q: seq<Data>, k: nat, t: Test)
    requires k < |q| && Keep(q, t) == q
    ensures Keep(Lists.RemoveAt(q, k), t) == Lists.RemoveAt(q, k)
  {
    KeptAll(q, t);
    KeepAll(Lists.RemoveAt(q, k), t);
  }

  /** One deque(dst) from a purged queue: the head of what is bound for dst leaves, the rest stays. */
  lemma PopFor(live: seq<Data>, dst: Addr, now: real)
    requires Live(live, now) == live
    ensures var k := First(live, Bound(dst));
      if k < 0 then For(live, dst) == [] && Others(live, dst) == live
      else
        var left := Lists.RemoveAt(live, k);
        && For(live, dst) == [live[k]] + For(left, dst)
        && Others(left, dst) == Others(live, dst) && Live(left, now) == left
  {
    var k := First(live, Bound(dst));
    if k < 0 {
      KeepNone(live, Bound(dst));
      KeepAll(live, Not(Bound(dst)));
    } else {
      KeepPops(live, k, Bound(dst));
      KeepSkips(live, k, Not(Bound(dst)));
      RemoveKept(live, k, Within(now));
    }
  }

  datatype Emptied = Emptied(taken: seq<Data>, left: seq<Data>)

  /** deque(dst) until it yields nothing more. */
  function DequeAll(q: seq<Data>, dst: Addr, now: real): Emptied
    decreases |q|
  {
    var live := Live(q, now);
    var k := First(live, Bound(dst));
    if k < 0 then Emptied([], live)
    else
      var rest := DequeAll(Lists.RemoveAt(live, k), dst, now);
      Emptied([live[k]] + rest.taken, rest.left)
  }

  /** Together the calls take exactly the live packets for dst, in their order, and leave the other live
      packets in theirs. */
  lemma {:induction false} DequeAllTakes(q: seq<Data>, dst: Addr, now: real)
    ensures DequeAll(q, dst, now) == Emptied(For(Live(q, now), dst), Others(Live(q, now), dst))
    decreases |q|
  {
    var live := Live(q, now);
    var k := First(live, Bound(dst));
    KeepTwice(q, Within(now));
    PopFor(live, dst, now);
    if k >= 0 {
      DequeAllTakes(Lists.RemoveAt(live, k), dst, now);
    }
  }

  lemma RemovedOne(q: seq<Data>, k: nat)
    requires k < |q|
    ensures multiset(q) == multiset(Lists.RemoveAt(q, k)) + multiset{q[k]}
  {
    assert q == q[..k] + [q[k]] + q[k + 1..];
  }

  /** Filtering neither loses nor invents packets. */
  lemma {:induction false} KeepSplits(q: seq<Data>, t: Test)
    ensures multiset(Keep(q, t)) + multiset(Keep(q, Not(t))) == multiset(q)
  {
    if q != [] {
      KeepSplits(q[1..], t);
      assert q == [q[0]] + q[1..];
    }
  }

  lemma {:induction false} KeepTwice(q: seq<Data>, t: Test)
    ensures Keep(Keep(q, t), t) == Keep(q, t)
  {
    KeepMembers(q, t);
    KeepAll(Keep(q, t), t);
  }

  /** A filtered queue keeps its order. */
  lemma {:induction false} KeepSorted(q: seq<Data>, t: Test)
    requires Sorted(q)
    ensures Sorted(Keep(q, t))
  {
    if q != [] {
      KeepSorted(q[1..], t);
      KeepMembers(q[1..], t);
      var rest := Keep(q[1..], t);
      forall j | 0 <= j < |rest| ensures q[0].ts <= rest[j].ts {
        assert rest[j] in rest;
        var k :| 0 <= k < |q[1..]| && q[1..][k] == rest[j];
        assert q[k + 1] == rest[j];
      }
    }
  }

  /** How many packets at the head have passed their deadline. */
  function AgedPrefix(q: seq<Data>, now: real): (n: nat)
    ensures n <= |q|
    ensures forall i :: 0 <= i < n ==> q[i].ts < now
    ensures n < |q| ==> q[n].ts >= now
  {
    if q == [] || q[0].ts >= now then 0 else 1 + AgedPrefix(q[1..], now)
  }

  /** On a queue sorted by deadline, purging removes exactly the maximal expired prefix, and an
      aged packet, when there is one, is always found at the head. */
  lemma {:induction false} PurgeIsPrefixDrop(q: seq<Data>, now: real)
    requires Sorted(q)
    ensures Aged(q, now) == q[..AgedPrefix(q, now)]
    ensures Live(q, now) == q[AgedPrefix(q, now)..]
    ensures First(q, Not(Within(now))) <= 0
  {
    hide First;
    if q != [] {
      if q[0].ts >= now {
        KeepAll(q, Within(now));
        KeepNone(q, Not(Within(now)));
      } else {
        PurgeIsPrefixDrop(q[1..], now);
        var n := AgedPrefix(q[1..], now);
        assert q[..n + 1] == [q[0]] + q[1..][..n];
        assert q[n + 1..] == q[1..][n..];
        assert Live(q, now) == Keep(q[1..], Within(now));
        assert Aged(q, now) == [q[0]] + Keep(q[1..], Not(Within(now)));
      }
    }
  }

  /** What one enque leaves behind: the bound, the deadline order, and every packet accounted for. */
  lemma EnqueKeeps(q: seq<Data>, d: Data, now: real)
    requires Sorted(q) && |q| <= RTQ_MAX_LEN
    requires forall x :: x in q ==> x.ts <= now + RTQ_TIMEOUT
    ensures var r := Enque(q, d, now);
      && Sorted(r.queue) && |r.queue| <= RTQ_MAX_LEN
      && (forall x :: x in r.queue ==> x in q || x == d.(ts := now + RTQ_TIMEOUT))
      && (forall x :: x in r.queue ==> now <= x.ts <= now + RTQ_TIMEOUT)
  {
    var live := Live(q, now);
    KeepSorted(q, Within(now));
    KeepMembers(q, Within(now));
    var stamped := d.(ts := now + RTQ_TIMEOUT);
    var kept := if |live| == RTQ_MAX_LEN then live[1..] else live;
    assert Enque(q, d, now).queue == kept + [stamped];
    forall x | x in kept ensures x in live { }
  }
}

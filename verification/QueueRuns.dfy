/** Whole runs of the packet buffer under a clock that never goes back. */
module QueueRuns {
  import opened Types
  import opened PacketQueue
  import Lists

  datatype Op = Put(d: Data, at: real) | Take(at: real) | TakeFor(dst: Addr, at: real)

  /** The buffer together with the fate of every packet that entered it. */
  datatype Ledger = Ledger(
    clock: real, queue: seq<Data>, put: seq<Data>,
    taken: seq<Data>, takenAt: seq<real>, dropped: seq<Data>, expired: seq<Data>)

  const START := Ledger(0.0, [], [], [], [], [], [])

  function Dropped(outs: seq<Output>): seq<Data> {
    if outs == [] then []
    else (if outs[0].Drop? then [outs[0].dropped] else []) + Dropped(outs[1..])
  }

  function Apply(l: Ledger, op: Op): Ledger {
    var live := Live(l.queue, op.at);
    var l1 := l.(clock := op.at, queue := live, expired := l.expired + Aged(l.queue, op.at));
    match op
    case Put(d, at) =>
      var r := Enque(l.queue, d, at);
      l1.(queue := r.queue, put := l.put + [d.(ts := at + RTQ_TIMEOUT)], dropped := l.dropped + Dropped(r.dropped))
    case Take(at) =>
      if live == [] then l1
      else l1.(queue := live[1..], taken := l.taken + [live[0]], takenAt := l.takenAt + [at])
    case TakeFor(dst, at) =>
      var k := First(live, Bound(dst));
      if k < 0 then l1
      else l1.(queue := Lists.RemoveAt(live, k), taken := l.taken + [live[k]], takenAt := l.takenAt + [at])
  }

  function Run(l: Ledger, ops: seq<Op>): Ledger {
    if ops == [] then l else Apply(Run(l, ops[..|ops| - 1]), ops[|ops| - 1])
  }

  ghost predicate Monotone(ops: seq<Op>, start: real) {
    && (ops != [] ==> start <= ops[0].at)
    && forall i :: 0 <= i < |ops| - 1 ==> ops[i].at <= ops[i + 1].at
  }

  ghost predicate Orderly(q: seq<Data>, clock: real) {
    && Sorted(q) && |q| <= RTQ_MAX_LEN
    && forall d :: d in q ==> d.ts <= clock + RTQ_TIMEOUT
  }

  ghost predicate Accounted(l: Ledger) {
    multiset(l.put) == multiset(l.queue) + multiset(l.taken) + multiset(l.dropped) + multiset(l.expired)
  }

  ghost predicate Timely(l: Ledger) {
    && |l.taken| == |l.takenAt|
    && (forall i :: 0 <= i < |l.taken| ==> l.takenAt[i] <= l.taken[i].ts)
    && (forall d :: d in l.expired ==> d.ts < l.clock)
  }

  ghost predicate Sound(l: Ledger) {
    Orderly(l.queue, l.clock) && Accounted(l) && Timely(l)
  }

  function Purged(l: Ledger, at: real): Ledger {
    l.(clock := at, queue := Live(l.queue, at), expired := l.expired + Aged(l.queue, at))
  }

  /** Purging keeps the ledger sound: what leaves goes to the expired account. */
  lemma PurgeSound(l: Ledger, at: real)
    requires Sound(l) && l.clock <= at
    ensures Sound(Purged(l, at))
    ensures forall d :: d in Live(l.queue, at) ==> at <= d.ts
  {
    KeepSorted(l.queue, Within(at));
    KeepMembers(l.queue, Within(at));
    KeepMembers(l.queue, Not(Within(at)));
    KeepSplits(l.queue, Within(at));
  }

  function Took(l: Ledger, k: nat): Ledger
    requires k < |l.queue|
  {
    l.(queue := Lists.RemoveAt(l.queue, k), taken := l.taken + [l.queue[k]], takenAt := l.takenAt + [l.clock])
  }

  lemma TakeSound(l: Ledger, k: nat)
    requires Sound(l) && k < |l.queue| && l.clock <= l.queue[k].ts
    ensures Sound(Took(l, k))
  {
    RemovedOne(l.queue, k);
    var x, left := multiset{l.queue[k]}, multiset(Lists.RemoveAt(l.queue, k));
    Exchange(multiset(l.put), left + x, multiset(l.dropped), multiset(l.taken), multiset(l.expired),
             multiset{}, left, x);
    assert multiset(Took(l, k).taken) == multiset(l.taken) + x;
  }

  /** What comes in is what goes out and what stays. */
  lemma Exchange(put: multiset<Data>, q: multiset<Data>, taken: multiset<Data>, dropped: multiset<Data>,
                 expired: multiset<Data>,
                 more: multiset<Data>, q': multiset<Data>, lost: multiset<Data>)
    requires put == q + taken + dropped + expired && q' + lost == q + more
    ensures put + more == q' + taken + (dropped + lost) + expired
  {
    forall x ensures (put + more)[x] == (q' + taken + (dropped + lost) + expired)[x] {
      assert (q' + lost)[x] == (q + more)[x];
    }
  }

  lemma EnqueAccounts(q: seq<Data>, d: Data, now: real)
    requires Live(q, now) == q
    ensures var r := Enque(q, d, now);
      multiset(r.queue) + multiset(Dropped(r.dropped)) == multiset(q) + multiset{d.(ts := now + RTQ_TIMEOUT)}
  {
    var lost := Enque(q, d, now).dropped;
    if |q| == RTQ_MAX_LEN {
      assert lost[1..] == [] && Dropped(lost) == [q[0]];
      assert q == [q[0]] + q[1..];
    }
  }

  function Entered(l: Ledger, d: Data): Ledger {
    var r := Enque(l.queue, d, l.clock);
    l.(queue := r.queue, put := l.put + [d.(ts := l.clock + RTQ_TIMEOUT)], dropped := l.dropped + Dropped(r.dropped))
  }

  lemma PutAccounted(l: Ledger, d: Data)
    requires Accounted(l) && Live(l.queue, l.clock) == l.queue
    ensures Accounted(Entered(l, d))
  {
    hide Enque, Dropped;
    EnqueAccounts(l.queue, d, l.clock);
    var r, s := Enque(l.queue, d, l.clock), d.(ts := l.clock + RTQ_TIMEOUT);
    Exchange(multiset(l.put), multiset(l.queue), multiset(l.taken), multiset(l.dropped), multiset(l.expired),
             multiset{s}, multiset(r.queue), multiset(Dropped(r.dropped)));
  }

  lemma PutSound(l: Ledger, d: Data)
    requires Sound(l) && Live(l.queue, l.clock) == l.queue
    ensures Sound(Entered(l, d))
  {
    EnqueKeeps(l.queue, d, l.clock);
    PutAccounted(l, d);
  }

  lemma ApplySound(l: Ledger, op: Op)
    requires Sound(l) && l.clock <= op.at
    ensures Sound(Apply(l, op)) && Apply(l, op).clock == op.at
  {
    hide Sound, Keep, First;
    PurgeSound(l, op.at);
    var l1 := Purged(l, op.at);
    match op
    case Put(d, at) =>
      KeepTwice(l.queue, Within(at));
      assert Apply(l, op) == Entered(l1, d);
      PutSound(l1, d);
    case Take(at) =>
      if l1.queue != [] {
        assert Apply(l, op) == Took(l1, 0);
        TakeSound(l1, 0);
      }
    case TakeFor(dst, at) =>
      var k := First(l1.queue, Bound(dst));
      if k >= 0 {
        assert Apply(l, op) == Took(l1, k);
        TakeSound(l1, k);
      }
  }

  /** Over any run: at most 100 packets wait, in deadline order; every packet ever enqueued is in
      exactly one of queued, taken, dropped and expired; nothing is taken after its deadline. */
  lemma {:induction false} EveryRunSound(ops: seq<Op>)
    requires Monotone(ops, 0.0)
    ensures Sound(Run(START, ops))
    ensures ops != [] ==> Run(START, ops).clock == ops[|ops| - 1].at
  {
    if ops != [] {
      var before := ops[..|ops| - 1];
      EveryRunSound(before);
      assert before != [] ==> before[|before| - 1].at <= ops[|ops| - 1].at;
      ApplySound(Run(START, before), ops[|ops| - 1]);
    }
  }
}

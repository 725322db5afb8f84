/** Counting transmissions: how often one launch, or one data packet, goes over the wire. */
module Counting {
  import opened Types
  import opened NodeInvariant
  import opened Network

  /** What is followed: the wandering copies of one launch, or one unicast data packet. */
  datatype Key = Ant(src: Addr, id: nat) | Pkt(src: Addr, uid: nat)

  predicate Hit(k: Key, m: Msg) {
    match k
    case Ant(src, id) => m.Go? && Wandering(m.go) && m.go.src == src && m.go.id == id
    case Pkt(src, uid) => m.DataMsg? && m.data.daddr != BROADCAST && m.data.saddr == src && m.data.uid == uid
  }

  function Count(fs: seq<Flight>, k: Key): nat {
    if fs == [] then 0 else Count(fs[..|fs| - 1], k) + if Hit(k, fs[|fs| - 1].msg) then 1 else 0
  }

  lemma {:induction false} CountAppend(a: seq<Flight>, b: seq<Flight>, k: Key)
    ensures Count(a + b, k) == Count(a, k) + Count(b, k)
  {
    if b == [] {
      assert a + b == a;
    } else {
      assert (a + b)[..|a + b| - 1] == a + b[..|b| - 1];
      CountAppend(a, b[..|b| - 1], k);
    }
  }

  lemma CountTakeOff(wire: seq<Flight>, i: nat, k: Key)
    requires i < |wire|
    ensures Count(wire, k) == Count(wire[..i] + wire[i + 1..], k) + if Hit(k, wire[i].msg) then 1 else 0
  {
    CountAppend(wire[..i], wire[i + 1..], k);
    CountAppend(wire[..i], [wire[i]], k);
    CountAppend(wire[..i] + [wire[i]], wire[i + 1..], k);
    assert wire == wire[..i] + [wire[i]] + wire[i + 1..];
    assert [wire[i]][..0] == [];
  }

  lemma {:induction false} CountPositive(fs: seq<Flight>, k: Key, i: nat)
    requires i < |fs| && Hit(k, fs[i].msg)
    ensures Count(fs, k) > 0
  {
    if i < |fs| - 1 {
      CountPositive(fs[..|fs| - 1], k, i);
    }
  }

  lemma {:induction false} CountNone(fs: seq<Flight>, k: Key)
    requires forall i :: 0 <= i < |fs| ==> !Hit(k, fs[i].msg)
    ensures Count(fs, k) == 0
  {
    if fs != [] {
      CountNone(fs[..|fs| - 1], k);
    }
  }

  predicate OutHit(k: Key, o: Output) {
    o.Send? && Hit(k, o.msg)
  }

  function OutCount(outs: seq<Output>, k: Key): nat {
    if outs == [] then 0 else (if OutHit(k, outs[0]) then 1 else 0) + OutCount(outs[1..], k)
  }

  lemma {:induction false} OutCountAppend(a: seq<Output>, b: seq<Output>, k: Key)
    ensures OutCount(a + b, k) == OutCount(a, k) + OutCount(b, k)
  {
    if a == [] {
      assert a + b == b;
    } else {
      assert (a + b)[1..] == a[1..] + b;
      OutCountAppend(a[1..], b, k);
    }
  }

  lemma {:induction false} OutCountNone(outs: seq<Output>, k: Key)
    requires forall i :: 0 <= i < |outs| ==> !OutHit(k, outs[i])
    ensures OutCount(outs, k) == 0
  {
    if outs != [] {
      OutCountNone(outs[1..], k);
    }
  }

  /** Nothing that is broadcast is followed. */
  ghost predicate QuietNotes(outs: seq<Output>, k: Key) {
    forall i :: 0 <= i < |outs| && outs[i].Broadcast? ==> !Hit(k, outs[i].note)
  }

  /** The flights of a step are counted by its outputs, and each counted flight is one of them. */
  lemma {:induction false} LaunchCounts(from: Addr, outs: seq<Output>, hearers: seq<Addr>, k: Key)
    requires QuietNotes(outs, k)
    ensures Count(Launch(from, outs, hearers), k) == OutCount(outs, k)
    ensures forall f :: f in Launch(from, outs, hearers) && Hit(k, f.msg) ==> Send(f.to, f.msg) in outs
  {
    if outs != [] {
      var one, rest := LaunchOne(from, outs[0], hearers), Launch(from, outs[1..], hearers);
      LaunchCounts(from, outs[1..], hearers, k);
      CountAppend(one, rest, k);
      if outs[0].Send? {
        assert one[..0] == [];
      } else {
        CountNone(one, k);
      }
    }
  }

  lemma {:induction false} OutCountPositive(outs: seq<Output>, k: Key, i: nat)
    requires i < |outs| && OutHit(k, outs[i])
    ensures OutCount(outs, k) > 0
  {
    if i > 0 {
      OutCountPositive(outs[1..], k, i - 1);
    }
  }

  lemma {:induction false} FindHit(fs: seq<Flight>, k: Key) returns (i: nat)
    requires Count(fs, k) > 0
    ensures i < |fs| && Hit(k, fs[i].msg)
  {
    i := |fs| - 1;
    if !Hit(k, fs[i].msg) {
      i := FindHit(fs[..i], k);
    }
  }
}

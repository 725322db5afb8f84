/** The packet buffer as it is built: a singly linked list with head, tail and length. */
module RQueue {
  import opened Types
  import opened PacketQueue
  import Lists

  class Packet {
    var hdr: Data
    var next: Packet?

    constructor (d: Data)
      ensures hdr == d && next == null
    {
      hdr, next := d, null;
    }
  }

  class RQueue {
    var head: Packet?
    var tail: Packet?
    var len: int
    ghost var spine: seq<Packet>  // the packets from head to tail
    ghost var contents: seq<Data> // their headers
    ghost var repr: set<Packet>   // every packet the list has held

    /** verifyQueue's demand, with the list acyclic and within its limit. */
    ghost predicate Valid()
      reads this, repr
    {
      && (forall i :: 0 <= i < |spine| ==> spine[i] in repr)
      && (forall i, j :: 0 <= i < j < |spine| ==> spine[i] != spine[j])
      && (forall i :: 0 <= i < |spine| - 1 ==> spine[i].next == spine[i + 1])
      && (spine != [] ==> spine[|spine| - 1].next == null)
      && head == (if spine == [] then null else spine[0])
      && tail == (if spine == [] then null else spine[|spine| - 1])
      && len == |spine| == |contents| <= RTQ_MAX_LEN
      && (forall i :: 0 <= i < |spine| ==> contents[i] == spine[i].hdr)
    }

    constructor ()
      ensures Valid() && contents == [] && spine == [] && repr == {}
    {
      head, tail, len, spine, contents, repr := null, null, 0, [], [], {};
    }

    method RemoveHead() returns (p: Packet?)
      requires Valid()
      modifies this
      ensures Valid()
      ensures p == null <==> old(spine) == []
      ensures p == null ==> spine == []
      ensures p != null ==> p == old(spine[0]) && spine == old(spine[1..])
      ensures p != null ==> contents == old(contents[1..])
      ensures repr == old(repr)
    {
      ghost var was := spine;
      p := head;
      assert |was| > 1 ==> was[0] != was[|was| - 1] && was[0].next == was[1];
      if head == tail {
        head, tail := null, null;
      } else {
        head := head.next;
      }
      if p != null {
        len := len - 1;
        spine, contents := spine[1..], contents[1..];
        forall i | 0 <= i < |spine| - 1 ensures spine[i].next == spine[i + 1] {
          assert spine[i] == was[i + 1] && spine[i + 1] == was[i + 2];
        }
      }
    }

    method FindPacketWithDst(dst: Addr) returns (p: Packet?, prev: Packet?)
      requires Valid()
      ensures var k := First(contents, Bound(dst));
        p == (if k < 0 then null else spine[k]) && (k >= 0 ==> prev == if k == 0 then null else spine[k - 1])
    {
      p, prev := head, null;
      ghost var k := 0;
      while p != null
        invariant 0 <= k <= |spine|
        invariant p == if k < |spine| then spine[k] else null
        invariant prev == if k == 0 then null else spine[k - 1]
        invariant forall j :: 0 <= j < k ==> !Bound(dst).Holds(contents[j])
        decreases |spine| - k
      {
        if p.hdr.daddr == dst {
          assert Bound(dst).Holds(contents[k]);
          FirstIs(contents, Bound(dst), k);
          return;
        }
        prev := p;
        p := p.next;
        k := k + 1;
      }
      FirstIs(contents, Bound(dst), -1);
    }

    method FindAgedPacket(now: real) returns (found: bool, p: Packet?, prev: Packet?)
      requires Valid()
      ensures var k := First(contents, Not(Within(now)));
        && (found <==> k >= 0) && p == (if k < 0 then null else spine[k])
        && (k >= 0 ==> prev == if k == 0 then null else spine[k - 1])
    {
      p, prev := head, null;
      ghost var k := 0;
      while p != null
        invariant 0 <= k <= |spine|
        invariant p == if k < |spine| then spine[k] else null
        invariant prev == if k == 0 then null else spine[k - 1]
        invariant forall j :: 0 <= j < k ==> !Not(Within(now)).Holds(contents[j])
        decreases |spine| - k
      {
        if p.hdr.ts < now {
          found := true;
          assert Not(Within(now)).Holds(contents[k]);
          FirstIs(contents, Not(Within(now)), k);
          return;
        }
        prev := p;
        p := p.next;
        k := k + 1;
      }
      found := false;
      FirstIs(contents, Not(Within(now)), -1);
    }

    /** The three unlinking branches shared by purge and deque(dst). */
    method Unlink(p: Packet, prev: Packet?, ghost k: nat)
      requires Valid()
      requires k < |spine| && p == spine[k]
      requires prev == if k == 0 then null else spine[k - 1]
      modifies this, repr
      ensures Valid()
      ensures spine == Lists.RemoveAt(old(spine), k)
      ensures repr == old(repr) && forall x :: x in repr ==> x.hdr == old(x.hdr)
      ensures contents == Lists.RemoveAt(old(contents), k)
    {
      hide Lists.RemoveAt;
      ghost var was := spine;
      assert was[|was| - 1] == tail && (k > 0 ==> was[k - 1] == prev && was[0] != p);
      if p == head {
        var h := RemoveHead();
      } else if p == tail {
        prev.next := null;
        tail := prev;
        len := len - 1;
        spine, contents := Lists.RemoveAt(spine, k), Lists.RemoveAt(contents, k);
      } else {
        prev.next := p.next;
        len := len - 1;
        spine, contents := Lists.RemoveAt(spine, k), Lists.RemoveAt(contents, k);
      }
      forall i | 0 <= i < |spine| - 1 ensures spine[i].next == spine[i + 1] {
        assert spine[i] == if i < k then was[i] else was[i + 1];
        assert spine[i + 1] == if i + 1 < k then was[i + 1] else was[i + 2];
      }
    }

    /** purge: the expired packets leave without a drop, whatever the order of the queue. */
    method Purge(now: real) returns (ghost expired: seq<Data>)
      requires Valid()
      modifies this, repr
      ensures Valid()
      ensures contents == Live(old(contents), now)
      ensures expired == Aged(old(contents), now)
      ensures repr == old(repr) && forall x :: x in spine ==> x in old(spine)
      ensures repr == old(repr) && forall x :: x in repr ==> x.hdr == old(x.hdr)
    {
      hide Keep, First, Lists.RemoveAt;
      expired := [];
      var found, p, prev := FindAgedPacket(now);
      ghost var k := First(contents, Not(Within(now)));
      while found
        invariant Valid()
        invariant repr == old(repr) && forall x :: x in spine ==> x in old(spine)
        invariant forall x :: x in repr ==> x.hdr == old(x.hdr)
        invariant k == First(contents, Not(Within(now)))
        invariant found <==> k >= 0
        invariant p == if k < 0 then null else spine[k]
        invariant k >= 0 ==> prev == if k == 0 then null else spine[k - 1]
        invariant Live(contents, now) == Live(old(contents), now)
        invariant expired + Aged(contents, now) == Aged(old(contents), now)
        decreases |spine|
      {
        ghost var q := contents;
        KeepSkips(q, k, Within(now));
        KeepPops(q, k, Not(Within(now)));
        Unlink(p, prev, k);
        expired := expired + [q[k]];
        found, p, prev := FindAgedPacket(now);
        k := First(contents, Not(Within(now)));
      }
      KeepAll(contents, Within(now));
      KeepNone(contents, Not(Within(now)));
    }

    /** The linking half of enque. */
    method Append(p: Packet)
      requires Valid() && p !in spine && p.next == null && len < RTQ_MAX_LEN
      modifies this, tail
      ensures Valid()
      ensures spine == old(spine) + [p] && repr == old(repr) + {p}
      ensures contents == old(contents) + [p.hdr]
    {
      ghost var was := spine;
      if head == null {
        head, tail := p, p;
      } else {
        tail.next := p;
        tail := p;
      }
      len := len + 1;
      spine, contents, repr := spine + [p], contents + [p.hdr], repr + {p};
      assert forall i :: 0 <= i < |was| ==> spine[i] == was[i];
    }

    method Enque(p: Packet, now: real) returns (drops: seq<Output>)
      requires Valid() && p !in spine
      modifies this, repr, p
      ensures Valid()
      ensures var r := PacketQueue.Enque(old(contents), old(p.hdr), now);
        contents == r.queue && drops == r.dropped
      ensures repr == old(repr) + {p} && forall x :: x in spine ==> x in old(spine) || x == p
    {
      hide Keep;
      drops := [];
      ghost var expired := Purge(now);
      ghost var live := contents;
      p.next := null;
      p.hdr := p.hdr.(ts := now + RTQ_TIMEOUT);
      assert Valid() && contents == live;
      if len == RTQ_MAX_LEN {
        var p0 := RemoveHead();
        if p0.hdr.ts > now {
          drops := [Drop(p0.hdr, QUEUE_FULL)];
        } else {
          drops := [Drop(p0.hdr, QUEUE_TIMEOUT)];
        }
      }
      Append(p);
    }

    method Deque(now: real) returns (p: Packet?)
      requires Valid()
      modifies this, repr
      ensures Valid()
      ensures repr == old(repr) && forall x :: x in spine ==> x in old(spine)
      ensures var live := Live(old(contents), now);
        if live == [] then p == null && contents == []
        else p != null && p in old(spine) && p !in spine && p.hdr == live[0] && contents == live[1..]
    {
      ghost var expired := Purge(now);
      p := RemoveHead();
    }

    /** deque(dst): the first unexpired packet for dst; the others keep their order. */
    method DequeFor(dst: Addr, now: real) returns (p: Packet?)
      requires Valid()
      modifies this, repr
      ensures Valid()
      ensures repr == old(repr) && forall x :: x in spine ==> x in old(spine)
      ensures var live := Live(old(contents), now);
        var k := First(live, Bound(dst));
        if k < 0 then p == null && contents == live
        else p != null && p in old(spine) && p !in spine && p.hdr == live[k] && contents == Lists.RemoveAt(live, k)
    {
      hide Keep, First, Lists.RemoveAt;
      ghost var expired := Purge(now);
      var prev;
      p, prev := FindPacketWithDst(dst);
      if p == null {
        return;
      }
      Unlink(p, prev, First(contents, Bound(dst)));
    }

    method Find(dst: Addr) returns (found: bool)
      requires Valid()
      ensures found <==> exists d :: d in contents && d.daddr == dst
    {
      var p, prev := FindPacketWithDst(dst);
      found := p != null;
      assert found ==> contents[First(contents, Bound(dst))] in contents;
    }

    /** verifyQueue: the walk counts len packets and ends on the tail. */
    method VerifyQueue() returns (cnt: int, last: Packet?)
      requires Valid()
      ensures cnt == len && last == tail
    {
      var p := head;
      cnt, last := 0, null;
      while p != null
        invariant 0 <= cnt <= |spine|
        invariant p == if cnt < |spine| then spine[cnt] else null
        invariant last == if cnt == 0 then null else spine[cnt - 1]
        decreases |spine| - cnt
      {
        cnt := cnt + 1;
        last := p;
        p := p.next;
      }
    }
  }
}

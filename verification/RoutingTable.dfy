/** The multipath routing table (antconf_rtable.cc). */
module RoutingTable {
  import opened Types
  import opened Lists

  datatype Flag = DOWN | UP | IN_REPAIR

  datatype Entry = Entry(
    dst: Addr, seqno: nat, hops: nat, nextHop: Addr, precursors: seq<Addr>, expire: real, flag: Flag)

  /** antconf_rt_entry::antconf_rt_entry, with the two fields rt_add fills in. */
  function Fresh(nextHop: Addr, dst: Addr): Entry {
    Entry(dst, 0, INFINITY2, nextHop, [], 0.0, DOWN)
  }

  predicate Via(e: Entry, nextHop: Addr, dst: Addr) {
    e.dst == dst && e.nextHop == nextHop
  }

  /** rt_lookup(nexthop, id): the first matching position, -1 for the null pointer. */
  function FindVia(t: seq<Entry>, nextHop: Addr, dst: Addr): (i: int)
    ensures -1 <= i < |t|
    ensures i >= 0 ==> Via(t[i], nextHop, dst) && forall j :: 0 <= j < i ==> !Via(t[j], nextHop, dst)
    ensures i < 0 ==> forall j :: 0 <= j < |t| ==> !Via(t[j], nextHop, dst)
  {
    FirstWhere(t, (e: Entry) => Via(e, nextHop, dst))
  }

  /** rt_lookup(id) */
  function FindDst(t: seq<Entry>, dst: Addr): (i: int)
    ensures -1 <= i < |t|
    ensures i >= 0 ==> t[i].dst == dst && forall j :: 0 <= j < i ==> t[j].dst != dst
    ensures i < 0 ==> forall j :: 0 <= j < |t| ==> t[j].dst != dst
  {
    FirstWhere(t, (e: Entry) => e.dst == dst)
  }

  predicate Leads(e: Entry, dst: Addr) {
    e.dst == dst && e.flag == UP
  }

  /** Fresher, or as fresh and shorter. */
  predicate Beats(a: Entry, b: Entry) {
    a.seqno > b.seqno || (a.seqno == b.seqno && a.hops < b.hops)
  }

  /** Position i holds the first of the best UP entries for dst. */
  ghost predicate IsOptimal(t: seq<Entry>, dst: Addr, i: nat) {
    && i < |t| && Leads(t[i], dst)
    && (forall j :: 0 <= j < |t| && Leads(t[j], dst) ==> !Beats(t[j], t[i]))
    && (forall j :: 0 <= j < i && Leads(t[j], dst) ==> Beats(t[i], t[j]))
  }

  ghost predicate Routeless(t: seq<Entry>, dst: Addr) {
    forall j :: 0 <= j < |t| ==> !Leads(t[j], dst)
  }

  /** rt_lookupoptimal: -1 exactly when no entry for dst is UP, otherwise the first best one. */
  function FindOptimal(t: seq<Entry>, dst: Addr): (i: int)
    ensures -1 <= i < |t|
    ensures i >= 0 ==> IsOptimal(t, dst, i)
    ensures i < 0 <==> Routeless(t, dst)
  {
    if t == [] then -1
    else
      var n := |t| - 1;
      var i := FindOptimal(t[..n], dst);
      if Leads(t[n], dst) && (i < 0 || Beats(t[n], t[i])) then n else i
  }

  /** The optimum is unique, so a search that meets IsOptimal computes FindOptimal. */
  lemma OptimalUnique(t: seq<Entry>, dst: Addr, i: nat, j: nat)
    requires IsOptimal(t, dst, i) && IsOptimal(t, dst, j)
    ensures i == j
  {
  }

  /** rt_down */
  function TakeDown(e: Entry): Entry {
    if e.flag == DOWN then e
    else e.(hops := INFINITY2, flag := DOWN, nextHop := NO_TARGET, expire := 0.0)
  }

  /** rt_update */
  function Updated(e: Entry, seqno: nat, hops: nat, expire: real): Entry {
    e.(seqno := seqno, hops := hops, flag := UP, expire := expire)
  }

  /** pc_insert */
  function WithPrecursor(e: Entry, id: Addr): Entry {
    if id in e.precursors then e else e.(precursors := [id] + e.precursors)
  }

  class RTable {
    var rthead: seq<Entry>

    constructor ()
      ensures rthead == []
    {
      rthead := [];
    }

    method RtLookup(dst: Addr) returns (i: int)
      ensures i == FindDst(rthead, dst)
    {
      i := 0;
      while i < |rthead|
        invariant 0 <= i <= |rthead|
        invariant forall j :: 0 <= j < i ==> rthead[j].dst != dst
      {
        if rthead[i].dst == dst {
          return;
        }
        i := i + 1;
      }
      i := -1;
    }

    method RtLookupVia(nextHop: Addr, dst: Addr) returns (i: int)
      ensures i == FindVia(rthead, nextHop, dst)
    {
      i := 0;
      while i < |rthead|
        invariant 0 <= i <= |rthead|
        invariant forall j :: 0 <= j < i ==> !Via(rthead[j], nextHop, dst)
      {
        if rthead[i].dst == dst && rthead[i].nextHop == nextHop {
          return;
        }
        i := i + 1;
      }
      i := -1;
    }

    method RtLookupOptimal(dst: Addr) returns (rt0: int)
      ensures rt0 == FindOptimal(rthead, dst)
    {
      var i, first := 0, true;
      var d, seqno := 0, 0;
      rt0 := -1;
      while i < |rthead|
        invariant 0 <= i <= |rthead|
        invariant rt0 == FindOptimal(rthead[..i], dst)
        invariant first <==> rt0 < 0
        invariant !first ==> d == rthead[rt0].hops && seqno == rthead[rt0].seqno
      {
        var rt := rthead[i];
        assert rthead[..i + 1][..i] == rthead[..i];
        if first {
          if rt.dst == dst && rt.flag == UP {
            d, seqno, rt0, first := rt.hops, rt.seqno, i, false;
          }
        } else if rt.dst == dst && rt.flag == UP && (rt.seqno > seqno || (rt.seqno == seqno && rt.hops < d)) {
          d, seqno, rt0 := rt.hops, rt.seqno, i;
        }
        i := i + 1;
      }
      assert rthead[..i] == rthead;
    }

    method RtAddVia(nextHop: Addr, dst: Addr)
      modifies this
      ensures rthead == [Fresh(nextHop, dst)] + old(rthead)
    {
      rthead := [Fresh(nextHop, dst)] + rthead;
    }

    method RtAdd(dst: Addr)
      modifies this
      ensures rthead == [Fresh(NO_TARGET, dst)] + old(rthead)
    {
      rthead := [Fresh(NO_TARGET, dst)] + rthead;
    }

    method PcLookup(i: nat, id: Addr) returns (found: bool)
      requires i < |rthead|
      ensures found <==> id in rthead[i].precursors
    {
      var pcs, k := rthead[i].precursors, 0;
      while k < |pcs|
        invariant 0 <= k <= |pcs|
        invariant id !in pcs[..k]
      {
        if pcs[k] == id {
          return true;
        }
        k := k + 1;
      }
      return false;
    }

    method PcInsert(i: nat, id: Addr)
      requires i < |rthead|
      modifies this
      ensures rthead == old(rthead)[i := WithPrecursor(old(rthead[i]), id)]
    {
      var found := PcLookup(i, id);
      if !found {
        rthead := rthead[i := rthead[i].(precursors := [id] + rthead[i].precursors)];
      }
    }

    method PcDelete(i: nat, id: Addr)
      requires i < |rthead|
      modifies this
      ensures rthead == old(rthead)[i := old(rthead[i]).(precursors := Without(old(rthead[i].precursors), id))]
    {
      var pcs, k := rthead[i].precursors, 0;
      while k < |pcs|
        invariant 0 <= k <= |pcs|
        invariant rthead == old(rthead)
        invariant id !in pcs[..k]
      {
        if pcs[k] == id {
          WithoutAt(pcs, id, k);
          rthead := rthead[i := rthead[i].(precursors := RemoveAt(pcs, k))];
          return;
        }
        k := k + 1;
      }
    }
  }
}

/** Addresses, protocol constants, packets, agents and table records shared by every module. */
module Types {

  type Addr = int

  // antconf.h, antconf_rtable.h, antconf_rqueue.h, antconf_phtable.h
  const BROADCAST: Addr := -1          // IP_BROADCAST as an nsaddr_t
  const NO_TARGET: Addr := -1          // antL_nodetarget of a wandering ant, rt_nexthop of an unused entry
  const NO_DEMAND: Addr := -2          // antL_detask of a return ant that asks for nothing
  const NO_HOP: Addr := -12            // "no next hop chosen" in chooseNextHop
  const UNWRITTEN: Addr := -99         // a NodeVisited cell nobody has written
  const INFINITY2: nat := 255
  const NETWORK_DIAMETER: int := 30
  const ANT_TTL: int := 10
  const RTQ_MAX_LEN: nat := 100
  const RTQ_TIMEOUT: real := 3.0
  const ROUTE_LIFE: real := 10.0       // ACTIVE_ROUTE_TIMEOUT and REV_ROUTE_LIFE
  const AGENT_ID_SAVE: real := 6.0
  const EXPIRE_AR_INTERVAL: real := 10.0
  const HELLO_LIFE: real := 4.5        // 1.5 * ALLOWED_HELLO_LOSS * HELLO_INTERVAL
  const PHEROMONE_QTE: real := 0.5     // also PHEROMONE_DEMANDE_QTE
  const PHEROMONE_STEP: real := 0.1    // DEC_PHEROMONE and INC_PHEROMONE

  /** A stored byte: hop counts travel in a u_int8_t. */
  function U8(n: int): (r: nat)
    ensures r < 256
    ensures 0 <= n < 256 ==> r == n
  {
    n % 256
  }

  function Max(a: real, b: real): real {
    if a > b then a else b
  }

  /** Headers of a data packet: addresses, remaining ttl, num_forwards, direction and the buffer deadline ts_. */
  datatype Data = Data(uid: nat, saddr: Addr, daddr: Addr, ttl: int, forwards: nat, up: bool, ts: real)

  /** A light ant on its way out. NodeVisitedCount is |trail|. */
  datatype GoAnt = GoAnt(
    seqno: nat,      // antL_src_seqno
    prevNode: Addr,  // antL_prevnode
    target: Addr,    // antL_nodetarget
    ner: Addr,       // antL_NoeudEtabRout: the node a route is being learned for
    valid: bool,     // antL_validPrevNER
    hops: nat,       // antL_hop_count
    id: nat,         // antL_id
    src: Addr,       // scr
    trail: seq<Addr>,// NodeVisited
    direct: bool,    // antL_rt: carries a known route straight to its claimant
    ttl: int,
    prevHop: Addr)   // prev_hop_ of the common header

  /** A light ant on its way back: count is NodeVisitedCount, trail the whole outward NodeVisited. */
  datatype ReturnAnt = ReturnAnt(
    seqno: nat, prevNode: Addr, detask: Addr, ner: Addr, valid: bool, hops: nat,
    src: Addr, count: nat, trail: seq<Addr>, qte: real)

  datatype Lost = Lost(dst: Addr, seqno: nat)

  datatype Msg =
    | Go(go: GoAnt)
    | Return(back: ReturnAnt)
    | Rectificator(sender: Addr, lost: seq<Lost>)
    | Hello(origin: Addr)
    | DataMsg(data: Data)

  datatype Reason = NO_ROUTE | TTL_OVER | ROUTE_LOOP | QUEUE_FULL | QUEUE_TIMEOUT | MAC_CALLBACK

  /** What a handler hands to the world outside the node. */
  datatype Output =
    | Send(to: Addr, msg: Msg)
    | Broadcast(note: Msg)
    | Local(delivered: Data)
    | Drop(dropped: Data, reason: Reason)

  datatype Neighbor = Neighbor(addr: Addr, expire: real)

  datatype AgentId = AgentId(src: Addr, id: nat, expire: real)

  datatype Request = Request(dst: Addr, expire: real, qte: real)
}

/** Sequence vocabulary used by several modules. */
module Lists {

  ghost predicate NoDup<T>(s: seq<T>) {
    forall i, j :: 0 <= i < j < |s| ==> s[i] != s[j]
  }

  /** The first position whose element satisfies p, -1 for the null pointer: every lookup walks its list so. */
  function FirstWhere<T>(s: seq<T>, p: T -> bool): (i: int)
    ensures -1 <= i < |s|
    ensures i >= 0 ==> p(s[i]) && forall j :: 0 <= j < i ==> !p(s[j])
    ensures i < 0 ==> forall j :: 0 <= j < |s| ==> !p(s[j])
  {
    if s == [] then -1
    else if p(s[0]) then 0
    else
      var i := FirstWhere(s[1..], p);
      if i < 0 then -1 else i + 1
  }

  /** The list without its element at i (LIST_REMOVE). */
  function RemoveAt<T>(s: seq<T>, i: nat): (r: seq<T>)
    requires i < |s|
    ensures |r| == |s| - 1
    ensures forall k {:trigger r[k]} :: 0 <= k < i ==> r[k] == s[k]
    ensures forall k {:trigger r[k]} :: i <= k < |r| ==> r[k] == s[k + 1]
  {
    s[..i] + s[i + 1..]
  }

  /** The list without the first occurrence of x. */
  function Without<T(==)>(s: seq<T>, x: T): (r: seq<T>)
    ensures x !in s ==> r == s
    ensures forall y :: y in r ==> y in s
    ensures forall y :: y in s && y != x ==> y in r
  {
    if s == [] then []
    else if s[0] == x then s[1..]
    else [s[0]] + Without(s[1..], x)
  }

  lemma {:induction false} WithoutAt<T>(s: seq<T>, x: T, k: nat)
    requires k < |s| && s[k] == x && x !in s[..k]
    ensures Without(s, x) == RemoveAt(s, k)
  {
    if k > 0 {
      assert s[0] in s[..k];
      assert s[1..][..k - 1] == s[..k][1..];
      WithoutAt(s[1..], x, k - 1);
    }
  }

  lemma {:induction false} WithoutNoDup<T>(s: seq<T>, x: T)
    requires NoDup(s)
    ensures NoDup(Without(s, x)) && x !in Without(s, x)
  {
    if s != [] {
      var rest := s[1..];
      assert NoDup(rest) by {
        forall i, j | 0 <= i < j < |rest| ensures rest[i] != rest[j] {
          assert rest[i] == s[i + 1] && rest[j] == s[j + 1];
        }
      }
      if s[0] == x {
        assert forall k :: 0 <= k < |rest| ==> rest[k] == s[k + 1];
      } else {
        WithoutNoDup(rest, x);
        assert s[0] !in rest;
      }
    }
  }
}

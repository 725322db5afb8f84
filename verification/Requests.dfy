/** The list of route requests and its round robin (antconf.cc:1386-1395, 1849-1906). */
module Requests {
  import opened Types
  import opened Lists

  function FindRequest(asks: seq<Request>, dst: Addr): (i: int)
    ensures -1 <= i < |asks|
    ensures i >= 0 ==> asks[i].dst == dst && forall j :: 0 <= j < i ==> asks[j].dst != dst
    ensures i < 0 ==> forall j :: 0 <= j < |asks| ==> asks[j].dst != dst
  {
    FirstWhere(asks, (r: Request) => r.dst == dst)
  }

  /** ar_lookup */
  predicate Asked(asks: seq<Request>, dst: Addr) {
    FindRequest(asks, dst) >= 0
  }

  ghost predicate RequestsUnique(asks: seq<Request>) {
    forall i, j :: 0 <= i < j < |asks| ==> asks[i].dst != asks[j].dst
  }

  function NewRequest(dst: Addr, qte: real, now: real): Request {
    Request(dst, now + EXPIRE_AR_INTERVAL, if qte == 0.0 then PHEROMONE_QTE else qte)
  }

  /** ar_insert */
  function Insert(asks: seq<Request>, dst: Addr, qte: real, now: real): seq<Request> {
    [NewRequest(dst, qte, now)] + asks
  }

  /** ar_delete: the first request for dst goes. */
  function Delete(asks: seq<Request>, dst: Addr): seq<Request> {
    var k := FindRequest(asks, dst);
    if k < 0 then asks else RemoveAt(asks, k)
  }

  /** phd_purge */
  function Age(asks: seq<Request>): (r: seq<Request>)
    ensures |r| == |asks|
    ensures forall i :: 0 <= i < |r| ==> r[i] == asks[i].(qte := asks[i].qte + PHEROMONE_STEP)
  {
    if asks == [] then []
    else [asks[0].(qte := asks[0].qte + PHEROMONE_STEP)] + Age(asks[1..])
  }

  /** The default branch of sendAntLightReturn: the request at the end of the list is advertised,
      deleted and put back at the head. */
  function Rotate(asks: seq<Request>, now: real): seq<Request>
    requires asks != []
  {
    var last := asks[|asks| - 1];
    Insert(Delete(asks, last.dst), last.dst, last.qte, now)
  }

  lemma DeleteKeeps(asks: seq<Request>, dst: Addr)
    requires RequestsUnique(asks)
    ensures RequestsUnique(Delete(asks, dst)) && !Asked(Delete(asks, dst), dst)
    ensures forall d :: d != dst ==> (Asked(Delete(asks, dst), d) <==> Asked(asks, d))
    ensures forall r :: r in Delete(asks, dst) ==> r in asks
  {
    var k := FindRequest(asks, dst);
    var r := Delete(asks, dst);
    if k >= 0 {
      forall d | d != dst && Asked(asks, d) ensures Asked(r, d) {
        var i := FindRequest(asks, d);
        assert r[if i < k then i else i - 1].dst == d;
      }
      forall d | Asked(r, d) ensures Asked(asks, d) && d != dst {
        var i := FindRequest(r, d);
        assert r[i] == asks[if i < k then i else i + 1];
      }
    }
  }

  lemma InsertKeeps(asks: seq<Request>, dst: Addr, qte: real, now: real)
    requires RequestsUnique(asks) && !Asked(asks, dst)
    ensures var r := Insert(asks, dst, qte, now);
      RequestsUnique(r) && Asked(r, dst) && forall d :: d != dst ==> (Asked(r, d) <==> Asked(asks, d))
  {
    var r := Insert(asks, dst, qte, now);
    assert r[1..] == asks;
  }

  /** On a duplicate-free list the rotation moves the last request to the front and changes no dst or quantity. */
  lemma RotateMoves(asks: seq<Request>, now: real)
    requires asks != [] && RequestsUnique(asks) && asks[|asks| - 1].qte > 0.0
    ensures var n := |asks|; var r := Rotate(asks, now);
      && |r| == n && r[0].dst == asks[n - 1].dst && r[0].qte == asks[n - 1].qte
      && forall j :: 1 <= j < n ==> r[j] == asks[j - 1]
  {
    var n := |asks|;
    var k := FindRequest(asks, asks[n - 1].dst);
    assert k == n - 1;
    assert Delete(asks, asks[n - 1].dst) == asks[..n - 1];
  }

  datatype Turn = AdvertTurn(now: real) | AgeTick

  function Serve(asks: seq<Request>, turns: seq<Turn>): (r: seq<Request>)
    requires asks != []
    ensures r != []
  {
    if turns == [] then asks
    else
      var before := Serve(asks, turns[..|turns| - 1]);
      match turns[|turns| - 1]
      case AdvertTurn(now) => Rotate(before, now)
      case AgeTick => Age(before)
  }

  /** The destinations carried away by the return ants, in order. */
  function Advertised(asks: seq<Request>, turns: seq<Turn>): seq<Addr>
    requires asks != []
  {
    if turns == [] then []
    else
      var front := turns[..|turns| - 1];
      var before := Serve(asks, front);
      Advertised(asks, front) + if turns[|turns| - 1].AdvertTurn? then [before[|before| - 1].dst] else []
  }

  function Ticks(turns: seq<Turn>): nat {
    if turns == [] then 0
    else Ticks(turns[..|turns| - 1]) + if turns[|turns| - 1].AgeTick? then 1 else 0
  }

  function Adverts(turns: seq<Turn>): nat {
    if turns == [] then 0
    else Adverts(turns[..|turns| - 1]) + if turns[|turns| - 1].AdvertTurn? then 1 else 0
  }

  /** Where the request now at position j stood k rotations ago. */
  function Origin(n: nat, k: nat, j: nat): (i: nat)
    requires j < n
    ensures i < n
  {
    (j + n - k % n) % n
  }

  ghost predicate Rotated(asks: seq<Request>, r: seq<Request>, k: nat, ticks: nat) {
    && |r| == |asks|
    && forall j :: 0 <= j < |r| ==>
      && r[j].dst == asks[Origin(|asks|, k, j)].dst
      && r[j].qte == asks[Origin(|asks|, k, j)].qte + ticks as real * PHEROMONE_STEP
  }

  /** Without the arithmetic: the first k mod n requests are the last of the list, the others follow. */
  lemma OriginIs(n: nat, k: nat, j: nat)
    requires j < n
    ensures Origin(n, k, j) == if j < k % n then n - k % n + j else j - k % n
  {
    var m := k % n;
    if j < m {
      Remainder(n, j + n - m, 0, j + n - m);
    } else {
      Remainder(n, j + n - m, 1, j - m);
    }
  }

  lemma NextResidue(n: nat, k: nat)
    requires n > 0
    ensures (k + 1) % n == if k % n == n - 1 then 0 else k % n + 1
  {
    var q, m := k / n, k % n;
    assert k + 1 == q * n + (m + 1);
    if m == n - 1 {
      assert k + 1 == (q + 1) * n;
      Remainder(n, k + 1, q + 1, 0);
    } else {
      Remainder(n, k + 1, q, m + 1);
    }
  }

  lemma {:induction false} Grows(n: nat, a: nat, b: nat)
    requires a < b
    ensures a * n + n <= b * n
  {
    assert b * n == (b - 1) * n + n;
    if a < b - 1 {
      Grows(n, a, b - 1);
    }
  }

  lemma Remainder(n: nat, y: nat, q: nat, m: nat)
    requires m < n && y == q * n + m
    ensures y % n == m
  {
    var p := y / n;
    assert y == p * n + y % n;
    if p < q {
      Grows(n, p, q);
    } else if q < p {
      Grows(n, q, p);
    }
  }

  /** One rotation more brings each request from the place before. */
  lemma OriginNext(n: nat, k: nat, j: nat)
    requires j < n
    ensures Origin(n, k + 1, j) == Origin(n, k, if j == 0 then n - 1 else j - 1)
  {
    var i := if j == 0 then n - 1 else j - 1;
    NextResidue(n, k);
    OriginIs(n, k + 1, j);
    OriginIs(n, k, i);
  }

  lemma OriginInjective(n: nat, k: nat, i: nat, j: nat)
    requires i < j < n
    ensures Origin(n, k, i) != Origin(n, k, j)
  {
    OriginIs(n, k, i);
    OriginIs(n, k, j);
  }

  lemma AdvertiseStep(asks: seq<Request>, before: seq<Request>, now: real, k: nat, ticks: nat)
    requires before != [] && RequestsUnique(before) && before[|before| - 1].qte > 0.0
    requires Rotated(asks, before, k, ticks)
    ensures Rotated(asks, Rotate(before, now), k + 1, ticks)
  {
    hide Origin, Rotate;
    RotateMoves(before, now);
    var n, after := |asks|, Rotate(before, now);
    forall j | 0 <= j < n
      ensures after[j].dst == asks[Origin(n, k + 1, j)].dst
      ensures after[j].qte == asks[Origin(n, k + 1, j)].qte + ticks as real * PHEROMONE_STEP
    {
      var i := if j == 0 then n - 1 else j - 1;
      OriginNext(n, k, j);
      assert before[i].dst == asks[Origin(n, k, i)].dst;
    }
  }

  lemma TickStep(asks: seq<Request>, before: seq<Request>, k: nat, ticks: nat)
    requires Rotated(asks, before, k, ticks)
    ensures Rotated(asks, Age(before), k, ticks + 1)
  {
    assert (ticks + 1) as real * PHEROMONE_STEP == ticks as real * PHEROMONE_STEP + PHEROMONE_STEP;
  }

  lemma NotYetRotated(asks: seq<Request>)
    ensures Rotated(asks, asks, 0, 0)
  {
    forall j | 0 <= j < |asks| ensures Origin(|asks|, 0, j) == j {
      OriginIs(|asks|, 0, j);
    }
  }

  /** After any number of advertisements and ageing ticks the list is the first one rotated once per
      advertisement, each quantity grown by one step per tick. */
  lemma {:induction false} ServeRotates(asks: seq<Request>, turns: seq<Turn>)
    requires asks != [] && RequestsUnique(asks) && forall r :: r in asks ==> r.qte > 0.0
    ensures Rotated(asks, Serve(asks, turns), Adverts(turns), Ticks(turns))
  {
    hide Rotate, Age, Rotated, RequestsUnique;
    if turns == [] {
      NotYetRotated(asks);
    } else {
      var front := turns[..|turns| - 1];
      ServeRotates(asks, front);
      var before := Serve(asks, front);
      UniqueByOrigin(asks, before, Adverts(front), Ticks(front));
      if turns[|turns| - 1].AdvertTurn? {
        assert before[|before| - 1] in before;
        AdvertiseStep(asks, before, turns[|turns| - 1].now, Adverts(front), Ticks(front));
      } else {
        TickStep(asks, before, Adverts(front), Ticks(front));
      }
    }
  }

  /** The place of the request advertised at turn i: round and round from the end of the list. */
  function Place(n: nat, i: nat): (p: nat)
    requires n > 0
    ensures p < n
  {
    n - 1 - i % n
  }

  lemma LastIs(asks: seq<Request>, r: seq<Request>, k: nat, ticks: nat)
    requires asks != [] && Rotated(asks, r, k, ticks)
    ensures |r| == |asks| && r[|r| - 1].dst == asks[Place(|asks|, k)].dst
  {
    OriginIs(|asks|, k, |asks| - 1);
  }

  lemma FirstRound(n: nat, i: nat)
    requires i < n
    ensures Place(n, i) == n - 1 - i && Origin(n, n, i) == i
  {
    Remainder(n, i, 0, i);
    OriginIs(n, n, i);
  }

  /** The i-th advertisement, for ever, carries the request i places from the end, round and round. */
  lemma {:induction false} AdvertisedInTurn(asks: seq<Request>, turns: seq<Turn>)
    requires asks != [] && RequestsUnique(asks) && forall r :: r in asks ==> r.qte > 0.0
    ensures |Advertised(asks, turns)| == Adverts(turns)
    ensures forall i :: 0 <= i < Adverts(turns) ==> Advertised(asks, turns)[i] == asks[Place(|asks|, i)].dst
  {
    hide Serve, RequestsUnique, Rotated, Place;
    if turns != [] {
      var front := turns[..|turns| - 1];
      AdvertisedInTurn(asks, front);
      ServeRotates(asks, front);
      if turns[|turns| - 1].AdvertTurn? {
        LastIs(asks, Serve(asks, front), Adverts(front), Ticks(front));
      }
    }
  }

  lemma UniqueByOrigin(asks: seq<Request>, r: seq<Request>, k: nat, ticks: nat)
    requires RequestsUnique(asks) && Rotated(asks, r, k, ticks) && forall x :: x in asks ==> x.qte > 0.0
    ensures RequestsUnique(r) && forall x :: x in r ==> x.qte > 0.0
  {
    hide Origin;
    forall i, j | 0 <= i < j < |r| ensures r[i].dst != r[j].dst {
      var a, b := Origin(|asks|, k, i), Origin(|asks|, k, j);
      OriginInjective(|asks|, k, i, j);
      if a < b { assert asks[a].dst != asks[b].dst; } else { assert asks[b].dst != asks[a].dst; }
    }
    forall x | x in r ensures x.qte > 0.0 {
      var j :| 0 <= j < |r| && r[j] == x;
      assert asks[Origin(|asks|, k, j)] in asks;
    }
  }

  /** A full round: with n requests and no other insertion or deletion, n advertisements among any
      number of ageing ticks carry each destination exactly once, last request first; the list is
      then in its first order again, and every quantity has grown by one step per tick. */
  lemma RoundServesEachOnce(asks: seq<Request>, turns: seq<Turn>)
    requires asks != [] && RequestsUnique(asks) && forall r :: r in asks ==> r.qte > 0.0
    requires Adverts(turns) == |asks|
    ensures |Advertised(asks, turns)| == |asks|
    ensures forall i :: 0 <= i < |asks| ==> Advertised(asks, turns)[i] == asks[|asks| - 1 - i].dst
    ensures NoDup(Advertised(asks, turns))
    ensures |Serve(asks, turns)| == |asks|
    ensures forall j :: 0 <= j < |asks| ==> Serve(asks, turns)[j].dst == asks[j].dst
    ensures forall j :: 0 <= j < |asks| ==>
      Serve(asks, turns)[j].qte == asks[j].qte + Ticks(turns) as real * PHEROMONE_STEP
  {
    hide Serve, Advertised, Adverts, Origin, Place;
    ServeRotates(asks, turns);
    AdvertisedInTurn(asks, turns);
    var n, ads := |asks|, Advertised(asks, turns);
    forall i | 0 <= i < n ensures Place(n, i) == n - 1 - i && Origin(n, n, i) == i {
      FirstRound(n, i);
    }
    forall i, j | 0 <= i < j < n ensures ads[i] != ads[j] {
      assert asks[n - 1 - j].dst != asks[n - 1 - i].dst;
    }
  }
}

/** The pheromone table (antconf_phtable.cc, antconf.cc:302-318). */
module PheromoneTable {
  import opened Types
  import opened Lists

  datatype PhEntry = PhEntry(claimant: Addr, asked: Addr, qte: real, nbs: seq<Addr>)

  predicate Keyed(e: PhEntry, claimant: Addr, asked: Addr) {
    e.claimant == claimant && e.asked == asked
  }

  ghost predicate KeysUnique(t: seq<PhEntry>) {
    forall i, j :: 0 <= i < j < |t| ==> !Keyed(t[j], t[i].claimant, t[i].asked)
  }

  function Steps(n: nat): real {
    n as real * PHEROMONE_STEP
  }

  /** A positive whole number of steps: all pheromone is made of them. */
  ghost predicate Whole(qte: real) {
    exists n: nat :: n >= 1 && qte == Steps(n)
  }

  /** What every entry looks like between handlers: the head of its neighbour list can be read and
      names nodes, and its pheromone is a positive number of steps. */
  ghost predicate Filled(e: PhEntry) {
    && Whole(e.qte) && e.nbs != [] && NoDup(e.nbs) && e.claimant >= 0
    && forall i :: 0 <= i < |e.nbs| ==> e.nbs[i] >= 0
  }

  ghost predicate TableOk(t: seq<PhEntry>) {
    KeysUnique(t) && forall i :: 0 <= i < |t| ==> Filled(t[i])
  }

  /** rtph_lookup */
  function FindKey(t: seq<PhEntry>, claimant: Addr, asked: Addr): (i: int)
    ensures -1 <= i < |t|
    ensures i >= 0 ==> Keyed(t[i], claimant, asked) && forall j :: 0 <= j < i ==> !Keyed(t[j], claimant, asked)
    ensures i < 0 ==> forall j :: 0 <= j < |t| ==> !Keyed(t[j], claimant, asked)
  {
    FirstWhere(t, (e: PhEntry) => Keyed(e, claimant, asked))
  }

  /** nbph_insert */
  function WithNeighbor(e: PhEntry, id: Addr): PhEntry {
    if id in e.nbs then e else e.(nbs := [id] + e.nbs)
  }

  /** What a return ant leaves: a new entry, or more pheromone on the old one, and the way it came. */
  function Deposit(t: seq<PhEntry>, claimant: Addr, asked: Addr, qte: real, hop: Addr): seq<PhEntry> {
    var k := FindKey(t, claimant, asked);
    if k < 0 then
      [WithNeighbor(PhEntry(claimant, asked, if qte != 0.0 then qte else PHEROMONE_QTE, []), hop)] + t
    else
      t[k := WithNeighbor(t[k].(qte := t[k].qte + qte), hop)]
  }

  /** One pht_purge. */
  function Evaporate(t: seq<PhEntry>): seq<PhEntry> {
    if t == [] then []
    else
      var e := t[0].(qte := t[0].qte - PHEROMONE_STEP);
      (if e.qte <= 0.0 then [] else [e]) + Evaporate(t[1..])
  }

  function EvaporateTimes(t: seq<PhEntry>, n: nat): seq<PhEntry> {
    if n == 0 then t else Evaporate(EvaporateTimes(t, n - 1))
  }

  lemma WholeSum(a: real, b: real)
    requires Whole(a) && Whole(b)
    ensures Whole(a + b) && a > 0.0
  {
    var m: nat :| m >= 1 && a == Steps(m);
    var n: nat :| n >= 1 && b == Steps(n);
    assert a + b == Steps(m + n);
  }

  lemma WholeLess(qte: real)
    requires Whole(qte)
    ensures Whole(qte - PHEROMONE_STEP) <==> qte - PHEROMONE_STEP > 0.0
  {
    var n: nat :| n >= 1 && qte == Steps(n);
    if n > 1 {
      assert qte - PHEROMONE_STEP == Steps(n - 1);
    }
  }

  lemma DepositKeeps(t: seq<PhEntry>, claimant: Addr, asked: Addr, qte: real, hop: Addr)
    requires TableOk(t) && Whole(qte) && claimant >= 0 && hop >= 0
    ensures TableOk(Deposit(t, claimant, asked, qte, hop))
  {
    var k := FindKey(t, claimant, asked);
    var t' := Deposit(t, claimant, asked, qte, hop);
    WholeSum(qte, qte);
    if k >= 0 {
      assert Filled(t[k]);
      WholeSum(t[k].qte, qte);
    } else {
      forall i, j | 0 <= i < j < |t'| ensures !Keyed(t'[j], t'[i].claimant, t'[i].asked) {
        assert t'[j] == t[j - 1];
      }
    }
  }

  /** After one purge an entry is there exactly when it still has pheromone, one step less of it. */
  lemma {:induction false} EvaporateEntry(t: seq<PhEntry>, e: PhEntry)
    ensures e in Evaporate(t) <==> e.qte > 0.0 && e.(qte := e.qte + PHEROMONE_STEP) in t
  {
    if t != [] {
      EvaporateEntry(t[1..], e);
      assert t == [t[0]] + t[1..];
      if e.qte > 0.0 && e.(qte := e.qte + PHEROMONE_STEP) == t[0] {
        assert t[0].(qte := t[0].qte - PHEROMONE_STEP) == e;
      }
    }
  }

  lemma {:induction false} EvaporateKeeps(t: seq<PhEntry>)
    requires TableOk(t)
    ensures TableOk(Evaporate(t))
  {
    if t != [] {
      var rest := t[1..];
      EvaporateKeeps(rest);
      var r := Evaporate(rest);
      assert Filled(t[0]);
      WholeLess(t[0].qte);
      forall i | 0 <= i < |r| ensures !Keyed(r[i], t[0].claimant, t[0].asked) {
        EvaporateEntry(rest, r[i]);
        var old_e := r[i].(qte := r[i].qte + PHEROMONE_STEP);
        var k :| 0 <= k < |rest| && rest[k] == old_e;
        assert t[k + 1] == old_e;
      }
    }
  }

  /** Left alone, an entry of quantity q is still there after n purges exactly when 10q > n, holding
      q - n/10: it goes at the ceil(10q)-th purge. */
  lemma {:induction false} LifetimeOfAnEntry(t: seq<PhEntry>, n: nat, e: PhEntry)
    requires n > 0
    ensures e in EvaporateTimes(t, n) <==> e.qte > 0.0 && e.(qte := e.qte + n as real * PHEROMONE_STEP) in t
  {
    EvaporateEntry(EvaporateTimes(t, n - 1), e);
    var e1 := e.(qte := e.qte + PHEROMONE_STEP);
    if n > 1 {
      LifetimeOfAnEntry(t, n - 1, e1);
      assert (n - 1) as real * PHEROMONE_STEP + PHEROMONE_STEP == n as real * PHEROMONE_STEP;
      assert e1.(qte := e1.qte + (n - 1) as real * PHEROMONE_STEP) == e.(qte := e.qte + n as real * PHEROMONE_STEP);
    } else {
      assert e.(qte := e.qte + 1 as real * PHEROMONE_STEP) == e1;
    }
  }

  /** The same fact by key: an entry of quantity q > 0 outlives n purges if and only if n < 10q. */
  lemma ExpiryByKey(t: seq<PhEntry>, k: nat, n: nat)
    requires KeysUnique(t) && k < |t| && t[k].qte > 0.0
    ensures n as real < 10.0 * t[k].qte
      <==> exists e :: e in EvaporateTimes(t, n) && Keyed(e, t[k].claimant, t[k].asked)
  {
    var left := EvaporateTimes(t, n);
    var e0 := t[k].(qte := t[k].qte - n as real * PHEROMONE_STEP);
    if n as real < 10.0 * t[k].qte {
      if n > 0 {
        LifetimeOfAnEntry(t, n, e0);
        assert e0.(qte := e0.qte + n as real * PHEROMONE_STEP) == t[k];
      }
      assert e0 in left;
    }
    forall e | e in left && Keyed(e, t[k].claimant, t[k].asked) ensures n as real < 10.0 * t[k].qte {
      var was := e.(qte := e.qte + n as real * PHEROMONE_STEP);
      if n > 0 {
        LifetimeOfAnEntry(t, n, e);
      } else {
        assert was == e;
      }
      var j :| 0 <= j < |t| && t[j] == was;
      assert j == k;
    }
  }

  /** Deleting by key the entry under the cursor deletes that very entry. */
  lemma DeleteHere(t: seq<PhEntry>, i: nat, e: PhEntry)
    requires KeysUnique(t) && i < |t| && Keyed(t[i], e.claimant, e.asked)
    ensures FindKey(t[i := e], e.claimant, e.asked) == i
    ensures KeysUnique(t[i := e])
    ensures KeysUnique(RemoveAt(t[i := e], i))
  {
    var t1 := t[i := e];
    forall j | 0 <= j < i ensures !Keyed(t1[j], e.claimant, e.asked) {
      assert !Keyed(t[i], t[j].claimant, t[j].asked);
    }
    assert Keyed(t1[i], e.claimant, e.asked);
    forall j, k | 0 <= j < k < |t1| ensures !Keyed(t1[k], t1[j].claimant, t1[j].asked) {
      assert !Keyed(t[k], t[j].claimant, t[j].asked);
    }
    var t2 := RemoveAt(t1, i);
    forall j, k | 0 <= j < k < |t2| ensures !Keyed(t2[k], t2[j].claimant, t2[j].asked) {
      var j1, k1 := if j < i then j else j + 1, if k < i then k else k + 1;
      assert !Keyed(t1[k1], t1[j1].claimant, t1[j1].asked);
    }
  }

  /** One turn of pht_purge's walk, seen on the list. */
  lemma WalkStep(t: seq<PhEntry>, i: nat)
    requires i < |t|
    ensures var e := t[i].(qte := t[i].qte - PHEROMONE_STEP);
      if e.qte <= 0.0 then
        var t1 := RemoveAt(t[i := e], i);
        t1[..i] + Evaporate(t1[i..]) == t[..i] + Evaporate(t[i..])
      else
        var t1 := t[i := e];
        t1[..i + 1] + Evaporate(t1[i + 1..]) == t[..i] + Evaporate(t[i..])
  {
    var e := t[i].(qte := t[i].qte - PHEROMONE_STEP);
    assert t[i..][1..] == t[i + 1..];
    if e.qte <= 0.0 {
      var t1 := RemoveAt(t[i := e], i);
      assert t1[..i] == t[..i] && t1[i..] == t[i + 1..];
    } else {
      var t1 := t[i := e];
      assert t1[..i + 1] == t[..i] + [e] && t1[i + 1..] == t[i + 1..];
    }
  }

  class PhTable {
    var phthead: seq<PhEntry>

    ghost predicate Valid()
      reads this
    {
      KeysUnique(phthead)
    }

    constructor ()
      ensures Valid() && phthead == []
    {
      phthead := [];
    }

    method RtphLookup(claimant: Addr, asked: Addr) returns (i: int)
      ensures i == FindKey(phthead, claimant, asked)
    {
      i := 0;
      while i < |phthead|
        invariant 0 <= i <= |phthead|
        invariant forall j :: 0 <= j < i ==> !Keyed(phthead[j], claimant, asked)
      {
        if phthead[i].claimant == claimant && phthead[i].asked == asked {
          return;
        }
        i := i + 1;
      }
      i := -1;
    }

    method RtphDelete(claimant: Addr, asked: Addr)
      modifies this
      ensures var k := FindKey(old(phthead), claimant, asked);
        phthead == if k < 0 then old(phthead) else RemoveAt(old(phthead), k)
    {
      var k := RtphLookup(claimant, asked);
      if k >= 0 {
        phthead := RemoveAt(phthead, k);
      }
    }

    method RtphAdd(claimant: Addr, asked: Addr, qte: real)
      requires Valid() && FindKey(phthead, claimant, asked) < 0
      modifies this
      ensures Valid()
      ensures phthead == [PhEntry(claimant, asked, if qte != 0.0 then qte else PHEROMONE_QTE, [])] + old(phthead)
    {
      var rt := PhEntry(claimant, asked, PHEROMONE_QTE, []);
      if qte != 0.0 {
        rt := rt.(qte := qte);
      }
      ghost var was := phthead;
      phthead := [rt] + phthead;
      assert forall j :: 1 <= j < |phthead| ==> phthead[j] == was[j - 1];
    }

    method PheromoneAdd(claimant: Addr, asked: Addr, qte: real)
      requires Valid()
      modifies this
      ensures Valid()
      ensures var k := FindKey(old(phthead), claimant, asked);
        phthead == if k < 0 then old(phthead) else old(phthead)[k := old(phthead[k]).(qte := old(phthead[k]).qte + qte)]
    {
      var i := 0;
      while i < |phthead|
        invariant 0 <= i <= |phthead|
        invariant phthead == old(phthead)
        invariant forall j :: 0 <= j < i ==> !Keyed(phthead[j], claimant, asked)
      {
        if phthead[i].claimant == claimant && phthead[i].asked == asked {
          if qte != 0.0 {
            phthead := phthead[i := phthead[i].(qte := phthead[i].qte + qte)];
          }
          return;
        }
        i := i + 1;
      }
    }

    method NbphLookup(i: nat, id: Addr) returns (found: bool)
      requires i < |phthead|
      ensures found <==> id in phthead[i].nbs
    {
      var nbs, k := phthead[i].nbs, 0;
      while k < |nbs|
        invariant 0 <= k <= |nbs|
        invariant id !in nbs[..k]
      {
        if nbs[k] == id {
          return true;
        }
        k := k + 1;
      }
      return false;
    }

    method NbphInsert(i: nat, id: Addr)
      requires Valid() && i < |phthead|
      modifies this
      ensures Valid() && phthead == old(phthead)[i := WithNeighbor(old(phthead[i]), id)]
    {
      var found := NbphLookup(i, id);
      if !found {
        phthead := phthead[i := phthead[i].(nbs := [id] + phthead[i].nbs)];
      }
    }

    /** pht_purge: entries are deleted, by key, from the list being walked. */
    method PhtPurge()
      requires Valid()
      modifies this
      ensures Valid() && phthead == Evaporate(old(phthead))
    {
      var i := 0;
      while i < |phthead|
        invariant 0 <= i <= |phthead|
        invariant Valid()
        invariant phthead[..i] + Evaporate(phthead[i..]) == Evaporate(old(phthead))
        decreases |phthead| - i
      {
        ghost var t := phthead;
        var e := phthead[i].(qte := phthead[i].qte - PHEROMONE_STEP);
        DeleteHere(t, i, e);
        WalkStep(t, i);
        phthead := phthead[i := e];
        if e.qte <= 0.0 {
          RtphDelete(e.claimant, e.asked);
        } else {
          i := i + 1;
        }
      }
      assert phthead[..i] == phthead && phthead[i..] == [];
    }
  }
}

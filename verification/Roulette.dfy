/** The roulette of chooseNextHop (antconf.cc:1022-1096): which slots are filled, and with what. */
module Roulette {
  import opened Types
  import opened PheromoneTable

  const WHEEL_CELLS: nat := 1000

  /** One cell of claimanttab, dstasktab and nexthooptab. */
  datatype Slot = Slot(claimant: Addr, asked: Addr, hop: Addr)

  /** The filled cells, taille, and IntablePh as the loops leave it. */
  datatype Wheel = Wheel(cells: seq<Slot>, size: nat, touched: bool)

  /** int(double) truncates toward zero. */
  function Trunc(x: real): int {
    if x >= 0.0 then x.Floor else -((-x).Floor)
  }

  function Quota(e: PhEntry): int {
    Trunc(e.qte * 10.0)
  }

  function Repeat(s: Slot, n: nat): (r: seq<Slot>)
    ensures |r| == n && forall k :: 0 <= k < n ==> r[k] == s
  {
    if n == 0 then [] else Repeat(s, n - 1) + [s]
  }

  function SlotOf(nb: Addr, e: PhEntry): Slot {
    Slot(e.claimant, e.asked, nb)
  }

  predicate Pays(nb: Addr, e: PhEntry) {
    nb in e.nbs && Quota(e) > 0
  }

  function PairSlots(nb: Addr, e: PhEntry): seq<Slot> {
    if Pays(nb, e) then Repeat(SlotOf(nb, e), Quota(e) + 1) else []
  }

  function NeighborSlots(nb: Addr, t: seq<PhEntry>): seq<Slot> {
    if t == [] then [] else NeighborSlots(nb, t[..|t| - 1]) + PairSlots(nb, t[|t| - 1])
  }

  function Slots(nbs: seq<Neighbor>, t: seq<PhEntry>): seq<Slot> {
    if nbs == [] then []
    else Slots(nbs[..|nbs| - 1], t) + NeighborSlots(nbs[|nbs| - 1].addr, t)
  }

  /** nb_inph after the inner loop: what the last entry naming nb says. */
  predicate InPheromone(nb: Addr, t: seq<PhEntry>) {
    if t == [] then false
    else
      var e := t[|t| - 1];
      if nb in e.nbs then Quota(e) > 0 else InPheromone(nb, t[..|t| - 1])
  }

  predicate Named(nb: Addr, t: seq<PhEntry>) {
    exists k :: 0 <= k < |t| && nb in t[k].nbs
  }

  predicate AnyNamed(nbs: seq<Neighbor>, t: seq<PhEntry>) {
    exists k :: 0 <= k < |nbs| && Named(nbs[k].addr, t)
  }

  /** nbnotinphtab */
  function Spare(nbs: seq<Neighbor>, t: seq<PhEntry>): (r: seq<Addr>)
    ensures |r| <= |nbs|
  {
    if nbs == [] then []
    else
      var nb := nbs[|nbs| - 1].addr;
      Spare(nbs[..|nbs| - 1], t) + if InPheromone(nb, t) then [] else [nb]
  }

  function Blank(nb: Addr): Slot {
    Slot(-1, -1, nb)
  }

  function Blanks(spare: seq<Addr>): (r: seq<Slot>)
    ensures |r| == |spare|
    ensures forall k :: 0 <= k < |r| ==> r[k] == Blank(spare[k])
  {
    if spare == [] then [] else [Blank(spare[0])] + Blanks(spare[1..])
  }

  /** The cells after both filling phases. The second phase starts at cell taille + 1 with the second
      spare neighbour: with no pheromone slot, cell 0 keeps what was in memory (junk). */
  function Cells(slots: seq<Slot>, spare: seq<Addr>, junk: Slot): seq<Slot> {
    if spare == [] then slots
    else (if slots == [] then [junk] else slots) + Blanks(spare[1..])
  }

  function Build(nbs: seq<Neighbor>, t: seq<PhEntry>, junk: Slot): (w: Wheel)
    ensures w.size <= |w.cells|
  {
    var slots, spare := Slots(nbs, t), Spare(nbs, t);
    Wheel(Cells(slots, spare, junk), (if slots == [] then 0 else |slots| - 1) + |spare|, AnyNamed(nbs, t))
  }

  /** What neighbour nb asks of the wheel: floor(10 qte) + 1 cells for each paying entry that names it. */
  function NeighborNeed(nb: Addr, t: seq<PhEntry>): nat {
    if t == [] then 0
    else
      var e := t[|t| - 1];
      NeighborNeed(nb, t[..|t| - 1]) + if Pays(nb, e) then Quota(e) + 1 else 0
  }

  /** The sum over all pairs. */
  function Need(nbs: seq<Neighbor>, t: seq<PhEntry>): nat {
    if nbs == [] then 0 else Need(nbs[..|nbs| - 1], t) + NeighborNeed(nbs[|nbs| - 1].addr, t)
  }

  /** One more than the highest index the loops come to: the cells of the pairs, or cell 0 if there are none,
      and one for each neighbour set aside but the first. */
  function Wanted(nbs: seq<Neighbor>, t: seq<PhEntry>): nat {
    var need, spare := Need(nbs, t), |Spare(nbs, t)|;
    if spare == 0 then need else (if need == 0 then 1 else need) + spare - 1
  }

  /** The arrays are long enough: chooseNextHop declares them with 1000 cells. */
  predicate Fits(nbs: seq<Neighbor>, t: seq<PhEntry>) {
    Wanted(nbs, t) <= WHEEL_CELLS
  }

  lemma {:induction false} NeighborNeedIs(nb: Addr, t: seq<PhEntry>)
    ensures |NeighborSlots(nb, t)| == NeighborNeed(nb, t)
  {
    if t != [] {
      NeighborNeedIs(nb, t[..|t| - 1]);
    }
  }

  lemma {:induction false} NeedIs(nbs: seq<Neighbor>, t: seq<PhEntry>)
    ensures |Slots(nbs, t)| == Need(nbs, t)
  {
    if nbs != [] {
      NeedIs(nbs[..|nbs| - 1], t);
      NeighborNeedIs(nbs[|nbs| - 1].addr, t);
    }
  }

  /** What is wanted is what the loops fill. */
  lemma WantedIs(nbs: seq<Neighbor>, t: seq<PhEntry>, junk: Slot)
    ensures |Build(nbs, t, junk).cells| == Wanted(nbs, t)
  {
    NeedIs(nbs, t);
  }

  /** Which cells a draw may reach without reading an unwritten one: all of them as soon as one pair
      pays, all but cell 0 otherwise. */
  ghost predicate Initialised(nbs: seq<Neighbor>, t: seq<PhEntry>, r: nat) {
    Slots(nbs, t) != [] || r > 0
  }

  /** The drawn cell does not depend on what the array held before exactly when it was written. */
  lemma DrawIsWritten(nbs: seq<Neighbor>, t: seq<PhEntry>, r: nat)
    requires r < Build(nbs, t, Slot(0, 0, 0)).size
    ensures Initialised(nbs, t, r)
      <==> forall a, b :: Build(nbs, t, a).cells[r] == Build(nbs, t, b).cells[r]
  {
    var zero, one := Slot(0, 0, 0), Slot(1, 1, 1);
    if !Initialised(nbs, t, r) {
      assert Build(nbs, t, zero).cells[0] != Build(nbs, t, one).cells[0];
    }
  }

  /** A paying pair exists exactly when some slot was filled. */
  lemma {:induction false} NeighborSlotsEmpty(nb: Addr, t: seq<PhEntry>)
    ensures NeighborSlots(nb, t) == [] <==> forall k :: 0 <= k < |t| ==> !Pays(nb, t[k])
  {
    if t != [] {
      NeighborSlotsEmpty(nb, t[..|t| - 1]);
      assert forall k :: 0 <= k < |t| - 1 ==> t[..|t| - 1][k] == t[k];
    }
  }

  lemma {:induction false} SlotsEmpty(nbs: seq<Neighbor>, t: seq<PhEntry>)
    ensures Slots(nbs, t) == []
      <==> forall i, k :: 0 <= i < |nbs| && 0 <= k < |t| ==> !Pays(nbs[i].addr, t[k])
  {
    if nbs != [] {
      SlotsEmpty(nbs[..|nbs| - 1], t);
      NeighborSlotsEmpty(nbs[|nbs| - 1].addr, t);
      assert forall k :: 0 <= k < |nbs| - 1 ==> nbs[..|nbs| - 1][k] == nbs[k];
    }
  }

  /** Pheromone comes in whole steps, so every entry that names a neighbour pays: as soon as the draw is
      made at all, some slot is filled. */
  lemma NamedPays(nbs: seq<Neighbor>, t: seq<PhEntry>)
    requires TableOk(t) && AnyNamed(nbs, t)
    ensures Slots(nbs, t) != []
  {
    var i, k :| 0 <= i < |nbs| && 0 <= k < |t| && nbs[i].addr in t[k].nbs;
    assert Filled(t[k]);
    var n: nat :| n >= 1 && t[k].qte == Steps(n);
    assert t[k].qte * 10.0 == n as real;
    assert Pays(nbs[i].addr, t[k]);
    SlotsEmpty(nbs, t);
  }

  /** Then the wheel does not depend on what the arrays held before, and can be drawn from. */
  lemma WheelIsWritten(nbs: seq<Neighbor>, t: seq<PhEntry>, a: Slot, b: Slot)
    requires TableOk(t) && AnyNamed(nbs, t)
    ensures Build(nbs, t, a) == Build(nbs, t, b) && Build(nbs, t, a).size > 0
  {
    NamedPays(nbs, t);
    var i, k :| 0 <= i < |nbs| && 0 <= k < |t| && Pays(nbs[i].addr, t[k]);
    PairRun(nbs, t, i, k);
  }

  /** A single entry of quantity 100 or more that names a neighbour already wants more than there is. */
  lemma RichEntryOverruns(nbs: seq<Neighbor>, t: seq<PhEntry>, i: nat, k: nat)
    requires i < |nbs| && k < |t| && nbs[i].addr in t[k].nbs && t[k].qte >= 100.0
    ensures !Fits(nbs, t)
  {
    assert Quota(t[k]) >= WHEEL_CELLS;
    PairRun(nbs, t, i, k);
    NeedIs(nbs, t);
  }

  function Count(s: seq<Slot>, x: Slot): nat {
    if s == [] then 0 else Count(s[..|s| - 1], x) + if s[|s| - 1] == x then 1 else 0
  }

  lemma {:induction false} CountAppend(a: seq<Slot>, b: seq<Slot>, x: Slot)
    ensures Count(a + b, x) == Count(a, x) + Count(b, x)
  {
    if b == [] {
      assert a + b == a;
    } else {
      assert (a + b)[..|a + b| - 1] == a + b[..|b| - 1];
      CountAppend(a, b[..|b| - 1], x);
    }
  }

  lemma {:induction false} CountRepeat(s: Slot, n: nat, x: Slot)
    ensures Count(Repeat(s, n), x) == if s == x then n else 0
  {
    if n > 0 {
      CountRepeat(s, n - 1, x);
      assert Repeat(s, n)[..n - 1] == Repeat(s, n - 1);
    }
  }

  lemma PairCount(nb: Addr, e: PhEntry, x: Slot)
    ensures Count(PairSlots(nb, e), x) == if Pays(nb, e) && x == SlotOf(nb, e) then Quota(e) + 1 else 0
  {
    if Pays(nb, e) {
      CountRepeat(SlotOf(nb, e), Quota(e) + 1, x);
    }
  }

  lemma {:induction false} NeighborAbsent(nb: Addr, t: seq<PhEntry>, x: Slot)
    requires forall j :: 0 <= j < |t| ==> x != SlotOf(nb, t[j])
    ensures Count(NeighborSlots(nb, t), x) == 0
  {
    if t != [] {
      var n := |t| - 1;
      NeighborAbsent(nb, t[..n], x);
      PairCount(nb, t[n], x);
      CountAppend(NeighborSlots(nb, t[..n]), PairSlots(nb, t[n]), x);
    }
  }

  lemma {:induction false} NeighborShare(nb: Addr, t: seq<PhEntry>, k: nat)
    requires KeysUnique(t) && k < |t|
    ensures Count(NeighborSlots(nb, t), SlotOf(nb, t[k])) == if Pays(nb, t[k]) then Quota(t[k]) + 1 else 0
  {
    var n := |t| - 1;
    var front, x := t[..n], SlotOf(nb, t[k]);
    CountAppend(NeighborSlots(nb, front), PairSlots(nb, t[n]), x);
    PairCount(nb, t[n], x);
    if k == n {
      forall j | 0 <= j < n ensures x != SlotOf(nb, front[j]) {
        assert !Keyed(t[n], t[j].claimant, t[j].asked);
      }
      NeighborAbsent(nb, front, x);
    } else {
      assert !Keyed(t[n], t[k].claimant, t[k].asked);
      assert front[k] == t[k];
      NeighborShare(nb, front, k);
    }
  }

  ghost predicate Distinct(nbs: seq<Neighbor>) {
    forall i, j :: 0 <= i < j < |nbs| ==> nbs[i].addr != nbs[j].addr
  }

  /** Each paying (neighbour, entry) pair owns exactly floor(10 qte) + 1 slots, any other pair none. */
  lemma {:induction false} PairShare(nbs: seq<Neighbor>, t: seq<PhEntry>, i: nat, k: nat)
    requires Distinct(nbs) && KeysUnique(t) && i < |nbs| && k < |t|
    ensures Count(Slots(nbs, t), SlotOf(nbs[i].addr, t[k]))
      == if Pays(nbs[i].addr, t[k]) then Quota(t[k]) + 1 else 0
  {
    hide NeighborSlots, Count, Quota, Pays;
    var n := |nbs| - 1;
    var front, x := nbs[..n], SlotOf(nbs[i].addr, t[k]);
    CountAppend(Slots(front, t), NeighborSlots(nbs[n].addr, t), x);
    if i < n {
      NeighborAbsent(nbs[n].addr, t, x);
      assert front[i] == nbs[i];
      PairShare(front, t, i, k);
    } else {
      NeighborShare(nbs[n].addr, t, k);
      AbsentShare(front, t, x);
    }
  }

  lemma {:induction false} AbsentShare(nbs: seq<Neighbor>, t: seq<PhEntry>, x: Slot)
    requires forall i :: 0 <= i < |nbs| ==> nbs[i].addr != x.hop
    ensures Count(Slots(nbs, t), x) == 0
  {
    if nbs != [] {
      var n := |nbs| - 1;
      AbsentShare(nbs[..n], t, x);
      CountAppend(Slots(nbs[..n], t), NeighborSlots(nbs[n].addr, t), x);
      NeighborAbsent(nbs[n].addr, t, x);
    }
  }

  /** Contiguity: the slots of pair (i, k) fill one run that starts where the pairs before it end. */
  function Start(nbs: seq<Neighbor>, t: seq<PhEntry>, i: nat, k: nat): nat
    requires i < |nbs| && k <= |t|
  {
    |Slots(nbs[..i], t)| + |NeighborSlots(nbs[i].addr, t[..k])|
  }

  lemma {:induction false} NeighborPrefix(nb: Addr, t: seq<PhEntry>, k: nat)
    requires k <= |t|
    ensures |NeighborSlots(nb, t[..k])| <= |NeighborSlots(nb, t)|
    ensures forall c :: 0 <= c < |NeighborSlots(nb, t[..k])| ==> NeighborSlots(nb, t)[c] == NeighborSlots(nb, t[..k])[c]
  {
    if k < |t| {
      var front := t[..|t| - 1];
      NeighborPrefix(nb, front, k);
      assert front[..k] == t[..k];
    } else {
      assert t[..k] == t;
    }
  }

  lemma {:induction false} SlotsPrefix(nbs: seq<Neighbor>, t: seq<PhEntry>, i: nat)
    requires i <= |nbs|
    ensures |Slots(nbs[..i], t)| <= |Slots(nbs, t)|
    ensures forall c :: 0 <= c < |Slots(nbs[..i], t)| ==> Slots(nbs, t)[c] == Slots(nbs[..i], t)[c]
  {
    if i < |nbs| {
      var front := nbs[..|nbs| - 1];
      SlotsPrefix(front, t, i);
      assert front[..i] == nbs[..i];
    } else {
      assert nbs[..i] == nbs;
    }
  }

  lemma PairRun(nbs: seq<Neighbor>, t: seq<PhEntry>, i: nat, k: nat)
    requires i < |nbs| && k < |t| && Pays(nbs[i].addr, t[k])
    ensures var s, q := Start(nbs, t, i, k), Quota(t[k]) + 1;
      && s + q <= |Slots(nbs, t)|
      && (forall c :: s <= c < s + q ==> Slots(nbs, t)[c] == SlotOf(nbs[i].addr, t[k]))
      && Start(nbs, t, i, k + 1) == s + q
  {
    var nb := nbs[i].addr;
    var before, mine := Slots(nbs[..i], t), NeighborSlots(nb, t);
    assert nbs[..i + 1][..i] == nbs[..i] && t[..k + 1][..k] == t[..k];
    var upto := NeighborSlots(nb, t[..k + 1]);
    assert upto == NeighborSlots(nb, t[..k]) + PairSlots(nb, t[k]);
    assert Slots(nbs[..i + 1], t) == before + mine;
    SlotsPrefix(nbs, t, i + 1);
    NeighborPrefix(nb, t, k + 1);
    var s, q := Start(nbs, t, i, k), Quota(t[k]) + 1;
    forall c | s <= c < s + q ensures Slots(nbs, t)[c] == SlotOf(nb, t[k]) {
      assert Slots(nbs[..i + 1], t)[c] == mine[c - |before|] == upto[c - |before|];
    }
  }

  /** The three parallel arrays begin with the given cells, as far as they reach. */
  ghost predicate Holds(claimanttab: array<Addr>, dstasktab: array<Addr>, nexthooptab: array<Addr>, cells: seq<Slot>)
    reads claimanttab, dstasktab, nexthooptab
  {
    && claimanttab.Length == dstasktab.Length == nexthooptab.Length
    && (forall c :: 0 <= c < |cells| && c < claimanttab.Length ==> claimanttab[c] == cells[c].claimant)
    && (forall c :: 0 <= c < |cells| && c < claimanttab.Length ==> dstasktab[c] == cells[c].asked)
    && (forall c :: 0 <= c < |cells| && c < claimanttab.Length ==> nexthooptab[c] == cells[c].hop)
  }

  /** The filling loop of one paying pair; premier marks the very first one. A write beyond the arrays is
      not made but reported. */
  method FillPair(nb: Addr, e: PhEntry, premier: bool, last: nat, beyond: bool,
                  claimanttab: array<Addr>, dstasktab: array<Addr>, nexthooptab: array<Addr>, ghost slots: seq<Slot>)
    returns (j: nat, overrun: bool)
    requires Quota(e) > 0
    requires claimanttab != dstasktab && dstasktab != nexthooptab && claimanttab != nexthooptab
    requires premier <==> slots == []
    requires last == if premier then 0 else |slots| - 1
    requires beyond <==> |slots| > claimanttab.Length
    requires Holds(claimanttab, dstasktab, nexthooptab, slots)
    modifies claimanttab, dstasktab, nexthooptab
    ensures j == |slots| + Quota(e)
    ensures overrun <==> |slots| + Quota(e) + 1 > claimanttab.Length
    ensures Holds(claimanttab, dstasktab, nexthooptab, slots + Repeat(SlotOf(nb, e), Quota(e) + 1))
  {
    hide Quota;
    var g, stop := if premier then 0 else last + 1, if premier then Quota(e) else Quota(e) + last + 1;
    ghost var n := |slots|;
    j, overrun := last, beyond;
    while g <= stop
      invariant n <= g <= stop + 1 == n + Quota(e) + 1
      invariant g > n ==> j == g - 1
      invariant overrun <==> g > claimanttab.Length
      invariant Holds(claimanttab, dstasktab, nexthooptab, slots + Repeat(SlotOf(nb, e), g - n))
    {
      if g < claimanttab.Length {
        claimanttab[g], dstasktab[g], nexthooptab[g] := e.claimant, e.asked, nb;
      } else {
        overrun := true;
      }
      j := g;
      g := g + 1;
    }
  }

  ghost function Written(slots: seq<Slot>, junk: Slot): seq<Slot> {
    if slots == [] then [junk] else slots
  }

  /** The inner loop: one neighbour against the whole pheromone table, after the slots in before. */
  method FillNeighbor(ghost before: seq<Slot>, t: seq<PhEntry>, nb: Addr, first: bool, last: nat, beyond: bool,
                      ghost junk: Slot,
                      claimanttab: array<Addr>, dstasktab: array<Addr>, nexthooptab: array<Addr>)
    returns (premier: bool, taille: nat, nbInPh: bool, named: bool, overrun: bool)
    requires claimanttab != dstasktab && dstasktab != nexthooptab && claimanttab != nexthooptab
    requires (first <==> before == []) && last == (if first then 0 else |before| - 1)
    requires beyond <==> |before| > claimanttab.Length
    requires Holds(claimanttab, dstasktab, nexthooptab, Written(before, junk))
    modifies claimanttab, dstasktab, nexthooptab
    ensures nbInPh == InPheromone(nb, t) && named == Named(nb, t)
    ensures var slots := before + NeighborSlots(nb, t);
      && (premier <==> slots == []) && taille == (if premier then 0 else |slots| - 1)
      && (overrun <==> |slots| > claimanttab.Length)
      && Holds(claimanttab, dstasktab, nexthooptab, Written(slots, junk))
  {
    hide Quota;
    premier, taille, nbInPh, named, overrun := first, last, false, false, beyond;
    ghost var slots := before;
    for b := 0 to |t|
      invariant slots == before + NeighborSlots(nb, t[..b])
      invariant nbInPh == InPheromone(nb, t[..b]) && named == Named(nb, t[..b])
      invariant premier <==> slots == []
      invariant taille == if premier then 0 else |slots| - 1
      invariant overrun <==> |slots| > claimanttab.Length
      invariant Holds(claimanttab, dstasktab, nexthooptab, Written(slots, junk))
    {
      NamedGrows(nb, t, b);
      assert t[..b + 1][..b] == t[..b];
      if nb in t[b].nbs {
        nbInPh, named := true, true;
        if Quota(t[b]) > 0 {
          taille, overrun := FillPair(nb, t[b], premier, taille, overrun, claimanttab, dstasktab, nexthooptab, slots);
          premier := false;
          slots := slots + PairSlots(nb, t[b]);
        } else {
          nbInPh := false;
        }
      }
    }
    assert t[..|t|] == t;
  }

  /** nbnotinphtab begins with the given neighbours, as far as it reaches. */
  ghost predicate Lists(nbnotinphtab: array<Addr>, spare: seq<Addr>)
    reads nbnotinphtab
  {
    forall c :: 0 <= c < |spare| && c < nbnotinphtab.Length ==> nbnotinphtab[c] == spare[c]
  }

  /** The second phase: the spare neighbours but the first, each in one slot. */
  method FillBlanks(nbnotinphtab: array<Addr>, x: nat, taille: nat, beyond: bool,
                    ghost base: seq<Slot>, ghost spare: seq<Addr>,
                    claimanttab: array<Addr>, dstasktab: array<Addr>, nexthooptab: array<Addr>)
    returns (overrun: bool)
    requires 0 < x == |spare| && Lists(nbnotinphtab, spare)
    requires |base| == taille + 1 && Holds(claimanttab, dstasktab, nexthooptab, base)
    requires beyond <==> |base| > claimanttab.Length
    requires nbnotinphtab.Length == claimanttab.Length
    requires claimanttab != dstasktab && dstasktab != nexthooptab && claimanttab != nexthooptab
    requires nbnotinphtab != claimanttab && nbnotinphtab != dstasktab && nbnotinphtab != nexthooptab
    modifies claimanttab, dstasktab, nexthooptab
    ensures overrun <==> |base + Blanks(spare[1..])| > claimanttab.Length
    ensures Holds(claimanttab, dstasktab, nexthooptab, base + Blanks(spare[1..]))
  {
    overrun := beyond;
    for i := 1 to x
      invariant Holds(claimanttab, dstasktab, nexthooptab, base)
      invariant overrun <==> taille + i > claimanttab.Length
      invariant forall c :: taille < c < taille + i && c < claimanttab.Length ==> nexthooptab[c] == spare[c - taille]
      invariant forall c :: taille < c < taille + i && c < claimanttab.Length ==> dstasktab[c] == claimanttab[c] == -1
    {
      if taille + i < claimanttab.Length {
        nexthooptab[taille + i], dstasktab[taille + i], claimanttab[taille + i] := nbnotinphtab[i], -1, -1;
      } else {
        overrun := true;
      }
    }
    ghost var cells := base + Blanks(spare[1..]);
    forall c | taille < c < |cells| ensures cells[c] == Blank(spare[c - taille]) {
      assert cells[c] == Blanks(spare[1..])[c - taille - 1];
    }
  }

  /** The outer loop: all neighbours, those without pheromone set aside. */
  method FillSlots(nbs: seq<Neighbor>, t: seq<PhEntry>, ghost junk: Slot, claimanttab: array<Addr>,
                   dstasktab: array<Addr>, nexthooptab: array<Addr>, nbnotinphtab: array<Addr>)
    returns (taille: nat, x: nat, intable: bool, overrun: bool, lost: bool)
    requires claimanttab != dstasktab && dstasktab != nexthooptab && claimanttab != nexthooptab
    requires nbnotinphtab != claimanttab && nbnotinphtab != dstasktab && nbnotinphtab != nexthooptab
    requires Holds(claimanttab, dstasktab, nexthooptab, [junk])
    modifies claimanttab, dstasktab, nexthooptab, nbnotinphtab
    ensures x == |Spare(nbs, t)| && Lists(nbnotinphtab, Spare(nbs, t))
    ensures intable == AnyNamed(nbs, t)
    ensures taille == if Slots(nbs, t) == [] then 0 else |Slots(nbs, t)| - 1
    ensures overrun <==> |Slots(nbs, t)| > claimanttab.Length
    ensures lost <==> |Spare(nbs, t)| > nbnotinphtab.Length
    ensures Holds(claimanttab, dstasktab, nexthooptab, Written(Slots(nbs, t), junk))
  {
    hide NeighborSlots, InPheromone, Named, Holds;
    var premier := true;
    taille, x, intable, overrun, lost := 0, 0, false, false, false;
    for a := 0 to |nbs|
      invariant x == |Spare(nbs[..a], t)| && Lists(nbnotinphtab, Spare(nbs[..a], t))
      invariant intable == AnyNamed(nbs[..a], t)
      invariant premier <==> Slots(nbs[..a], t) == []
      invariant taille == if premier then 0 else |Slots(nbs[..a], t)| - 1
      invariant overrun <==> |Slots(nbs[..a], t)| > claimanttab.Length
      invariant lost <==> x > nbnotinphtab.Length
      invariant Holds(claimanttab, dstasktab, nexthooptab, Written(Slots(nbs[..a], t), junk))
    {
      var nbInPh, named;
      premier, taille, nbInPh, named, overrun := FillNeighbor(
        Slots(nbs[..a], t), t, nbs[a].addr, premier, taille, overrun, junk, claimanttab, dstasktab, nexthooptab);
      assert nbs[..a + 1][..a] == nbs[..a];
      AnyNamedGrows(nbs, t, a);
      intable := intable || named;
      if !nbInPh {
        if x < nbnotinphtab.Length {
          nbnotinphtab[x] := nbs[a].addr;
        } else {
          lost := true;
        }
        x := x + 1;
      }
    }
    assert nbs[..|nbs|] == nbs;
  }

  /** The nested loops as written. junk is what the arrays hold before the first write; a write beyond the
      arrays happens exactly when the cells do not fit. */
  method Fill(nbs: seq<Neighbor>, t: seq<PhEntry>, junk: Slot)
    returns (claimanttab: array<Addr>, dstasktab: array<Addr>, nexthooptab: array<Addr>,
             taille: nat, intable: bool, overrun: bool)
    ensures fresh(claimanttab) && fresh(dstasktab) && fresh(nexthooptab) && claimanttab.Length == WHEEL_CELLS
    ensures overrun <==> !Fits(nbs, t)
    ensures var w := Build(nbs, t, junk);
      taille == w.size && intable == w.touched && Holds(claimanttab, dstasktab, nexthooptab, w.cells)
    ensures !overrun ==> taille <= WHEEL_CELLS
  {
    claimanttab := new Addr[WHEEL_CELLS](_ => junk.claimant);
    dstasktab := new Addr[WHEEL_CELLS](_ => junk.asked);
    nexthooptab := new Addr[WHEEL_CELLS](_ => junk.hop);
    var nbnotinphtab := new Addr[WHEEL_CELLS](_ => 0);
    var x, lost;
    taille, x, intable, overrun, lost := FillSlots(nbs, t, junk, claimanttab, dstasktab, nexthooptab, nbnotinphtab);
    if x > 0 {
      overrun := FillBlanks(nbnotinphtab, x, taille, overrun, Written(Slots(nbs, t), junk), Spare(nbs, t),
                            claimanttab, dstasktab, nexthooptab);
      taille := taille + x;
    }
    overrun := overrun || lost;
    WantedIs(nbs, t, junk);
  }

  lemma NamedGrows(nb: Addr, t: seq<PhEntry>, b: nat)
    requires b < |t|
    ensures Named(nb, t[..b + 1]) <==> Named(nb, t[..b]) || nb in t[b].nbs
  {
    assert forall c :: 0 <= c < b ==> t[..b + 1][c] == t[..b][c];
    assert t[..b + 1][b] == t[b];
  }

  lemma AnyNamedGrows(nbs: seq<Neighbor>, t: seq<PhEntry>, a: nat)
    requires a < |nbs|
    ensures AnyNamed(nbs[..a + 1], t) <==> AnyNamed(nbs[..a], t) || Named(nbs[a].addr, t)
  {
    assert forall c :: 0 <= c < a ==> nbs[..a + 1][c] == nbs[..a][c];
    assert nbs[..a + 1][a] == nbs[a];
  }
}

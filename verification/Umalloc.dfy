/** The allocator of user/umalloc.c (section 8.7 of The C Programming Language, 2nd ed.): a circular
    free list in address order, searched first-fit. Addresses and sizes are in header units. */
module Umalloc {
  import opened Basics

  const BASE: nat := 1    // the static header `base`, below everything sbrk returns

  /** The headers in memory, the free ring from base on, the blocks handed out, and every unit
      obtained from sbrk so far. */
  datatype Heap = Heap(ptr: map<nat, nat>, size: map<nat, nat>, ring: seq<nat>, live: set<nat>, units: set<nat>)

  /** a, b, … , last, and base again. */
  function Closed(ring: seq<nat>): seq<nat> {
    ring + [BASE]
  }

  predicate Increasing(ring: seq<nat>) {
    forall i: nat, j: nat {:trigger At(ring, i), At(ring, j)} :: i < j < |ring| ==> At(ring, i) < At(ring, j)
  }

  /** The ptr fields run once through the ring and back to base. */
  predicate Linked(ptr: map<nat, nat>, ring: seq<nat>) {
    && |ring| > 0 && ring[0] == BASE && Increasing(ring)
    && forall i: nat {:trigger At(ring, i)} ::
        i < |ring| ==> At(ring, i) in ptr && ptr[At(ring, i)] == Closed(ring)[i + 1]
  }

  predicate IsFree(h: Heap, a: nat) {
    a in h.ring && a != BASE
  }

  predicate IsBlock(h: Heap, a: nat) {
    a in h.live || IsFree(h, a)
  }

  function Sz(h: Heap, a: nat): nat {
    if a in h.size then h.size[a] else 0
  }

  /** Every block, live or free, is a non-empty run of units above base. */
  ghost predicate Blocks(h: Heap) {
    && BASE in h.size && h.size[BASE] == 0
    && (forall a: nat {:trigger IsBlock(h, a)} :: IsBlock(h, a) ==> a in h.size && Sz(h, a) > 0 && a > BASE)
    && (forall a: nat {:trigger a in h.live} :: a in h.live ==> a !in h.ring)
  }

  /** No two blocks overlap, and no two free blocks touch. */
  ghost predicate Apart(h: Heap) {
    forall a: nat, b: nat {:trigger IsBlock(h, a), IsBlock(h, b)} ::
      IsBlock(h, a) && IsBlock(h, b) && a < b ==>
        a + Sz(h, a) <= b && (IsFree(h, a) && IsFree(h, b) ==> a + Sz(h, a) < b)
  }

  predicate Holds(h: Heap, a: nat, u: nat) {
    IsBlock(h, a) && a <= u < a + Sz(h, a)
  }

  ghost predicate Covered(h: Heap, u: nat) {
    exists a: nat :: Holds(h, a, u)
  }

  /** Conservation: the blocks are exactly the units obtained. */
  ghost predicate Conserved(h: Heap) {
    forall u: nat {:trigger u in h.units} {:trigger Covered(h, u)} :: u in h.units <==> Covered(h, u)
  }

  ghost predicate Inv(h: Heap) {
    Linked(h.ptr, h.ring) && Blocks(h) && Apart(h) && Conserved(h)
  }

  // ---------------------------------------------------------------- free: linking a block in

  /** Position k is where block bp belongs: after ring[k] and before its successor, if any. */
  predicate Place(ring: seq<nat>, bp: nat, k: nat) {
    k < |ring| && ring[k] < bp && (k + 1 < |ring| ==> bp < ring[k + 1])
  }

  predicate ClearAbove(h: Heap, bp: nat, k: nat) {
    k + 1 < |h.ring| ==> bp + Sz(h, bp) < h.ring[k + 1]
  }

  function Inserted(h: Heap, bp: nat, k: nat): Heap
    requires k < |h.ring|
  {
    h.(ptr := h.ptr[bp := Closed(h.ring)[k + 1]][h.ring[k] := bp],
       ring := h.ring[..k + 1] + [bp] + h.ring[k + 1..],
       live := h.live - {bp})
  }

  /** A block that touches no free block becomes a free block of its own. */
  lemma InsertStep(h: Heap, bp: nat, k: nat)
    requires Inv(h) && bp in h.live && Place(h.ring, bp, k)
    requires ClearAbove(h, bp, k) && h.ring[k] + Sz(h, h.ring[k]) != bp
    ensures Inv(Inserted(h, bp, k))
  {
    var t := Inserted(h, bp, k);
    assert IsBlock(h, bp);
    RingInsert(h.ptr, h.ring, bp, k);
    assert forall a: nat :: IsBlock(t, a) <==> IsBlock(h, a);
    forall a: nat | IsFree(h, a) ensures a < bp ==> a + Sz(h, a) < bp
                                 ensures bp < a ==> bp + Sz(h, bp) < a {
      Neighbours(h, bp, k, a);
    }
    SameCover(h, t);
  }

  lemma RingInsert(ptr: map<nat, nat>, ring: seq<nat>, bp: nat, k: nat)
    requires Linked(ptr, ring) && Place(ring, bp, k)
    ensures Linked(ptr[bp := Closed(ring)[k + 1]][ring[k] := bp], ring[..k + 1] + [bp] + ring[k + 1..])
    ensures forall a: nat :: a in ring[..k + 1] + [bp] + ring[k + 1..] <==> a in ring || a == bp
  {
    var ring' := ring[..k + 1] + [bp] + ring[k + 1..];
    assert ring == ring[..k + 1] + ring[k + 1..];
    assert Closed(ring') == ring[..k + 1] + [bp] + Closed(ring)[k + 1..];
    assert At(ring, k) == ring[k];
    assert k + 1 < |ring| ==> At(ring, k + 1) == ring[k + 1];
    forall i: nat, j: nat | i < j < |ring'| ensures At(ring', i) < At(ring', j) {
      assert i != k + 1 ==> At(ring, if i <= k then i else i - 1) == ring'[i];
      assert j != k + 1 ==> At(ring, if j <= k then j else j - 1) == ring'[j];
    }
    forall i: nat | i < |ring'|
      ensures At(ring', i) in ptr[bp := Closed(ring)[k + 1]][ring[k] := bp]
      ensures ptr[bp := Closed(ring)[k + 1]][ring[k] := bp][At(ring', i)] == Closed(ring')[i + 1]
    {
      assert i != k + 1 ==> At(ring, if i <= k then i else i - 1) == ring'[i];
    }
  }

  /** A free block on either side of a place ends before it, or begins after what belongs there. */
  lemma Neighbours(h: Heap, bp: nat, k: nat, a: nat)
    requires Inv(h) && IsBlock(h, bp) && Place(h.ring, bp, k) && IsFree(h, a)
    requires ClearAbove(h, bp, k) && h.ring[k] + Sz(h, h.ring[k]) != bp
    ensures a < bp ==> a + Sz(h, a) < bp
    ensures bp < a ==> bp + Sz(h, bp) < a
  {
    var i: nat :| i < |h.ring| && h.ring[i] == a;
    assert At(h.ring, i) == a && At(h.ring, k) == h.ring[k];
    assert IsBlock(h, a);
    if i < k {
      assert At(h.ring, 0) == BASE;
      assert IsFree(h, h.ring[k]) && IsBlock(h, h.ring[k]);
    } else if i > k {
      assert At(h.ring, k + 1) <= a;
    }
  }

  /** Two heaps with the same blocks of the same sizes cover the same units. */
  lemma SameCover(h: Heap, t: Heap)
    requires Conserved(h) && t.units == h.units && t.size == h.size
    requires forall a: nat {:trigger IsBlock(t, a)} :: IsBlock(t, a) <==> IsBlock(h, a)
    ensures Conserved(t)
  {
    forall u: nat ensures Covered(t, u) <==> Covered(h, u) {
      if a: nat :| Holds(h, a, u) {
        assert Holds(t, a, u);
      }
      if a: nat :| Holds(t, a, u) {
        assert Holds(h, a, u);
      }
    }
  }

  lemma RingRemove(ptr: map<nat, nat>, ring: seq<nat>, k: nat)
    requires Linked(ptr, ring) && 1 <= k < |ring|
    ensures Linked(ptr[ring[k - 1] := Closed(ring)[k + 1]], ring[..k] + ring[k + 1..])
    ensures forall a: nat :: a in ring[..k] + ring[k + 1..] <==> a in ring && a != ring[k]
  {
    var ptr', ring' := ptr[ring[k - 1] := Closed(ring)[k + 1]], ring[..k] + ring[k + 1..];
    assert ring == ring[..k] + [ring[k]] + ring[k + 1..];
    assert Closed(ring') == ring[..k] + Closed(ring)[k + 1..];
    assert At(ring, k) == ring[k] && At(ring, k - 1) == ring[k - 1];
    forall i: nat, j: nat | i < j < |ring'| ensures At(ring', i) < At(ring', j) {
      assert At(ring, if i < k then i else i + 1) == ring'[i] && At(ring, if j < k then j else j + 1) == ring'[j];
    }
    forall i: nat | i < |ring'| ensures At(ring', i) in ptr' && ptr'[At(ring', i)] == Closed(ring')[i + 1] {
      assert At(ring, if i < k then i else i + 1) == ring'[i];
    }
    forall a: nat | a in ring' ensures a != ring[k] {
      var i: nat :| i < |ring'| && ring'[i] == a;
      assert At(ring, if i < k then i else i + 1) == a;
    }
  }

  function AbsorbedUp(h: Heap, bp: nat, k: nat): Heap
    requires k + 1 < |h.ring|
  {
    h.(ptr := h.ptr[h.ring[k] := Closed(h.ring)[k + 2]],
       size := h.size[bp := Sz(h, bp) + Sz(h, h.ring[k + 1])],
       ring := h.ring[..k + 1] + h.ring[k + 2..])
  }

  /** The free block right above a live one becomes part of it. */
  lemma AbsorbUpStep(h: Heap, bp: nat, k: nat)
    requires Inv(h) && bp in h.live && Place(h.ring, bp, k) && k + 1 < |h.ring| && bp + Sz(h, bp) == h.ring[k + 1]
    ensures var t := AbsorbedUp(h, bp, k); Inv(t) && Place(t.ring, bp, k) && ClearAbove(t, bp, k)
  {
    var t, next := AbsorbedUp(h, bp, k), h.ring[k + 1];
    RingRemove(h.ptr, h.ring, k + 1);
    assert At(h.ring, 0) == BASE && At(h.ring, k + 1) == next;
    assert IsBlock(h, bp) && IsFree(h, next) && IsBlock(h, next);
    forall a: nat ensures (IsBlock(t, a) <==> IsBlock(h, a) && a != next) && (IsFree(t, a) ==> IsFree(h, a)) {
      assert a in t.ring <==> a in h.ring && a != next;
    }
    if k + 2 < |h.ring| {
      assert At(h.ring, k + 2) == t.ring[k + 1] && IsFree(h, t.ring[k + 1]) && IsBlock(h, t.ring[k + 1]);
    }
    forall u: nat ensures Covered(t, u) <==> Covered(h, u) {
      if a: nat :| Holds(h, a, u) {
        assert Holds(t, if a == next then bp else a, u);
      }
      if a: nat :| Holds(t, a, u) {
        assert Holds(h, if a == bp && u >= next then next else a, u);
      }
    }
  }

  function AbsorbedDown(h: Heap, bp: nat, k: nat): Heap
    requires k < |h.ring|
  {
    h.(size := h.size[h.ring[k] := Sz(h, h.ring[k]) + Sz(h, bp)], live := h.live - {bp})
  }

  /** A live block right above a free one becomes part of it. */
  lemma AbsorbDownStep(h: Heap, bp: nat, k: nat)
    requires Inv(h) && bp in h.live && Place(h.ring, bp, k)
    requires ClearAbove(h, bp, k) && h.ring[k] + Sz(h, h.ring[k]) == bp
    ensures Inv(AbsorbedDown(h, bp, k))
  {
    var t, p := AbsorbedDown(h, bp, k), h.ring[k];
    assert IsBlock(h, bp) && bp > BASE;
    assert p != BASE && IsFree(h, p) && IsBlock(h, p);
    assert forall a: nat :: IsBlock(t, a) <==> IsBlock(h, a) && a != bp;
    forall a: nat | IsFree(h, a) && a > p ensures p + Sz(t, p) < a {
      var i: nat :| i < |h.ring| && h.ring[i] == a;
      assert At(h.ring, i) == a && At(h.ring, k) == p;
      assert At(h.ring, k + 1) <= a;
    }
    forall a: nat, b: nat | IsBlock(t, a) && IsBlock(t, b) && a < b
      ensures a + Sz(t, a) <= b && (IsFree(t, a) && IsFree(t, b) ==> a + Sz(t, a) < b)
    {
      assert IsBlock(h, a) && IsBlock(h, b);
    }
    forall u: nat ensures Covered(t, u) <==> Covered(h, u) {
      if a: nat :| Holds(h, a, u) {
        assert Holds(t, if a == bp then p else a, u);
      }
      if a: nat :| Holds(t, a, u) {
        assert Holds(h, if a == p && u >= bp then bp else a, u);
      }
    }
  }

  // ---------------------------------------------------------------- malloc: taking a block out

  function Taken(h: Heap, k: nat): Heap
    requires 1 <= k < |h.ring|
  {
    h.(ptr := h.ptr[h.ring[k - 1] := Closed(h.ring)[k + 1]],
       ring := h.ring[..k] + h.ring[k + 1..],
       live := h.live + {h.ring[k]})
  }

  /** A free block that fits exactly is handed out whole. */
  lemma TakeStep(h: Heap, k: nat)
    requires Inv(h) && 1 <= k < |h.ring|
    ensures Inv(Taken(h, k)) && h.ring[k] !in h.live
  {
    var t := Taken(h, k);
    RingRemove(h.ptr, h.ring, k);
    assert At(h.ring, 0) == BASE && At(h.ring, k) == h.ring[k];
    assert IsFree(h, h.ring[k]) && IsBlock(h, h.ring[k]);
    forall a: nat ensures (IsBlock(t, a) <==> IsBlock(h, a)) && (IsFree(t, a) ==> IsFree(h, a)) {
      assert a in t.ring <==> a in h.ring && a != h.ring[k];
    }
    forall a: nat, b: nat | IsBlock(t, a) && IsBlock(t, b) && a < b
      ensures a + Sz(t, a) <= b && (IsFree(t, a) && IsFree(t, b) ==> a + Sz(t, a) < b)
    {
      assert IsBlock(h, a) && IsBlock(h, b);
    }
    SameCover(h, t);
  }

  function SplitOff(h: Heap, k: nat, n: nat): Heap
    requires k < |h.ring| && n <= Sz(h, h.ring[k])
  {
    var p := h.ring[k];
    var rest := Sz(h, p) - n;
    h.(size := h.size[p := rest][p + rest := n], live := h.live + {p + rest})
  }

  /** A larger free block keeps its head and gives its tail away. */
  lemma SplitStep(h: Heap, k: nat, n: nat)
    requires Inv(h) && k < |h.ring| && 0 < n < Sz(h, h.ring[k])
    ensures Inv(SplitOff(h, k, n)) && h.ring[k] + Sz(h, h.ring[k]) - n !in h.live
  {
    var t, p := SplitOff(h, k, n), h.ring[k];
    var q := p + Sz(h, p) - n;
    assert At(h.ring, 0) == BASE && At(h.ring, k) == p;
    assert IsFree(h, p) && IsBlock(h, p);
    assert !IsBlock(h, q);
    assert forall a: nat :: IsBlock(t, a) <==> IsBlock(h, a) || a == q;
    forall a: nat, b: nat | IsBlock(t, a) && IsBlock(t, b) && a < b
      ensures a + Sz(t, a) <= b && (IsFree(t, a) && IsFree(t, b) ==> a + Sz(t, a) < b)
    {
      assert a != q ==> IsBlock(h, a);
      assert b != q ==> IsBlock(h, b);
    }
    forall u: nat ensures Covered(t, u) <==> Covered(h, u) {
      if a: nat :| Holds(h, a, u) {
        assert Holds(t, if a == p && u >= q then q else a, u);
      }
      if a: nat :| Holds(t, a, u) {
        assert Holds(h, if a == q then p else a, u);
      }
    }
  }

  // ---------------------------------------------------------------- morecore: new units

  predicate Within(a: nat, n: nat, u: nat) {
    a <= u < a + n
  }

  function Interval(a: nat, n: nat): (s: set<nat>)
    ensures forall u: nat {:trigger u in s} :: u in s <==> Within(a, n, u)
  {
    set u: nat {:trigger Within(a, n, u)} | a <= u < a + n && Within(a, n, u)
  }

  /** A header at hp claims n units; sbrk gave `got` units there. */
  function Grown(h: Heap, hp: nat, n: nat, got: nat): Heap {
    h.(size := h.size[hp := n], live := h.live + {hp}, units := h.units + Interval(hp, got))
  }

  ghost predicate Above(h: Heap, hp: nat) {
    hp > BASE && forall u :: u in h.units ==> u < hp
  }

  lemma BlocksBelow(h: Heap, hp: nat, a: nat)
    requires Inv(h) && Above(h, hp) && IsBlock(h, a)
    ensures a + Sz(h, a) <= hp
  {
    assert Holds(h, a, a + Sz(h, a) - 1);
    assert Covered(h, a + Sz(h, a) - 1);
  }

  /** Fresh units above everything so far form one more block. */
  lemma GrowStep(h: Heap, hp: nat, n: nat)
    requires Inv(h) && n > 0 && Above(h, hp)
    ensures Inv(Grown(h, hp, n, n)) && hp !in h.live
  {
    var t := Grown(h, hp, n, n);
    forall a: nat | IsBlock(h, a) ensures a + Sz(h, a) <= hp {
      BlocksBelow(h, hp, a);
    }
    assert !IsBlock(h, hp);
    assert forall a: nat :: IsBlock(t, a) <==> IsBlock(h, a) || a == hp;
    forall a: nat, b: nat | IsBlock(t, a) && IsBlock(t, b) && a < b
      ensures a + Sz(t, a) <= b && (IsFree(t, a) && IsFree(t, b) ==> a + Sz(t, a) < b)
    {
      assert a != hp ==> IsBlock(h, a);
      assert b != hp ==> IsBlock(h, b);
    }
    forall u: nat ensures u in t.units <==> Covered(t, u) {
      if a: nat :| Holds(h, a, u) {
        assert Covered(h, u);
        assert Holds(t, a, u);
      }
      if hp <= u < hp + n {
        assert Holds(t, hp, u);
      }
      if a: nat :| Holds(t, a, u) {
        assert a != hp ==> Holds(h, a, u) && Covered(h, u);
      }
    }
  }

  /** The header may only claim what sbrk gave. */
  lemma GrowIff(h: Heap, hp: nat, n: nat, got: nat)
    requires Inv(h) && n > 0 && Above(h, hp)
    ensures Inv(Grown(h, hp, n, got)) <==> n == got
  {
    var t := Grown(h, hp, n, got);
    if n == got {
      GrowStep(h, hp, n);
    } else {
      var u := hp + if n < got then n else got;
      assert u in t.units <==> n < got;
      if Inv(t) {
        assert IsBlock(t, hp);
        if n < got {
          var a: nat :| Holds(t, a, u);
          assert a != hp ==> IsBlock(h, a);
          if a != hp {
            BlocksBelow(h, hp, a);
          }
          assert false;
        } else {
          assert Holds(t, hp, u);
          assert Covered(t, u);
          assert false;
        }
      }
    }
  }

  // ---------------------------------------------------------------- the integer argument of sbrk

  const HEADER: nat := 16

  /** malloc's request in header units. */
  function NUnits(nbytes: nat): nat {
    (nbytes + HEADER - 1) / HEADER + 1
  }

  /** The units hold the bytes behind their header, and no unit is wasted. */
  lemma NUnitsFit(nbytes: nat)
    ensures nbytes <= (NUnits(nbytes) - 1) * HEADER < nbytes + HEADER
  {
  }

  /** morecore never asks for fewer than 4096 units. */
  function CoreUnits(nunits: nat): nat {
    if nunits < 4096 then 4096 else nunits
  }

  /** nu * sizeof(Header) as sbrk's 32-bit signed parameter receives it. */
  function SbrkArgument(nu: nat): int {
    var low := nu * HEADER % 0x1_0000_0000;
    if low < 0x8000_0000 then low else low - 0x1_0000_0000
  }

  /** The units by which the break moves up. */
  function Granted(nu: nat): nat {
    if SbrkArgument(nu) < 0 then 0 else SbrkArgument(nu) / HEADER
  }

  /** The units of a 32-bit request survive the conversion exactly up to this size. */
  lemma SbrkLimit(nbytes: nat)
    requires nbytes < 0x1_0000_0000
    ensures Granted(CoreUnits(NUnits(nbytes))) == CoreUnits(NUnits(nbytes)) <==> nbytes <= 0x7FFF_FFE0
  {
  }

  /** So morecore leaves a sound heap on exactly these requests. */
  lemma MorecoreSoundIff(h: Heap, hp: nat, nbytes: nat)
    requires Inv(h) && Above(h, hp) && nbytes < 0x1_0000_0000
    ensures var nu := CoreUnits(NUnits(nbytes)); Inv(Grown(h, hp, nu, Granted(nu))) <==> nbytes <= 0x7FFF_FFE0
  {
    SbrkLimit(nbytes);
    GrowIff(h, hp, CoreUnits(NUnits(nbytes)), Granted(CoreUnits(NUnits(nbytes))));
  }

  /** The largest request asks sbrk for a single header. */
  lemma LargestRequest()
    ensures SbrkArgument(CoreUnits(NUnits(0xFFFF_FFFF))) == 16
  {
  }

  // ---------------------------------------------------------------- free

  predicate TouchesAbove(h: Heap, bp: nat, k: nat) {
    k + 1 < |h.ring| && bp + Sz(h, bp) == h.ring[k + 1]
  }

  /** bp's own header names its successor-to-be; it is on no list yet. */
  function Prepared(h: Heap, bp: nat, k: nat): Heap
    requires k < |h.ring|
  {
    h.(ptr := h.ptr[bp := Closed(h.ring)[if TouchesAbove(h, bp, k) then k + 2 else k + 1]])
  }

  /** What free does to the heap: coalesce upward, then join the lower neighbour or link in. */
  function Freed(h: Heap, bp: nat, k: nat): Heap
    requires k < |h.ring|
  {
    var h0 := Prepared(h, bp, k);
    var t := if TouchesAbove(h, bp, k) then AbsorbedUp(h0, bp, k) else h0;
    if t.ring[k] + Sz(t, t.ring[k]) == bp then AbsorbedDown(t, bp, k) else Inserted(t, bp, k)
  }

  /** Blocks handed out before and still out keep their sizes. */
  ghost predicate SizesKept(h: Heap, t: Heap) {
    forall a: nat {:trigger Sz(t, a)} :: a in t.live && a in h.live ==> Sz(t, a) == Sz(h, a)
  }

  /** Some free block has at least n units. */
  ghost predicate Offers(h: Heap, n: nat) {
    exists a: nat :: a in h.ring && Sz(h, a) >= n
  }

  lemma FreeStep(h: Heap, bp: nat, k: nat)
    requires Inv(h) && bp in h.live && Place(h.ring, bp, k)
    ensures var t := Freed(h, bp, k);
            && Inv(t) && t.live == h.live - {bp} && t.units == h.units
            && h.ring[k] in t.ring
            && SizesKept(h, t) && Offers(t, Sz(h, bp))
  {
    var h0 := Prepared(h, bp, k);
    assert IsBlock(h, bp) && At(h.ring, k) == h.ring[k];
    assert Inv(h0) by {
      assert bp !in h.ring;
      assert forall i: nat :: i < |h.ring| ==> At(h.ring, i) != bp;
      assert forall a: nat :: IsBlock(h0, a) <==> IsBlock(h, a);
      SameCover(h, h0);
    }
    var up := TouchesAbove(h, bp, k);
    if up {
      AbsorbUpStep(h0, bp, k);
    } else if k + 1 < |h.ring| {
      assert At(h.ring, 0) == BASE && At(h.ring, k + 1) == h.ring[k + 1] && IsBlock(h, h.ring[k + 1]);
    }
    var t := if up then AbsorbedUp(h0, bp, k) else h0;
    assert t.ring[k] == h.ring[k] && Sz(t, bp) >= Sz(h, bp);
    var u := Freed(h, bp, k);
    if t.ring[k] + Sz(t, t.ring[k]) == bp {
      AbsorbDownStep(t, bp, k);
      assert u.ring[k] == h.ring[k] && Sz(u, u.ring[k]) >= Sz(h, bp);
    } else {
      InsertStep(t, bp, k);
      assert u.ring[k] == h.ring[k] && u.ring[k + 1] == bp && Sz(u, bp) >= Sz(h, bp);
    }
  }

  /** The last ring entry below bp. */
  ghost function PlaceOf(ring: seq<nat>, bp: nat): nat {
    if k: nat :| Place(ring, bp, k) then k else 0
  }

  lemma PlaceExists(h: Heap, bp: nat)
    requires Inv(h) && bp in h.live
    ensures Place(h.ring, bp, PlaceOf(h.ring, bp))
  {
    assert IsBlock(h, bp);
    var k := 0;
    while k + 1 < |h.ring| && h.ring[k + 1] < bp
      invariant k < |h.ring| && h.ring[k] < bp
    {
      k := k + 1;
    }
    assert k + 1 < |h.ring| ==> h.ring[k + 1] in h.ring;
    assert Place(h.ring, bp, k);
  }

  /** Both exits of the search, and nothing else, mean that the place has been reached. */
  lemma SearchStep(h: Heap, bp: nat, i: nat)
    requires Inv(h) && bp in h.live && i < |h.ring|
    ensures h.ring[i] in h.ptr && h.ptr[h.ring[i]] == h.ring[if i + 1 == |h.ring| then 0 else i + 1]
    ensures var p, next := h.ring[i], h.ptr[h.ring[i]];
            (p < bp < next || (p >= next && (bp > p || bp < next))) <==> i == PlaceOf(h.ring, bp)
    ensures i == PlaceOf(h.ring, bp) ==> Place(h.ring, bp, i)
  {
    PlaceExists(h, bp);
    var goal := PlaceOf(h.ring, bp);
    assert IsBlock(h, bp);
    assert At(h.ring, i) == h.ring[i] && At(h.ring, goal) == h.ring[goal] && At(h.ring, 0) == BASE;
    if i + 1 < |h.ring| {
      assert At(h.ring, i + 1) == h.ring[i + 1] && h.ring[i + 1] in h.ring;
    }
    if goal + 1 < |h.ring| {
      assert At(h.ring, goal + 1) == h.ring[goal + 1];
    }
  }

  /** free's header updates, one assignment after the other. */
  function Relinked(ptr: map<nat, nat>, size: map<nat, nat>, p: nat, bp: nat): (map<nat, nat>, map<nat, nat>)
    requires p in ptr && p in size && bp in size && ptr[p] in ptr && ptr[p] in size
  {
    var next := ptr[p];
    var up := bp + size[bp] == next;
    var size1 := if up then size[bp := size[bp] + size[next]] else size;
    var ptr1 := ptr[bp := if up then ptr[next] else next];
    if p + size1[p] == bp
    then (ptr1[p := ptr1[bp]], size1[p := size1[p] + size1[bp]])
    else (ptr1[p := bp], size1)
  }

  lemma HeadersAt(h: Heap, i: nat)
    requires Inv(h) && i < |h.ring|
    ensures h.ring[i] != 0
    ensures h.ring[i] in h.ptr && h.ring[i] in h.size && h.ptr[h.ring[i]] == Closed(h.ring)[i + 1]
  {
    assert At(h.ring, i) == h.ring[i] && At(h.ring, 0) == BASE;
    assert i > 0 ==> IsBlock(h, h.ring[i]);
  }

  lemma RelinkedIsFreed(h: Heap, bp: nat, k: nat)
    requires Inv(h) && bp in h.live && Place(h.ring, bp, k)
    ensures h.ring[k] != 0 && h.ring[k] in h.ptr && h.ring[k] in h.size && bp in h.size
    ensures h.ptr[h.ring[k]] in h.ptr && h.ptr[h.ring[k]] in h.size
    ensures Relinked(h.ptr, h.size, h.ring[k], bp) == (Freed(h, bp, k).ptr, Freed(h, bp, k).size)
  {
    assert IsBlock(h, bp);
    var p := h.ring[k];
    HeadersAt(h, 0);
    HeadersAt(h, k);
    if k + 1 < |h.ring| {
      HeadersAt(h, k + 1);
    }
    assert TouchesAbove(h, bp, k) <==> bp + h.size[bp] == h.ptr[p];
    var h0 := Prepared(h, bp, k);
    var t := if TouchesAbove(h, bp, k) then AbsorbedUp(h0, bp, k) else h0;
    assert Closed(t.ring)[k + 1] == t.ptr[bp] == t.ptr[p];
    var ptr1 := h.ptr[bp := t.ptr[bp]];
    assert ptr1[p := ptr1[bp]] == t.ptr;
    assert ptr1[p := bp] == t.ptr[bp := t.ptr[bp]][p := bp];
  }

  /** What malloc does with the free block it found: all of it, or its tail. */
  function Carved(h: Heap, k: nat, n: nat): Heap
    requires 1 <= k < |h.ring| && n <= Sz(h, h.ring[k])
  {
    if Sz(h, h.ring[k]) == n then Taken(h, k) else SplitOff(h, k, n)
  }

  lemma CarveStep(h: Heap, k: nat, n: nat)
    requires Inv(h) && 1 <= k < |h.ring| && 0 < n <= Sz(h, h.ring[k])
    ensures var q := h.ring[k] + Sz(h, h.ring[k]) - n; var t := Carved(h, k, n);
            && Inv(t) && q !in h.live && t.live == h.live + {q} && Sz(t, q) == n && SizesKept(h, t)
            && t.units == h.units && h.ring[k - 1] in t.ring
  {
    assert At(h.ring, 0) == BASE && At(h.ring, k) == h.ring[k];
    assert IsBlock(h, h.ring[k]);
    if Sz(h, h.ring[k]) == n {
      TakeStep(h, k);
      assert Carved(h, k, n).ring[k - 1] == h.ring[k - 1];
    } else {
      SplitStep(h, k, n);
    }
  }

  /** With a base header and nothing else, the heap is sound. */
  lemma InitStep(ptr: map<nat, nat>, size: map<nat, nat>)
    ensures Inv(Heap(ptr[BASE := BASE], size[BASE := 0], [BASE], {}, {}))
  {
    var h := Heap(ptr[BASE := BASE], size[BASE := 0], [BASE], {}, {});
    assert forall a: nat :: !IsBlock(h, a);
  }

  /** Index j has been passed on the way round the ring from f to i. */
  predicate Behind(f: nat, i: nat, j: nat) {
    if f <= i then f < j <= i else j > f || j <= i
  }

  /** Every free block from freep's successor up to index i is too small. */
  ghost predicate TooSmall(h: Heap, f: nat, i: nat, n: nat) {
    forall j: nat {:trigger At(h.ring, j)} :: j < |h.ring| && Behind(f, i, j) ==> Sz(h, At(h.ring, j)) < n
  }

  function Next(h: Heap, i: nat): nat {
    if i + 1 == |h.ring| then 0 else i + 1
  }

  /** Once the search is back at freep and freep too is too small, nothing fits. */
  lemma NothingFits(h: Heap, f: nat, i: nat, n: nat)
    requires f < |h.ring| && i < |h.ring| && Next(h, i) == f && TooSmall(h, f, i, n) && Sz(h, h.ring[f]) < n
    ensures !Offers(h, n)
  {
    forall a: nat | a in h.ring ensures Sz(h, a) < n {
      var j: nat :| j < |h.ring| && h.ring[j] == a;
      assert At(h.ring, j) == a;
    }
  }

  /** One iteration of malloc's loop that finds nothing. */
  lemma ScanStep(h: Heap, f: nat, i: nat, n: nat)
    requires Inv(h) && f < |h.ring| && i < |h.ring| && TooSmall(h, f, i, n) && n > 0
    ensures h.ring[i] in h.ptr && h.ptr[h.ring[i]] == h.ring[Next(h, i)] && h.ring[Next(h, i)] in h.size
    ensures var j := Next(h, i); if h.size[h.ring[j]] >= n then j == i + 1
            else if h.ring[j] == h.ring[f] then !Offers(h, n)
            else j != f && TooSmall(h, f, j, n)
  {
    var j := Next(h, i);
    HeadersAt(h, i);
    HeadersAt(h, j);
    assert At(h.ring, j) == h.ring[j] && At(h.ring, f) == h.ring[f];
    if h.size[h.ring[j]] < n && h.ring[j] == h.ring[f] {
      NothingFits(h, f, i, n);
    }
  }

  class Allocator {
    var ptr: map<nat, nat>
    var size: map<nat, nat>
    var freep: nat                 // 0 before the first call
    ghost var ring: seq<nat>
    ghost var live: set<nat>
    ghost var units: set<nat>

    ghost function View(): Heap
      reads this
    {
      Heap(ptr, size, ring, live, units)
    }

    ghost predicate Valid()
      reads this
    {
      if freep == 0 then live == {} && units == {} else Inv(View()) && freep in ring
    }

    constructor ()
      ensures Valid() && live == {} && units == {}
    {
      ptr, size, freep := map[], map[], 0;
      ring, live, units := [], {}, {};
    }

    /** The search loop of free: from freep round the ring to where bp belongs. */
    method Search(bp: nat) returns (p: nat, ghost k: nat)
      requires Valid() && freep != 0 && bp in live
      ensures Place(ring, bp, k) && p == ring[k]
    {
      ghost var h := View();
      assert IsBlock(h, bp);
      ghost var n := |ring|;
      ghost var goal := PlaceOf(ring, bp);
      PlaceExists(h, bp);
      p := freep;
      ghost var i: nat :| i < n && ring[i] == freep;
      ghost var left := if i <= goal then goal - i else goal + n - i;
      assert At(ring, i) == p;
      while !(p < bp && bp < ptr[p])
        invariant i < n && p == ring[i] == At(ring, i)
        invariant left == if i <= goal then goal - i else goal + n - i
        decreases left
      {
        SearchStep(h, bp, i);
        if p >= ptr[p] && (bp > p || bp < ptr[p]) {
          break;
        }
        p := ptr[p];
        i := if i + 1 == n then 0 else i + 1;
        left := left - 1;
        assert p == At(ring, i);
      }
      SearchStep(h, bp, i);
      k := i;
    }

    /** The second half of free: coalesce with either neighbour or link in. */
    method Relink(p: nat, bp: nat)
      requires p in ptr && p in size && bp in size && ptr[p] in ptr && ptr[p] in size
      modifies `ptr, `size
      ensures (ptr, size) == Relinked(old(ptr), old(size), p, bp)
    {
      var next := ptr[p];
      if bp + size[bp] == next {
        size := size[bp := size[bp] + size[next]];
        ptr := ptr[bp := ptr[next]];
      } else {
        ptr := ptr[bp := next];
      }
      if p + size[p] == bp {
        size := size[p := size[p] + size[bp]];
        ptr := ptr[p := ptr[bp]];
      } else {
        ptr := ptr[p := bp];
      }
    }

    /** free. */
    method Free(ap: nat)
      requires Valid() && ap > 0 && ap - 1 in live
      modifies this
      ensures Valid() && freep != 0
      ensures live == old(live) - {ap - 1} && units == old(units)
      ensures SizesKept(old(View()), View())
      ensures Offers(View(), Sz(old(View()), ap - 1))
    {
      var bp := ap - 1;
      ghost var h := View();
      var p, k := Search(bp);
      FreeStep(h, bp, k);
      RelinkedIsFreed(h, bp, k);
      Relink(p, bp);
      freep, live, ring := p, live - {bp}, Freed(h, bp, k).ring;
    }

    /** morecore; `grant` is sbrk's answer. */
    method Morecore(nunits: nat, grant: Option<nat>) returns (ok: bool)
      requires Valid() && freep != 0 && Granted(CoreUnits(nunits)) == CoreUnits(nunits)
      requires grant.Some? ==> Above(View(), grant.value)
      modifies this
      ensures Valid() && freep != 0 && live == old(live) && ok == grant.Some?
      ensures SizesKept(old(View()), View())
      ensures if ok then units == old(units) + Interval(grant.value, CoreUnits(nunits)) && Offers(View(), nunits)
              else View() == old(View()) && freep == old(freep)
    {
      if grant.None? {
        return false;
      }
      var hp, nu := grant.value, if nunits < 4096 then 4096 else nunits;
      GrowStep(View(), hp, nu);
      size := size[hp := nu];
      live, units := live + {hp}, units + Interval(hp, nu);
      assert View() == Grown(old(View()), hp, nu, nu);
      Free(hp + 1);
      return true;
    }

    method Carve(prevp: nat, p: nat, nunits: nat, ghost k: nat) returns (q: nat)
      requires Valid() && freep != 0 && 1 <= k < |ring| && p == ring[k] && prevp == ring[k - 1]
      requires p in size && 0 < nunits <= size[p]
      modifies this
      ensures Valid() && freep == prevp && q !in old(live) && live == old(live) + {q} && units == old(units)
      ensures Sz(View(), q) == nunits && SizesKept(old(View()), View())
    {
      ghost var h := View();
      CarveStep(h, k, nunits);
      HeadersAt(h, k);
      HeadersAt(h, k - 1);
      q := p;
      if size[p] == nunits {
        ptr := ptr[prevp := ptr[p]];
      } else {
        size := size[p := size[p] - nunits];
        q := p + size[p];
        size := size[q := nunits];
      }
      freep := prevp;
      live, ring := live + {q}, Carved(h, k, nunits).ring;
      assert View() == Carved(h, k, nunits);
    }

    method Start()
      requires Valid()
      modifies this
      ensures Valid() && freep != 0 && live == old(live) && units == old(units)
      ensures old(freep) != 0 ==> View() == old(View())
    {
      if freep == 0 {
        InitStep(ptr, size);
        ptr, size, freep := ptr[BASE := BASE], size[BASE := 0], BASE;
        ring := [BASE];
      }
    }

    /** malloc. `grant` is what sbrk answers if asked; the answer handed back is one past the header. */
    method Malloc(nbytes: nat, grant: Option<nat>) returns (r: Option<nat>)
      requires Valid() && nbytes <= 0x7FFF_FFE0
      requires grant.Some? ==> Above(View(), grant.value)
      modifies this
      ensures Valid() && SizesKept(old(View()), View())
      ensures r.Some? ==> r.value > 0 && r.value - 1 !in old(live) && live == old(live) + {r.value - 1}
      ensures r.Some? ==> Sz(View(), r.value - 1) == NUnits(nbytes)
      ensures r.Some? ==> nbytes <= (Sz(View(), r.value - 1) - 1) * HEADER < nbytes + HEADER
      ensures units == old(units)
              || (grant.Some? && r.Some? && units == old(units) + Interval(grant.value, CoreUnits(NUnits(nbytes))))
      ensures old(freep) != 0 && Offers(old(View()), NUnits(nbytes)) ==> r.Some? && units == old(units)
      ensures r.None? ==> grant.None? && live == old(live) && !Offers(View(), NUnits(nbytes))
    {
      NUnitsFit(nbytes);
      var nunits := (nbytes + HEADER - 1) / HEADER + 1;
      SbrkLimit(nbytes);
      Start();
      ghost var fits := old(freep) != 0 && Offers(old(View()), nunits);
      ghost var asked := false;
      ghost var i: nat :| i < |ring| && ring[i] == freep;
      ghost var f: nat := i;
      var prevp := freep;
      while true
        invariant Valid() && freep != 0 && live == old(live) && SizesKept(old(View()), View())
        invariant f < |ring| && freep == ring[f] && i < |ring| && prevp == ring[i]
        invariant TooSmall(View(), f, i, nunits)
        invariant if asked then
                    && grant.Some? && units == old(units) + Interval(grant.value, CoreUnits(nunits))
                    && Offers(View(), nunits)
                  else units == old(units)
        invariant fits ==> !asked && Offers(View(), nunits)
        decreases !asked, if f <= i then f + |ring| - i else f - i
      {
        ghost var h := View();
        ghost var j := Next(h, i);
        ScanStep(h, f, i, nunits);
        var p := ptr[prevp];
        if size[p] >= nunits {
          var q := Carve(prevp, p, nunits, j);
          return Some(q + 1);
        }
        if p == freep {
          var ok := Morecore(nunits, grant);
          if !ok {
            return None;
          }
          asked := true;
          p := freep;
          i :| i < |ring| && ring[i] == freep;
          f := i;
        } else {
          i := j;
        }
        prevp := p;
      }
    }
  }
}

/** Address spaces as callers see them: what growth, sharing, copying and tearing down keep. */
module Spaces {
  import opened Basics
  import opened Frames
  import opened Sv39

  /** PGROUNDUP(sz) / PGSIZE. */
  function Up(sz: nat): nat {
    (sz + PGSIZE - 1) / PGSIZE
  }

  /** The pages of sz bytes: enough, and none to spare. */
  lemma UpFits(sz: nat)
    ensures sz <= Up(sz) * PGSIZE < sz + PGSIZE
  {
  }

  function Px(level: nat, vpn: nat): nat {
    if level == 2 then Px2(vpn) else if level == 1 then Px1(vpn) else Px0(vpn)
  }

  /** Page tables may have been added; nothing else has changed. */
  ghost predicate Grew(s: St, t: St) {
    match t
    case St(mem', fr', _, role', refs') =>
      && Inv(t) && SameViews(s, t) && refs' == s.refs
      && (forall a: nat {:trigger IsRoot(role', a)} :: IsRoot(role', a) ==> IsRoot(s.role, a))
      && |fr'| == |role'| == |s.fr| == |s.role|
      && forall p: nat {:trigger role'[p]} :: p < |s.role| && !s.role[p].Free? ==>
           role'[p] == s.role[p] && fr'[p] == s.fr[p] && (!IsTable(s.role[p]) ==> mem'[p] == s.mem[p])
  }

  lemma GrewRefl(s: St)
    requires Inv(s)
    ensures Grew(s, s)
  {
  }

  lemma GrewTrans(s: St, t: St, u: St)
    requires Inv(s) && Grew(s, t) && Grew(t, u)
    ensures Grew(s, u)
  {
    forall p: nat, r: nat, v: nat | Maps(s.mem, s.role, r, v, p) ensures u.role[p].User? && u.mem[p] == s.mem[p] {
      assert Leaf(t.mem, r, v) == Leaf(s.mem, r, v);
      assert Maps(t.mem, t.role, r, v, p);
    }
    forall r: nat, v: nat | IsRoot(s.role, r) && v < MAXVPN
      ensures IsRoot(u.role, r) && Leaf(u.mem, r, v) == Leaf(s.mem, r, v)
    {
      assert IsRoot(t.role, r) && Leaf(t.mem, r, v) == Leaf(s.mem, r, v);
    }
    forall a: nat | IsRoot(u.role, a) ensures IsRoot(s.role, a) {
      assert IsRoot(t.role, a);
    }
    forall p: nat | p < |s.role| && !s.role[p].Free?
      ensures u.role[p] == s.role[p] && u.fr[p] == s.fr[p] && (!IsTable(s.role[p]) ==> u.mem[p] == s.mem[p])
    {
      assert t.role[p] == s.role[p];
    }
  }

  /** Where a walk for vpn stands after it has come down to `level`. */
  predicate TableAt(mem: Mem, role: seq<Role>, r: nat, vpn: nat, level: nat, table: nat) {
    && table < |role|
    && if level == 2 then table == r && role[table] == Top(r)
       else if level == 1 then
         role[table] == Mid(r, Px2(vpn)) && Entry(mem, r, Px2(vpn)).v && Entry(mem, r, Px2(vpn)).ppn == table
       else role[table] == Low(r, Px2(vpn), Px1(vpn)) && LowTable(mem, r, vpn) == Some(table)
  }

  /** Allocating a page and hanging it into a tree only grows the tables. */
  lemma GrewByTable(s: St, held: St, q: nat, i: nat, c: nat)
    requires Inv(s) && Grew(s, held) && c < |s.role| && s.role[c].Free?
    requires held == St(s.mem[c := held.mem[c]], s.fr[c := 1], held.free, s.role[c := Held], s.refs)
    requires q < |s.mem| && i < 512 && (s.role[q].Top? || s.role[q].Mid?) && !Entry(s.mem, q, i).v
    requires s.role[q].Top? ==> i < 256
    ensures q != c && held.mem[q].Table? && |held.mem[q].ptes| == 512 && held.role[q] == s.role[q]
    ensures var t := held.(mem := Link(held.mem, q, i, c), role := held.role[c := Below(s.role[q], i)]);
            && Grew(s, t)
            && Entry(t.mem, q, i) == Pointer(c)
            && forall p: nat, k: nat {:trigger Entry(t.mem, p, k)} ::
                p != c && (p != q || k != i) ==> Entry(t.mem, p, k) == Entry(s.mem, p, k)
  {
    assert PageOk(s.mem, s.role, q);
    assert !Entry(held.mem, q, i).v;
    LinkStep(held, q, i, c);
    var t := held.(mem := Link(held.mem, q, i, c), role := held.role[c := Below(s.role[q], i)]);
    forall p: nat, r: nat, v: nat | Maps(s.mem, s.role, r, v, p) ensures t.role[p].User? && t.mem[p] == s.mem[p] {
      assert Leaf(held.mem, r, v) == Leaf(s.mem, r, v);
      assert Maps(held.mem, held.role, r, v, p);
    }
    forall r: nat, v: nat | IsRoot(s.role, r) && v < MAXVPN
      ensures IsRoot(t.role, r) && Leaf(t.mem, r, v) == Leaf(s.mem, r, v)
    {
      assert IsRoot(held.role, r) && Leaf(held.mem, r, v) == Leaf(s.mem, r, v);
    }
  }

  predicate InRange(r: nat, lo: nat, hi: nat, a: nat, b: nat) {
    a == r && lo <= b < hi
  }

  /** Everything outside the pages lo to hi of address space r is as it was: same address spaces,
      same leaves, same bytes. */
  ghost predicate KeptBut(s: St, t: St, r: nat, lo: nat, hi: nat) {
    match t
    case St(mem', _, _, role', _) =>
      && |s.role| == |role'| == |mem'| == |s.mem|
      && (forall a: nat {:trigger IsRoot(role', a)} :: IsRoot(s.role, a) <==> IsRoot(role', a))
      && (forall a: nat, b: nat {:trigger Leaf(mem', a, b)} ::
          IsRoot(s.role, a) && b < MAXVPN && !InRange(r, lo, hi, a, b) ==>
            Leaf(mem', a, b) == Leaf(s.mem, a, b))
      && (forall p: nat, a: nat, b: nat {:trigger Maps(s.mem, s.role, a, b, p)} ::
            Maps(s.mem, s.role, a, b, p) && !InRange(r, lo, hi, a, b) ==> role'[p].User? && mem'[p] == s.mem[p])
  }

  lemma KeptByOne(s: St, t: St, r: nat, v: nat)
    requires OthersKept(s, t, r, v)
    ensures KeptBut(s, t, r, v, v + 1)
  {
  }

  lemma KeptByGrowth(s: St, t: St, r: nat, v: nat)
    requires Grew(s, t)
    ensures KeptBut(s, t, r, v, v)
  {
  }

  lemma KeptWider(s: St, t: St, r: nat, v: nat)
    requires KeptBut(s, t, r, v, v)
    ensures KeptBut(s, t, r, v, v + 1)
  {
  }

  lemma KeptTrans(s: St, t: St, u: St, r: nat, lo: nat, mid: nat, hi: nat)
    requires KeptBut(s, t, r, lo, mid) && KeptBut(t, u, r, mid, hi) && lo <= mid <= hi
    ensures KeptBut(s, u, r, lo, hi)
  {
    KeptAgain(s, t, u, r, lo, mid, mid, hi);
  }

  lemma KeptAgain(s: St, t: St, u: St, r: nat, a1: nat, b1: nat, a2: nat, b2: nat)
    requires KeptBut(s, t, r, a1, b1) && KeptBut(t, u, r, a2, b2)
    ensures KeptBut(s, u, r, if a1 < a2 then a1 else a2, if b1 > b2 then b1 else b2)
  {
    var lo, hi := if a1 < a2 then a1 else a2, if b1 > b2 then b1 else b2;
    forall a: nat ensures IsRoot(s.role, a) <==> IsRoot(u.role, a) {
      assert IsRoot(t.role, a) <==> IsRoot(u.role, a);
    }
    forall a: nat, b: nat | IsRoot(s.role, a) && b < MAXVPN && !InRange(r, lo, hi, a, b)
      ensures Leaf(u.mem, a, b) == Leaf(s.mem, a, b)
    {
      assert IsRoot(t.role, a) && Leaf(u.mem, a, b) == Leaf(t.mem, a, b);
    }
    forall p: nat, a: nat, b: nat | Maps(s.mem, s.role, a, b, p) && !InRange(r, lo, hi, a, b)
      ensures u.role[p].User? && u.mem[p] == s.mem[p]
    {
      assert Leaf(t.mem, a, b) == Leaf(s.mem, a, b);
      assert Maps(t.mem, t.role, a, b, p);
    }
  }

  /** The pages lo to hi of address space r are not mapped. */
  predicate NotMapped(mem: Mem, r: nat, lo: nat, hi: nat) {
    forall v: nat {:trigger Leaf(mem, r, v)} :: lo <= v < hi ==> Leaf(mem, r, v) == ZERO
  }

  lemma NotMappedFurther(t: St, u: St, r: nat, lo: nat, a: nat)
    requires NotMapped(t.mem, r, lo, a) && KeptBut(t, u, r, a, a + 1) && Leaf(u.mem, r, a) == ZERO
    requires IsRoot(t.role, r) && lo <= a < MAXVPN
    ensures NotMapped(u.mem, r, lo, a + 1)
  {
  }

  /** Page vpn of address space r is zeroed memory with the given permissions. */
  ghost predicate FreshPage(s: St, r: nat, vpn: nat, perm: Pte) {
    var e := Leaf(s.mem, r, vpn);
    && e == perm.(v := true, ppn := e.ppn) && e.ppn < |s.mem| == |s.role|
    && s.role[e.ppn].User? && s.mem[e.ppn] == Filled(0)
  }

  ghost predicate FreshRange(s: St, r: nat, lo: nat, hi: nat, perm: Pte) {
    forall v: nat {:trigger Leaf(s.mem, r, v)} :: lo <= v < hi ==> FreshPage(s, r, v, perm)
  }

  lemma FreshFurther(t: St, u: St, r: nat, lo: nat, a: nat, perm: Pte)
    requires FreshRange(t, r, lo, a, perm) && KeptBut(t, u, r, a, a + 1) && FreshPage(u, r, a, perm)
    requires IsRoot(t.role, r) && lo <= a < MAXVPN
    ensures FreshRange(u, r, lo, a + 1, perm)
  {
    forall v: nat | lo <= v < a + 1 ensures FreshPage(u, r, v, perm) {
      if v < a {
        assert Leaf(u.mem, r, v) == Leaf(t.mem, r, v);
        assert Maps(t.mem, t.role, r, v, Leaf(t.mem, r, v).ppn);
      }
    }
  }

  /** A range that was empty and is empty again has not changed at all. */
  lemma KeptWhenUndone(s: St, u: St, r: nat, lo: nat, hi: nat)
    requires KeptBut(s, u, r, lo, hi) && NotMapped(s.mem, r, lo, hi) && NotMapped(u.mem, r, lo, hi)
    ensures KeptBut(s, u, r, lo, lo)
  {
  }

  /** Writing into a page that is held and nowhere placed is part of no view. */
  lemma GrewByHolding(s: St, held: St, t: St, c: nat)
    requires Inv(s) && Grew(s, held) && c < |s.role| && s.role[c].Free? && held.role == s.role[c := Held]
    requires |t.mem| == |held.mem| && c < |held.mem| && t == held.(mem := held.mem[c := t.mem[c]])
    requires Inv(t) && SameViews(held, t)
    ensures Grew(s, t)
  {
    forall p: nat | p < |s.role| && !s.role[p].Free?
      ensures t.role[p] == s.role[p] && t.fr[p] == s.fr[p] && (!IsTable(s.role[p]) ==> t.mem[p] == s.mem[p])
    {
      assert held.role[p] == s.role[p];
    }
    forall p: nat, r: nat, v: nat | Maps(s.mem, s.role, r, v, p) ensures t.role[p].User? && t.mem[p] == s.mem[p] {
      assert Leaf(held.mem, r, v) == Leaf(s.mem, r, v);
    }
    forall r: nat, v: nat | IsRoot(s.role, r) && v < MAXVPN
      ensures IsRoot(t.role, r) && Leaf(t.mem, r, v) == Leaf(s.mem, r, v)
    {
      assert IsRoot(held.role, r) && Leaf(held.mem, r, v) == Leaf(s.mem, r, v);
    }
  }

  /** A leaf after uvmcopy has marked it. */
  function Cow(e: Pte): Pte {
    e.(w := false, cow := true)
  }

  /** All user memory is still there, with the same bytes. */
  ghost predicate SamePages(s: St, t: St) {
    match t
    case St(mem', _, _, role', _) =>
      && |s.role| == |role'| == |mem'| == |s.mem|
      && forall p: nat {:trigger mem'[p]} :: p < |s.mem| && s.role[p].User? ==> role'[p].User? && mem'[p] == s.mem[p]
  }

  /** If one mapping of a page is read-only, all are: a writable one would be the only one. */
  lemma NoWriters(s: St, c: nat, r: nat, v: nat)
    requires Inv(s) && Maps(s.mem, s.role, r, v, c) && !Leaf(s.mem, r, v).w
    ensures forall a: nat, b: nat :: Maps(s.mem, s.role, a, b, c) ==> !Leaf(s.mem, a, b).w
  {
    forall a: nat, b: nat | Maps(s.mem, s.role, a, b, c) ensures !Leaf(s.mem, a, b).w {
      if Leaf(s.mem, a, b).w {
        assert CountOk(s.fr[c], s.role[c], s.refs[c]) && (r, v) in s.refs[c];
        OnlyRef(s.refs[c], (a, b));
      }
    }
  }

  /** Sharing still goes through after the child's tables have grown. */
  lemma SharedAfterGrowth(s: St, w: St, parent: nat, child: nat, vpn: nat, e: Pte)
    requires Inv(s) && Grew(s, w) && IsRoot(s.role, child) && vpn < MAXVPN && LowTable(w.mem, child, vpn).Some?
    requires Maps(s.mem, s.role, parent, vpn, e.ppn) && Leaf(s.mem, child, vpn) == ZERO && e.v && e.r && !e.w
    requires !Leaf(s.mem, parent, vpn).w
    ensures e.ppn < |w.fr| && e.ppn < |w.refs| && e.ppn < |w.mem|
    ensures var t := Shared(w, child, vpn, e);
            Inv(t) && KeptBut(s, t, child, vpn, vpn + 1) && Leaf(t.mem, child, vpn) == e && SamePages(s, t)
  {
    NoWriters(s, e.ppn, parent, vpn);
    assert Leaf(w.mem, child, vpn) == ZERO;
    forall a: nat, b: nat | Maps(w.mem, w.role, a, b, e.ppn) ensures !Leaf(w.mem, a, b).w {
      assert IsRoot(s.role, a) && Leaf(w.mem, a, b) == Leaf(s.mem, a, b);
      assert Maps(s.mem, s.role, a, b, e.ppn);
    }
    assert w.role[e.ppn] == s.role[e.ppn];
    ShareStep(w, child, vpn, e);
    RewriteStep(w.mem, w.role, w.refs, child, vpn, e);
    var t := Shared(w, child, vpn, e);
    forall p: nat | p < |s.mem| && s.role[p].User? ensures t.role[p].User? && t.mem[p] == s.mem[p] {
      assert w.role[p] == s.role[p];
    }
    KeptByGrowth(s, w, child, vpn);
    KeptByOne(w, t, child, vpn);
    KeptTrans(s, w, t, child, vpn, vpn, vpn + 1);
  }

  /** e is the entry o with write permission taken away and the copy-on-write mark set, and in all else o. */
  predicate SharedAs(o: Pte, e: Pte) {
    e.v == o.v && e.r == o.r && e.x == o.x && e.u == o.u && e.ppn == o.ppn && !e.w && e.cow
  }

  /** Parent and child have the parent's first n entries in common, as it had them but for writing. */
  ghost predicate EntriesShared(s: St, t: St, parent: nat, child: nat, n: nat) {
    forall v: nat {:trigger Leaf(t.mem, parent, v)} {:trigger Leaf(t.mem, child, v)} :: v < n ==>
      SharedAs(Leaf(s.mem, parent, v), Leaf(t.mem, parent, v)) && Leaf(t.mem, child, v) == Leaf(t.mem, parent, v)
  }

  /** How far a fork has got: the parent's first kp pages are marked, the child has its first kc
      pages, both lead to the parent's own pages, and no byte that was mapped has changed. */
  ghost predicate Forked(s: St, t: St, parent: nat, child: nat, kp: nat, kc: nat) {
    && |s.role| == |t.role| == |t.mem| == |s.mem|
    && (forall a: nat {:trigger IsRoot(t.role, a)} :: IsRoot(s.role, a) <==> IsRoot(t.role, a))
    && (forall a: nat, b: nat {:trigger Leaf(t.mem, a, b)} :: IsRoot(s.role, a) && b < MAXVPN ==>
          Leaf(t.mem, a, b) ==
            if (a == parent && b < kp) || (a == child && b < kc) then Cow(Leaf(s.mem, parent, b))
            else Leaf(s.mem, a, b))
    && (forall p: nat, a: nat, b: nat {:trigger Maps(s.mem, s.role, a, b, p)} ::
          Maps(s.mem, s.role, a, b, p) ==> t.role[p].User? && t.mem[p] == s.mem[p])
  }

  lemma ForkedParent(s: St, t: St, parent: nat, child: nat, k: nat)
    requires Inv(s) && Forked(s, t, parent, child, k, k) && parent != child && k < MAXVPN
    requires IsRoot(s.role, parent) && IsRoot(s.role, child)
    requires Maps(s.mem, s.role, parent, k, Leaf(s.mem, parent, k).ppn)
    requires Leaf(s.mem, child, k) == ZERO
    ensures IsRoot(t.role, parent) && IsRoot(t.role, child) && Leaf(t.mem, child, k) == ZERO
    ensures Leaf(t.mem, parent, k) == Leaf(s.mem, parent, k)
    ensures Maps(t.mem, t.role, parent, k, Leaf(t.mem, parent, k).ppn)
  {
  }

  lemma ForkMark(s: St, t: St, u: St, parent: nat, child: nat, k: nat)
    requires Forked(s, t, parent, child, k, k) && OthersKept(t, u, parent, k) && SamePages(t, u)
    requires Leaf(u.mem, parent, k) == Cow(Leaf(t.mem, parent, k)) && IsRoot(s.role, parent) && k < MAXVPN
    ensures Forked(s, u, parent, child, k + 1, k)
  {
    ForkStep(s, t, u, parent, child, k, k, k + 1, k);
  }

  lemma ForkShare(s: St, t: St, u: St, parent: nat, child: nat, k: nat)
    requires Forked(s, t, parent, child, k + 1, k) && KeptBut(t, u, child, k, k + 1) && SamePages(t, u)
    requires Leaf(u.mem, child, k) == Cow(Leaf(s.mem, parent, k))
    requires IsRoot(s.role, child) && k < MAXVPN && parent != child
    ensures Forked(s, u, parent, child, k + 1, k + 1)
  {
    ForkStep(s, t, u, parent, child, k + 1, k, k + 1, k + 1);
  }

  lemma ForkGrow(s: St, t: St, u: St, parent: nat, child: nat, kp: nat, kc: nat)
    requires Forked(s, t, parent, child, kp, kc) && Grew(t, u)
    ensures Forked(s, u, parent, child, kp, kc)
  {
    forall p: nat | p < |t.mem| && t.role[p].User? ensures u.role[p].User? && u.mem[p] == t.mem[p] {
      assert u.role[p] == t.role[p];
    }
    ForkStep(s, t, u, parent, child, kp, kc, kp, kc);
  }

  lemma ForkStep(s: St, t: St, u: St, parent: nat, child: nat, kp: nat, kc: nat, kp': nat, kc': nat)
    requires Forked(s, t, parent, child, kp, kc) && SamePages(t, u)
    requires forall a: nat {:trigger IsRoot(u.role, a)} :: IsRoot(t.role, a) <==> IsRoot(u.role, a)
    requires forall a: nat, b: nat {:trigger Leaf(u.mem, a, b)} :: IsRoot(t.role, a) && b < MAXVPN ==>
               Leaf(u.mem, a, b) ==
                 if (a == parent && b < kp') || (a == child && b < kc') then Cow(Leaf(s.mem, parent, b))
                 else Leaf(s.mem, a, b)
    ensures Forked(s, u, parent, child, kp', kc')
  {
    forall a: nat ensures IsRoot(s.role, a) <==> IsRoot(u.role, a) {
      assert IsRoot(t.role, a) <==> IsRoot(u.role, a);
    }
    forall a: nat, b: nat | IsRoot(s.role, a) && b < MAXVPN
      ensures Leaf(u.mem, a, b) ==
        if (a == parent && b < kp') || (a == child && b < kc') then Cow(Leaf(s.mem, parent, b)) else Leaf(s.mem, a, b)
    {
      assert IsRoot(t.role, a);
    }
    forall p: nat, a: nat, b: nat | Maps(s.mem, s.role, a, b, p) ensures u.role[p].User? && u.mem[p] == s.mem[p] {
      assert t.role[p].User? && u.mem[p] == t.mem[p];
    }
  }

  /** Unmapping the child's pages again leaves every byte that was mapped before the fork. */
  lemma ForkUndo(s: St, t: St, u: St, parent: nat, child: nat, n: nat)
    requires Inv(s) && Forked(s, t, parent, child, n + 1, n)
    requires KeptBut(t, u, child, 0, n) && NotMapped(u.mem, child, 0, n)
    requires NotMapped(s.mem, child, 0, n) && IsRoot(s.role, child) && n < MAXVPN && parent != child
    ensures Forked(s, u, parent, child, n + 1, 0)
  {
    forall a: nat ensures IsRoot(s.role, a) <==> IsRoot(u.role, a) {
      assert IsRoot(t.role, a) <==> IsRoot(u.role, a);
    }
    forall a: nat, b: nat | IsRoot(s.role, a) && b < MAXVPN
      ensures Leaf(u.mem, a, b) == if a == parent && b < n + 1 then Cow(Leaf(s.mem, parent, b)) else Leaf(s.mem, a, b)
    {
      assert IsRoot(t.role, a);
      assert !InRange(child, 0, n, a, b) ==> Leaf(u.mem, a, b) == Leaf(t.mem, a, b);
    }
    forall p: nat, a: nat, b: nat | Maps(s.mem, s.role, a, b, p) ensures u.role[p].User? && u.mem[p] == s.mem[p] {
      assert !InRange(child, 0, n, a, b);
      assert IsRoot(t.role, a) && Leaf(t.mem, a, b).ppn == p;
      assert Maps(t.mem, t.role, a, b, p);
    }
  }

  /** Page vpn of address space r is now writable, private, and holds the bytes it held. */
  ghost predicate Writable(s: St, t: St, r: nat, vpn: nat) {
    var o, e := Leaf(s.mem, r, vpn), Leaf(t.mem, r, vpn);
    && e == o.(cow := false, w := true, ppn := e.ppn)
    && Maps(t.mem, t.role, r, vpn, e.ppn) && e.ppn < |t.mem| && e.ppn < |t.fr| && t.fr[e.ppn] == 1
    && o.ppn < |s.mem| && t.mem[e.ppn] == s.mem[o.ppn]
  }

  lemma SharedCount(s: St, c: nat)
    requires Inv(s) && c < |s.role| && s.role[c].User?
    ensures c < |s.fr| && s.fr[c] > 0 && c < |s.mem|
  {
    assert CountOk(s.fr[c], s.role[c], s.refs[c]);
  }

  lemma SetTwice(mem: Mem, p: nat, i: nat, d: Pte, e: Pte)
    requires p < |mem| && mem[p].Table? && i < |mem[p].ptes|
    ensures SetEntry(SetEntry(mem, p, i, d), p, i, e) == SetEntry(mem, p, i, e)
  {
    assert mem[p].ptes[i := d][i := e] == mem[p].ptes[i := e];
  }

  /** Copying a shared page into a held one and pointing the mapping at the copy. */
  lemma CopiedPage(s: St, held: St, copied: St, r: nat, vpn: nat, c: nat)
    requires Inv(s) && Grew(s, held) && IsRoot(s.role, r) && vpn < MAXVPN
    requires c < |s.role| && s.role[c].Free? && held.role == s.role[c := Held]
    requires var o := Leaf(s.mem, r, vpn); Maps(s.mem, s.role, r, vpn, o.ppn) && o.ppn < |s.fr| && s.fr[o.ppn] > 1
    requires |held.mem| == |s.mem| && c < |held.mem|
    requires copied == held.(mem := held.mem[c := held.mem[Leaf(s.mem, r, vpn).ppn]])
    ensures Inv(copied) && Leaf(copied.mem, r, vpn) == Leaf(s.mem, r, vpn)
    ensures c < |copied.role| == |copied.refs| == |copied.fr| && IsRoot(copied.role, r)
    ensures Leaf(s.mem, r, vpn).ppn < |copied.fr| && copied.fr[Leaf(s.mem, r, vpn).ppn] > 0
    ensures var t := Split(copied, r, vpn, c);
            Inv(t) && KeptBut(s, t, r, vpn, vpn + 1) && Writable(s, t, r, vpn)
  {
    var o := Leaf(s.mem, r, vpn);
    assert held.role[o.ppn] == s.role[o.ppn] && PageOk(s.mem, s.role, o.ppn);
    assert CountOk(held.fr[c], held.role[c], held.refs[c]);
    AsideStep(held, copied, c);
    GrewByHolding(s, held, copied, c);
    assert IsRoot(copied.role, r) && Leaf(copied.mem, r, vpn) == o;
    SplitStep(copied, r, vpn, c);
    var t := Split(copied, r, vpn, c);
    KeptByGrowth(s, copied, r, vpn);
    KeptByOne(copied, t, r, vpn);
    KeptTrans(s, copied, t, r, vpn, vpn, vpn + 1);
    assert CountOk(t.fr[c], t.role[c], t.refs[c]);
  }

  predicate HardwareWritable(e: Pte) {
    e.v && e.u && e.w
  }

  /** What the fault handler can make writable: a copy-on-write page of user memory other than page 0, if it has
      become private or there is a page for the copy. */
  predicate CanUnshare(s: St, r: nat, vpn: nat) {
    var e := Leaf(s.mem, r, vpn);
    vpn > 0 && e.v && e.u && e.cow && (Private(s, e) || s.free != [])
  }

  predicate Private(s: St, e: Pte) {
    e.ppn < |s.fr| && s.fr[e.ppn] == 1
  }

  /** A store to page vpn of address space r succeeds, at once or after a fault. */
  predicate MayStore(s: St, r: nat, vpn: nat) {
    HardwareWritable(Leaf(s.mem, r, vpn)) || CanUnshare(s, r, vpn)
  }

  /** What user code can read at page b of address space a. */
  function Contents(s: St, a: nat, b: nat): Option<seq<int>> {
    var e := Leaf(s.mem, a, b);
    if e.v && e.u && e.ppn < |s.mem| && s.mem[e.ppn].Data? then Some(s.mem[e.ppn].bytes) else None
  }

  /** The byte at va, and only that byte of its page, has been replaced. */
  ghost predicate StoredByte(s: St, t: St, r: nat, va: nat, byte: int) {
    match Contents(s, r, va / PGSIZE)
    case None => false
    case Some(bytes) => |bytes| == PGSIZE && Contents(t, r, va / PGSIZE) == Some(bytes[va % PGSIZE := byte])
  }

  /** Isolation, in terms of what processes can read. */
  lemma ContentsKept(s: St, t: St, r: nat, lo: nat, hi: nat, a: nat, b: nat)
    requires Inv(s) && Inv(t) && KeptBut(s, t, r, lo, hi)
    requires IsRoot(s.role, a) && b < MAXVPN && !InRange(r, lo, hi, a, b)
    ensures Contents(t, a, b) == Contents(s, a, b)
  {
    assert Leaf(t.mem, a, b) == Leaf(s.mem, a, b);
    if Leaf(s.mem, a, b).v && Leaf(s.mem, a, b).u {
      LeafTarget(s.mem, s.role, a, b);
      assert Maps(s.mem, s.role, a, b, Leaf(s.mem, a, b).ppn);
    }
  }

  /** Sharing pages is indistinguishable from copying them: after a fork the child reads exactly the
      parent's bytes, and every other process, the parent included, reads what it did. */
  lemma ForkCopies(s: St, t: St, parent: nat, child: nat, n: nat, a: nat, b: nat)
    requires Inv(s) && Inv(t) && Forked(s, t, parent, child, n, n) && parent != child
    requires IsRoot(s.role, parent) && IsRoot(s.role, child) && IsRoot(s.role, a) && b < MAXVPN
    requires forall v: nat {:trigger Leaf(s.mem, parent, v)} ::
        v < n ==> Maps(s.mem, s.role, parent, v, Leaf(s.mem, parent, v).ppn)
    ensures Contents(t, a, b) == if a == child && b < n then Contents(s, parent, b) else Contents(s, a, b)
  {
    var from := if a == child && b < n then parent else a;
    assert Leaf(t.mem, a, b).ppn == Leaf(s.mem, from, b).ppn && Leaf(t.mem, a, b).u == Leaf(s.mem, from, b).u;
    if Leaf(s.mem, from, b).v && Leaf(s.mem, from, b).u {
      LeafTarget(s.mem, s.role, from, b);
      assert Maps(s.mem, s.role, from, b, Leaf(s.mem, from, b).ppn);
    }
  }

  /** User page p with one byte replaced. */
  function Poked(s: St, p: nat, off: nat, byte: int): St
    requires p < |s.mem| && s.mem[p].Data? && off < |s.mem[p].bytes|
  {
    s.(mem := s.mem[p := Data(s.mem[p].bytes[off := byte])])
  }

  /** Changing bytes of user memory disturbs no table, count or mapping. */
  lemma PokeStep(s: St, p: nat, off: nat, byte: int)
    requires Inv(s) && p < |s.role| && s.role[p].User? && off < PGSIZE
    ensures p < |s.mem| && s.mem[p].Data? && |s.mem[p].bytes| == PGSIZE
    ensures Inv(Poked(s, p, off, byte)) && KeepsMap(s.mem, s.role, Poked(s, p, off, byte).mem, s.role)
  {
    assert PageOk(s.mem, s.role, p);
    var t := Poked(s, p, off, byte);
    DataWriteKeepsTree(s.mem, s.role, t.mem, p);
    forall q: nat, a: nat, b: nat | q < |s.refs| ensures (a, b) in s.refs[q] <==> Maps(t.mem, t.role, a, b, q) {
      assert (a, b) in s.refs[q] <==> Maps(s.mem, s.role, a, b, q);
      assert IsRoot(s.role, a) && b < MAXVPN ==> Leaf(t.mem, a, b) == Leaf(s.mem, a, b);
    }
    forall q: nat, a: nat, b: nat | Maps(t.mem, t.role, a, b, q) && Leaf(t.mem, a, b).w
      ensures t.fr[q] == 1 && !Leaf(t.mem, a, b).cow
    {
      assert Maps(s.mem, s.role, a, b, q);
    }
  }

  /** A store through a writable mapping is seen by no other mapping. */
  lemma WriteStep(s: St, r: nat, v: nat, off: nat, byte: int)
    requires Inv(s) && Maps(s.mem, s.role, r, v, Leaf(s.mem, r, v).ppn)
    requires Leaf(s.mem, r, v).w && Leaf(s.mem, r, v).u && off < PGSIZE
    ensures var p := Leaf(s.mem, r, v).ppn;
            && p < |s.mem| && s.mem[p].Data? && |s.mem[p].bytes| == PGSIZE
            && var t := Poked(s, p, off, byte);
               Inv(t) && KeptBut(s, t, r, v, v + 1) && Contents(t, r, v) == Some(s.mem[p].bytes[off := byte])
  {
    var p := Leaf(s.mem, r, v).ppn;
    PokeStep(s, p, off, byte);
    var t := Poked(s, p, off, byte);
    assert CountOk(s.fr[p], s.role[p], s.refs[p]) && (r, v) in s.refs[p];
    OnlyRef(s.refs[p], (r, v));
    forall q: nat, a: nat, b: nat | Maps(s.mem, s.role, a, b, q) && !InRange(r, v, v + 1, a, b)
      ensures t.role[q].User? && t.mem[q] == s.mem[q]
    {
      assert (a, b) in s.refs[q];
    }
    assert Leaf(t.mem, r, v) == Leaf(s.mem, r, v);
  }

  lemma DataWriteKeepsTree(mem: Mem, role: seq<Role>, mem': Mem, p: nat)
    requires TreeOk(mem, role) && p < |mem| == |mem'| && role[p].User? && mem' == mem[p := mem'[p]]
    requires mem'[p].Data? && |mem'[p].bytes| == PGSIZE
    ensures TreeOk(mem', role) && KeepsMap(mem, role, mem', role)
  {
    assert PageOk(mem, role, p);
    assert forall q: nat, k: nat :: Entry(mem', q, k) == Entry(mem, q, k);
    forall q: nat | q < |mem| ensures PageOk(mem', role, q) {
      assert PageOk(mem, role, q);
    }
    forall q: nat, k: nat | q < |mem| && k < 512 ensures EntryOk(mem', role, q, k) {
      assert EntryOk(mem, role, q, k);
    }
  }

  // ---------------------------------------------------------------- tearing down

  function Height(role: Role): nat {
    if role.Top? then 2 else if role.Mid? then 1 else 0
  }

  /** Page q is the table in page p or one below it. */
  predicate InSub(role: seq<Role>, p: nat, q: nat)
    requires p < |role| && q < |role|
  {
    match role[p]
    case Top(r) => IsTable(role[q]) && role[q].root == r
    case Mid(r, i) => q == p || (role[q].Low? && role[q].root == r && role[q].i == i)
    case _ => q == p
  }

  /** The entry of table p under which table q hangs. */
  function Branch(p: Role, q: Role): nat
    requires (p.Top? && (q.Mid? || q.Low?)) || (p.Mid? && q.Low?)
  {
    if p.Top? then q.i else q.j
  }

  predicate InBranch(role: seq<Role>, p: nat, q: nat, i: nat)
    requires p < |role| && q < |role|
  {
    && InSub(role, p, q) && q != p
    && ((role[p].Top? && (role[q].Mid? || role[q].Low?)) || (role[p].Mid? && role[q].Low?))
    && Branch(role[p], role[q]) == i
  }

  /** The tables from p down are still as they were, and held. */
  ghost predicate Standing(was: St, s: St, p: nat)
    requires |was.role| == |s.role| && p < |s.role|
  {
    && |was.mem| == |s.mem| == |s.role|
    && forall q: nat {:trigger s.role[q]} ::
        q < |s.role| && InSub(was.role, p, q) ==> s.role[q].Held? && s.mem[q] == was.mem[q]
  }

  ghost predicate NoLeaves(was: St, p: nat)
    requires p < |was.role|
  {
    forall q: nat, k: nat {:trigger Entry(was.mem, q, k)} ::
      q < |was.role| && InSub(was.role, p, q) && was.role[q].Low? && k < 512 ==> Entry(was.mem, q, k) == ZERO
  }

  /** The tables from p down have gone to the free list; no other page has changed. */
  ghost predicate SubFreed(was: St, s: St, t: St, p: nat)
    requires |was.role| == |s.role| && p < |s.role|
  {
    && |t.role| == |s.role| == |s.mem| == |t.mem|
    && forall q: nat {:trigger t.role[q]} {:trigger t.mem[q]} :: q < |t.role| ==>
         if InSub(was.role, p, q) then t.role[q].Free? else t.role[q] == s.role[q] && t.mem[q] == s.mem[q]
  }

  /** The loop of freewalk has dealt with the first i entries of table p. */
  ghost predicate Cut(was: St, s: St, t: St, p: nat, i: nat)
    requires |was.role| == |s.role| && p < |s.role|
  {
    && |t.role| == |s.role| == |s.mem| == |t.mem|
    && t.role[p].Held? && t.mem[p].Table? && |t.mem[p].ptes| == 512
    && (forall k: nat {:trigger t.mem[p].ptes[k]} ::
        k < 512 ==> t.mem[p].ptes[k] == if k < i then ZERO else Entry(was.mem, p, k))
    && forall q: nat {:trigger t.role[q]} {:trigger t.mem[q]} :: q < |t.role| && q != p ==>
         if exists k: nat :: k < i && InBranch(was.role, p, q, k) then t.role[q].Free?
         else t.role[q] == s.role[q] && t.mem[q] == s.mem[q]
  }

  lemma CutNone(was: St, s: St, p: nat)
    requires Inv(was) && |s.role| == |was.role| && p < |s.role| && IsTable(was.role[p]) && Standing(was, s, p)
    ensures Cut(was, s, s, p, 0)
  {
    assert PageOk(was.mem, was.role, p);
    assert InSub(was.role, p, p) && s.role[p].Held?;
  }

  /** What hangs below entry i is a whole subtree of its own, untouched so far. */
  lemma CutChild(was: St, s: St, t: St, p: nat, i: nat)
    requires Inv(was) && |s.role| == |was.role| && p < |s.role| && IsTable(was.role[p]) && i < 512
    requires Standing(was, s, p) && NoLeaves(was, p) && Cut(was, s, t, p, i)
    ensures t.mem[p].ptes[i] == Entry(was.mem, p, i)
    ensures var e := Entry(was.mem, p, i);
      if e.v then
        && !IsLeaf(e) && e.ppn < |t.role| && e.ppn != p && !was.role[p].Low? && was.role[e.ppn] == Below(was.role[p], i)
        && Standing(was, t, e.ppn) && NoLeaves(was, e.ppn) && Height(was.role[e.ppn]) < Height(was.role[p])
        && forall q: nat :: q < |t.role| ==> (InSub(was.role, e.ppn, q) <==> InBranch(was.role, p, q, i))
      else
        Cut(was, s, t, p, i + 1)
  {
    var e := Entry(was.mem, p, i);
    assert EntryOk(was.mem, was.role, p, i) && PageOk(was.mem, was.role, p);
    forall q: nat | q < |t.role| ensures InBranch(was.role, p, q, i) ==> e.v && InSub(was.role, e.ppn, q) {
      BranchChild(was, p, q, i);
    }
    if e.v {
      assert InSub(was.role, p, p);
    } else {
      assert e == ZERO;
    }
  }

  lemma BranchChild(was: St, p: nat, q: nat, i: nat)
    requires Inv(was) && p < |was.role| && q < |was.role| && IsTable(was.role[p]) && i < 512
    ensures InBranch(was.role, p, q, i) ==>
      Entry(was.mem, p, i).v && Entry(was.mem, p, i).ppn < |was.role| && InSub(was.role, Entry(was.mem, p, i).ppn, q)
  {
    assert PageOk(was.mem, was.role, p) && PageOk(was.mem, was.role, q) && EntryOk(was.mem, was.role, p, i);
  }

  /** The child's subtree has been freed; clearing its entry finishes the round. */
  lemma CutFreed(was: St, s: St, t: St, u: St, p: nat, i: nat)
    requires |s.role| == |was.role| && p < |s.role| && i < 512 && Cut(was, s, t, p, i)
    requires Entry(was.mem, p, i).ppn < |was.role| && Entry(was.mem, p, i).ppn != p
    requires SubFreed(was, t, u, Entry(was.mem, p, i).ppn)
    requires forall q: nat ::
        q < |t.role| ==> (InSub(was.role, Entry(was.mem, p, i).ppn, q) <==> InBranch(was.role, p, q, i))
    ensures u.role[p].Held? && u.mem[p] == t.mem[p]
    ensures Cut(was, s, u.(mem := SetEntry(u.mem, p, i, ZERO)), p, i + 1)
  {
    var v := u.(mem := SetEntry(u.mem, p, i, ZERO));
    assert !InSub(was.role, Entry(was.mem, p, i).ppn, p);
    assert u.role[p] == t.role[p] && u.mem[p] == t.mem[p];
    forall q: nat | q < |v.role| && q != p
      ensures if exists k: nat :: k < i + 1 && InBranch(was.role, p, q, k) then v.role[q].Free?
              else v.role[q] == s.role[q] && v.mem[q] == s.mem[q]
    {
      assert v.role[q] == u.role[q] && v.mem[q] == u.mem[q];
      assert (exists k: nat :: k < i + 1 && InBranch(was.role, p, q, k)) <==>
             (exists k: nat :: k < i && InBranch(was.role, p, q, k)) || InBranch(was.role, p, q, i);
    }
  }

  lemma CutAll(was: St, s: St, t: St, p: nat)
    requires Inv(was) && |s.role| == |was.role| && p < |s.role| && IsTable(was.role[p]) && Cut(was, s, t, p, 512)
    ensures t.role[p].Held?
    ensures SubFreed(was, s, t.(role := t.role[p := Role.Free], mem := t.mem[p := Filled(1)]), p)
  {
    var v := t.(role := t.role[p := Role.Free], mem := t.mem[p := Filled(1)]);
    forall q: nat | q < |v.role|
      ensures if InSub(was.role, p, q) then v.role[q].Free? else v.role[q] == s.role[q] && v.mem[q] == s.mem[q]
    {
      assert PageOk(was.mem, was.role, q) && PageOk(was.mem, was.role, p);
      if q != p {
        assert v.role[q] == t.role[q] && v.mem[q] == t.mem[q];
        if InSub(was.role, p, q) {
          assert InBranch(was.role, p, q, Branch(was.role[p], was.role[q]));
        }
      }
    }
  }

  predicate TablesKept(role: seq<Role>, role': seq<Role>) {
    |role'| == |role| && forall q: nat {:trigger role'[q]} :: q < |role| && IsTable(role[q]) ==> role'[q] == role[q]
  }

  // ---------------------------------------------------------------- no page is lost

  /** Pages that were not the kernel's were given back, and nothing else. */
  predicate OnlyFreed(role: seq<Role>, role': seq<Role>) {
    |role'| == |role| && forall p: nat {:trigger role'[p]} ::
      p < |role| ==> role'[p] == role[p] || (role'[p].Free? && !role[p].Kernel?)
  }

  /** No page has ended up with nobody, and the kernel has the pages it had. */
  predicate NoneLost(role: seq<Role>, role': seq<Role>) {
    |role'| == |role| && forall p: nat {:trigger role'[p]} ::
      p < |role| ==> (role'[p].Held? ==> role[p].Held?) && (role'[p].Kernel? <==> role[p].Kernel?)
  }

  /** Some address space other than r maps page p. */
  ghost predicate MappedElsewhere(s: St, r: nat, p: nat) {
    exists a: nat, b: nat {:trigger Maps(s.mem, s.role, a, b, p)} :: a != r && Maps(s.mem, s.role, a, b, p)
  }

  /** Some mapping of page p is not one of the pages lo to hi of address space r. */
  ghost predicate MappedOutside(s: St, r: nat, lo: nat, hi: nat, p: nat) {
    exists a: nat, b: nat {:trigger Maps(s.mem, s.role, a, b, p)} ::
      !InRange(r, lo, hi, a, b) && Maps(s.mem, s.role, a, b, p)
  }

  /** A user page has a mapping. */
  lemma SomeoneMaps(s: St, p: nat) returns (a: nat, b: nat)
    requires Inv(s) && p < |s.role| && s.role[p].User?
    ensures Maps(s.mem, s.role, a, b, p)
  {
    assert CountOk(s.fr[p], s.role[p], s.refs[p]);
    var k :| k in s.refs[p];
    a, b := k.0, k.1;
    assert (a, b) in s.refs[p];
  }

  /** After unmapping the pages lo to hi of address space r, a user page is free exactly if no other mapping had it. */
  lemma PagesReturn(s: St, t: St, r: nat, lo: nat, hi: nat, p: nat)
    requires Inv(s) && Inv(t) && KeptBut(s, t, r, lo, hi) && NotMapped(t.mem, r, lo, hi) && OnlyFreed(s.role, t.role)
    requires p < |s.role| && s.role[p].User?
    ensures t.role[p] == if MappedOutside(s, r, lo, hi, p) then User else Free
    ensures p in t.free <==> !MappedOutside(s, r, lo, hi, p)
  {
    if t.role[p].User? {
      var a, b := SomeoneMaps(t, p);
      assert Leaf(t.mem, a, b).v && !InRange(r, lo, hi, a, b);
      assert IsRoot(s.role, a) && Leaf(t.mem, a, b) == Leaf(s.mem, a, b);
      assert Maps(s.mem, s.role, a, b, p);
    }
  }

  /** After an address space is gone, a user page is free exactly if no other one mapped it. */
  lemma SpaceReturns(s: St, t: St, r: nat, p: nat)
    requires Inv(s) && Inv(t) && SpaceGone(s, t, r) && OnlyFreed(s.role, t.role)
    requires p < |s.role| && s.role[p].User?
    ensures t.role[p] == if MappedElsewhere(s, r, p) then User else Free
    ensures p in t.free <==> !MappedElsewhere(s, r, p)
  {
    if t.role[p].User? {
      var a, b := SomeoneMaps(t, p);
      assert IsRoot(s.role, a) && a != r && Leaf(t.mem, a, b) == Leaf(s.mem, a, b);
      assert Maps(s.mem, s.role, a, b, p);
    }
  }

  /** The user pages of s after address space r is gone: those that no other one maps are free. */
  ghost predicate SpaceReturned(s: St, t: St, r: nat) {
    |t.role| == |s.role| && forall p: nat {:trigger t.role[p]} :: p < |s.role| && s.role[p].User? ==>
      t.role[p] == if MappedElsewhere(s, r, p) then User else Free
  }

  lemma AllSpaceReturns(s: St, t: St, r: nat)
    requires Inv(s) && Inv(t) && SpaceGone(s, t, r) && OnlyFreed(s.role, t.role)
    ensures SpaceReturned(s, t, r)
  {
    forall p: nat | p < |s.role| && s.role[p].User?
      ensures t.role[p] == if MappedElsewhere(s, r, p) then User else Free
    {
      SpaceReturns(s, t, r, p);
    }
  }

  /** The user pages of s after the pages lo to hi of address space r have been unmapped: those that nobody else maps
      are free. */
  ghost predicate Returned(s: St, t: St, r: nat, lo: nat, hi: nat) {
    |t.role| == |s.role| && forall p: nat {:trigger t.role[p]} :: p < |s.role| && s.role[p].User? ==>
      t.role[p] == if MappedOutside(s, r, lo, hi, p) then User else Free
  }

  lemma AllReturn(s: St, t: St, r: nat, lo: nat, hi: nat)
    requires Inv(s) && Inv(t) && KeptBut(s, t, r, lo, hi) && NotMapped(t.mem, r, lo, hi) && OnlyFreed(s.role, t.role)
    ensures Returned(s, t, r, lo, hi)
  {
    forall p: nat | p < |s.role| && s.role[p].User?
      ensures t.role[p] == if MappedOutside(s, r, lo, hi, p) then User else Free
    {
      PagesReturn(s, t, r, lo, hi, p);
    }
  }

  /** The user pages are the same ones, and pages have left the free list only to become tables. */
  predicate TablesTaken(role: seq<Role>, role': seq<Role>) {
    |role'| == |role| && forall p: nat {:trigger role'[p]} :: p < |role| ==>
      (role[p].User? <==> role'[p].User?) && (role[p].Free? ==> role'[p].Free? || IsTable(role'[p]))
  }

  /** If no mapping has changed and no page was lost, user pages are what they were, and a page that has left the free
      list is a table. */
  lemma OnlyTablesTaken(s: St, t: St, r: nat, v: nat)
    requires Inv(s) && Inv(t) && KeptBut(s, t, r, v, v) && NoneLost(s.role, t.role)
    ensures TablesTaken(s.role, t.role)
  {
    forall p: nat | p < |s.role| ensures s.role[p].User? <==> t.role[p].User? {
      if s.role[p].User? {
        var a, b := SomeoneMaps(s, p);
        assert !InRange(r, v, v, a, b);
      }
      if t.role[p].User? {
        var a, b := SomeoneMaps(t, p);
        assert !InRange(r, v, v, a, b) && IsRoot(s.role, a) && Leaf(t.mem, a, b) == Leaf(s.mem, a, b);
        LeafTarget(s.mem, s.role, a, b);
      }
    }
  }

  /** The same of a fork that has been undone. */
  lemma ForkTablesTaken(s: St, t: St, parent: nat, child: nat, k: nat)
    requires Inv(s) && Inv(t) && Forked(s, t, parent, child, k, 0) && NoneLost(s.role, t.role)
    requires IsRoot(s.role, parent) && k <= MAXVPN
    ensures TablesTaken(s.role, t.role)
  {
    forall p: nat | p < |s.role| ensures s.role[p].User? <==> t.role[p].User? {
      if s.role[p].User? {
        var a, b := SomeoneMaps(s, p);
      }
      if t.role[p].User? {
        var a, b := SomeoneMaps(t, p);
        assert IsRoot(s.role, a);
        assert Leaf(t.mem, a, b) == Leaf(s.mem, a, b) || Leaf(t.mem, a, b) == Cow(Leaf(s.mem, a, b));
        LeafTarget(s.mem, s.role, a, b);
      }
    }
  }

  /** What happens to an address space that was not there before disturbs none that was. */
  lemma SameViewsBut(s: St, t: St, u: St, r: nat, lo: nat, hi: nat)
    requires SameViews(s, t) && !IsRoot(s.role, r) && KeptBut(t, u, r, lo, hi)
    ensures SameViews(s, u)
  {
    forall a: nat, v: nat | IsRoot(s.role, a) && v < MAXVPN
      ensures IsRoot(u.role, a) && Leaf(u.mem, a, v) == Leaf(s.mem, a, v)
    {
      assert IsRoot(t.role, a) && Leaf(t.mem, a, v) == Leaf(s.mem, a, v) && !InRange(r, lo, hi, a, v);
    }
    forall p: nat, a: nat, v: nat | Maps(s.mem, s.role, a, v, p) ensures u.role[p].User? && u.mem[p] == s.mem[p] {
      assert Maps(t.mem, t.role, a, v, p) && !InRange(r, lo, hi, a, v);
    }
  }

  lemma SameViewsGone(s: St, t: St, u: St, r: nat)
    requires SameViews(s, t) && !IsRoot(s.role, r) && SpaceGone(t, u, r)
    ensures SameViews(s, u)
  {
    forall a: nat, v: nat | IsRoot(s.role, a) && v < MAXVPN
      ensures IsRoot(u.role, a) && Leaf(u.mem, a, v) == Leaf(s.mem, a, v)
    {
      assert IsRoot(t.role, a) && Leaf(t.mem, a, v) == Leaf(s.mem, a, v);
    }
    forall p: nat, a: nat, v: nat | Maps(s.mem, s.role, a, v, p) ensures u.role[p].User? && u.mem[p] == s.mem[p] {
      assert Maps(t.mem, t.role, a, v, p);
    }
  }

  lemma GoneBut(s: St, t: St, u: St, r: nat, lo: nat, hi: nat)
    requires KeptBut(s, t, r, lo, hi) && SpaceGone(t, u, r)
    ensures SpaceGone(s, u, r)
  {
    forall a: nat, v: nat | IsRoot(s.role, a) && a != r && v < MAXVPN ensures Leaf(u.mem, a, v) == Leaf(s.mem, a, v) {
      assert IsRoot(t.role, a) && Leaf(t.mem, a, v) == Leaf(s.mem, a, v);
    }
    forall p: nat, a: nat, v: nat | Maps(s.mem, s.role, a, v, p) && a != r
      ensures u.role[p].User? && u.mem[p] == s.mem[p]
    {
      assert IsRoot(t.role, a) && Leaf(t.mem, a, v) == Leaf(s.mem, a, v);
      assert Maps(t.mem, t.role, a, v, p);
    }
  }

  /** Address space r is gone; every other one maps what it did, to pages with the same bytes. */
  ghost predicate SpaceGone(s: St, t: St, r: nat) {
    && |s.role| == |t.role| == |t.mem| == |s.mem|
    && (forall a: nat {:trigger IsRoot(t.role, a)} :: IsRoot(t.role, a) <==> IsRoot(s.role, a) && a != r)
    && (forall a: nat, b: nat {:trigger Leaf(t.mem, a, b)} ::
        IsRoot(s.role, a) && a != r && b < MAXVPN ==> Leaf(t.mem, a, b) == Leaf(s.mem, a, b))
    && (forall p: nat, a: nat, b: nat {:trigger Maps(s.mem, s.role, a, b, p)} ::
          Maps(s.mem, s.role, a, b, p) && a != r ==> t.role[p].User? && t.mem[p] == s.mem[p])
  }

  /** The tables of address space r, taken out of service. */
  function Dissolved(role: seq<Role>, r: nat): (d: seq<Role>)
    ensures |d| == |role|
  {
    seq(|role|, p requires 0 <= p < |role| => if IsTable(role[p]) && role[p].root == r then Held else role[p])
  }

  lemma DissolveStep(s: St, r: nat)
    requires Inv(s) && IsRoot(s.role, r) && NotMapped(s.mem, r, 0, MAXVPN)
    ensures var t := s.(role := Dissolved(s.role, r));
            Inv(t) && SpaceGone(s, t, r) && Standing(s, t, r) && NoLeaves(s, r)
  {
    var t := s.(role := Dissolved(s.role, r));
    forall p: nat | p < |s.mem| ensures PageOk(t.mem, t.role, p) {
      assert PageOk(s.mem, s.role, p);
    }
    forall p: nat, i: nat | p < |s.mem| && i < 512 ensures EntryOk(t.mem, t.role, p, i) {
      assert EntryOk(s.mem, s.role, p, i);
    }
    forall p: nat, a: nat, b: nat | p < |s.refs|
      ensures (a, b) in s.refs[p] <==> Maps(t.mem, t.role, a, b, p)
      ensures Maps(t.mem, t.role, a, b, p) <==> Maps(s.mem, s.role, a, b, p)
    {
      assert (a, b) in s.refs[p] <==> Maps(s.mem, s.role, a, b, p);
      assert a == r && b < MAXVPN ==> Leaf(s.mem, a, b) == ZERO;
    }
    forall p: nat | p < |t.fr| ensures CountOk(t.fr[p], t.role[p], t.refs[p]) {
      assert CountOk(s.fr[p], s.role[p], s.refs[p]);
    }
    forall q: nat, k: nat | q < |s.role| && InSub(s.role, r, q) && s.role[q].Low? && k < 512
      ensures Entry(s.mem, q, k) == ZERO
    {
      SlotIsLeaf(s.mem, s.role, q, k);
    }
  }

  /** uvmunmap leaves the tables of address space r where they are. */
  lemma GoneAfter(s: St, bare: St, loose: St, t: St, r: nat, n: nat)
    requires KeptBut(s, bare, r, 0, n) && SpaceGone(bare, loose, r) && KeptBut(loose, t, 0, 0, 0)
    ensures SpaceGone(s, t, r)
  {
    forall a: nat ensures IsRoot(t.role, a) <==> IsRoot(s.role, a) && a != r {
      assert IsRoot(loose.role, a) <==> IsRoot(bare.role, a) && a != r;
      assert IsRoot(bare.role, a) <==> IsRoot(s.role, a);
    }
    forall a: nat, b: nat | IsRoot(s.role, a) && a != r && b < MAXVPN ensures Leaf(t.mem, a, b) == Leaf(s.mem, a, b) {
      assert IsRoot(bare.role, a) && Leaf(bare.mem, a, b) == Leaf(s.mem, a, b);
      assert IsRoot(loose.role, a) && Leaf(loose.mem, a, b) == Leaf(bare.mem, a, b);
    }
    forall p: nat, a: nat, b: nat | Maps(s.mem, s.role, a, b, p) && a != r
      ensures t.role[p].User? && t.mem[p] == s.mem[p]
    {
      assert Leaf(bare.mem, a, b) == Leaf(s.mem, a, b) && Maps(bare.mem, bare.role, a, b, p);
      assert Leaf(loose.mem, a, b) == Leaf(bare.mem, a, b) && Maps(loose.mem, loose.role, a, b, p);
    }
  }

  function Filled(byte: int): (p: Page)
    ensures p.Data? && |p.bytes| == PGSIZE && forall k: nat :: k < PGSIZE ==> p.bytes[k] == byte
  {
    Data(seq(PGSIZE, i => byte))
  }
}

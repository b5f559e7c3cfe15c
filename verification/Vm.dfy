/** kernel/kalloc.c, the user half of kernel/vm.c and handleCOW of kernel/trap.c: what they do to
    physical memory, page tables and reference counts. */
module Vm {
  import opened Basics
  import opened Frames
  import opened Spaces
  import opened Sv39

  /** How the fault handler ends: the page is writable now, the process is killed, or the kernel reads a null entry. */
  datatype Handled = Repaired | Killed | NullEntry

  const TRAMPOLINE: nat := MAXVPN - 1    // page numbers
  const TRAPFRAME: nat := MAXVPN - 2

  class Vm {
    var mem: Mem
    var fr: seq<nat>
    var free: seq<nat>
    ghost var role: seq<Role>
    ghost var refs: seq<set<Ref>>

    ghost function View(): St
      reads this
    {
      St(mem, fr, free, role, refs)
    }

    ghost predicate Valid()
      reads this
    {
      Inv(View())
    }

    /** kinit: freerange frees every page in turn, from the end of the kernel on. */
    constructor (kernel: nat, npages: nat)
      requires kernel <= npages
      ensures Valid() && |mem| == npages && |free| == npages - kernel
      ensures forall p :: 0 <= p < npages ==> role[p] == if p < kernel then Kernel else Role.Free
    {
      mem := seq(npages, i => Filled(1));
      fr := seq(npages, i => 0);
      role := seq(npages, i => if i < kernel then Kernel else Role.Free);
      refs := seq(npages, i => {});
      free := [];
      new;
      var p := kernel;
      while p < npages
        invariant kernel <= p <= npages && |free| == p - kernel
        invariant forall i :: 0 <= i < p - kernel ==> free[i] == p - 1 - i
        invariant mem == seq(npages, i => Filled(1)) && fr == seq(npages, i => 0)
        invariant role == seq(npages, i => if i < kernel then Kernel else Role.Free) && refs == seq(npages, i => {})
      {
        free := [p] + free;
        p := p + 1;
      }
      forall q: nat ensures q in free <==> kernel <= q < npages {
        if kernel <= q < npages {
          assert free[npages - 1 - q] == q;
        }
      }
    }

    method Kalloc() returns (r: Option<nat>)
      requires Valid()
      modifies this
      ensures Grew(old(View()), View())
      ensures r.None? <==> old(free) == []
      ensures r.None? ==> View() == old(View())
      ensures r.Some? ==> var p := r.value;
        && p < |old(role)| && old(role)[p].Free?
        && View() == St(old(mem)[p := Filled(5)], old(fr)[p := 1], old(free)[1..], old(role)[p := Held], old(refs))
    {
      GrewRefl(View());
      if free == [] {
        return None;
      }
      ghost var s := View();
      var p := free[0];
      assert p in s.free;
      free := free[1..];
      fr := fr[p := 1];
      mem := mem[p := Filled(5)];
      role := role[p := Held];
      r := Some(p);
      assert s.free == [p] + free;
      forall q: nat ensures q in free <==> q < |role| && role[q].Free? {
        assert q in s.free <==> q < |s.role| && s.role[q].Free?;
      }
      assert CountOk(s.fr[p], s.role[p], s.refs[p]);
      AsideStep(s, View(), p);
    }

    /** Drop one reference; the page goes back to the free list with the last one. */
    method Kfree(p: nat)
      requires p < |mem| == |fr|
      modifies this`mem, this`fr, this`free
      ensures if old(fr)[p] > 1 then
                mem == old(mem) && free == old(free) && fr == old(fr)[p := old(fr)[p] - 1]
              else
                mem == old(mem)[p := Filled(1)] && free == [p] + old(free) && fr == old(fr)[p := 0]
    {
      if fr[p] > 1 {
        fr := fr[p := fr[p] - 1];
        return;
      }
      fr := fr[p := 0];
      mem := mem[p := Filled(1)];
      free := [p] + free;
    }

    /** The allocating branch of walk: a zeroed page under entry i of table q. */
    method NewTable(q: nat, i: nat) returns (page: Option<nat>)
      requires Valid() && q < |mem| && (role[q].Top? || role[q].Mid?) && i < 512 && !Entry(mem, q, i).v
      requires role[q].Top? ==> i < 256
      modifies this
      ensures Grew(old(View()), View())
      ensures page.None? ==> View() == old(View()) && free == []
      ensures page.Some? ==>
        && |free| == |old(free)| - 1
        && page.value < |role| && role[page.value] == Below(old(role)[q], i) && role[q] == old(role)[q]
        && Entry(mem, q, i) == Pointer(page.value)
        && forall p: nat, k: nat {:trigger Entry(mem, p, k)} ::
             p != page.value && (p != q || k != i) ==> Entry(mem, p, k) == Entry(old(mem), p, k)
      ensures NoneLost(old(role), role)
    {
      ghost var s := View();
      page := Kalloc();
      if page.Some? {
        GrewByTable(s, View(), q, i, page.value);
        mem := mem[page.value := Empty()];
        mem := SetEntry(mem, q, i, Pointer(page.value));
        role := role[page.value := Below(role[q], i)];
      }
    }

    /** walk: the slot of vpn's leaf, with missing tables created if `alloc`. */
    method Walk(r: nat, vpn: nat, alloc: bool) returns (slot: Option<(nat, nat)>)
      requires Valid() && IsRoot(role, r) && vpn < MAXVPN
      modifies this
      ensures Grew(old(View()), View())
      ensures slot.Some? ==> LowTable(mem, r, vpn) == Some(slot.value.0) && slot.value.1 == Px0(vpn)
      ensures slot.None? ==> LowTable(mem, r, vpn).None? && (alloc ==> free == [])
      ensures !alloc || old(LowTable(mem, r, vpn).Some?) ==> View() == old(View())
      ensures |free| <= |old(free)| <= |free| + (if slot.Some? then 2 else 1)
      ensures NoneLost(old(role), role)
    {
      ghost var s := View();
      GrewRefl(s);
      Px2Small(vpn);
      var table, level := r, 2;
      while level > 0
        invariant 0 <= level <= 2 && Grew(s, View())
        invariant TableAt(mem, role, r, vpn, level, table)
        invariant !alloc || LowTable(s.mem, r, vpn).Some? ==> View() == s
        invariant |free| <= |s.free| <= |free| + 2 - level
        invariant NoneLost(s.role, role)
      {
        assert PageOk(mem, role, table) && EntryOk(mem, role, table, Px(level, vpn));
        if mem[table].ptes[Px(level, vpn)].v {
          table := mem[table].ptes[Px(level, vpn)].ppn;
        } else {
          if !alloc {
            return None;
          }
          ghost var before := View();
          var page := NewTable(table, Px(level, vpn));
          GrewTrans(s, before, View());
          if page.None? {
            return None;
          }
          table := page.value;
        }
        level := level - 1;
      }
      slot := Some((table, Px0(vpn)));
    }

    /** mappages for one page, as all its user-memory callers use it. False: no page for a table. */
    method Mappages(r: nat, vpn: nat, ppn: nat, perm: Pte) returns (ok: bool, ghost walked: St)
      requires Valid() && IsRoot(role, r) && vpn < MAXVPN && !Leaf(mem, r, vpn).v
      modifies this
      ensures Grew(old(View()), walked)
      ensures ok ==> LowTable(walked.mem, r, vpn).Some?
      ensures ok ==> View() == walked.(mem := Rewritten(walked.mem, r, vpn, perm.(v := true, ppn := ppn)))
      ensures !ok ==> View() == walked && free == []
      ensures old(LowTable(mem, r, vpn).Some?) ==> ok && walked == old(View())
      ensures if ok then |old(free)| <= |free| + 2 else |old(free)| < 2
      ensures NoneLost(old(role), role)
    {
      var slot := Walk(r, vpn, true);
      walked := View();
      ok := slot.Some?;
      if ok {
        WalkRole(mem, role, r, vpn);
        assert Leaf(mem, r, vpn) == Leaf(old(mem), r, vpn);
        mem := SetEntry(mem, slot.value.0, slot.value.1, perm.(v := true, ppn := ppn));
      }
    }

    /** The loop body of uvmunmap without do_free. */
    method ClearLeaf(r: nat, vpn: nat)
      requires Valid() && IsRoot(role, r) && vpn < MAXVPN && Leaf(mem, r, vpn).v
      modifies this
      ensures View() == old(View()).(mem := Rewritten(old(mem), r, vpn, ZERO))
    {
      LeafTarget(mem, role, r, vpn);
      WalkRole(mem, role, r, vpn);
      var slot := Walk(r, vpn, false);
      mem := SetEntry(mem, slot.value.0, slot.value.1, ZERO);
    }

    /** The loop body of uvmunmap with do_free, on a page of user memory. */
    method UnmapUser(r: nat, vpn: nat)
      requires Valid() && IsRoot(role, r) && vpn < MAXVPN && Leaf(mem, r, vpn).v
      requires Leaf(mem, r, vpn).ppn < |role| && role[Leaf(mem, r, vpn).ppn].User?
      modifies this
      ensures Valid() && OthersKept(old(View()), View(), r, vpn) && Leaf(mem, r, vpn) == ZERO
      ensures TablesKept(old(role), role) && OnlyFreed(old(role), role)
      ensures Returned(old(View()), View(), r, vpn, vpn + 1)
    {
      ghost var s := View();
      DropUser(r, vpn);
      KeptByOne(s, View(), r, vpn);
      AllReturn(s, View(), r, vpn, vpn + 1);
    }

    method DropUser(r: nat, vpn: nat)
      requires Valid() && IsRoot(role, r) && vpn < MAXVPN && Leaf(mem, r, vpn).v
      requires Leaf(mem, r, vpn).ppn < |role| && role[Leaf(mem, r, vpn).ppn].User?
      modifies this
      ensures Valid() && OthersKept(old(View()), View(), r, vpn) && Leaf(mem, r, vpn) == ZERO
      ensures TablesKept(old(role), role)
      ensures OnlyFreed(old(role), role)
    {
      ghost var s := View();
      LeafTarget(mem, role, r, vpn);
      WalkRole(mem, role, r, vpn);
      var slot := Walk(r, vpn, false);
      var c := mem[slot.value.0].ptes[slot.value.1].ppn;
      assert CountOk(fr[c], role[c], refs[c]);
      Kfree(c);
      mem := SetEntry(mem, slot.value.0, slot.value.1, ZERO);
      if s.fr[c] > 1 {
        refs := refs[c := refs[c] - {(r, vpn)}];
        assert View() == Unshared(s, r, vpn);
        UnshareStep(s, r, vpn);
      } else {
        role, refs := role[c := Role.Free], refs[c := {}];
        RewriteAside(s.mem, s.role, r, vpn, c, Filled(1));
        assert View() == Dropped(s, r, vpn, Filled(1));
        DropStep(s, r, vpn, Filled(1));
      }
    }

    /** The loop body of uvmunmap. */
    method UnmapOne(r: nat, vpn: nat, doFree: bool)
      requires Valid() && IsRoot(role, r) && vpn < MAXVPN && Leaf(mem, r, vpn).v && Leaf(mem, r, vpn).ppn < |role|
      requires if doFree then role[Leaf(mem, r, vpn).ppn].User? else role[Leaf(mem, r, vpn).ppn].Kernel?
      modifies this
      ensures Valid() && KeptBut(old(View()), View(), r, vpn, vpn + 1) && Leaf(mem, r, vpn) == ZERO
      ensures TablesKept(old(role), role)
      ensures !doFree ==> View() == old(View()).(mem := mem)
      ensures OnlyFreed(old(role), role)
    {
      ghost var s := View();
      if doFree {
        UnmapUser(r, vpn);
      } else {
        UnmapKernelStep(s, r, vpn);
        ClearLeaf(r, vpn);
      }
      KeptByOne(s, View(), r, vpn);
    }

    /** uvmunmap of n pages from lo on. User memory is released; the kernel's own pages are not. */
    method Uvmunmap(r: nat, lo: nat, n: nat, doFree: bool)
      requires Valid() && IsRoot(role, r) && lo + n <= MAXVPN
      requires forall v: nat {:trigger Leaf(mem, r, v)} :: lo <= v < lo + n ==> Leaf(mem, r, v).v
      requires forall v: nat {:trigger Leaf(mem, r, v)} :: lo <= v < lo + n && Leaf(mem, r, v).ppn < |role| ==>
                 if doFree then role[Leaf(mem, r, v).ppn].User? else role[Leaf(mem, r, v).ppn].Kernel?
      modifies this
      ensures Valid() && KeptBut(old(View()), View(), r, lo, lo + n) && NotMapped(mem, r, lo, lo + n)
      ensures TablesKept(old(role), role)
      ensures !doFree ==> View() == old(View()).(mem := mem)
      ensures OnlyFreed(old(role), role)
      ensures doFree ==> Returned(old(View()), View(), r, lo, lo + n)
    {
      ghost var s := View();
      var a := lo;
      while a < lo + n
        invariant lo <= a <= lo + n && Valid() && KeptBut(s, View(), r, lo, a) && NotMapped(mem, r, lo, a)
        invariant TablesKept(s.role, role) && OnlyFreed(s.role, role)
        invariant !doFree ==> View() == s.(mem := mem)
      {
        LeafTarget(s.mem, s.role, r, a);
        assert IsRoot(role, r) && Leaf(mem, r, a) == Leaf(s.mem, r, a);
        assert doFree ==> Maps(s.mem, s.role, r, a, Leaf(s.mem, r, a).ppn);
        ghost var t := View();
        UnmapOne(r, a, doFree);
        KeptTrans(s, t, View(), r, lo, a, a + 1);
        NotMappedFurther(t, View(), r, lo, a);
        a := a + 1;
      }
      AllReturn(s, View(), r, lo, lo + n);
    }

    /** uvmcreate: an address space that maps nothing. */
    method Uvmcreate() returns (r: Option<nat>)
      requires Valid()
      modifies this
      ensures Valid() && SameViews(old(View()), View())
      ensures r.None? <==> old(free) == []
      ensures r.None? ==> View() == old(View())
      ensures r.Some? ==> IsRoot(role, r.value) && !IsRoot(old(role), r.value) && NotMapped(mem, r.value, 0, MAXVPN)
      ensures r.Some? ==> |free| == |old(free)| - 1 && forall v: nat :: v < MAXVPN ==> LowTable(mem, r.value, v).None?
      ensures forall a: nat {:trigger IsRoot(role, a)} :: IsRoot(role, a) ==> IsRoot(old(role), a) || r == Some(a)
      ensures forall p: nat {:trigger role[p]} :: p < |role| && !old(role)[p].Free? ==> role[p] == old(role)[p]
      ensures NoneLost(old(role), role)
    {
      ghost var s := View();
      r := Kalloc();
      if r.Some? {
        ghost var held := View();
        NewRootStep(held, r.value);
        mem := mem[r.value := Empty()];
        role := role[r.value := Top(r.value)];
        forall a: nat, v: nat | IsRoot(s.role, a) && v < MAXVPN
          ensures IsRoot(role, a) && Leaf(mem, a, v) == Leaf(s.mem, a, v)
        {
          assert IsRoot(held.role, a) && Leaf(held.mem, a, v) == Leaf(s.mem, a, v);
        }
        forall p: nat, a: nat, v: nat | Maps(s.mem, s.role, a, v, p) ensures role[p].User? && mem[p] == s.mem[p] {
          assert Leaf(held.mem, a, v) == Leaf(s.mem, a, v);
          assert Maps(held.mem, held.role, a, v, p);
        }
      }
    }

    /** kalloc and memset: a page of zeros, not yet mapped. */
    method ZeroedPage() returns (page: Option<nat>)
      requires Valid()
      modifies this
      ensures Grew(old(View()), View()) && (page.None? <==> old(free) == [])
      ensures if page.Some? then |free| == |old(free)| - 1 else free == old(free)
      ensures page.Some? ==>
        page.value < |role| && page.value < |mem| && role[page.value] == Held && mem[page.value] == Filled(0)
      ensures page.Some? ==> old(role)[page.value].Free? && NoneLost(old(role)[page.value := Held], role)
    {
      ghost var s := View();
      page := Kalloc();
      if page.Some? {
        var c := page.value;
        ghost var held := View();
        mem := mem[c := Filled(0)];
        assert CountOk(held.fr[c], held.role[c], held.refs[c]);
        AsideStep(held, View(), c);
        GrewByHolding(s, held, View(), c);
      }
    }

    /** One round of uvmalloc: a zeroed page at vpn. */
    method AllocOne(r: nat, vpn: nat, perm: Pte) returns (ok: bool)
      requires Valid() && IsRoot(role, r) && vpn < MAXVPN && Leaf(mem, r, vpn) == ZERO && perm.r && !perm.cow
      modifies this
      ensures Valid() && KeptBut(old(View()), View(), r, vpn, if ok then vpn + 1 else vpn)
      ensures ok ==> FreshPage(View(), r, vpn, perm)
      ensures if ok then |old(free)| <= |free| + 3 else |old(free)| < 3
      ensures NoneLost(old(role), role)
      ensures !ok ==> TablesTaken(old(role), role)
    {
      ghost var s := View();
      ok := AllocAndMap(r, vpn, perm);
      if !ok {
        OnlyTablesTaken(s, View(), r, vpn);
      }
    }

    method AllocAndMap(r: nat, vpn: nat, perm: Pte) returns (ok: bool)
      requires Valid() && IsRoot(role, r) && vpn < MAXVPN && Leaf(mem, r, vpn) == ZERO && perm.r && !perm.cow
      modifies this
      ensures Valid() && KeptBut(old(View()), View(), r, vpn, if ok then vpn + 1 else vpn)
      ensures ok ==> FreshPage(View(), r, vpn, perm)
      ensures if ok then |old(free)| <= |free| + 3 else |old(free)| < 3
      ensures NoneLost(old(role), role)
    {
      ghost var s := View();
      var page := ZeroedPage();
      if page.None? {
        KeptByGrowth(s, View(), r, vpn);
        return false;
      }
      ghost var zeroed := View();
      KeptByGrowth(s, zeroed, r, vpn);
      assert IsRoot(role, r) && Leaf(mem, r, vpn) == Leaf(s.mem, r, vpn);
      ok := MapHeld(r, vpn, page.value, perm);
      ghost var mapped := View();
      if ok {
        KeptTrans(s, zeroed, mapped, r, vpn, vpn, vpn + 1);
      } else {
        KeptTrans(s, zeroed, mapped, r, vpn, vpn, vpn);
        FreeHeld(page.value);
        KeptTrans(s, mapped, View(), r, vpn, vpn, vpn);
      }
    }

    /** mappages of a page of zeros that has been allocated and not placed. */
    method MapHeld(r: nat, vpn: nat, c: nat, perm: Pte) returns (ok: bool)
      requires Valid() && IsRoot(role, r) && vpn < MAXVPN && Leaf(mem, r, vpn) == ZERO && perm.r && !perm.cow
      requires c < |role| && c < |mem| && role[c] == Held && mem[c] == Filled(0)
      modifies this
      ensures Valid() && KeptBut(old(View()), View(), r, vpn, if ok then vpn + 1 else vpn)
      ensures ok ==> FreshPage(View(), r, vpn, perm)
      ensures if ok then |old(free)| <= |free| + 2 else |old(free)| < 2
      ensures |role| == |old(role)| && (if ok then role[c] == User else role[c] == Held)
      ensures NoneLost(old(role), role)
    {
      ghost var s := View();
      ghost var walked;
      ok, walked := Mappages(r, vpn, c, perm);
      assert walked.role[c] == Held && walked.mem[c] == Filled(0);
      KeptByGrowth(s, walked, r, vpn);
      if ok {
        MapStep(walked, r, vpn, perm.(v := true, ppn := c));
        role, refs := role[c := User], refs[c := {(r, vpn)}];
        KeptByOne(walked, View(), r, vpn);
        KeptTrans(s, walked, View(), r, vpn, vpn, vpn + 1);
      }
    }

    /** kfree of a page that has been allocated and not placed. */
    method FreeHeld(c: nat)
      requires Valid() && c < |role| && role[c].Held?
      modifies this
      ensures Valid() && role == old(role)[c := Role.Free] && mem == old(mem)[c := Filled(1)]
      ensures forall r: nat, v: nat {:trigger KeptBut(old(View()), View(), r, v, v)} ::
          KeptBut(old(View()), View(), r, v, v)
      ensures OnlyFreed(old(role), role)
    {
      ghost var s := View();
      assert CountOk(fr[c], role[c], refs[c]);
      Kfree(c);
      role := role[c := Role.Free];
      forall q: nat ensures q in free <==> q < |role| && role[q].Free? {
        assert q in s.free <==> q < |s.role| && s.role[q].Free?;
      }
      AsideStep(s, View(), c);
    }

    /** uvmdealloc. */
    method Uvmdealloc(r: nat, oldsz: nat, newsz: nat) returns (sz: nat)
      requires Valid() && IsRoot(role, r) && Up(oldsz) <= MAXVPN
      requires forall v: nat {:trigger Leaf(mem, r, v)} :: Up(newsz) <= v < Up(oldsz) ==>
                 Maps(mem, role, r, v, Leaf(mem, r, v).ppn)
      modifies this
      ensures Valid() && sz == if newsz >= oldsz then oldsz else newsz
      ensures Up(newsz) < Up(oldsz) ==>
        KeptBut(old(View()), View(), r, Up(newsz), Up(oldsz)) && NotMapped(mem, r, Up(newsz), Up(oldsz))
      ensures Up(newsz) >= Up(oldsz) ==> View() == old(View())
      ensures OnlyFreed(old(role), role)
      ensures Up(newsz) < Up(oldsz) ==> Returned(old(View()), View(), r, Up(newsz), Up(oldsz))
    {
      if newsz >= oldsz {
        return oldsz;
      }
      if Up(newsz) < Up(oldsz) {
        Uvmunmap(r, Up(newsz), Up(oldsz) - Up(newsz), true);
      }
      return newsz;
    }

    /** uvmalloc. On failure what was added is taken back. */
    method Uvmalloc(r: nat, oldsz: nat, newsz: nat, perm: Pte) returns (sz: nat, ok: bool)
      requires Valid() && IsRoot(role, r) && Up(newsz) <= MAXVPN && perm.r && !perm.cow
      requires NotMapped(mem, r, Up(oldsz), Up(newsz))
      modifies this
      ensures Valid()
      ensures newsz < oldsz ==> sz == oldsz && View() == old(View())
      ensures newsz >= oldsz && ok ==>
        && sz == newsz
        && KeptBut(old(View()), View(), r, Up(oldsz), Up(newsz))
        && FreshRange(View(), r, Up(oldsz), Up(newsz), perm)
        && |old(free)| <= |free| + 3 * (Up(newsz) - Up(oldsz))
      ensures newsz >= oldsz && !ok ==>
        && sz == 0
        && KeptBut(old(View()), View(), r, Up(oldsz), Up(oldsz))
        && |old(free)| < 3 * (Up(newsz) - Up(oldsz))
      ensures NoneLost(old(role), role)
      ensures newsz >= oldsz && !ok ==> TablesTaken(old(role), role)
    {
      ok := true;
      if newsz < oldsz {
        return oldsz, ok;
      }
      ghost var s := View();
      var lo := Up(oldsz);
      var a := lo;
      while a * PGSIZE < newsz
        invariant lo <= a && (a <= Up(newsz) || a == lo) && Valid()
        invariant KeptBut(s, View(), r, lo, a) && FreshRange(View(), r, lo, a, perm)
        invariant |s.free| <= |free| + 3 * (a - lo) && NoneLost(s.role, role)
        decreases Up(newsz) - a
      {
        ok := AllocNext(s, r, lo, a, perm);
        if !ok {
          OnlyTablesTaken(s, View(), r, lo);
          return 0, ok;
        }
        a := a + 1;
      }
      sz := newsz;
    }

    /** One more page after lo, or everything from lo on taken back. */
    method AllocNext(ghost s: St, r: nat, lo: nat, a: nat, perm: Pte) returns (ok: bool)
      requires Valid() && Inv(s) && IsRoot(s.role, r) && lo <= a < MAXVPN && perm.r && !perm.cow
      requires KeptBut(s, View(), r, lo, a) && FreshRange(View(), r, lo, a, perm) && NotMapped(s.mem, r, lo, a + 1)
      modifies this
      ensures Valid()
      ensures ok ==> KeptBut(s, View(), r, lo, a + 1) && FreshRange(View(), r, lo, a + 1, perm)
      ensures !ok ==> KeptBut(s, View(), r, lo, lo)
      ensures if ok then |old(free)| <= |free| + 3 else |old(free)| < 3
      ensures NoneLost(old(role), role)
    {
      assert IsRoot(role, r) && Leaf(mem, r, a) == Leaf(s.mem, r, a);
      ghost var t := View();
      ok := AllocOne(r, a, perm);
      if ok {
        KeptTrans(s, t, View(), r, lo, a, a + 1);
        FreshFurther(t, View(), r, lo, a, perm);
      } else {
        KeptAgain(s, t, View(), r, lo, a, a, a);
        TakeBack(s, r, lo, a, perm, t);
      }
    }

    /** The call of uvmdealloc in the failure paths of uvmalloc. */
    method TakeBack(ghost s: St, r: nat, lo: nat, a: nat, perm: Pte, ghost t: St)
      requires Valid() && IsRoot(role, r) && lo <= a < MAXVPN
      requires KeptBut(s, View(), r, lo, a) && NotMapped(s.mem, r, lo, a)
      requires Inv(t) && FreshRange(t, r, lo, a, perm) && KeptBut(t, View(), r, a, a)
      requires IsRoot(t.role, r) && IsRoot(s.role, r)
      modifies this
      ensures Valid() && KeptBut(s, View(), r, lo, lo)
      ensures OnlyFreed(old(role), role)
    {
      forall v: nat | lo <= v < a ensures Maps(mem, role, r, v, Leaf(mem, r, v).ppn) {
        assert Leaf(mem, r, v) == Leaf(t.mem, r, v);
        assert Maps(t.mem, t.role, r, v, Leaf(t.mem, r, v).ppn);
      }
      ghost var u := View();
      var sz := Uvmdealloc(r, a * PGSIZE, lo * PGSIZE);
      if lo < a {
        KeptAgain(s, u, View(), r, lo, a, lo, a);
        KeptWhenUndone(s, View(), r, lo, a);
      }
    }

    // -------------------------------------------------------------- fork

    /** Mark the parent's page copy-on-write. */
    method MarkCow(parent: nat, vpn: nat) returns (pte: Pte)
      requires Valid() && IsRoot(role, parent) && vpn < MAXVPN
      requires Maps(mem, role, parent, vpn, Leaf(mem, parent, vpn).ppn)
      modifies this`mem
      ensures pte == Leaf(old(mem), parent, vpn)
      ensures Valid() && OthersKept(old(View()), View(), parent, vpn) && Leaf(mem, parent, vpn) == Cow(pte)
      ensures SharedAs(pte, Leaf(mem, parent, vpn))
      ensures SamePages(old(View()), View())
    {
      ghost var s := View();
      LeafTarget(mem, role, parent, vpn);
      WalkRole(mem, role, parent, vpn);
      var slot := LowTable(mem, parent, vpn).value;
      pte := mem[slot].ptes[Px0(vpn)];
      FlagsStep(s, parent, vpn, Cow(pte));
      mem := SetEntry(mem, slot, Px0(vpn), Cow(pte));
    }

    /** Map the parent's marked page in the child and count the new reference. */
    method ShareInto(parent: nat, child: nat, vpn: nat, pte: Pte) returns (ok: bool)
      requires Valid() && IsRoot(role, parent) && IsRoot(role, child) && parent != child && vpn < MAXVPN
      requires Maps(mem, role, parent, vpn, pte.ppn)
      requires Leaf(mem, parent, vpn) == Cow(pte) && Leaf(mem, child, vpn) == ZERO
      modifies this
      ensures ok ==> Valid() && KeptBut(old(View()), View(), child, vpn, vpn + 1) && SamePages(old(View()), View())
      ensures ok ==> Leaf(mem, child, vpn) == Cow(pte) && SharedAs(pte, Leaf(mem, child, vpn))
      ensures !ok ==> Grew(old(View()), View())
      ensures if ok then |old(free)| <= |free| + 2 else |old(free)| < 2
      ensures NoneLost(old(role), role)
    {
      ghost var s := View();
      ghost var walked;
      LeafTarget(mem, role, parent, vpn);
      ok, walked := Mappages(child, vpn, pte.ppn, Cow(pte));
      if !ok {
        return;
      }
      fr, refs := fr[pte.ppn := fr[pte.ppn] + 1], refs[pte.ppn := refs[pte.ppn] + {(child, vpn)}];
      assert View() == Shared(walked, child, vpn, Cow(pte));
      SharedAfterGrowth(s, walked, parent, child, vpn, Cow(pte));
    }

    /** uvmcopy of sz bytes. On failure the child maps nothing again; the parent's pages may stay
        marked, which costs it a fault but no byte. */
    method Uvmcopy(parent: nat, child: nat, sz: nat) returns (ok: bool, ghost k: nat)
      requires Valid() && IsRoot(role, parent) && IsRoot(role, child) && parent != child && Up(sz) <= MAXVPN
      requires forall v: nat {:trigger Leaf(mem, parent, v)} ::
          v < Up(sz) ==> Maps(mem, role, parent, v, Leaf(mem, parent, v).ppn)
      requires NotMapped(mem, child, 0, Up(sz))
      modifies this
      ensures Valid()
      ensures ok ==> Forked(old(View()), View(), parent, child, Up(sz), Up(sz)) && |old(free)| <= |free| + 2 * Up(sz)
      ensures ok ==> EntriesShared(old(View()), View(), parent, child, Up(sz))
      ensures !ok ==> k < Up(sz) && Forked(old(View()), View(), parent, child, k + 1, 0) && |old(free)| < 2 * Up(sz)
      ensures NoneLost(old(role), role)
      ensures !ok ==> TablesTaken(old(role), role)
    {
      ghost var s := View();
      var i := 0;
      while i * PGSIZE < sz
        invariant 0 <= i <= Up(sz) && Valid() && Forked(s, View(), parent, child, i, i) && |s.free| <= |free| + 2 * i
        invariant NoneLost(s.role, role)
        decreases Up(sz) - i
      {
        ok := CopyTurn(s, parent, child, i);
        if !ok {
          k := i;
          return;
        }
        i := i + 1;
      }
      ok, k := true, 0;
    }

    /** One page more shared, or everything the child got taken back. */
    method CopyTurn(ghost s: St, parent: nat, child: nat, i: nat) returns (ok: bool)
      requires Valid() && Inv(s) && IsRoot(s.role, parent) && IsRoot(s.role, child) && parent != child && i < MAXVPN
      requires forall v: nat {:trigger Leaf(s.mem, parent, v)} ::
          v <= i ==> Maps(s.mem, s.role, parent, v, Leaf(s.mem, parent, v).ppn)
      requires NotMapped(s.mem, child, 0, i + 1) && Forked(s, View(), parent, child, i, i) && NoneLost(s.role, role)
      modifies this
      ensures Valid() && NoneLost(s.role, role)
      ensures if ok then Forked(s, View(), parent, child, i + 1, i + 1) && |old(free)| <= |free| + 2
              else Forked(s, View(), parent, child, i + 1, 0) && |old(free)| < 2 && TablesTaken(s.role, role)
    {
      ghost var t := View();
      ForkedParent(s, t, parent, child, i);
      var pte := MarkCow(parent, i);
      ForkMark(s, t, View(), parent, child, i);
      ghost var marked := View();
      ok := ShareInto(parent, child, i, pte);
      if ok {
        ForkShare(s, marked, View(), parent, child, i);
      } else {
        ForkGrow(s, marked, View(), parent, child, i + 1, i);
        UndoCopy(s, parent, child, i);
      }
    }

    /** The err label of uvmcopy. */
    method UndoCopy(ghost s: St, parent: nat, child: nat, n: nat)
      requires Valid() && Inv(s) && IsRoot(s.role, parent) && IsRoot(s.role, child) && parent != child && n < MAXVPN
      requires forall v: nat {:trigger Leaf(s.mem, parent, v)} ::
          v <= n ==> Maps(s.mem, s.role, parent, v, Leaf(s.mem, parent, v).ppn)
      requires NotMapped(s.mem, child, 0, n) && Forked(s, View(), parent, child, n + 1, n) && NoneLost(s.role, role)
      modifies this
      ensures Valid() && Forked(s, View(), parent, child, n + 1, 0)
      ensures NoneLost(s.role, role) && TablesTaken(s.role, role)
      ensures OnlyFreed(old(role), role)
    {
      ghost var t := View();
      forall v: nat | v < n ensures Maps(mem, role, child, v, Leaf(mem, child, v).ppn) {
        assert IsRoot(role, child) && Leaf(mem, child, v) == Cow(Leaf(s.mem, parent, v));
        assert Maps(s.mem, s.role, parent, v, Leaf(s.mem, parent, v).ppn);
      }
      Uvmunmap(child, 0, n, true);
      ForkUndo(s, t, View(), parent, child, n);
      ForkTablesTaken(s, View(), parent, child, n + 1);
    }

    // -------------------------------------------------------------- stores

    /** The two branches of handleCOW, once the page is known to be user memory marked copy-on-write.
        False: no page for the copy. mappages cannot fail here, since the tables exist. */
    method Unshare(r: nat, vpn: nat) returns (ok: bool)
      requires Valid() && IsRoot(role, r) && vpn < MAXVPN
      requires Maps(mem, role, r, vpn, Leaf(mem, r, vpn).ppn) && Leaf(mem, r, vpn).cow
      modifies this
      ensures Valid() && KeptBut(old(View()), View(), r, vpn, vpn + 1)
      ensures ok <==> Private(old(View()), Leaf(old(mem), r, vpn)) || old(free) != []
      ensures !ok ==> View() == old(View())
      ensures ok ==> Writable(old(View()), View(), r, vpn)
      ensures NoneLost(old(role), role)
    {
      ghost var s := View();
      LeafTarget(mem, role, r, vpn);
      WalkRole(mem, role, r, vpn);
      var slot := LowTable(mem, r, vpn).value;
      var pte := mem[slot].ptes[Px0(vpn)];
      if fr[pte.ppn] == 1 {
        FlagsStep(s, r, vpn, pte.(cow := false, w := true));
        mem := SetEntry(mem, slot, Px0(vpn), pte.(cow := false, w := true));
        KeptByOne(s, View(), r, vpn);
        ok := true;
      } else {
        ok := CopyPage(r, vpn, pte);
        if !ok {
          GrewRefl(s);
          KeptByGrowth(s, s, r, vpn);
          KeptWider(s, s, r, vpn);
        }
      }
    }

    /** uvmunmap without do_free, then mappages, at a page whose tables exist: both walks end in the
        same slot, so nothing is allocated and mappages cannot fail. */
    method Remap(r: nat, vpn: nat, e: Pte) returns (ok: bool)
      requires Valid() && IsRoot(role, r) && vpn < MAXVPN && Leaf(mem, r, vpn).v
      modifies this`mem
      ensures ok
      ensures mem == Rewritten(old(mem), r, vpn, e)
    {
      LeafTarget(mem, role, r, vpn);
      WalkRole(mem, role, r, vpn);
      RewriteStep(mem, role, refs, r, vpn, ZERO);
      var slot := LowTable(mem, r, vpn).value;
      mem := SetEntry(mem, slot, Px0(vpn), ZERO);
      assert Leaf(mem, r, vpn) == ZERO && LowTable(mem, r, vpn) == Some(slot);
      var again := LowTable(mem, r, vpn);
      ok := again.Some?;
      if ok {
        SetTwice(old(mem), slot, Px0(vpn), ZERO, e);
        mem := SetEntry(mem, again.value, Px0(vpn), e);
      }
    }

    /** kalloc and memmove: a copy of the shared page, not yet mapped. */
    method HoldCopy(r: nat, vpn: nat, pte: Pte) returns (page: Option<nat>)
      requires Valid() && IsRoot(role, r) && vpn < MAXVPN && pte == Leaf(mem, r, vpn)
      requires Maps(mem, role, r, vpn, pte.ppn) && pte.ppn < |fr| && fr[pte.ppn] != 1
      modifies this
      ensures page.None? <==> old(free) == []
      ensures page.None? ==> View() == old(View())
      ensures page.Some? ==> var c := page.value;
        && Valid() && Leaf(mem, r, vpn) == pte && IsRoot(role, r)
        && pte.ppn < |fr| && fr[pte.ppn] > 0 && c < |role| == |refs| == |fr|
        && var t := Split(View(), r, vpn, c);
           Inv(t) && KeptBut(old(View()), t, r, vpn, vpn + 1) && Writable(old(View()), t, r, vpn)
      ensures page.Some? ==> old(role)[page.value].Free? && NoneLost(old(role)[page.value := Held], role)
    {
      ghost var s := View();
      SharedCount(s, pte.ppn);
      page := Kalloc();
      if page.None? {
        return;
      }
      ghost var held := View();
      mem := mem[page.value := mem[pte.ppn]];
      CopiedPage(s, held, View(), r, vpn, page.value);
    }

    /** The copying branch of handleCOW. */
    method CopyPage(r: nat, vpn: nat, pte: Pte) returns (ok: bool)
      requires Valid() && IsRoot(role, r) && vpn < MAXVPN && pte == Leaf(mem, r, vpn)
      requires Maps(mem, role, r, vpn, pte.ppn) && pte.ppn < |fr| && fr[pte.ppn] != 1
      modifies this
      ensures ok <==> old(free) != []
      ensures !ok ==> View() == old(View())
      ensures ok ==> Valid() && KeptBut(old(View()), View(), r, vpn, vpn + 1) && Writable(old(View()), View(), r, vpn)
      ensures NoneLost(old(role), role)
    {
      var page := HoldCopy(r, vpn, pte);
      if page.None? {
        return false;
      }
      ghost var copied := View();
      var c := page.value;
      ok := Remap(r, vpn, pte.(cow := false, w := true, ppn := c));
      fr := fr[pte.ppn := fr[pte.ppn] - 1];
      role, refs := role[c := User], refs[pte.ppn := refs[pte.ppn] - {(r, vpn)}][c := {(r, vpn)}];
      assert View() == Split(copied, r, vpn, c);
    }

    /** handleCOW. The source reads the entry before it tests the pointer walk returned, so an address below MAXVA
        whose tables do not exist makes the kernel itself read address 0. */
    method HandleCow(r: nat, va: nat) returns (rc: Handled)
      requires Valid() && IsRoot(role, r)
      modifies this
      ensures Valid()
      ensures rc == NullEntry <==> va / PGSIZE < MAXVPN && LowTable(old(mem), r, va / PGSIZE).None?
      ensures rc == Repaired <==> va / PGSIZE < MAXVPN && CanUnshare(old(View()), r, va / PGSIZE)
      ensures rc != Repaired ==> View() == old(View())
      ensures rc == Repaired ==> Writable(old(View()), View(), r, va / PGSIZE)
      ensures rc == Repaired ==> KeptBut(old(View()), View(), r, va / PGSIZE, va / PGSIZE + 1)
      ensures NoneLost(old(role), role)
    {
      var vpn := va / PGSIZE;
      if vpn >= MAXVPN {
        return Killed;
      }
      WalkRole(mem, role, r, vpn);
      var slot := LowTable(mem, r, vpn);
      if slot.None? {
        return NullEntry;
      }
      var pte := mem[slot.value].ptes[Px0(vpn)];
      if vpn == 0 || !pte.cow || !pte.v || !pte.u {
        return Killed;
      }
      LeafTarget(mem, role, r, vpn);
      SharedCount(View(), pte.ppn);
      var ok := Unshare(r, vpn);
      rc := if ok then Repaired else Killed;
    }

    /** A one-byte store by user code: done by the hardware if the page is writable, otherwise after
        the fault handler has made it so. */
    method Store(r: nat, va: nat, byte: int) returns (rc: Handled)
      requires Valid() && IsRoot(role, r)
      modifies this
      ensures Valid() && (rc != Repaired ==> View() == old(View()))
      ensures rc == NullEntry <==> va / PGSIZE < MAXVPN && LowTable(old(mem), r, va / PGSIZE).None?
      ensures rc == Repaired <==> va / PGSIZE < MAXVPN && MayStore(old(View()), r, va / PGSIZE)
      ensures rc == Repaired ==> KeptBut(old(View()), View(), r, va / PGSIZE, va / PGSIZE + 1)
      ensures rc == Repaired ==> StoredByte(old(View()), View(), r, va, byte)
      ensures NoneLost(old(role), role)
    {
      ghost var s := View();
      var vpn := va / PGSIZE;
      if vpn < MAXVPN && HardwareWritable(Leaf(mem, r, vpn)) {
        GrewRefl(s);
        KeptByGrowth(s, s, r, vpn);
        KeptWider(s, s, r, vpn);
        LeafTarget(mem, role, r, vpn);
      } else {
        rc := HandleCow(r, va);
        if rc != Repaired {
          return;
        }
      }
      WriteByte(r, vpn, va % PGSIZE, byte, s);
      rc := Repaired;
    }

    /** The store itself, through a writable mapping. */
    method WriteByte(r: nat, vpn: nat, off: nat, byte: int, ghost s: St)
      requires Valid() && IsRoot(role, r) && vpn < MAXVPN && off < PGSIZE
      requires Maps(mem, role, r, vpn, Leaf(mem, r, vpn).ppn) && HardwareWritable(Leaf(mem, r, vpn))
      requires Inv(s) && IsRoot(s.role, r) && KeptBut(s, View(), r, vpn, vpn + 1)
      modifies this`mem
      ensures Valid() && KeptBut(s, View(), r, vpn, vpn + 1)
      ensures var p := Leaf(old(mem), r, vpn).ppn;
        && p < |old(mem)| && old(mem)[p].Data? && |old(mem)[p].bytes| == PGSIZE
        && Contents(View(), r, vpn) == Some(old(mem)[p].bytes[off := byte])
    {
      ghost var t := View();
      var p := Leaf(mem, r, vpn).ppn;
      assert PageOk(mem, role, p);
      WriteStep(t, r, vpn, off, byte);
      mem := mem[p := Data(mem[p].bytes[off := byte])];
      KeptAgain(s, t, View(), r, vpn, vpn + 1, vpn, vpn + 1);
    }

    /** copyout of one byte: walkaddr asks for a valid user page and not for a writable one. */
    method CopyoutByte(r: nat, va: nat, byte: int) returns (ok: bool)
      requires Valid() && IsRoot(role, r)
      modifies this`mem
      ensures Valid()
      ensures ok <==> va / PGSIZE < MAXVPN && Leaf(old(mem), r, va / PGSIZE).v && Leaf(old(mem), r, va / PGSIZE).u
      ensures !ok ==> mem == old(mem)
      ensures ok ==> var p := Leaf(old(mem), r, va / PGSIZE).ppn;
        && Maps(old(mem), role, r, va / PGSIZE, p)
        && p < |old(mem)| && old(mem)[p].Data? && |old(mem)[p].bytes| == PGSIZE
        && View() == Poked(old(View()), p, va % PGSIZE, byte)
    {
      var vpn := va / PGSIZE;
      if vpn >= MAXVPN || !Leaf(mem, r, vpn).v || !Leaf(mem, r, vpn).u {
        return false;
      }
      LeafTarget(mem, role, r, vpn);
      var p := Leaf(mem, r, vpn).ppn;
      PokeStep(View(), p, va % PGSIZE, byte);
      mem := mem[p := Data(mem[p].bytes[va % PGSIZE := byte])];
      ok := true;
    }

    // -------------------------------------------------------------- tearing down

    /** pagetable[i] = 0 in a table that has been taken out of its tree. */
    method ClearEntry(p: nat, i: nat)
      requires Valid() && p < |role| && role[p].Held? && p < |mem| && mem[p].Table? && i < |mem[p].ptes|
      modifies this`mem
      ensures Valid() && mem == SetEntry(old(mem), p, i, ZERO) && KeptBut(old(View()), View(), 0, 0, 0)
    {
      ghost var s := View();
      assert CountOk(fr[p], role[p], refs[p]);
      mem := SetEntry(mem, p, i, ZERO);
      AsideStep(s, View(), p);
    }

    /** freewalk on the table in page p: every table below it, then p itself, goes to the free list.
        `was` is the tree as it stood; its pages are all held by now, since nothing maps through them. */
    method Freewalk(p: nat, ghost was: St)
      requires Valid() && Inv(was) && |role| == |was.role| && p < |role| && IsTable(was.role[p])
      requires Standing(was, View(), p) && NoLeaves(was, p)
      modifies this
      ensures Valid() && KeptBut(old(View()), View(), 0, 0, 0)
      ensures SubFreed(was, old(View()), View(), p)
      decreases Height(was.role[p])
    {
      ghost var s := View();
      GrewRefl(s);
      KeptByGrowth(s, s, 0, 0);
      CutNone(was, s, p);
      var i := 0;
      while i < 512
        invariant 0 <= i <= 512 && Valid() && KeptBut(s, View(), 0, 0, 0) && Cut(was, s, View(), p, i)
      {
        ghost var t := View();
        var pte := mem[p].ptes[i];
        CutChild(was, s, t, p, i);
        if pte.v && !IsLeaf(pte) {
          Freewalk(pte.ppn, was);
          ghost var u := View();
          CutFreed(was, s, t, u, p, i);
          ClearEntry(p, i);
          KeptAgain(s, t, u, 0, 0, 0, 0, 0);
          KeptAgain(s, u, View(), 0, 0, 0, 0, 0);
        } else {
          assert !pte.v;    // the "freewalk: leaf" panic cannot happen
        }
        i := i + 1;
      }
      ghost var t := View();
      CutAll(was, s, t, p);
      FreeHeld(p);
      KeptAgain(s, t, View(), 0, 0, 0, 0, 0);
    }

    /** uvmfree: the user memory of address space r loses one reference per mapping, and every one of
        its tables goes back to the free list, exactly once. */
    method Uvmfree(r: nat, sz: nat)
      requires Valid() && IsRoot(role, r) && Up(sz) <= MAXVPN
      requires forall v: nat {:trigger Leaf(mem, r, v)} :: v < Up(sz) ==> Maps(mem, role, r, v, Leaf(mem, r, v).ppn)
      requires NotMapped(mem, r, Up(sz), MAXVPN)
      modifies this
      ensures Valid() && SpaceGone(old(View()), View(), r)
      ensures forall q: nat {:trigger role[q]} ::
          q < |role| && IsTable(old(role)[q]) && old(role)[q].root == r ==> role[q].Free?
      ensures OnlyFreed(old(role), role)
      ensures SpaceReturned(old(View()), View(), r)
    {
      ghost var s := View();
      GrewRefl(s);
      KeptByGrowth(s, s, r, 0);
      if sz > 0 {
        Uvmunmap(r, 0, Up(sz), true);
      }
      ghost var bare := View();
      assert KeptBut(s, bare, r, 0, Up(sz)) && NotMapped(mem, r, 0, MAXVPN) by {
        forall v: nat | v < MAXVPN ensures Leaf(mem, r, v) == ZERO {
          if v >= Up(sz) {
            assert Leaf(mem, r, v) == Leaf(s.mem, r, v);
          }
        }
      }
      DissolveStep(bare, r);
      role := Dissolved(role, r);
      ghost var loose := View();
      Freewalk(r, bare);
      forall q: nat | q < |role| && IsTable(s.role[q]) && s.role[q].root == r ensures role[q].Free? {
        assert bare.role[q] == s.role[q] && InSub(bare.role, r, q);
      }
      GoneAfter(s, bare, loose, View(), r, Up(sz));
      AllSpaceReturns(s, View(), r);
    }

    // -------------------------------------------------------------- the kernel's pages in a user table

    /** mappages of one of the kernel's own pages. */
    method MapKernel(r: nat, vpn: nat, c: nat, perm: Pte) returns (ok: bool)
      requires Valid() && IsRoot(role, r) && vpn < MAXVPN && Leaf(mem, r, vpn) == ZERO && perm.r && !perm.u
      requires c < |role| && role[c].Kernel?
      modifies this
      ensures Valid() && KeptBut(old(View()), View(), r, vpn, if ok then vpn + 1 else vpn)
      ensures ok ==> Leaf(mem, r, vpn) == perm.(v := true, ppn := c) && LowTable(mem, r, vpn).Some?
      ensures old(LowTable(mem, r, vpn).Some?) ==> ok
      ensures if ok then |old(free)| <= |free| + 2 else |old(free)| < 2
      ensures forall p: nat {:trigger role[p]} ::
          p < |role| && (old(role)[p].Kernel? || old(role)[p].Held?) ==> role[p] == old(role)[p]
      ensures NoneLost(old(role), role)
    {
      ghost var s := View();
      ghost var walked;
      ok, walked := Mappages(r, vpn, c, perm);
      KeptByGrowth(s, walked, r, vpn);
      assert walked.role[c] == s.role[c] && IsRoot(walked.role, r) && Leaf(walked.mem, r, vpn) == ZERO;
      if ok {
        MapKernelStep(walked, r, vpn, perm.(v := true, ppn := c));
        KeptByOne(walked, View(), r, vpn);
        KeptTrans(s, walked, View(), r, vpn, vpn, vpn + 1);
      }
    }

    /** An address space that maps the trampoline and a trapframe, for the supervisor only. */
    ghost predicate HasKernelPages(r: nat, trampoline: nat, trapframe: nat)
      reads this
    {
      && IsRoot(role, r) && Leaf(mem, r, TRAMPOLINE) == Pte(true, true, false, true, false, false, trampoline)
      && Leaf(mem, r, TRAPFRAME) == Pte(true, true, true, false, false, false, trapframe)
      && trampoline < |role| && role[trampoline].Kernel? && trapframe < |role| && role[trapframe].Kernel?
    }

    /** proc_pagetable. The branch for a trapframe that cannot be mapped is never taken: the two pages share their
        tables. */
    method ProcPagetable(trampoline: nat, trapframe: nat) returns (r: Option<nat>)
      requires Valid() && trampoline < |role| && role[trampoline].Kernel? && trapframe < |role| && role[trapframe].Held?
      modifies this
      ensures Valid() && SameViews(old(View()), View())
      ensures r.None? ==> |old(free)| < 3
      ensures r.Some? ==> !IsRoot(old(role), r.value) && HasKernelPages(r.value, trampoline, trapframe)
      ensures r.Some? ==> NotMapped(mem, r.value, 0, TRAPFRAME)
      ensures NoneLost(if r.Some? then old(role)[trapframe := Kernel] else old(role), role)
    {
      ghost var s := View();
      r := Uvmcreate();
      if r.None? {
        return;
      }
      ghost var empty := View();
      var ok := MapKernel(r.value, TRAMPOLINE, trampoline, Pte(true, true, false, true, false, false, 0));
      SameViewsBut(s, empty, View(), r.value, TRAMPOLINE, TRAMPOLINE + 1);
      if !ok {
        ghost var t := View();
        Uvmfree(r.value, 0);
        SameViewsGone(s, t, View(), r.value);
        return None;
      }
      ghost var t := View();
      MapTrapframe(r.value, trapframe);
      SameViewsBut(s, t, View(), r.value, TRAPFRAME, TRAPFRAME + 1);
    }

    method MapTrapframe(r: nat, trapframe: nat)
      requires Valid() && IsRoot(role, r) && Leaf(mem, r, TRAPFRAME) == ZERO && LowTable(mem, r, TRAMPOLINE).Some?
      requires trapframe < |role| && role[trapframe].Held?
      modifies this
      ensures Valid() && KeptBut(old(View()), View(), r, TRAPFRAME, TRAPFRAME + 1)
      ensures Leaf(mem, r, TRAPFRAME) == Pte(true, true, true, false, false, false, trapframe)
      ensures trapframe < |role| && role[trapframe].Kernel?
      ensures forall p: nat {:trigger role[p]} :: p < |role| && old(role)[p].Kernel? ==> role[p].Kernel?
      ensures NoneLost(old(role)[trapframe := Kernel], role)
    {
      ghost var s := View();
      KeepStep(s, trapframe);
      role := role[trapframe := Kernel];
      ghost var t := View();
      assert LowTable(mem, r, TRAPFRAME) == LowTable(mem, r, TRAMPOLINE) by {
        assert Px2(TRAPFRAME) == Px2(TRAMPOLINE) && Px1(TRAPFRAME) == Px1(TRAMPOLINE);
      }
      var ok := MapKernel(r, TRAPFRAME, trapframe, Pte(true, true, true, false, false, false, 0));
      if !ok {
        assert false;
      }
      KeptTrans(s, t, View(), r, TRAPFRAME, TRAPFRAME, TRAPFRAME + 1);
    }

    /** proc_freepagetable. */
    method ProcFreepagetable(r: nat, sz: nat, ghost trampoline: nat, ghost trapframe: nat)
      requires Valid() && HasKernelPages(r, trampoline, trapframe) && Up(sz) <= TRAPFRAME
      requires forall v: nat {:trigger Leaf(mem, r, v)} :: v < Up(sz) ==> Maps(mem, role, r, v, Leaf(mem, r, v).ppn)
      requires NotMapped(mem, r, Up(sz), TRAPFRAME)
      modifies this
      ensures Valid() && SpaceGone(old(View()), View(), r)
      ensures forall q: nat {:trigger role[q]} ::
          q < |role| && IsTable(old(role)[q]) && old(role)[q].root == r ==> role[q].Free?
      ensures OnlyFreed(old(role), role)
      ensures SpaceReturned(old(View()), View(), r)
    {
      ghost var s := View();
      Uvmunmap(r, TRAMPOLINE, 1, false);
      ghost var t := View();
      Uvmunmap(r, TRAPFRAME, 1, false);
      ghost var u := View();
      forall v: nat | v < MAXVPN && v != TRAMPOLINE && v != TRAPFRAME ensures Leaf(u.mem, r, v) == Leaf(s.mem, r, v) {
        assert Leaf(t.mem, r, v) == Leaf(s.mem, r, v);
      }
      assert Leaf(u.mem, r, TRAMPOLINE) == Leaf(t.mem, r, TRAMPOLINE);
      Uvmfree(r, sz);
      GoneBut(t, u, View(), r, TRAPFRAME, TRAPFRAME + 1);
      GoneBut(s, t, View(), r, TRAMPOLINE, TRAMPOLINE + 1);
      AllSpaceReturns(s, View(), r);
    }
  }
}

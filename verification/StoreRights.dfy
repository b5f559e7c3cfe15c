/** Who may store where after a fork, and what the kernel's own writes do to shared pages. */
module StoreRights {
  import opened Frames
  import opened Spaces
  import opened Sv39
  import opened Vm

  // ---------------------------------------------------------------- fork

  /** The pages of the parent up to page n are mapped user memory. */
  ghost predicate Populated(s: St, parent: nat, n: nat) {
    n <= MAXVPN && forall v: nat {:trigger Leaf(s.mem, parent, v)} ::
      v < n ==> Maps(s.mem, s.role, parent, v, Leaf(s.mem, parent, v).ppn)
  }

  /** After a fork no page the two share is private. */
  lemma SharedIsNotPrivate(s: St, t: St, parent: nat, child: nat, n: nat, b: nat)
    requires Inv(s) && Inv(t) && Forked(s, t, parent, child, n, n) && Populated(s, parent, n) && b < n
    requires IsRoot(s.role, parent) && IsRoot(s.role, child) && parent != child
    ensures !Private(t, Leaf(s.mem, parent, b))
  {
    var p := Leaf(s.mem, parent, b).ppn;
    assert Maps(s.mem, s.role, parent, b, p) && t.role[p].User?;
    assert IsRoot(t.role, parent) && IsRoot(t.role, child);
    assert Leaf(t.mem, parent, b) == Cow(Leaf(s.mem, parent, b)) == Leaf(t.mem, child, b);
    assert Maps(t.mem, t.role, parent, b, p) && Maps(t.mem, t.role, child, b, p);
    assert CountOk(t.fr[p], t.role[p], t.refs[p]);
    assert (child, b) in t.refs[p];
    if t.fr[p] == 1 {
      OnlyRef(t.refs[p], (parent, b));
    }
  }

  /** After a fork, parent and child may store to a page they share exactly if it is a user page other than page 0
      and there is a page for the copy; whether it was writable before plays no part. */
  lemma StoreAfterFork(s: St, t: St, parent: nat, child: nat, n: nat, a: nat, b: nat)
    requires Inv(s) && Inv(t) && Forked(s, t, parent, child, n, n) && Populated(s, parent, n) && b < n
    requires IsRoot(s.role, parent) && IsRoot(s.role, child) && parent != child && (a == parent || a == child)
    ensures MayStore(t, a, b) <==> b > 0 && Leaf(s.mem, parent, b).u && t.free != []
  {
    SharedIsNotPrivate(s, t, parent, child, n, b);
    assert Leaf(t.mem, a, b) == Cow(Leaf(s.mem, parent, b));
    assert Maps(s.mem, s.role, parent, b, Leaf(s.mem, parent, b).ppn);
  }

  /** So fork leaves the parent's right to store to page b as it was exactly in these cases, given what memory it
      leaves. */
  lemma StoreRightsKeptIff(s: St, t: St, parent: nat, child: nat, n: nat, b: nat)
    requires Inv(s) && Inv(t) && Forked(s, t, parent, child, n, n) && Populated(s, parent, n) && b < n
    requires IsRoot(s.role, parent) && IsRoot(s.role, child) && parent != child
    ensures var e := Leaf(s.mem, parent, b);
      (MayStore(t, parent, b) <==> MayStore(s, parent, b)) <==>
        || !e.u
        || (b == 0 && !e.w)
        || (b > 0 && t.free != [] && (e.w || (e.cow && (Private(s, e) || s.free != []))))
        || (b > 0 && t.free == [] && !e.w && (e.cow ==> !Private(s, e) && s.free == []))
  {
    StoreAfterFork(s, t, parent, child, n, parent, b);
    assert Maps(s.mem, s.role, parent, b, Leaf(s.mem, parent, b).ppn);
  }

  /** With memory for the fork and a copy, this can be told before the call: rights are kept exactly on pages that are
      not the user's, on page 0 if it was read-only, and on other pages that were writable or copy-on-write. */
  lemma StoreRightsKeptBefore(s: St, t: St, parent: nat, child: nat, n: nat, b: nat)
    requires Inv(s) && Inv(t) && Forked(s, t, parent, child, n, n) && Populated(s, parent, n) && b < n
    requires IsRoot(s.role, parent) && IsRoot(s.role, child) && parent != child
    requires 2 * n < |s.free| <= |t.free| + 2 * n
    ensures var e := Leaf(s.mem, parent, b);
      (MayStore(t, parent, b) <==> MayStore(s, parent, b)) <==>
        !e.u || (b == 0 && !e.w) || (b > 0 && (e.w || e.cow))
  {
    StoreRightsKeptIff(s, t, parent, child, n, b);
  }

  /** The same of the code: a fork with memory to spare succeeds and keeps the right exactly then. */
  method ForkKeepsRight(vm: Vm, parent: nat, child: nat, sz: nat, b: nat) returns (ok: bool, ghost kept: bool)
    requires vm.Valid() && IsRoot(vm.role, parent) && IsRoot(vm.role, child) && parent != child && Up(sz) <= MAXVPN
    requires Populated(vm.View(), parent, Up(sz)) && NotMapped(vm.mem, child, 0, Up(sz)) && b < Up(sz)
    requires |vm.free| > 2 * Up(sz)
    modifies vm
    ensures ok && vm.Valid() && (kept <==> (MayStore(vm.View(), parent, b) <==> MayStore(old(vm.View()), parent, b)))
    ensures var e := Leaf(old(vm.mem), parent, b); kept <==> !e.u || (b == 0 && !e.w) || (b > 0 && (e.w || e.cow))
  {
    ghost var s := vm.View();
    ghost var k;
    ok, k := vm.Uvmcopy(parent, child, sz);
    StoreRightsKeptBefore(s, vm.View(), parent, child, Up(sz), b);
    kept := MayStore(vm.View(), parent, b) <==> MayStore(s, parent, b);
  }

  /** Two pages of memory for the parent, with the permissions asked for, and an empty child. */
  method TwoSpaces(vm: Vm, perm: Pte) returns (parent: nat, child: nat)
    requires vm.Valid() && |vm.free| >= 20 && perm.r && !perm.cow
    modifies vm
    ensures vm.Valid() && |vm.free| >= 12 && parent != child && IsRoot(vm.role, parent) && IsRoot(vm.role, child)
    ensures FreshRange(vm.View(), parent, 0, 2, perm) && NotMapped(vm.mem, child, 0, MAXVPN)
  {
    var p := vm.Uvmcreate();
    var c := vm.Uvmcreate();
    parent, child := p.value, c.value;
    ghost var s := vm.View();
    assert NotMapped(vm.mem, parent, 0, MAXVPN);
    var sz, ok := vm.Uvmalloc(parent, 0, 2 * PGSIZE, perm);
    assert IsRoot(vm.role, child) && IsRoot(vm.role, parent);
    forall v: nat | v < MAXVPN ensures Leaf(vm.mem, child, v) == ZERO {
      assert Leaf(s.mem, child, v) == ZERO && !InRange(parent, 0, 2, child, v);
    }
  }

  /** What the fork makes of page b of the parent. */
  method ForkPage(vm: Vm, parent: nat, child: nat, sz: nat, b: nat) returns (ok: bool)
    requires vm.Valid() && IsRoot(vm.role, parent) && IsRoot(vm.role, child) && parent != child && Up(sz) <= MAXVPN
    requires Populated(vm.View(), parent, Up(sz)) && NotMapped(vm.mem, child, 0, Up(sz)) && b < Up(sz)
    modifies vm
    ensures vm.Valid() && (ok ==> IsRoot(vm.role, parent))
    ensures ok ==> SharedAs(Leaf(old(vm.mem), parent, b), Leaf(vm.mem, parent, b))
    ensures ok ==> Contents(vm.View(), parent, b) == Contents(old(vm.View()), parent, b)
    ensures |old(vm.free)| > 2 * Up(sz) ==> ok && vm.free != []
  {
    ghost var s := vm.View();
    ghost var k;
    ok, k := vm.Uvmcopy(parent, child, sz);
    if ok {
      assert Maps(s.mem, s.role, parent, b, Leaf(s.mem, parent, b).ppn);
      StoreAfterFork(s, vm.View(), parent, child, Up(sz), parent, b);
      assert IsRoot(vm.role, parent) && Leaf(vm.mem, parent, b).ppn == Leaf(s.mem, parent, b).ppn;
    }
  }

  /** The fork and then a store to page b by the parent. */
  method ForkAndStore(vm: Vm, parent: nat, child: nat, b: nat, byte: int) returns (rc: Handled)
    requires vm.Valid() && |vm.free| >= 12 && parent != child && IsRoot(vm.role, parent) && IsRoot(vm.role, child)
    requires Populated(vm.View(), parent, 2) && NotMapped(vm.mem, child, 0, MAXVPN) && b < 2
    modifies vm
    ensures vm.Valid() && (rc == Repaired <==> b > 0 && Leaf(old(vm.mem), parent, b).u) && rc != NullEntry
  {
    assert Up(2 * PGSIZE) == 2 && Maps(vm.mem, vm.role, parent, b, Leaf(vm.mem, parent, b).ppn);
    var ok := ForkPage(vm, parent, child, 2 * PGSIZE, b);
    rc := vm.Store(parent, b * PGSIZE, byte);
  }

  /** A fork and the repair of a page that was writable before it: the entry is what it was before the fork, but for the
      page it names, and so is what it shows. */
  method ForkAndRepair(vm: Vm, parent: nat, child: nat, sz: nat, b: nat) returns (ok: bool, rc: Handled)
    requires vm.Valid() && IsRoot(vm.role, parent) && IsRoot(vm.role, child) && parent != child && Up(sz) <= MAXVPN
    requires Populated(vm.View(), parent, Up(sz)) && NotMapped(vm.mem, child, 0, Up(sz)) && b < Up(sz)
    requires Leaf(vm.mem, parent, b).w
    modifies vm
    ensures vm.Valid() && (ok && rc == Repaired ==>
      var o, e := Leaf(old(vm.mem), parent, b), Leaf(vm.mem, parent, b);
      && e.v == o.v && e.r == o.r && e.w == o.w && e.x == o.x && e.u == o.u && e.cow == o.cow
      && Contents(vm.View(), parent, b) == Contents(old(vm.View()), parent, b))
    ensures |old(vm.free)| > 2 * Up(sz) && b > 0 && Leaf(old(vm.mem), parent, b).u ==> ok && rc == Repaired
  {
    rc := Killed;
    assert Maps(vm.mem, vm.role, parent, b, Leaf(vm.mem, parent, b).ppn);
    ok := ForkPage(vm, parent, child, sz, b);
    if ok {
      rc := vm.HandleCow(parent, b * PGSIZE);
    }
  }

  /** A process that could store to its page 0 is killed for it once it has forked. */
  method ForkTakesPageZero(vm: Vm, byte: int) returns (ghost could: bool, rc: Handled)
    requires vm.Valid() && |vm.free| >= 20
    modifies vm
    ensures could && rc == Killed
  {
    var parent, child := TwoSpaces(vm, Pte(true, true, true, false, true, false, 0));
    could := MayStore(vm.View(), parent, 0);
    rc := ForkAndStore(vm, parent, child, 0, byte);
  }

  /** And a process that could not store to a read-only page can once it has forked. */
  method ForkOpensReadOnlyPage(vm: Vm, byte: int) returns (ghost could: bool, rc: Handled)
    requires vm.Valid() && |vm.free| >= 20
    modifies vm
    ensures !could && rc == Repaired
  {
    var parent, child := TwoSpaces(vm, Pte(true, true, false, false, true, false, 0));
    could := MayStore(vm.View(), parent, 1);
    rc := ForkAndStore(vm, parent, child, 1, byte);
  }

  /** In a new address space every store below MAXVA makes the handler read a null entry. */
  method NewSpaceHasNoTables(vm: Vm, va: nat, byte: int) returns (rc: Handled)
    requires vm.Valid() && vm.free != [] && va / PGSIZE < MAXVPN
    modifies vm
    ensures rc == NullEntry
  {
    var r := vm.Uvmcreate();
    rc := vm.Store(r.value, va, byte);
  }

  // ---------------------------------------------------------------- writes by the kernel

  /** One byte of copyout: the kernel writes through the physical address, whatever the entry says about writing. */
  lemma KernelWriteIsolatedIff(s: St, r: nat, v: nat, off: nat, byte: int)
    requires Inv(s) && Maps(s.mem, s.role, r, v, Leaf(s.mem, r, v).ppn) && off < PGSIZE
    ensures var p := Leaf(s.mem, r, v).ppn;
      && p < |s.mem| == |s.fr| && s.mem[p].Data? && |s.mem[p].bytes| == PGSIZE
      && var t := Poked(s, p, off, byte);
      && Inv(t)
      && (byte != s.mem[p].bytes[off] ==>
           (OthersSeeTheSame(s, t, r, v) <==> s.fr[p] == 1))
  {
    var p := Leaf(s.mem, r, v).ppn;
    PokeStep(s, p, off, byte);
    var t := Poked(s, p, off, byte);
    assert CountOk(s.fr[p], s.role[p], s.refs[p]) && (r, v) in s.refs[p];
    if byte != s.mem[p].bytes[off] {
      assert t.mem[p].bytes[off] != s.mem[p].bytes[off];
      if s.fr[p] == 1 {
        OnlyRef(s.refs[p], (r, v));
        forall q: nat, a: nat, b: nat | Maps(s.mem, s.role, a, b, q) && (a, b) != (r, v) ensures t.mem[q] == s.mem[q] {
          assert (a, b) in s.refs[q];
        }
      } else {
        var other := AnotherRef(s.refs[p], (r, v));
        assert Maps(s.mem, s.role, other.0, other.1, p);
      }
    }
  }

  /** Every mapping but that of page v of address space r shows the bytes it showed. */
  ghost predicate OthersSeeTheSame(s: St, t: St, r: nat, v: nat) {
    forall q: nat, a: nat, b: nat {:trigger Maps(s.mem, s.role, a, b, q)} ::
      Maps(s.mem, s.role, a, b, q) && (a, b) != (r, v) && q < |s.mem| == |t.mem| ==> t.mem[q] == s.mem[q]
  }

  lemma AnotherRef(refs: set<Ref>, k: Ref) returns (other: Ref)
    requires k in refs && |refs| != 1
    ensures other in refs && other != k
  {
    assert |refs - {k}| == |refs| - 1 > 0;
    other :| other in refs - {k};
  }
}

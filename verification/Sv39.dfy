/** The three-level page tables of kernel/vm.c as they lie in physical memory, and the flat map
    from pages to page-table entries that they stand for (Sv39, section 4.4 of the RISC-V
    Privileged Architecture). Pages are numbered; a virtual page number is va / PGSIZE. */
module Sv39 {
  import opened Basics

  const PGSIZE: nat := 4096
  const MAXVPN: nat := 0x400_0000    // MAXVA / PGSIZE, one bit less than Sv39 allows

  datatype Pte = Pte(v: bool, r: bool, w: bool, x: bool, u: bool, cow: bool, ppn: nat)

  const ZERO := Pte(false, false, false, false, false, false, 0)

  datatype Page = Data(bytes: seq<int>) | Table(ptes: seq<Pte>)

  type Mem = seq<Page>

  /** Is the entry a leaf, that is, not a pointer to a lower table? */
  predicate IsLeaf(e: Pte) {
    e.r || e.w || e.x
  }

  /** The three 9-bit indices of a virtual page number. */
  function Px2(vpn: nat): nat { vpn / 0x4_0000 % 512 }
  function Px1(vpn: nat): nat { vpn / 512 % 512 }
  function Px0(vpn: nat): nat { vpn % 512 }

  function Vpn(i2: nat, i1: nat, i0: nat): nat { i2 * 0x4_0000 + i1 * 512 + i0 }

  lemma PxOfVpn(i2: nat, i1: nat, i0: nat)
    requires i2 < 256 && i1 < 512 && i0 < 512
    ensures Vpn(i2, i1, i0) < MAXVPN
    ensures Px2(Vpn(i2, i1, i0)) == i2 && Px1(Vpn(i2, i1, i0)) == i1 && Px0(Vpn(i2, i1, i0)) == i0
  {
  }

  lemma Px2Small(vpn: nat)
    requires vpn < MAXVPN
    ensures Px2(vpn) < 256
  {
  }

  lemma PxInjective(a: nat, b: nat)
    requires a < MAXVPN && b < MAXVPN
    requires Px2(a) == Px2(b) && Px1(a) == Px1(b) && Px0(a) == Px0(b)
    ensures a == b
  {
    assert a / 0x4_0000 < 512 && b / 0x4_0000 < 512;
    assert a / 512 / 512 == a / 0x4_0000 && b / 512 / 512 == b / 0x4_0000;
  }

  /** The i-th entry of the table in page p. */
  function Entry(mem: Mem, p: nat, i: nat): Pte {
    if p < |mem| && mem[p].Table? && i < |mem[p].ptes| then mem[p].ptes[i] else ZERO
  }

  function SetEntry(mem: Mem, p: nat, i: nat, e: Pte): Mem
    requires p < |mem| && mem[p].Table? && i < |mem[p].ptes|
  {
    mem[p := Table(mem[p].ptes[i := e])]
  }


  /** What a page is for: on the free list; allocated and not yet placed; the kernel's own; mapped
      user memory; or a table: the root of address space r, the table its entry i points to, or
      the table that one's entry j points to. */
  datatype Role = Free | Held | Kernel | User | Top(root: nat) | Mid(root: nat, i: nat) | Low(root: nat, i: nat, j: nat)

  predicate IsTable(role: Role) {
    role.Top? || role.Mid? || role.Low?
  }

  /** The level-0 table for vpn under root r, if the intermediate tables exist. */
  function LowTable(mem: Mem, r: nat, vpn: nat): Option<nat> {
    var e2 := Entry(mem, r, Px2(vpn));
    if !e2.v then None else
      var e1 := Entry(mem, e2.ppn, Px1(vpn));
      if !e1.v then None else Some(e1.ppn)
  }

  /** The flat map: the leaf entry for vpn under root r, zero where there is none. */
  function Leaf(mem: Mem, r: nat, vpn: nat): Pte {
    match LowTable(mem, r, vpn)
    case None => ZERO
    case Some(p) => Entry(mem, p, Px0(vpn))
  }

  // ---------------------------------------------------------------- well-formed trees

  /** Leaves are readable and point to user memory, or to the kernel's own pages without the U bit. */
  predicate Mappable(role: Role, e: Pte) {
    e.r && (role.User? || (role.Kernel? && !e.u))
  }

  predicate EntryOk(mem: Mem, role: seq<Role>, p: nat, i: nat)
    requires |role| == |mem| && p < |mem|
  {
    var e := Entry(mem, p, i);
    if !IsTable(role[p]) then true
    else if !e.v then e == ZERO
    else if e.ppn >= |mem| then false
    else
      match role[p]
      case Top(r) => !IsLeaf(e) && !e.u && !e.cow && role[e.ppn] == Mid(r, i)
      case Mid(r, k) => !IsLeaf(e) && !e.u && !e.cow && role[e.ppn] == Low(r, k, i)
      case _ => IsLeaf(e) && Mappable(role[e.ppn], e)
  }

  /** The page is what its role says, and the entry that makes it part of a tree points to it. */
  predicate PageOk(mem: Mem, role: seq<Role>, p: nat)
    requires |role| == |mem| && p < |mem|
  {
    match role[p]
    case Free => true
    case Held => true
    case Kernel => true
    case User => mem[p].Data? && |mem[p].bytes| == PGSIZE
    case Top(r) => r == p && mem[p].Table? && |mem[p].ptes| == 512
    case Mid(r, i) =>
      && mem[p].Table? && |mem[p].ptes| == 512 && i < 256
      && r < |mem| && role[r] == Top(r) && Entry(mem, r, i).v && Entry(mem, r, i).ppn == p
    case Low(r, i, j) =>
      && mem[p].Table? && |mem[p].ptes| == 512 && i < 256 && j < 512
      && r < |mem| && role[r] == Top(r) && Entry(mem, r, i).v
      && var q := Entry(mem, r, i).ppn;
         Entry(mem, q, j).v && Entry(mem, q, j).ppn == p
  }

  predicate TreeOk(mem: Mem, role: seq<Role>) {
    && |role| == |mem|
    && (forall p: nat {:trigger PageOk(mem, role, p)} :: p < |mem| ==> PageOk(mem, role, p))
    && (forall p: nat, i: nat {:trigger EntryOk(mem, role, p, i)} :: p < |mem| && i < 512 ==> EntryOk(mem, role, p, i))
  }

  predicate IsRoot(role: seq<Role>, r: nat) {
    r < |role| && role[r] == Top(r)
  }

  /** Where the walk for vpn ends, it ends in the table that carries vpn's own indices. */
  lemma WalkRole(mem: Mem, role: seq<Role>, r: nat, vpn: nat)
    requires TreeOk(mem, role) && IsRoot(role, r) && vpn < MAXVPN
    ensures match LowTable(mem, r, vpn)
            case None => true
            case Some(p) => p < |mem| && role[p] == Low(r, Px2(vpn), Px1(vpn)) && mem[p].Table? && |mem[p].ptes| == 512
  {
    assert EntryOk(mem, role, r, Px2(vpn)) && PageOk(mem, role, r);
    var e2 := Entry(mem, r, Px2(vpn));
    if e2.v {
      assert EntryOk(mem, role, e2.ppn, Px1(vpn)) && PageOk(mem, role, e2.ppn);
      var e1 := Entry(mem, e2.ppn, Px1(vpn));
      if e1.v {
        assert PageOk(mem, role, e1.ppn);
      }
    }
  }

  /** Distinct pages, of one address space or of two, never share a leaf slot. */
  lemma SlotsAreDistinct(mem: Mem, role: seq<Role>, r: nat, a: nat, s: nat, b: nat)
    requires TreeOk(mem, role) && IsRoot(role, r) && IsRoot(role, s) && a < MAXVPN && b < MAXVPN
    requires LowTable(mem, r, a).Some? && LowTable(mem, r, a) == LowTable(mem, s, b) && Px0(a) == Px0(b)
    ensures r == s && a == b
  {
    WalkRole(mem, role, r, a);
    WalkRole(mem, role, s, b);
    PxInjective(a, b);
  }

  /** Writing one leaf slot moves the flat map at that page only. */
  lemma LeafWrite(mem: Mem, role: seq<Role>, r: nat, vpn: nat, e: Pte)
    requires TreeOk(mem, role) && IsRoot(role, r) && vpn < MAXVPN && LowTable(mem, r, vpn).Some?
    requires if e.v then e.ppn < |mem| && IsLeaf(e) && Mappable(role[e.ppn], e) else e == ZERO
    ensures var p := LowTable(mem, r, vpn).value;
            && p < |mem| && mem[p].Table? && |mem[p].ptes| == 512
            && var mem' := SetEntry(mem, p, Px0(vpn), e);
            && TreeOk(mem', role)
            && forall s: nat, v: nat {:trigger Leaf(mem', s, v)} :: IsRoot(role, s) && v < MAXVPN ==>
                 && LowTable(mem', s, v) == LowTable(mem, s, v)
                 && Leaf(mem', s, v) == if s == r && v == vpn then e else Leaf(mem, s, v)
  {
    WalkRole(mem, role, r, vpn);
    var p, i := LowTable(mem, r, vpn).value, Px0(vpn);
    var mem' := SetEntry(mem, p, i, e);
    assert forall q: nat, k: nat :: q != p || k != i ==> Entry(mem', q, k) == Entry(mem, q, k);
    forall q: nat | q < |mem| ensures PageOk(mem', role, q) {
      assert PageOk(mem, role, q);
      LowIsNotAbove(mem, role, q, p);
    }
    forall q: nat, k: nat | q < |mem| && k < 512 ensures EntryOk(mem', role, q, k) {
      assert EntryOk(mem, role, q, k);
    }
    forall s: nat, v: nat | IsRoot(role, s) && v < MAXVPN
      ensures LowTable(mem', s, v) == LowTable(mem, s, v)
      ensures Leaf(mem', s, v) == if s == r && v == vpn then e else Leaf(mem, s, v)
    {
      WalkRole(mem, role, s, v);
      assert EntryOk(mem, role, s, Px2(v));
      if LowTable(mem, s, v) == Some(p) && Px0(v) == i {
        SlotsAreDistinct(mem, role, r, vpn, s, v);
      }
    }
  }

  /** The tables above a table are never level-0 tables. */
  lemma LowIsNotAbove(mem: Mem, role: seq<Role>, q: nat, p: nat)
    requires TreeOk(mem, role) && q < |mem| && p < |mem| && role[p].Low?
    ensures role[q].Mid? ==> role[q].root != p
    ensures role[q].Low? ==> role[q].root != p && Entry(mem, role[q].root, role[q].i).ppn != p
  {
    assert PageOk(mem, role, q);
    if role[q].Low? {
      assert EntryOk(mem, role, role[q].root, role[q].i);
    }
  }

  // ---------------------------------------------------------------- changing what is not a table

  /** Every address space is still there and maps what it did. */
  ghost predicate KeepsMap(mem: Mem, role: seq<Role>, mem': Mem, role': seq<Role>) {
    && (forall s: nat {:trigger IsRoot(role', s)} :: IsRoot(role, s) ==> IsRoot(role', s))
    && (forall s: nat, v: nat {:trigger Leaf(mem', s, v)} ::
        IsRoot(role, s) && v < MAXVPN ==> Leaf(mem', s, v) == Leaf(mem, s, v))
  }

  /** No leaf of any address space refers to page c. */
  predicate Unmapped(mem: Mem, role: seq<Role>, c: nat) {
    forall p: nat, i: nat {:trigger Entry(mem, p, i)} ::
      p < |role| && role[p].Low? && i < 512 && Entry(mem, p, i).v ==> Entry(mem, p, i).ppn != c
  }

  /** `mem'` and `role'` differ from `mem` and `role` only on page c, which is neither a table nor
      mapped, before or after. */
  predicate Aside(mem: Mem, role: seq<Role>, mem': Mem, role': seq<Role>, c: nat) {
    && |mem'| == |mem| == |role| == |role'| && c < |mem|
    && mem' == mem[c := mem'[c]] && role' == role[c := role'[c]]
    && (role[c].Free? || role[c].Held? || (role[c].User? && Unmapped(mem, role, c)))
    && (|| role'[c].Free? || role'[c].Held? || role'[c].Kernel?
        || (role'[c].User? && mem'[c].Data? && |mem'[c].bytes| == PGSIZE))
  }

  lemma AsideKeepsTree(mem: Mem, role: seq<Role>, mem': Mem, role': seq<Role>, c: nat)
    requires TreeOk(mem, role) && Aside(mem, role, mem', role', c)
    ensures TreeOk(mem', role') && KeepsMap(mem, role, mem', role')
  {
    assert forall q: nat, k: nat :: q != c ==> Entry(mem', q, k) == Entry(mem, q, k);
    forall q: nat | q < |mem| ensures PageOk(mem', role', q) {
      assert PageOk(mem, role, q);
      if role[q].Mid? || role[q].Low? {
        assert EntryOk(mem, role, role[q].root, role[q].i);
      }
    }
    forall q: nat, k: nat | q < |mem| && k < 512 ensures EntryOk(mem', role', q, k) {
      assert EntryOk(mem, role, q, k);
    }
    forall s: nat, v: nat | IsRoot(role, s) && v < MAXVPN
      ensures Leaf(mem', s, v) == Leaf(mem, s, v)
    {
      WalkRole(mem, role, s, v);
      assert EntryOk(mem, role, s, Px2(v));
    }
  }

  // ---------------------------------------------------------------- growing a tree

  function Empty(): Page {
    Table(seq(512, i => ZERO))
  }

  function Pointer(c: nat): Pte {
    Pte(true, false, false, false, false, false, c)
  }

  /** Zero page c and make entry i of table q point to it. */
  function Link(mem: Mem, q: nat, i: nat, c: nat): Mem
    requires q < |mem| && c < |mem| && q != c && mem[q].Table? && i < |mem[q].ptes|
  {
    SetEntry(mem[c := Empty()], q, i, Pointer(c))
  }

  /** The role of a table hung below entry i of table q. */
  function Below(role: Role, i: nat): Role
    requires role.Top? || role.Mid?
  {
    match role
    case Top(r) => Mid(r, i)
    case Mid(r, k) => Low(r, k, i)
  }

  lemma LinkedEntries(mem: Mem, q: nat, i: nat, c: nat)
    requires q < |mem| && c < |mem| && q != c && i < 512 && mem[q].Table? && |mem[q].ptes| == 512
    ensures var mem' := Link(mem, q, i, c);
            && (forall p: nat, k: nat {:trigger Entry(mem', p, k)} ::
                p != c && (p != q || k != i) ==> Entry(mem', p, k) == Entry(mem, p, k))
            && (forall k: nat {:trigger Entry(mem', c, k)} :: Entry(mem', c, k) == ZERO)
            && Entry(mem', q, i) == Pointer(c)
  {
  }

  lemma LinkKeepsPage(mem: Mem, role: seq<Role>, q: nat, i: nat, c: nat, p: nat)
    requires TreeOk(mem, role) && q < |mem| && c < |mem| && i < 512 && p < |mem|
    requires (role[q].Top? || role[q].Mid?) && role[c].Held? && !Entry(mem, q, i).v
    requires role[q].Top? ==> i < 256
    ensures q != c && mem[q].Table? && |mem[q].ptes| == 512
    ensures PageOk(Link(mem, q, i, c), role[c := Below(role[q], i)], p)
  {
    assert PageOk(mem, role, q) && PageOk(mem, role, p);
    LinkedEntries(mem, q, i, c);
    if role[p].Mid? || role[p].Low? {
      assert EntryOk(mem, role, role[p].root, role[p].i);
      assert PageOk(mem, role, Entry(mem, role[p].root, role[p].i).ppn);
    }
  }

  /** Hanging an empty table into a free upper entry keeps the tree and the whole flat map. */
  lemma LinkKeepsTree(mem: Mem, role: seq<Role>, q: nat, i: nat, c: nat)
    requires TreeOk(mem, role) && q < |mem| && c < |mem| && i < 512
    requires (role[q].Top? || role[q].Mid?) && role[c].Held? && !Entry(mem, q, i).v
    requires role[q].Top? ==> i < 256
    ensures q != c && mem[q].Table? && |mem[q].ptes| == 512
    ensures var mem', role' := Link(mem, q, i, c), role[c := Below(role[q], i)];
            TreeOk(mem', role') && KeepsMap(mem, role, mem', role')
  {
    assert PageOk(mem, role, q);
    var mem', role' := Link(mem, q, i, c), role[c := Below(role[q], i)];
    forall p: nat | p < |mem| ensures PageOk(mem', role', p) {
      LinkKeepsPage(mem, role, q, i, c, p);
    }
    LinkedEntries(mem, q, i, c);
    forall p: nat, k: nat | p < |mem| && k < 512 ensures EntryOk(mem', role', p, k) {
      assert EntryOk(mem, role, p, k);
    }
    forall s: nat, v: nat | IsRoot(role, s) && v < MAXVPN ensures Leaf(mem', s, v) == Leaf(mem, s, v) {
      LinkKeepsLeaf(mem, role, q, i, c, s, v);
    }
  }

  lemma LinkKeepsLeaf(mem: Mem, role: seq<Role>, q: nat, i: nat, c: nat, s: nat, v: nat)
    requires TreeOk(mem, role) && q < |mem| && c < |mem| && i < 512
    requires (role[q].Top? || role[q].Mid?) && role[c].Held? && !Entry(mem, q, i).v
    requires mem[q].Table? && |mem[q].ptes| == 512
    requires IsRoot(role, s) && v < MAXVPN
    ensures Leaf(Link(mem, q, i, c), s, v) == Leaf(mem, s, v)
  {
    LinkedEntries(mem, q, i, c);
    WalkRole(mem, role, s, v);
    assert EntryOk(mem, role, s, Px2(v));
    var e2 := Entry(mem, s, Px2(v));
    if e2.v {
      assert EntryOk(mem, role, e2.ppn, Px1(v));
    }
  }

  /** Turning a freshly allocated page into an empty root adds an address space that maps nothing. */
  lemma NewRootKeepsTree(mem: Mem, role: seq<Role>, c: nat)
    requires TreeOk(mem, role) && c < |mem| && role[c].Held?
    ensures var mem', role' := mem[c := Empty()], role[c := Top(c)];
            && TreeOk(mem', role') && KeepsMap(mem, role, mem', role')
            && forall v: nat {:trigger Leaf(mem', c, v)} :: Leaf(mem', c, v) == ZERO
  {
    var mem', role' := mem[c := Empty()], role[c := Top(c)];
    assert forall p: nat, k: nat :: p != c ==> Entry(mem', p, k) == Entry(mem, p, k);
    assert forall k: nat :: Entry(mem', c, k) == ZERO;
    forall p: nat | p < |mem| ensures PageOk(mem', role', p) {
      assert PageOk(mem, role, p);
      if role[p].Mid? || role[p].Low? {
        assert EntryOk(mem, role, role[p].root, role[p].i);
        assert PageOk(mem, role, role[p].root);
      }
    }
    forall p: nat, k: nat | p < |mem| && k < 512 ensures EntryOk(mem', role', p, k) {
      assert EntryOk(mem, role, p, k);
    }
    forall s: nat, v: nat | IsRoot(role, s) && v < MAXVPN ensures Leaf(mem', s, v) == Leaf(mem, s, v) {
      WalkRole(mem, role, s, v);
      assert EntryOk(mem, role, s, Px2(v));
      if Entry(mem, s, Px2(v)).v {
        assert PageOk(mem, role, Entry(mem, s, Px2(v)).ppn);
      }
    }
  }

  /** Every slot of a level-0 table is the leaf of some page of its address space. */
  lemma SlotIsLeaf(mem: Mem, role: seq<Role>, p: nat, i0: nat)
    requires TreeOk(mem, role) && p < |mem| && role[p].Low? && i0 < 512
    ensures var Low(r, i2, i1) := role[p];
            && IsRoot(role, r) && i2 < 256 && i1 < 512
            && Vpn(i2, i1, i0) < MAXVPN && LowTable(mem, r, Vpn(i2, i1, i0)) == Some(p)
            && Leaf(mem, r, Vpn(i2, i1, i0)) == Entry(mem, p, i0)
  {
    assert PageOk(mem, role, p);
    var Low(r, i2, i1) := role[p];
    PxOfVpn(i2, i1, i0);
  }

  lemma UnmappedIfNoLeaf(mem: Mem, role: seq<Role>, c: nat)
    requires TreeOk(mem, role)
    requires forall s: nat, v: nat :: IsRoot(role, s) && v < MAXVPN && Leaf(mem, s, v).v ==> Leaf(mem, s, v).ppn != c
    ensures Unmapped(mem, role, c)
  {
    forall p: nat, i: nat | p < |role| && role[p].Low? && i < 512 && Entry(mem, p, i).v
      ensures Entry(mem, p, i).ppn != c
    {
      SlotIsLeaf(mem, role, p, i);
    }
  }

  lemma LeafTarget(mem: Mem, role: seq<Role>, r: nat, vpn: nat)
    requires TreeOk(mem, role) && IsRoot(role, r) && vpn < MAXVPN && Leaf(mem, r, vpn).v
    ensures LowTable(mem, r, vpn).Some? && IsLeaf(Leaf(mem, r, vpn))
    ensures var e := Leaf(mem, r, vpn); e.ppn < |mem| && Mappable(role[e.ppn], e)
  {
    WalkRole(mem, role, r, vpn);
    assert EntryOk(mem, role, LowTable(mem, r, vpn).value, Px0(vpn));
  }
}

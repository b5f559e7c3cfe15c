/** Page reference counts and the free list of kernel/kalloc.c, tied to who maps what. */
module Frames {
  import opened Basics
  import opened Sv39

  /** A mapping of a user page: the root of the address space and the virtual page number. */
  type Ref = (nat, nat)

  /** Physical memory, the counts memref.fr, the free list, and what every page is for. */
  datatype St = St(mem: Mem, fr: seq<nat>, free: seq<nat>, role: seq<Role>, refs: seq<set<Ref>>)

  /** Address space r maps page v to the user page p. */
  predicate Maps(mem: Mem, role: seq<Role>, r: nat, v: nat, p: nat) {
    IsRoot(role, r) && v < MAXVPN && p < |role| && role[p].User? && Leaf(mem, r, v).v && Leaf(mem, r, v).ppn == p
  }

  predicate CountOk(n: nat, role: Role, refs: set<Ref>) {
    match role
    case Free => n == 0 && refs == {}
    case User => n == |refs| > 0
    case Kernel => refs == {}
    case _ => n == 1 && refs == {}
  }

  ghost predicate RefsOk(mem: Mem, role: seq<Role>, refs: seq<set<Ref>>) {
    |refs| == |role| &&
    forall p: nat, r: nat, v: nat {:trigger Maps(mem, role, r, v, p)} {:trigger (r, v) in refs[p]} ::
      p < |refs| ==> ((r, v) in refs[p] <==> Maps(mem, role, r, v, p))
  }

  predicate CountsOk(fr: seq<nat>, role: seq<Role>, refs: seq<set<Ref>>) {
    |fr| == |role| == |refs| && forall p: nat {:trigger fr[p]} :: p < |fr| ==> CountOk(fr[p], role[p], refs[p])
  }

  ghost predicate FreeOk(free: seq<nat>, role: seq<Role>) {
    && (forall j, k :: 0 <= j < k < |free| ==> free[j] != free[k])
    && (forall p: nat :: p in free <==> p < |role| && role[p].Free?)
  }

  /** A writable mapping of a user page is its only mapping. */
  ghost predicate WritableIsPrivate(mem: Mem, role: seq<Role>, fr: seq<nat>)
    requires |fr| == |role|
  {
    forall p: nat, r: nat, v: nat {:trigger Maps(mem, role, r, v, p)} ::
      Maps(mem, role, r, v, p) && Leaf(mem, r, v).w ==> fr[p] == 1 && !Leaf(mem, r, v).cow
  }

  /** Each page's count is its number of owning references; the free list holds exactly the pages
      with none, each once; the tables are well formed; writable pages are private. */
  ghost predicate Inv(s: St) {
    match s
    case St(mem, fr, free, role, refs) =>
      && TreeOk(mem, role)
      && CountsOk(fr, role, refs)
      && RefsOk(mem, role, refs)
      && FreeOk(free, role)
      && WritableIsPrivate(mem, role, fr)
  }

  /** Every address space that was there is still there and maps what it did, to pages whose
      contents have not changed. */
  ghost predicate SameViews(s: St, t: St) {
    && |s.role| == |t.role| == |t.mem| == |s.mem|
    && KeepsMap(s.mem, s.role, t.mem, t.role)
    && forall p: nat, r: nat, v: nat {:trigger Maps(s.mem, s.role, r, v, p)} ::
         Maps(s.mem, s.role, r, v, p) ==> t.role[p].User? && t.mem[p] == s.mem[p]
  }

  // ---------------------------------------------------------------- allocation and release

  /** Page c changes hands without being a table or mapped, before or after. */
  lemma AsideStep(s: St, t: St, c: nat)
    requires Inv(s) && Aside(s.mem, s.role, t.mem, t.role, c) && t.refs == s.refs
    requires |t.fr| == |s.fr| && t.fr == s.fr[c := t.fr[c]] && !t.role[c].User?
    requires CountOk(t.fr[c], t.role[c], {}) && FreeOk(t.free, t.role)
    requires s.refs[c] == {}
    ensures Inv(t) && SameViews(s, t)
  {
    AsideKeepsTree(s.mem, s.role, t.mem, t.role, c);
    forall p: nat, r: nat, v: nat | p < |s.refs| ensures (r, v) in s.refs[p] <==> Maps(t.mem, t.role, r, v, p)
    {
      AsideMaps(s, t, c, r, v, p);
    }
    forall p: nat, r: nat, v: nat | Maps(t.mem, t.role, r, v, p) && Leaf(t.mem, r, v).w
      ensures t.fr[p] == 1 && !Leaf(t.mem, r, v).cow
    {
      AsideMaps(s, t, c, r, v, p);
    }
    forall p: nat, r: nat, v: nat | Maps(s.mem, s.role, r, v, p) ensures t.role[p].User? && t.mem[p] == s.mem[p] {
      AsideMaps(s, t, c, r, v, p);
    }
  }

  lemma AsideMaps(s: St, t: St, c: nat, r: nat, v: nat, p: nat)
    requires Inv(s) && Aside(s.mem, s.role, t.mem, t.role, c) && !t.role[c].User? && s.refs[c] == {}
    requires KeepsMap(s.mem, s.role, t.mem, t.role) && p < |s.mem|
    ensures Maps(t.mem, t.role, r, v, p) <==> Maps(s.mem, s.role, r, v, p)
    ensures Maps(s.mem, s.role, r, v, p) <==> (r, v) in s.refs[p]
    ensures Maps(s.mem, s.role, r, v, p) ==> p != c && Leaf(t.mem, r, v) == Leaf(s.mem, r, v)
  {
    assert Maps(s.mem, s.role, r, v, p) <==> (r, v) in s.refs[p];
    assert IsRoot(t.role, r) <==> IsRoot(s.role, r);
    if IsRoot(s.role, r) && v < MAXVPN {
      assert Leaf(t.mem, r, v) == Leaf(s.mem, r, v);
    }
  }

  // ---------------------------------------------------------------- tables

  /** A held page becomes a table of an existing tree. */
  lemma LinkStep(s: St, q: nat, i: nat, c: nat)
    requires Inv(s) && q < |s.mem| && c < |s.mem| && i < 512
    requires (s.role[q].Top? || s.role[q].Mid?) && s.role[c].Held? && !Entry(s.mem, q, i).v
    requires s.role[q].Top? ==> i < 256
    ensures q != c && s.mem[q].Table? && |s.mem[q].ptes| == 512
    ensures var t := s.(mem := Link(s.mem, q, i, c), role := s.role[c := Below(s.role[q], i)]);
            Inv(t) && SameViews(s, t)
  {
    LinkKeepsTree(s.mem, s.role, q, i, c);
    var t := s.(mem := Link(s.mem, q, i, c), role := s.role[c := Below(s.role[q], i)]);
    TableStep(s, t, c);
  }

  /** A held page becomes the root of a new address space. */
  lemma NewRootStep(s: St, c: nat)
    requires Inv(s) && c < |s.mem| && s.role[c].Held?
    ensures var t := s.(mem := s.mem[c := Empty()], role := s.role[c := Top(c)]);
            Inv(t) && SameViews(s, t) && forall v: nat {:trigger Leaf(t.mem, c, v)} :: Leaf(t.mem, c, v) == ZERO
  {
    NewRootKeepsTree(s.mem, s.role, c);
    var t := s.(mem := s.mem[c := Empty()], role := s.role[c := Top(c)]);
    TableStep(s, t, c);
  }

  /** What is common to the two: page c turns from held into a table that maps nothing. */
  lemma TableStep(s: St, t: St, c: nat)
    requires Inv(s) && c < |s.mem| && s.role[c].Held?
    requires |t.mem| == |s.mem| == |t.role| && IsTable(t.role[c])
    requires t == s.(mem := t.mem, role := s.role[c := t.role[c]])
    requires TreeOk(t.mem, t.role) && KeepsMap(s.mem, s.role, t.mem, t.role)
    requires forall p: nat :: p < |s.mem| && s.role[p].User? ==> t.mem[p] == s.mem[p]
    requires IsRoot(t.role, c) ==> forall v: nat :: Leaf(t.mem, c, v) == ZERO
    ensures Inv(t) && SameViews(s, t)
  {
    forall p: nat ensures p in t.free <==> p < |t.role| && t.role[p].Free? {
      assert p in s.free <==> p < |s.role| && s.role[p].Free?;
    }
    forall p: nat, r: nat, v: nat | p < |s.refs|
      ensures (r, v) in s.refs[p] <==> Maps(t.mem, t.role, r, v, p)
      ensures Maps(t.mem, t.role, r, v, p) <==> Maps(s.mem, s.role, r, v, p)
      ensures Maps(s.mem, s.role, r, v, p) ==> Leaf(t.mem, r, v) == Leaf(s.mem, r, v)
    {
      assert Maps(s.mem, s.role, r, v, p) <==> (r, v) in s.refs[p];
      if IsRoot(s.role, r) && v < MAXVPN {
        assert IsRoot(t.role, r) && Leaf(t.mem, r, v) == Leaf(s.mem, r, v);
      } else if r == c {
        assert Maps(t.mem, t.role, r, v, p) ==> Leaf(t.mem, c, v) == ZERO;
      }
    }
  }

  // ---------------------------------------------------------------- leaves

  /** The reference sets after the leaf of mapping k changes from o to e. */
  ghost function Moved(refs: seq<set<Ref>>, role: seq<Role>, o: Pte, e: Pte, k: Ref): (m: seq<set<Ref>>)
    requires |refs| == |role|
    ensures |m| == |refs|
  {
    var a := if o.v && o.ppn < |role| && role[o.ppn].User? then refs[o.ppn := refs[o.ppn] - {k}] else refs;
    if e.v && e.ppn < |role| && role[e.ppn].User? then a[e.ppn := a[e.ppn] + {k}] else a
  }

  /** The memory after the leaf of page v of address space r is written. */
  function Rewritten(mem: Mem, r: nat, v: nat, e: Pte): Mem {
    match LowTable(mem, r, v)
    case None => mem
    case Some(p) => if p < |mem| && mem[p].Table? && Px0(v) < |mem[p].ptes| then SetEntry(mem, p, Px0(v), e) else mem
  }

  predicate LeafFor(mem: Mem, role: seq<Role>, e: Pte) {
    if e.v then e.ppn < |mem| && e.ppn < |role| && IsLeaf(e) && Mappable(role[e.ppn], e) else e == ZERO
  }

  /** Everything but the mapping (r, v) is as it was: same address spaces, same leaves, same bytes. */
  ghost predicate OthersKept(s: St, t: St, r: nat, v: nat) {
    && |s.role| == |t.role| == |t.mem| == |s.mem|
    && (forall a: nat {:trigger IsRoot(t.role, a)} :: IsRoot(s.role, a) <==> IsRoot(t.role, a))
    && (forall a: nat, b: nat {:trigger Leaf(t.mem, a, b)} :: IsRoot(s.role, a) && b < MAXVPN && (a, b) != (r, v) ==>
          Leaf(t.mem, a, b) == Leaf(s.mem, a, b))
    && (forall p: nat, a: nat, b: nat {:trigger Maps(s.mem, s.role, a, b, p)} ::
          Maps(s.mem, s.role, a, b, p) && (a, b) != (r, v) ==> t.role[p].User? && t.mem[p] == s.mem[p])
  }

  lemma RewriteStep(mem: Mem, role: seq<Role>, refs: seq<set<Ref>>, r: nat, v: nat, e: Pte)
    requires TreeOk(mem, role) && RefsOk(mem, role, refs)
    requires IsRoot(role, r) && v < MAXVPN && LowTable(mem, r, v).Some? && LeafFor(mem, role, e)
    ensures var mem' := Rewritten(mem, r, v, e);
            && |mem'| == |mem| && TreeOk(mem', role)
            && RefsOk(mem', role, Moved(refs, role, Leaf(mem, r, v), e, (r, v)))
            && (forall a: nat, b: nat {:trigger Leaf(mem', a, b)} :: IsRoot(role, a) && b < MAXVPN ==>
                  && LowTable(mem', a, b) == LowTable(mem, a, b)
                  && Leaf(mem', a, b) == if (a, b) == (r, v) then e else Leaf(mem, a, b))
            && forall p: nat {:trigger mem'[p]} :: p < |mem| && role[p].User? ==> mem'[p] == mem[p]
  {
    LeafWrite(mem, role, r, v, e);
    WalkRole(mem, role, r, v);
    var mem', refs' := Rewritten(mem, r, v, e), Moved(refs, role, Leaf(mem, r, v), e, (r, v));
    assert mem' == SetEntry(mem, LowTable(mem, r, v).value, Px0(v), e);
    forall a: nat, b: nat | IsRoot(role, a) && b < MAXVPN
      ensures LowTable(mem', a, b) == LowTable(mem, a, b)
      ensures Leaf(mem', a, b) == if (a, b) == (r, v) then e else Leaf(mem, a, b)
    {
      assert Leaf(mem', a, b) == if a == r && b == v then e else Leaf(mem, a, b);
    }
    forall p: nat, a: nat, b: nat | p < |refs'| ensures (a, b) in refs'[p] <==> Maps(mem', role, a, b, p) {
      assert (a, b) in refs[p] <==> Maps(mem, role, a, b, p);
      if IsRoot(role, a) && b < MAXVPN {
        assert Leaf(mem', a, b) == if (a, b) == (r, v) then e else Leaf(mem, a, b);
      }
    }
  }

  /** Rewriting flags: the leaf keeps its page. It may become writable only if the page is private. */
  lemma FlagsStep(s: St, r: nat, v: nat, e: Pte)
    requires Inv(s) && IsRoot(s.role, r) && v < MAXVPN && Leaf(s.mem, r, v).v
    requires LeafFor(s.mem, s.role, e) && e.v && e.ppn == Leaf(s.mem, r, v).ppn
    requires e.w && s.role[e.ppn].User? ==> s.fr[e.ppn] == 1 && !e.cow
    ensures var t := s.(mem := Rewritten(s.mem, r, v, e));
            && Inv(t) && OthersKept(s, t, r, v) && Leaf(t.mem, r, v) == e
            && forall p: nat {:trigger t.mem[p]} :: p < |s.mem| && s.role[p].User? ==> t.mem[p] == s.mem[p]
  {
    RewriteStep(s.mem, s.role, s.refs, r, v, e);
    var t := s.(mem := Rewritten(s.mem, r, v, e));
    assert Moved(s.refs, s.role, Leaf(s.mem, r, v), e, (r, v)) == s.refs by {
      if s.role[e.ppn].User? {
        assert Maps(s.mem, s.role, r, v, e.ppn) && (r, v) in s.refs[e.ppn];
        assert s.refs[e.ppn] - {(r, v)} + {(r, v)} == s.refs[e.ppn];
      }
    }
    forall p: nat, a: nat, b: nat | Maps(t.mem, t.role, a, b, p) && Leaf(t.mem, a, b).w
      ensures t.fr[p] == 1 && !Leaf(t.mem, a, b).cow
    {
      assert (a, b) != (r, v) ==> Maps(s.mem, s.role, a, b, p);
    }
  }

  /** A held page that is about to be mapped counts as user memory that nobody maps yet. */
  lemma Promote(s: St, c: nat)
    requires Inv(s) && c < |s.mem| && s.role[c].Held? && s.mem[c].Data? && |s.mem[c].bytes| == PGSIZE
    ensures var role' := s.role[c := User];
            && TreeOk(s.mem, role') && RefsOk(s.mem, role', s.refs) && s.refs[c] == {} && s.fr[c] == 1
            && (forall a: nat :: IsRoot(role', a) <==> IsRoot(s.role, a))
            && forall p: nat, a: nat, b: nat {:trigger Maps(s.mem, role', a, b, p)} ::
                Maps(s.mem, role', a, b, p) ==> p != c && Maps(s.mem, s.role, a, b, p)
  {
    var role' := s.role[c := User];
    AsideKeepsTree(s.mem, s.role, s.mem, role', c);
    assert CountOk(s.fr[c], s.role[c], s.refs[c]);
    forall p: nat, a: nat, b: nat | p < |s.refs|
      ensures (a, b) in s.refs[p] <==> Maps(s.mem, role', a, b, p)
      ensures Maps(s.mem, role', a, b, p) ==> p != c && Maps(s.mem, s.role, a, b, p)
    {
      assert (a, b) in s.refs[p] <==> Maps(s.mem, s.role, a, b, p);
      if IsRoot(s.role, a) && b < MAXVPN && Leaf(s.mem, a, b).v {
        LeafTarget(s.mem, s.role, a, b);
      }
    }
  }

  ghost function Mapped(s: St, r: nat, v: nat, e: Pte): St
    requires e.ppn < |s.role| && e.ppn < |s.refs|
  {
    s.(mem := Rewritten(s.mem, r, v, e), role := s.role[e.ppn := User], refs := s.refs[e.ppn := {(r, v)}])
  }

  /** Mapping a held page at a free slot gives it its one reference. */
  lemma MapStep(s: St, r: nat, v: nat, e: Pte)
    requires Inv(s) && IsRoot(s.role, r) && v < MAXVPN && LowTable(s.mem, r, v).Some? && !Leaf(s.mem, r, v).v
    requires e.v && e.r && !(e.w && e.cow) && e.ppn < |s.mem|
    requires s.role[e.ppn].Held? && s.mem[e.ppn].Data? && |s.mem[e.ppn].bytes| == PGSIZE
    ensures e.ppn < |s.refs|
    ensures var t := Mapped(s, r, v, e);
            Inv(t) && OthersKept(s, t, r, v) && Leaf(t.mem, r, v) == e && t.mem[e.ppn] == s.mem[e.ppn]
  {
    var c := e.ppn;
    Promote(s, c);
    var role' := s.role[c := User];
    RewriteStep(s.mem, role', s.refs, r, v, e);
    var t := Mapped(s, r, v, e);
    assert s.refs[c] + {(r, v)} == {(r, v)};
    assert t.refs == Moved(s.refs, role', Leaf(s.mem, r, v), e, (r, v));
    forall p: nat ensures p in t.free <==> p < |t.role| && t.role[p].Free? {
      assert p in s.free <==> p < |s.role| && s.role[p].Free?;
    }
    forall p: nat, a: nat, b: nat | Maps(t.mem, t.role, a, b, p) && Leaf(t.mem, a, b).w
      ensures t.fr[p] == 1 && !Leaf(t.mem, a, b).cow
    {
      assert (a, b) != (r, v) ==> Maps(s.mem, role', a, b, p);
    }
    assert CountOk(t.fr[c], t.role[c], t.refs[c]);
  }

  ghost function Shared(s: St, r: nat, v: nat, e: Pte): St
    requires e.ppn < |s.fr| && e.ppn < |s.refs|
  {
    s.(mem := Rewritten(s.mem, r, v, e), fr := s.fr[e.ppn := s.fr[e.ppn] + 1],
        refs := s.refs[e.ppn := s.refs[e.ppn] + {(r, v)}])
  }

  /** One more read-only mapping of a page that no one may write adds one reference. */
  lemma ShareStep(s: St, r: nat, v: nat, e: Pte)
    requires Inv(s) && IsRoot(s.role, r) && v < MAXVPN && LowTable(s.mem, r, v).Some? && !Leaf(s.mem, r, v).v
    requires e.v && e.r && !e.w && e.ppn < |s.mem| && s.role[e.ppn].User?
    requires forall a: nat, b: nat :: Maps(s.mem, s.role, a, b, e.ppn) ==> !Leaf(s.mem, a, b).w
    ensures e.ppn < |s.fr| && e.ppn < |s.refs|
    ensures var t := Shared(s, r, v, e);
            Inv(t) && OthersKept(s, t, r, v) && Leaf(t.mem, r, v) == e && t.mem[e.ppn] == s.mem[e.ppn]
  {
    var c := e.ppn;
    RewriteStep(s.mem, s.role, s.refs, r, v, e);
    var t := Shared(s, r, v, e);
    assert t.refs == Moved(s.refs, s.role, Leaf(s.mem, r, v), e, (r, v));
    assert (r, v) !in s.refs[c] by { assert (r, v) in s.refs[c] <==> Maps(s.mem, s.role, r, v, c); }
    forall p: nat, a: nat, b: nat | Maps(t.mem, t.role, a, b, p) && Leaf(t.mem, a, b).w
      ensures t.fr[p] == 1 && !Leaf(t.mem, a, b).cow
    {
      assert (a, b) != (r, v) ==> Maps(s.mem, s.role, a, b, p);
    }
    assert CountOk(s.fr[c], s.role[c], s.refs[c]);
    assert CountOk(t.fr[c], t.role[c], t.refs[c]);
  }

  ghost function Unshared(s: St, r: nat, v: nat): St
    requires Leaf(s.mem, r, v).ppn < |s.fr| && Leaf(s.mem, r, v).ppn < |s.refs| && s.fr[Leaf(s.mem, r, v).ppn] > 0
  {
    var c := Leaf(s.mem, r, v).ppn;
    s.(mem := Rewritten(s.mem, r, v, ZERO), fr := s.fr[c := s.fr[c] - 1], refs := s.refs[c := s.refs[c] - {(r, v)}])
  }

  /** Unmapping a page that others still map takes one reference away. */
  lemma UnshareStep(s: St, r: nat, v: nat)
    requires Inv(s) && IsRoot(s.role, r) && v < MAXVPN && Leaf(s.mem, r, v).v
    requires var c := Leaf(s.mem, r, v).ppn; c < |s.mem| && c < |s.fr| && s.role[c].User? && s.fr[c] > 1
    ensures Leaf(s.mem, r, v).ppn < |s.refs|
    ensures var t := Unshared(s, r, v); Inv(t) && OthersKept(s, t, r, v) && Leaf(t.mem, r, v) == ZERO
  {
    var c := Leaf(s.mem, r, v).ppn;
    LeafTarget(s.mem, s.role, r, v);
    RewriteStep(s.mem, s.role, s.refs, r, v, ZERO);
    var t := Unshared(s, r, v);
    assert (r, v) in s.refs[c] by { assert Maps(s.mem, s.role, r, v, c); }
    assert CountOk(s.fr[c], s.role[c], s.refs[c]);
    assert CountOk(t.fr[c], t.role[c], t.refs[c]);
    forall p: nat, a: nat, b: nat | Maps(t.mem, t.role, a, b, p) && Leaf(t.mem, a, b).w
      ensures t.fr[p] == 1 && !Leaf(t.mem, a, b).cow
    {
      assert Maps(s.mem, s.role, a, b, p);
    }
  }

  ghost function Dropped(s: St, r: nat, v: nat, junk: Page): St
    requires Leaf(s.mem, r, v).ppn < |s.mem| == |s.fr| == |s.role| == |s.refs|
  {
    var c := Leaf(s.mem, r, v).ppn;
    St(Rewritten(s.mem[c := junk], r, v, ZERO), s.fr[c := 0], [c] + s.free, s.role[c := Free], s.refs[c := {}])
  }

  /** Unmapping a page nobody else maps puts it on the free list. */
  lemma DropStep(s: St, r: nat, v: nat, junk: Page)
    requires Inv(s) && IsRoot(s.role, r) && v < MAXVPN && Leaf(s.mem, r, v).v
    requires var c := Leaf(s.mem, r, v).ppn; c < |s.mem| && c < |s.fr| && s.role[c].User? && s.fr[c] == 1
    ensures Leaf(s.mem, r, v).ppn < |s.mem| == |s.fr| == |s.role| == |s.refs|
    ensures var t := Dropped(s, r, v, junk); Inv(t) && OthersKept(s, t, r, v) && Leaf(t.mem, r, v) == ZERO
  {
    var c := Leaf(s.mem, r, v).ppn;
    LeafTarget(s.mem, s.role, r, v);
    WalkRole(s.mem, s.role, r, v);
    RewriteStep(s.mem, s.role, s.refs, r, v, ZERO);
    var mem1, refs1 := Rewritten(s.mem, r, v, ZERO), Moved(s.refs, s.role, Leaf(s.mem, r, v), ZERO, (r, v));
    assert Maps(s.mem, s.role, r, v, c) && (r, v) in s.refs[c];
    assert CountOk(s.fr[c], s.role[c], s.refs[c]);
    OnlyRef(s.refs[c], (r, v));
    assert refs1 == s.refs[c := {}];
    forall a: nat, b: nat | IsRoot(s.role, a) && b < MAXVPN && Leaf(mem1, a, b).v ensures Leaf(mem1, a, b).ppn != c {
      assert (a, b) in refs1[c] <==> Maps(mem1, s.role, a, b, c);
    }
    UnmappedIfNoLeaf(mem1, s.role, c);
    var t := Dropped(s, r, v, junk);
    RewriteAside(s.mem, s.role, r, v, c, junk);
    AsideKeepsTree(mem1, s.role, t.mem, t.role, c);
    DropRest(s, mem1, t, r, v, c);
  }

  lemma OnlyRef(refs: set<Ref>, k: Ref)
    requires k in refs && |refs| == 1
    ensures refs - {k} == {} && refs == {k}
  {
    assert |refs - {k}| == 0;
  }

  /** Refilling a page that is no table commutes with rewriting a leaf. */
  lemma RewriteAside(mem: Mem, role: seq<Role>, r: nat, v: nat, c: nat, junk: Page)
    requires TreeOk(mem, role) && IsRoot(role, r) && v < MAXVPN && LowTable(mem, r, v).Some?
    requires c < |mem| && !IsTable(role[c])
    ensures Rewritten(mem[c := junk], r, v, ZERO) == Rewritten(mem, r, v, ZERO)[c := junk]
  {
    WalkRole(mem, role, r, v);
    assert EntryOk(mem, role, r, Px2(v));
    var mem' := mem[c := junk];
    assert forall q: nat, k: nat :: q != c ==> Entry(mem', q, k) == Entry(mem, q, k);
    assert LowTable(mem', r, v) == LowTable(mem, r, v);
  }

  lemma DropRest(s: St, mem1: Mem, t: St, r: nat, v: nat, c: nat)
    requires Inv(s) && c < |s.mem| && s.role[c].User? && |mem1| == |s.mem| == |t.mem| && c == Leaf(s.mem, r, v).ppn
    requires forall a: nat, b: nat {:trigger Leaf(mem1, a, b)} ::
        IsRoot(s.role, a) && b < MAXVPN ==> Leaf(mem1, a, b) == if (a, b) == (r, v) then ZERO else Leaf(s.mem, a, b)
    requires forall p: nat {:trigger mem1[p]} :: p < |s.mem| && s.role[p].User? ==> mem1[p] == s.mem[p]
    requires forall a: nat, b: nat ::
        IsRoot(s.role, a) && b < MAXVPN && Leaf(mem1, a, b).v ==> Leaf(mem1, a, b).ppn != c
    requires IsRoot(s.role, r) && v < MAXVPN && |s.refs| == |s.role| == |s.fr|
    requires RefsOk(mem1, s.role, s.refs[c := {}])
    requires t == St(t.mem, s.fr[c := 0], [c] + s.free, s.role[c := Free], s.refs[c := {}])
    requires t.mem == mem1[c := t.mem[c]]
    requires TreeOk(t.mem, t.role) && KeepsMap(mem1, s.role, t.mem, t.role)
    ensures Inv(t) && OthersKept(s, t, r, v) && Leaf(t.mem, r, v) == ZERO
  {
    forall p: nat, a: nat, b: nat | p < |t.refs|
      ensures (a, b) in t.refs[p] <==> Maps(t.mem, t.role, a, b, p)
      ensures Maps(t.mem, t.role, a, b, p) ==> Leaf(t.mem, a, b) == Leaf(s.mem, a, b) && Maps(s.mem, s.role, a, b, p)
    {
      assert IsRoot(t.role, a) <==> IsRoot(s.role, a);
      assert (a, b) in s.refs[c := {}][p] <==> Maps(mem1, s.role, a, b, p);
      if IsRoot(s.role, a) && b < MAXVPN {
        assert Leaf(t.mem, a, b) == Leaf(mem1, a, b);
      }
    }
    forall p: nat ensures p in t.free <==> p < |t.role| && t.role[p].Free? {
      assert p in s.free <==> p < |s.role| && s.role[p].Free?;
    }
    forall p: nat, a: nat, b: nat | Maps(s.mem, s.role, a, b, p) && (a, b) != (r, v)
      ensures t.role[p].User? && t.mem[p] == s.mem[p]
    {
      assert Leaf(mem1, a, b) == Leaf(s.mem, a, b);
    }
    assert Leaf(t.mem, r, v) == Leaf(mem1, r, v);
  }

  /** After handleCOW has given mapping (r, v) its own copy c2 of the page. */
  ghost function Split(s: St, r: nat, v: nat, c2: nat): St
    requires Leaf(s.mem, r, v).ppn < |s.fr| && Leaf(s.mem, r, v).ppn < |s.refs| && s.fr[Leaf(s.mem, r, v).ppn] > 0
    requires c2 < |s.role| && c2 < |s.refs|
  {
    var o := Leaf(s.mem, r, v);
    s.(mem := Rewritten(s.mem, r, v, o.(cow := false, w := true, ppn := c2)),
       fr := s.fr[o.ppn := s.fr[o.ppn] - 1],
       role := s.role[c2 := User],
       refs := s.refs[o.ppn := s.refs[o.ppn] - {(r, v)}][c2 := {(r, v)}])
  }

  lemma SplitStep(s: St, r: nat, v: nat, c2: nat)
    requires Inv(s) && IsRoot(s.role, r) && v < MAXVPN && Leaf(s.mem, r, v).v
    requires var c := Leaf(s.mem, r, v).ppn; c < |s.mem| && c < |s.fr| && s.role[c].User? && s.fr[c] > 1
    requires c2 < |s.mem| && s.role[c2].Held? && s.mem[c2].Data? && |s.mem[c2].bytes| == PGSIZE
    ensures c2 < |s.role| == |s.refs| == |s.fr|
    ensures var t := Split(s, r, v, c2);
            && Inv(t) && OthersKept(s, t, r, v)
            && Leaf(t.mem, r, v) == Leaf(s.mem, r, v).(cow := false, w := true, ppn := c2)
            && t.mem[c2] == s.mem[c2]
  {
    var o := Leaf(s.mem, r, v);
    var c, e := o.ppn, o.(cow := false, w := true, ppn := c2);
    Promote(s, c2);
    LeafTarget(s.mem, s.role, r, v);
    var role' := s.role[c2 := User];
    RewriteStep(s.mem, role', s.refs, r, v, e);
    var t := Split(s, r, v, c2);
    assert s.refs[c2] + {(r, v)} == {(r, v)};
    assert t.refs == Moved(s.refs, role', o, e, (r, v));
    assert (r, v) in s.refs[c] by { assert Maps(s.mem, s.role, r, v, c); }
    assert CountOk(s.fr[c], s.role[c], s.refs[c]);
    assert CountOk(t.fr[c], t.role[c], t.refs[c]) && CountOk(t.fr[c2], t.role[c2], t.refs[c2]);
    forall p: nat ensures p in t.free <==> p < |t.role| && t.role[p].Free? {
      assert p in s.free <==> p < |s.role| && s.role[p].Free?;
    }
    forall p: nat, a: nat, b: nat | Maps(t.mem, t.role, a, b, p) && Leaf(t.mem, a, b).w
      ensures t.fr[p] == 1 && !Leaf(t.mem, a, b).cow
    {
      assert (a, b) != (r, v) ==> Maps(s.mem, role', a, b, p);
    }
  }

  /** A held page becomes one of the kernel's own. */
  lemma KeepStep(s: St, c: nat)
    requires Inv(s) && c < |s.role| && s.role[c].Held?
    ensures Inv(s.(role := s.role[c := Kernel])) && SameViews(s, s.(role := s.role[c := Kernel]))
  {
    assert CountOk(s.fr[c], s.role[c], s.refs[c]);
    var t := s.(role := s.role[c := Kernel]);
    forall p: nat ensures p in t.free <==> p < |t.role| && t.role[p].Free? {
      assert p in s.free <==> p < |s.role| && s.role[p].Free?;
    }
    AsideStep(s, t, c);
  }

  /** Mapping one of the kernel's own pages, out of the user's reach, touches no count. */
  lemma MapKernelStep(s: St, r: nat, v: nat, e: Pte)
    requires Inv(s) && IsRoot(s.role, r) && v < MAXVPN && LowTable(s.mem, r, v).Some? && !Leaf(s.mem, r, v).v
    requires e.v && e.r && !e.u && e.ppn < |s.role| && s.role[e.ppn].Kernel?
    ensures var t := s.(mem := Rewritten(s.mem, r, v, e));
            && Inv(t) && OthersKept(s, t, r, v) && Leaf(t.mem, r, v) == e
            && forall b: nat :: b < MAXVPN ==> LowTable(t.mem, r, b) == LowTable(s.mem, r, b)
  {
    RewriteStep(s.mem, s.role, s.refs, r, v, e);
    var t := s.(mem := Rewritten(s.mem, r, v, e));
    forall b: nat | b < MAXVPN ensures LowTable(t.mem, r, b) == LowTable(s.mem, r, b) {
      assert Leaf(t.mem, r, b) == if b == v then e else Leaf(s.mem, r, b);
    }
    forall p: nat, a: nat, b: nat | Maps(t.mem, t.role, a, b, p) && Leaf(t.mem, a, b).w
      ensures t.fr[p] == 1 && !Leaf(t.mem, a, b).cow
    {
      assert Maps(s.mem, s.role, a, b, p);
    }
  }

  /** Removing a mapping of one of the kernel's own pages touches no count. */
  lemma UnmapKernelStep(s: St, r: nat, v: nat)
    requires Inv(s) && IsRoot(s.role, r) && v < MAXVPN && Leaf(s.mem, r, v).v
    requires var c := Leaf(s.mem, r, v).ppn; c < |s.role| && s.role[c].Kernel?
    ensures var t := s.(mem := Rewritten(s.mem, r, v, ZERO));
            Inv(t) && OthersKept(s, t, r, v) && Leaf(t.mem, r, v) == ZERO
  {
    LeafTarget(s.mem, s.role, r, v);
    RewriteStep(s.mem, s.role, s.refs, r, v, ZERO);
    var t := s.(mem := Rewritten(s.mem, r, v, ZERO));
    forall p: nat, a: nat, b: nat | Maps(t.mem, t.role, a, b, p) && Leaf(t.mem, a, b).w
      ensures t.fr[p] == 1 && !Leaf(t.mem, a, b).cow
    {
      assert Maps(s.mem, s.role, a, b, p);
    }
  }
}

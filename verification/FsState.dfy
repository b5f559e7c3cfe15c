/** The on-disk file system as one value, who owns each block, and what every elementary change keeps. */
module FsState {
  import opened FsBlocks

  const NDIRECT: nat := 12
  const MAXFILE: nat := 268         // NDIRECT + NINDIRECT
  const IPB: nat := 16              // inodes per block

  /** The superblock's layout; the first nmeta blocks hold everything but file data. `holes` says whether the image
      may hold files with holes below their size, which this kernel never makes. */
  datatype Super = Super(size: nat, ninodes: nat, inodestart: nat, bmapstart: nat, nmeta: nat, holes: bool)

  predicate GeometryOk(g: Super) {
    && g.size < WORD
    && 0 < g.inodestart && g.inodestart + g.ninodes / IPB + 1 <= g.bmapstart
    && g.bmapstart + g.size / BPB + 1 <= g.nmeta <= g.size
  }

  function IBlock(g: Super, i: nat): nat {
    i / IPB + g.inodestart
  }

  function BBlock(g: Super, b: nat): nat {
    b / BPB + g.bmapstart
  }

  /** kind and links are the two words that hold type, major, minor and nlink. */
  datatype Inode = Inode(kind: nat, links: nat, size: nat, addrs: seq<nat>)

  /** What a block is used for. A Held block is allocated and not yet, or no longer, reachable. */
  datatype Role = Free | Meta | Held | Data(i: nat, bn: nat) | Indirect(i: nat)

  datatype Fs = Fs(g: Super, disk: seq<Block>, ino: seq<Inode>, role: seq<Role>)

  predicate InodeOk(n: Inode) {
    n.kind < WORD && n.links < WORD && n.size <= MAXFILE * BSIZE && |n.addrs| == NDIRECT + 1
  }

  predicate Sized(s: Fs) {
    GeometryOk(s.g) && |s.disk| == s.g.size == |s.role| && |s.ino| == s.g.ninodes
  }

  /** The bitmap bit of block b. */
  predicate InUse(s: Fs, b: nat) {
    BBlock(s.g, b) < |s.disk| && Bit(s.disk[BBlock(s.g, b)], b % BPB)
  }

  function RoleAt(s: Fs, b: nat): Role
    requires b < |s.role|
  {
    s.role[b]
  }

  /** The indirect block of inode i, or 0. */
  function Ind(s: Fs, i: nat): nat {
    if i < |s.ino| && |s.ino[i].addrs| == NDIRECT + 1 then s.ino[i].addrs[NDIRECT] else 0
  }

  /** The disk block that holds block bn of file i, or 0. */
  function Slot(s: Fs, i: nat, bn: nat): nat {
    if i >= |s.ino| || |s.ino[i].addrs| != NDIRECT + 1 || bn >= MAXFILE then 0
    else if bn < NDIRECT then s.ino[i].addrs[bn]
    else Entry(s.disk, s.ino[i].addrs[NDIRECT], bn - NDIRECT)
  }

  function Entry(disk: seq<Block>, ind: nat, k: nat): nat
    requires k < NINDIRECT
  {
    if 0 < ind < |disk| then Word(disk[ind], k) else 0
  }

  ghost predicate InodesOk(s: Fs) {
    forall i: nat {:trigger s.ino[i]} :: i < |s.ino| ==> InodeOk(s.ino[i])
  }

  /** A bit is set exactly on the blocks that are not free. */
  ghost predicate BitsOk(s: Fs) {
    forall b: nat {:trigger RoleAt(s, b)} :: b < |s.role| ==>
      (InUse(s, b) <==> RoleAt(s, b) != Free) && (RoleAt(s, b) == Meta <==> b < s.g.nmeta)
  }

  /** Every reachable block is used for exactly the place it is reached from. */
  ghost predicate SlotsOk(s: Fs) {
    && (forall i: nat, bn: nat {:trigger Slot(s, i, bn)} :: Slot(s, i, bn) != 0 ==>
         Slot(s, i, bn) < |s.role| && RoleAt(s, Slot(s, i, bn)) == Data(i, bn))
    && (forall i: nat {:trigger Ind(s, i)} :: Ind(s, i) != 0 ==>
         Ind(s, i) < |s.role| && RoleAt(s, Ind(s, i)) == Indirect(i))
  }

  /** Every used block is reachable. */
  ghost predicate OwnedOk(s: Fs) {
    forall b: nat {:trigger RoleAt(s, b)} :: b < |s.role| ==>
      && (RoleAt(s, b).Data? ==> Slot(s, RoleAt(s, b).i, RoleAt(s, b).bn) == b)
      && (RoleAt(s, b).Indirect? ==> Ind(s, RoleAt(s, b).i) == b)
  }

  /** Files have no holes below their size, unless the image allows it. */
  ghost predicate NoHoles(s: Fs) {
    s.g.holes || forall i: nat, bn: nat {:trigger Slot(s, i, bn)} ::
      i < |s.ino| && bn * BSIZE < s.ino[i].size ==> Slot(s, i, bn) != 0
  }

  ghost predicate Inv(s: Fs) {
    Sized(s) && InodesOk(s) && BitsOk(s) && SlotsOk(s) && OwnedOk(s) && NoHoles(s)
  }

  ghost predicate NoneHeld(s: Fs) {
    forall b: nat {:trigger RoleAt(s, b)} :: b < |s.role| ==> RoleAt(s, b) != Held
  }

  /** No two places of any files share a block, and no data block doubles as an indirect block. */
  lemma BlocksOwnedOnce(s: Fs, i: nat, bn: nat, i': nat, bn': nat)
    requires Inv(s) && Slot(s, i, bn) != 0
    ensures Slot(s, i, bn) == Slot(s, i', bn') ==> i == i' && bn == bn'
    ensures Slot(s, i, bn) != Ind(s, i')
    ensures Slot(s, i, bn) >= s.g.nmeta && InUse(s, Slot(s, i, bn))
  {
  }

  lemma SameWord(b: nat, c: nat)
    ensures b / BPB == c / BPB && b % BPB == c % BPB <==> b == c
  {
  }

  // ---------------------------------------------------------------- balloc and bfree

  /** balloc: the bit set, the block zeroed. */
  function Took(s: Fs, b: nat): Fs
    requires Sized(s) && b < s.g.size
  {
    var m := BBlock(s.g, b);
    s.(disk := s.disk[m := SetBit(s.disk[m], b % BPB)][b := Zeros()], role := s.role[b := Held])
  }

  lemma TookBits(s: Fs, b: nat, c: nat)
    requires Sized(s) && s.g.nmeta <= b < s.g.size && c < s.g.size
    ensures InUse(Took(s, b), c) <==> c == b || InUse(s, c)
  {
    BitAfter(s.disk[BBlock(s.g, b)], b % BPB, c % BPB);
    SameWord(b, c);
  }

  lemma TookBitsOk(s: Fs, b: nat)
    requires Sized(s) && BitsOk(s) && s.g.nmeta <= b < s.g.size
    ensures BitsOk(Took(s, b))
  {
    var t := Took(s, b);
    forall c: nat | c < |s.role|
      ensures (InUse(t, c) <==> RoleAt(t, c) != Free) && (RoleAt(t, c) == Meta <==> c < s.g.nmeta)
    {
      TookBits(s, b, c);
      assert RoleAt(s, c) == s.role[c];
    }
  }

  lemma TakeStep(s: Fs, b: nat)
    requires Inv(s) && b < s.g.size && s.role[b] == Free
    ensures Inv(Took(s, b))
    ensures forall i: nat, bn: nat {:trigger Slot(Took(s, b), i, bn)} :: Slot(Took(s, b), i, bn) == Slot(s, i, bn)
  {
    var t := Took(s, b);
    assert RoleAt(s, b) == Free && RoleAt(s, BBlock(s.g, b)) == Meta;
    TookBitsOk(s, b);
    SlotsKept(s, t);
    RolesBut(s, t, b);
  }

  /** Turning a block nothing reaches into another such block. */
  lemma RolesBut(s: Fs, t: Fs, b: nat)
    requires Inv(s) && Sized(t) && t.g == s.g && b < |s.role| == |t.role|
    requires t.ino == s.ino && t.role == s.role[b := t.role[b]]
    requires (s.role[b].Free? || s.role[b].Held?) && (t.role[b].Free? || t.role[b].Held?)
    requires forall i: nat, bn: nat {:trigger Slot(t, i, bn)} {:trigger Slot(s, i, bn)} ::
        Slot(t, i, bn) == Slot(s, i, bn)
    ensures SlotsOk(t) && OwnedOk(t) && NoHoles(t)
  {
    forall c: nat | c < |s.role| ensures c != b ==> RoleAt(t, c) == RoleAt(s, c)
    {
    }
    assert RoleAt(s, b) == s.role[b];
    forall i: nat, bn: nat | Slot(t, i, bn) != 0
      ensures Slot(t, i, bn) < |t.role| && RoleAt(t, Slot(t, i, bn)) == Data(i, bn)
    {
      assert RoleAt(s, Slot(s, i, bn)) == Data(i, bn);
    }
    forall i: nat | Ind(t, i) != 0 ensures Ind(t, i) < |t.role| && RoleAt(t, Ind(t, i)) == Indirect(i) {
      assert RoleAt(s, Ind(s, i)) == Indirect(i);
    }
    forall c: nat | c < |t.role|
      ensures RoleAt(t, c).Data? ==> Slot(t, RoleAt(t, c).i, RoleAt(t, c).bn) == c
      ensures RoleAt(t, c).Indirect? ==> Ind(t, RoleAt(t, c).i) == c
    {
      assert c != b ==> RoleAt(s, c) == RoleAt(t, c);
    }
  }

  /** Only the indirect blocks and the inodes decide where files lie. */
  lemma SlotsKept(s: Fs, t: Fs)
    requires |t.ino| == |s.ino| && |t.disk| == |s.disk|
    requires forall i: nat {:trigger s.ino[i]} {:trigger t.ino[i]} :: i < |s.ino| ==> t.ino[i].addrs == s.ino[i].addrs
    requires forall i: nat {:trigger Ind(s, i)} :: 0 < Ind(s, i) < |s.disk| ==> t.disk[Ind(s, i)] == s.disk[Ind(s, i)]
    ensures forall i: nat, bn: nat {:trigger Slot(t, i, bn)} {:trigger Slot(s, i, bn)} ::
        Slot(t, i, bn) == Slot(s, i, bn)
    ensures forall i: nat {:trigger Ind(t, i)} {:trigger Ind(s, i)} :: Ind(t, i) == Ind(s, i)
  {
    forall i: nat ensures Ind(t, i) == Ind(s, i) {
      if i < |s.ino| {
        assert t.ino[i].addrs == s.ino[i].addrs;
      }
    }
    forall i: nat, bn: nat ensures Slot(t, i, bn) == Slot(s, i, bn) {
      if i < |s.ino| {
        assert t.ino[i].addrs == s.ino[i].addrs;
        assert Ind(s, i) == Ind(t, i);
      }
    }
  }

  /** bfree: the bit cleared. */
  function Released(s: Fs, b: nat): Fs
    requires Sized(s) && b < s.g.size
  {
    var m := BBlock(s.g, b);
    s.(disk := s.disk[m := ClearBit(s.disk[m], b % BPB)], role := s.role[b := Free])
  }

  lemma ReleasedBits(s: Fs, b: nat, c: nat)
    requires Sized(s) && b < s.g.size && c < s.g.size
    ensures InUse(Released(s, b), c) <==> c != b && InUse(s, c)
  {
    BitAfter(s.disk[BBlock(s.g, b)], b % BPB, c % BPB);
    SameWord(b, c);
  }

  lemma ReleasedBitsOk(s: Fs, b: nat)
    requires Sized(s) && BitsOk(s) && s.g.nmeta <= b < s.g.size
    ensures BitsOk(Released(s, b))
  {
    var t := Released(s, b);
    forall c: nat | c < |s.role|
      ensures (InUse(t, c) <==> RoleAt(t, c) != Free) && (RoleAt(t, c) == Meta <==> c < s.g.nmeta)
    {
      ReleasedBits(s, b, c);
      assert RoleAt(s, c) == s.role[c];
    }
  }

  lemma ReleaseStep(s: Fs, b: nat)
    requires Inv(s) && b < s.g.size && s.role[b] == Held
    ensures Inv(Released(s, b))
    ensures forall i: nat, bn: nat {:trigger Slot(Released(s, b), i, bn)} ::
        Slot(Released(s, b), i, bn) == Slot(s, i, bn)
  {
    var t := Released(s, b);
    assert RoleAt(s, b) == Held && RoleAt(s, BBlock(s.g, b)) == Meta;
    ReleasedBitsOk(s, b);
    SlotsKept(s, t);
    RolesBut(s, t, b);
  }

  // ---------------------------------------------------------------- linking a block into a file and out of it

  /** The bitmap is as it was, and so is which blocks are free. */
  lemma BitsKept(s: Fs, t: Fs)
    requires Sized(s) && BitsOk(s) && Sized(t) && t.g == s.g
    requires forall m: nat {:trigger t.disk[m]} :: s.g.bmapstart <= m < s.g.nmeta ==> t.disk[m] == s.disk[m]
    requires forall c: nat {:trigger RoleAt(t, c)} :: c < |t.role| ==>
      (RoleAt(t, c) == Free <==> RoleAt(s, c) == Free) && (RoleAt(t, c) == Meta <==> RoleAt(s, c) == Meta)
    ensures BitsOk(t)
  {
    forall c: nat | c < |t.role|
      ensures (InUse(t, c) <==> RoleAt(t, c) != Free) && (RoleAt(t, c) == Meta <==> c < t.g.nmeta)
    {
      assert t.disk[BBlock(t.g, c)] == s.disk[BBlock(s.g, c)];
    }
  }

  /** A held block becomes block bn of file i. */
  lemma AttachStep(s: Fs, t: Fs, i: nat, bn: nat, b: nat)
    requires Inv(s) && b < |s.role| && s.role[b] == Held && Slot(s, i, bn) == 0
    requires Sized(t) && t.g == s.g && t.role == s.role[b := Data(i, bn)] && InodesOk(t)
    requires forall m: nat {:trigger t.disk[m]} :: s.g.bmapstart <= m < s.g.nmeta ==> t.disk[m] == s.disk[m]
    requires forall j: nat {:trigger t.ino[j]} :: j < |t.ino| ==> t.ino[j].size == s.ino[j].size
    requires forall j: nat, n: nat {:trigger Slot(t, j, n)} {:trigger Slot(s, j, n)} ::
        Slot(t, j, n) == if j == i && n == bn then b else Slot(s, j, n)
    requires forall j: nat {:trigger Ind(t, j)} {:trigger Ind(s, j)} :: Ind(t, j) == Ind(s, j)
    ensures Inv(t)
  {
    assert RoleAt(s, b) == Held && RoleAt(s, 0) == Meta;
    BitsKept(s, t);
    forall c: nat | c < |t.role|
      ensures RoleAt(t, c).Data? ==> Slot(t, RoleAt(t, c).i, RoleAt(t, c).bn) == c
      ensures RoleAt(t, c).Indirect? ==> Ind(t, RoleAt(t, c).i) == c
    {
      assert RoleAt(s, c) == s.role[c];
    }
  }

  /** A held zeroed block becomes the indirect block of file i. */
  lemma AttachIndirectStep(s: Fs, t: Fs, i: nat, b: nat)
    requires Inv(s) && b < |s.role| && s.role[b] == Held && i < |s.ino| && Ind(s, i) == 0
    requires s.disk[b] == Zeros()
    requires t == s.(ino := s.ino[i := s.ino[i].(addrs := s.ino[i].addrs[NDIRECT := b])],
        role := s.role[b := Indirect(i)])
    ensures Inv(t)
    ensures forall j: nat, n: nat {:trigger Slot(t, j, n)} {:trigger Slot(s, j, n)} :: Slot(t, j, n) == Slot(s, j, n)
  {
    assert RoleAt(s, b) == Held && RoleAt(s, 0) == Meta;
    BitsKept(s, t);
    forall j: nat, n: nat ensures Slot(t, j, n) == Slot(s, j, n) {
      if j == i && NDIRECT <= n < MAXFILE {
        ZeroWord(n - NDIRECT);
      }
    }
    assert forall j: nat {:trigger Ind(t, j)} {:trigger Ind(s, j)} :: Ind(t, j) == if j == i then b else Ind(s, j);
    forall c: nat | c < |t.role|
      ensures RoleAt(t, c).Data? ==> Slot(t, RoleAt(t, c).i, RoleAt(t, c).bn) == c
      ensures RoleAt(t, c).Indirect? ==> Ind(t, RoleAt(t, c).i) == c
    {
      assert RoleAt(s, c) == s.role[c];
    }
  }

  function LinkedDirect(s: Fs, i: nat, bn: nat, b: nat): Fs
    requires i < |s.ino| && bn < |s.ino[i].addrs| && b < |s.role|
  {
    s.(ino := s.ino[i := s.ino[i].(addrs := s.ino[i].addrs[bn := b])], role := s.role[b := Data(i, bn)])
  }

  lemma LinkDirectStep(s: Fs, i: nat, bn: nat, b: nat)
    requires Inv(s) && i < |s.ino| && bn < NDIRECT && b < |s.role| && s.role[b] == Held && Slot(s, i, bn) == 0
    requires s.disk[b] == Zeros()
    ensures |s.ino[i].addrs| == NDIRECT + 1
    ensures var t := LinkedDirect(s, i, bn, b); Inv(t) && Extends(s, t, i, bn) && Slot(t, i, bn) == b
  {
    var t := LinkedDirect(s, i, bn, b);
    assert RoleAt(s, b) == Held && RoleAt(s, 0) == Meta;
    AttachStep(s, t, i, bn, b);
    ExtendsByOne(s, t, i, bn, b, b);
  }

  function LinkedEntry(s: Fs, i: nat, bn: nat, b: nat): Fs
    requires i < |s.ino| && NDIRECT <= bn < MAXFILE && Ind(s, i) < |s.disk| && b < |s.role| && b < WORD
  {
    var ind := Ind(s, i);
    s.(disk := s.disk[ind := SetWord(s.disk[ind], bn - NDIRECT, b)], role := s.role[b := Data(i, bn)])
  }

  lemma LinkedEntrySlot(s: Fs, i: nat, bn: nat, b: nat, j: nat, n: nat)
    requires Inv(s) && i < |s.ino| && NDIRECT <= bn < MAXFILE && b < |s.role| && b < WORD && 0 < Ind(s, i) < |s.disk|
    ensures Slot(LinkedEntry(s, i, bn, b), j, n) == if j == i && n == bn then b else Slot(s, j, n)
  {
    var t, ind := LinkedEntry(s, i, bn, b), Ind(s, i);
    if j == i && NDIRECT <= n < MAXFILE {
      WordAfter(s.disk[ind], bn - NDIRECT, b, n - NDIRECT);
    } else if NDIRECT <= n < MAXFILE && j < |s.ino| && Ind(s, j) != 0 {
      assert RoleAt(s, ind) == Indirect(i) && RoleAt(s, Ind(s, j)) == Indirect(j);
      assert t.disk[Ind(s, j)] == s.disk[Ind(s, j)];
    }
  }

  lemma LinkEntryStep(s: Fs, i: nat, bn: nat, b: nat)
    requires Inv(s) && i < |s.ino| && NDIRECT <= bn < MAXFILE
    requires b < |s.role| && s.role[b] == Held && Slot(s, i, bn) == 0
    requires 0 < Ind(s, i) < |s.disk| && s.disk[b] == Zeros()
    ensures var t := LinkedEntry(s, i, bn, b); Inv(t) && Extends(s, t, i, bn) && Slot(t, i, bn) == b
  {
    var t, ind := LinkedEntry(s, i, bn, b), Ind(s, i);
    assert RoleAt(s, b) == Held && RoleAt(s, 0) == Meta && RoleAt(s, ind) == Indirect(i);
    assert forall j: nat {:trigger Ind(t, j)} {:trigger Ind(s, j)} :: Ind(t, j) == Ind(s, j);
    forall j: nat, n: nat ensures Slot(t, j, n) == if j == i && n == bn then b else Slot(s, j, n) {
      LinkedEntrySlot(s, i, bn, b, j, n);
    }
    AttachStep(s, t, i, bn, b);
    ExtendsByOne(s, t, i, bn, b, ind);
  }

  /** t has every file block s has, with the same contents, and beyond that at most a zeroed block bn of file i. */
  ghost predicate Extends(s: Fs, t: Fs, i: nat, bn: nat) {
    && t.g == s.g && |t.ino| == |s.ino| && |t.disk| == |s.disk| && InodeBlocksKept(s, t)
    && (forall j: nat {:trigger t.ino[j]} ::
        j < |t.ino| ==> if j == i then t.ino[j].(addrs := s.ino[j].addrs) == s.ino[j] else t.ino[j] == s.ino[j])
    && (forall j: nat, n: nat {:trigger Slot(t, j, n)} ::
        BlockKept(s, t, j, n) || (j == i && n == bn && NewBlock(s, t, j, n)))
  }

  ghost predicate InodeBlocksKept(s: Fs, t: Fs) {
    forall m: nat {:trigger t.disk[m]} :: m < s.g.bmapstart && m < |s.disk| == |t.disk| ==> t.disk[m] == s.disk[m]
  }

  predicate BlockKept(s: Fs, t: Fs, j: nat, n: nat) {
    && Slot(t, j, n) == Slot(s, j, n)
    && (0 < Slot(s, j, n) < |s.disk| == |t.disk| ==> t.disk[Slot(s, j, n)] == s.disk[Slot(s, j, n)])
  }

  predicate NewBlock(s: Fs, t: Fs, j: nat, n: nat) {
    Slot(s, j, n) == 0 && (0 < Slot(t, j, n) < |t.disk| ==> t.disk[Slot(t, j, n)] == Zeros())
  }

  /** Only an indirect or a held block was written. */
  lemma ExtendsByOne(s: Fs, t: Fs, i: nat, bn: nat, b: nat, m: nat)
    requires Inv(s) && i < |s.ino| && b < |s.role| && Slot(s, i, bn) == 0
    requires t.g == s.g && |t.ino| == |s.ino| && |t.disk| == |s.disk| && t.disk[b] == Zeros()
    requires forall j: nat {:trigger t.ino[j]} ::
        j < |t.ino| ==> if j == i then t.ino[j].(addrs := s.ino[j].addrs) == s.ino[j] else t.ino[j] == s.ino[j]
    requires m < |s.role| && !s.role[m].Data? && !s.role[m].Meta?
    requires forall c: nat {:trigger t.disk[c]} :: c < |s.disk| && c != m ==> t.disk[c] == s.disk[c]
    requires forall j: nat, n: nat {:trigger Slot(t, j, n)} {:trigger Slot(s, j, n)} ::
        Slot(t, j, n) == if j == i && n == bn then b else Slot(s, j, n)
    ensures Extends(s, t, i, bn)
  {
    assert RoleAt(s, m) == s.role[m];
    forall j: nat, n: nat ensures BlockKept(s, t, j, n) || (j == i && n == bn && NewBlock(s, t, j, n)) {
      assert Slot(t, j, n) == if j == i && n == bn then b else Slot(s, j, n);
    }
  }

  lemma ExtendsTrans(s: Fs, t: Fs, u: Fs, i: nat, bn: nat)
    requires Inv(s) && Extends(s, t, i, bn) && Extends(t, u, i, bn)
    ensures Extends(s, u, i, bn)
  {
    forall j: nat | j < |u.ino|
      ensures if j == i then u.ino[j].(addrs := s.ino[j].addrs) == s.ino[j] else u.ino[j] == s.ino[j]
    {
      assert t.ino[j].(addrs := s.ino[j].addrs) == s.ino[j];
    }
    forall j: nat, n: nat ensures BlockKept(s, u, j, n) || (j == i && n == bn && NewBlock(s, u, j, n)) {
      assert Slot(t, j, n) != 0 || Slot(t, j, n) == 0;
      assert Slot(u, j, n) != 0 || Slot(u, j, n) == 0;
    }
  }

  lemma TakeExtends(s: Fs, b: nat, i: nat, bn: nat)
    requires Inv(s) && b < s.g.size && s.role[b] == Free
    ensures Extends(s, Took(s, b), i, bn)
  {
    TakeStep(s, b);
    var t := Took(s, b);
    assert RoleAt(s, b) == Free && RoleAt(s, BBlock(s.g, b)) == Meta;
    forall j: nat, n: nat ensures BlockKept(s, t, j, n) {
      assert Slot(t, j, n) == Slot(s, j, n);
    }
  }

  function LinkedIndirect(s: Fs, i: nat, b: nat): Fs
    requires i < |s.ino| && |s.ino[i].addrs| == NDIRECT + 1 && b < |s.role|
  {
    s.(ino := s.ino[i := s.ino[i].(addrs := s.ino[i].addrs[NDIRECT := b])], role := s.role[b := Indirect(i)])
  }

  lemma LinkIndirectExtends(s: Fs, i: nat, b: nat, bn: nat)
    requires Inv(s) && b < |s.role| && s.role[b] == Held && i < |s.ino| && Ind(s, i) == 0 && s.disk[b] == Zeros()
    ensures |s.ino[i].addrs| == NDIRECT + 1
    ensures var t := LinkedIndirect(s, i, b);
            Inv(t) && Extends(s, t, i, bn) && Ind(t, i) == b && Slot(t, i, bn) == Slot(s, i, bn)
  {
    var t := LinkedIndirect(s, i, b);
    AttachIndirectStep(s, t, i, b);
    forall j: nat, n: nat ensures BlockKept(s, t, j, n) {
      assert Slot(t, j, n) == Slot(s, j, n);
    }
  }

  lemma ExtendsRefl(s: Fs, i: nat, bn: nat)
    ensures Extends(s, s, i, bn)
  {
    forall j: nat, n: nat ensures BlockKept(s, s, j, n) {
    }
  }

  // ---------------------------------------------------------------- the three allocations of bmap

  lemma DirectAllocation(s: Fs, i: nat, bn: nat, b: nat)
    requires Inv(s) && NoneHeld(s) && i < |s.ino| && bn < NDIRECT
    requires Slot(s, i, bn) == 0 && b < |s.role| && s.role[b] == Free
    ensures |s.ino[i].addrs| == NDIRECT + 1
    ensures var t := LinkedDirect(Took(s, b), i, bn, b); Mapped(s, t, i, bn) && Slot(t, i, bn) == b && b != 0
  {
    var m := Took(s, b);
    TakeExtends(s, b, i, bn);
    TakeStep(s, b);
    LinkDirectStep(m, i, bn, b);
    ExtendsTrans(s, m, LinkedDirect(m, i, bn, b), i, bn);
    NoneHeldAgain(s, b, Data(i, bn));
  }

  lemma IndirectAllocation(s: Fs, i: nat, bn: nat, b: nat)
    requires Inv(s) && NoneHeld(s) && i < |s.ino| && NDIRECT <= bn < MAXFILE
    requires Ind(s, i) == 0 && b < |s.role| && s.role[b] == Free
    ensures |s.ino[i].addrs| == NDIRECT + 1
    ensures var t := LinkedIndirect(Took(s, b), i, b);
            Mapped(s, t, i, bn) && Ind(t, i) == b && b != 0 && Slot(t, i, bn) == Slot(s, i, bn)
  {
    var m := Took(s, b);
    TakeExtends(s, b, i, bn);
    TakeStep(s, b);
    LinkIndirectExtends(m, i, b, bn);
    ExtendsTrans(s, m, LinkedIndirect(m, i, b), i, bn);
    NoneHeldAgain(s, b, Indirect(i));
  }

  lemma EntryAllocation(s: Fs, i: nat, bn: nat, b: nat)
    requires Inv(s) && NoneHeld(s) && i < |s.ino| && NDIRECT <= bn < MAXFILE
    requires Slot(s, i, bn) == 0 && b < |s.role| && s.role[b] == Free
    requires Ind(s, i) != 0
    ensures Ind(Took(s, b), i) < |s.disk| && b < WORD
    ensures var t := LinkedEntry(Took(s, b), i, bn, b);
            Mapped(s, t, i, bn) && Ind(t, i) == Ind(s, i) && Slot(t, i, bn) == b && b != 0
  {
    var m := Took(s, b);
    TakeExtends(s, b, i, bn);
    TakeStep(s, b);
    LinkEntryStep(m, i, bn, b);
    ExtendsTrans(s, m, LinkedEntry(m, i, bn, b), i, bn);
    NoneHeldAgain(s, b, Data(i, bn));
  }

  /** The same, as the code arrives at it. */
  lemma EntryAttached(s: Fs, t: Fs, i: nat, bn: nat, b: nat)
    requires Inv(s) && NoneHeld(s) && i < |s.ino| && NDIRECT <= bn < MAXFILE && Slot(s, i, bn) == 0
    requires b < |s.role| && s.role[b] == Free && 0 != Ind(s, i) < |s.disk| && b < WORD
    requires var m := Took(s, b);
      t == m.(disk := m.disk[Ind(s, i) := SetWord(m.disk[Ind(s, i)], bn - NDIRECT, b)],
          role := m.role[b := Data(i, bn)])
    ensures Mapped(s, t, i, bn) && Ind(t, i) == Ind(s, i) && Slot(t, i, bn) == b
  {
    EntryAllocation(s, i, bn, b);
    assert t == LinkedEntry(Took(s, b), i, bn, b);
  }

  lemma NoneHeldAgain(s: Fs, b: nat, r: Role)
    requires Inv(s) && NoneHeld(s) && b < |s.role| && s.role[b] == Free && r != Held
    ensures b != 0 && forall t: Fs {:trigger NoneHeld(t)} :: t.role == s.role[b := r] ==> NoneHeld(t)
  {
    assert RoleAt(s, 0) == Meta;
    forall t: Fs | t.role == s.role[b := r] ensures NoneHeld(t) {
      forall c: nat | c < |t.role| ensures RoleAt(t, c) != Held {
        assert RoleAt(s, c) != Held;
      }
    }
  }

  /** A sound state with at most one more block, number bn of file i. */
  ghost predicate Mapped(s: Fs, t: Fs, i: nat, bn: nat) {
    Inv(t) && NoneHeld(t) && Extends(s, t, i, bn)
  }
}

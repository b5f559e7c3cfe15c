/** The bound on what one operation of filewrite logs is met exactly, and needs files without holes: images on which
    a write of three blocks logs MAXOPBLOCKS blocks, and one more if it starts in a hole. */
module FsTight {
  import FsCode = Fs
  import opened FsBlocks
  import opened FsFiles
  import opened FsLedger
  import opened FsState
  import LogDisk

  const GROUPS: nat := 12              // bitmap blocks
  const SIZE: nat := 98304             // GROUPS * BPB
  const OFF: nat := 10752              // in the middle of block 10, two blocks before the indirect ones begin

  /** Between operations, a disk whose free blocks lie in different bitmap blocks and hold zeros, and a file that ends
      at OFF in a block it has, or, with holes, in none. */
  ghost predicate Tight(s: Fs) {
    && Inv(s) && NoneHeld(s) && AllSyncedBut(s, |s.ino|) && s.g.size == SIZE && |s.ino| > 0 && s.ino[0].size == OFF
    && (forall b: nat {:trigger RoleAt(s, b)} :: s.g.nmeta <= b < SIZE ==>
          s.disk[b] == Zeros() && (RoleAt(s, b) == Free <==> b % BPB == BPB - 1))
    && s.g.nmeta < BPB && Slot(s, 0, 11) == Slot(s, 0, 12) == Slot(s, 0, 13) == Ind(s, 0) == 0
    && (s.g.holes ==> Slot(s, 0, 10) == 0)
  }

  function Ones(n: nat): (d: seq<Byte>)
    ensures |d| == n && forall k: nat :: k < n ==> d[k] == 1
  {
    seq(n, _ => 1)
  }

  /** A block that was free and is in use has its bitmap block changed, and so logged. */
  lemma BitmapLogged(s: Fs, t: Fs, b: nat, logged: set<nat>)
    requires Inv(s) && Inv(t) && t.g == s.g && b < s.g.size && !InUse(s, b) && InUse(t, b)
    requires Covered(s.g, s.disk, t.disk, {}, logged)
    ensures BBlock(s.g, b) in logged && s.g.bmapstart <= BBlock(s.g, b) < s.g.nmeta
  {
    assert t.disk[BBlock(s.g, b)] != s.disk[BBlock(s.g, b)];
  }

  /** Free blocks of a tight image lie under different bitmap blocks. */
  lemma GroupsApart(s: Fs, b: nat, c: nat)
    requires Tight(s) && b < SIZE && c < SIZE && s.role[b] == Free && s.role[c] == Free && b != c
    ensures BBlock(s.g, b) != BBlock(s.g, c)
  {
    assert RoleAt(s, b) == Free && RoleAt(s, c) == Free;
  }

  // ---------------------------------------------------------------- a full disk would be noticed

  function Span(a: nat, n: nat): (r: set<nat>)
    ensures |r| == n && forall b: nat {:trigger b in r} :: b in r <==> a <= b < a + n
  {
    if n == 0 then {} else Span(a, n - 1) + {a + n - 1}
  }

  lemma LastOfGroup(k: nat)
    requires k < GROUPS
    ensures var b := k * BPB + BPB - 1; BPB <= b + 1 <= SIZE && b / BPB == k && b % BPB == BPB - 1
  {
  }

  /** A group's last block is free at first; with the disk full it no longer is, and the group's bitmap block is
      logged. */
  lemma GroupLogged(s: Fs, t: Fs, logged: set<nat>, k: nat)
    requires Tight(s) && Inv(t) && t.g == s.g
    requires Covered(s.g, s.disk, t.disk, {}, logged) && FsCode.Full(t) && k < GROUPS
    ensures s.g.bmapstart + k in logged
  {
    var last := k * BPB + BPB - 1;
    LastOfGroup(k);
    assert RoleAt(s, last) == Free && RoleAt(t, last) == t.role[last] != Free;
    BitmapLogged(s, t, last, logged);
  }

  lemma NotFull(s: Fs, t: Fs, logged: set<nat>)
    requires Tight(s) && Inv(t) && t.g == s.g && Covered(s.g, s.disk, t.disk, {}, logged) && |logged| < GROUPS
    ensures !FsCode.Full(t)
  {
    if FsCode.Full(t) {
      var m := s.g.bmapstart;
      forall b: nat | b in Span(m, GROUPS) ensures b in logged {
        GroupLogged(s, t, logged, b - m);
      }
      Cardinality(Span(m, GROUPS), logged);
    }
  }

  // ---------------------------------------------------------------- the ten or eleven blocks

  /** Block bn of the file has been written, and so logged. */
  lemma DataLogged(s: Fs, t: Fs, logged: set<nat>, bn: nat, k: nat)
    requires Tight(s) && Inv(t) && t.g == s.g && Covered(s.g, s.disk, t.disk, {}, logged)
    requires k / BSIZE == bn && Slot(t, 0, bn) != 0 && ByteAt(t, 0, k) == 1
    ensures Slot(t, 0, bn) in logged && s.g.nmeta <= Slot(t, 0, bn) < SIZE
  {
    var b := Slot(t, 0, bn);
    assert RoleAt(t, b) == Data(0, bn);
    assert s.g.nmeta <= b < SIZE;
    assert RoleAt(s, b) == s.role[b];
    assert t.disk[b][k % BSIZE] == 1;
  }

  /** The new indirect block names block 12 of the file. */
  lemma IndirectLogged(s: Fs, t: Fs, logged: set<nat>)
    requires Tight(s) && Inv(t) && t.g == s.g && Covered(s.g, s.disk, t.disk, {}, logged) && Slot(t, 0, 12) != 0
    ensures Ind(t, 0) != 0 && Ind(t, 0) in logged && s.g.nmeta <= Ind(t, 0) < SIZE
  {
    var b := Ind(t, 0);
    assert RoleAt(t, b) == Indirect(0);
    assert s.g.nmeta <= b < SIZE;
    assert RoleAt(s, b) == s.role[b];
    ZeroWord(0);
    assert Word(t.disk[b], 0) != Word(s.disk[b], 0);
  }

  /** The blocks the write has changed above the metadata. */
  ghost function FileBlocks(t: Fs): set<nat> {
    {Slot(t, 0, 10), Slot(t, 0, 11), Slot(t, 0, 12), Slot(t, 0, 13), Ind(t, 0)}
  }

  lemma FileBlocksLogged(s: Fs, t: Fs, logged: set<nat>)
    requires Tight(s) && Inv(t) && t.g == s.g && Covered(s.g, s.disk, t.disk, {}, logged)
    requires SlotsThere(t, 0, OFF, 3 * BSIZE)
    requires forall k: nat {:trigger ByteAt(t, 0, k)} :: OFF <= k < OFF + 3 * BSIZE ==> ByteAt(t, 0, k) == 1
    ensures FileBlocks(t) <= logged && |FileBlocks(t)| == 5 && forall b :: b in FileBlocks(t) ==> s.g.nmeta <= b < SIZE
    ensures Slot(t, 0, 10) != 0 && Slot(t, 0, 11) != 0 && Slot(t, 0, 12) != 0 && Slot(t, 0, 13) != 0 && Ind(t, 0) != 0
  {
    assert OFF / BSIZE == 10 && 11264 / BSIZE == 11 && 12288 / BSIZE == 12 && 13312 / BSIZE == 13;
    DataLogged(s, t, logged, 10, OFF);
    DataLogged(s, t, logged, 11, 11264);
    DataLogged(s, t, logged, 12, 12288);
    DataLogged(s, t, logged, 13, 13312);
    IndirectLogged(s, t, logged);
    FiveBlocks(t);
  }

  lemma FiveBlocks(t: Fs)
    requires Inv(t)
    requires Slot(t, 0, 10) != 0 && Slot(t, 0, 11) != 0 && Slot(t, 0, 12) != 0 && Slot(t, 0, 13) != 0 && Ind(t, 0) != 0
    ensures |FileBlocks(t)| == 5
  {
    BlocksOwnedOnce(t, 0, 10, 0, 11);
    BlocksOwnedOnce(t, 0, 10, 0, 12);
    BlocksOwnedOnce(t, 0, 10, 0, 13);
    BlocksOwnedOnce(t, 0, 11, 0, 12);
    BlocksOwnedOnce(t, 0, 11, 0, 13);
    BlocksOwnedOnce(t, 0, 12, 0, 13);
    BlocksOwnedOnce(t, 0, 13, 0, 13);
  }

  /** Those of them that the file did not have before. */
  ghost function NewBlocks(t: Fs): set<nat> {
    FileBlocks(t) - if t.g.holes then {} else {Slot(t, 0, 10)}
  }

  lemma NewBlocksFree(s: Fs, t: Fs, b: nat)
    requires Tight(s) && Inv(t) && t.g == s.g && SlotsGrow(s, t, 0) && b in NewBlocks(t)
    requires Slot(t, 0, 10) != 0 && Slot(t, 0, 11) != 0 && Slot(t, 0, 12) != 0 && Slot(t, 0, 13) != 0 && Ind(t, 0) != 0
    ensures b < SIZE && s.role[b] == Free && !InUse(s, b) && InUse(t, b)
  {
    NewBlocksWereFree(s, t, 0, if b == Slot(t, 0, 10) then 10 else if b == Slot(t, 0, 11) then 11
                               else if b == Slot(t, 0, 12) then 12 else 13);
  }

  ghost function Bitmaps(g: Super, bs: set<nat>): set<nat> {
    set b | b in bs :: BBlock(g, b)
  }

  /** Blocks that were free and are in use have as many bitmap blocks, all of them logged. */
  lemma {:induction false} BitmapsLogged(s: Fs, t: Fs, logged: set<nat>, bs: set<nat>)
    requires Tight(s) && Inv(t) && t.g == s.g && Covered(s.g, s.disk, t.disk, {}, logged)
    requires forall b: nat {:trigger b in bs} ::
        b in bs ==> b < SIZE && s.role[b] == Free && !InUse(s, b) && InUse(t, b)
    ensures Bitmaps(s.g, bs) <= logged && |Bitmaps(s.g, bs)| == |bs|
    ensures forall m :: m in Bitmaps(s.g, bs) ==> s.g.bmapstart <= m < s.g.nmeta
    decreases |bs|
  {
    if bs == {} {
    } else {
      var b :| b in bs;
      var rest := bs - {b};
      BitmapsLogged(s, t, logged, rest);
      BitmapLogged(s, t, b, logged);
      forall c | c in rest ensures BBlock(s.g, c) != BBlock(s.g, b) {
        GroupsApart(s, b, c);
      }
      assert Bitmaps(s.g, bs) == Bitmaps(s.g, rest) + {BBlock(s.g, b)};
    }
  }

  /** So no fewer blocks are logged than the limit allows. */
  lemma LimitReached(s: Fs, t: Fs, logged: set<nat>)
    requires Tight(s) && Inv(t) && t.g == s.g && Covered(s.g, s.disk, t.disk, {}, logged) && SlotsGrow(s, t, 0)
    requires SlotsThere(t, 0, OFF, 3 * BSIZE) && IBlock(s.g, 0) in logged
    requires forall k: nat {:trigger ByteAt(t, 0, k)} :: OFF <= k < OFF + 3 * BSIZE ==> ByteAt(t, 0, k) == 1
    ensures |logged| >= OpLimit(s.g.holes)
  {
    FileBlocksLogged(s, t, logged);
    forall b: nat | b in NewBlocks(t) ensures b < SIZE && s.role[b] == Free && !InUse(s, b) && InUse(t, b) {
      NewBlocksFree(s, t, b);
    }
    BitmapsLogged(s, t, logged, NewBlocks(t));
    var above, below, inode := FileBlocks(t), Bitmaps(s.g, NewBlocks(t)), {IBlock(s.g, 0)};
    assert IBlock(s.g, 0) < s.g.bmapstart;
    ThreeParts(above, below, inode, logged, s.g.bmapstart, s.g.nmeta);
  }

  lemma ThreeParts(above: set<nat>, below: set<nat>, first: set<nat>, logged: set<nat>, lo: nat, hi: nat)
    requires above <= logged && below <= logged && first <= logged && lo <= hi
    requires (forall b :: b in above ==> hi <= b) && (forall b :: b in below ==> lo <= b < hi)
    requires forall b :: b in first ==> b < lo
    ensures |logged| >= |above| + |below| + |first|
  {
    assert |above + below| == |above| + |below|;
    assert |above + below + first| == |above + below| + |first|;
    Cardinality(above + below + first, logged);
  }

  /** A write of three blocks at the end of the file logs exactly as many blocks as one operation may log, or, if it
      starts in a hole, one more than begin_op reserves. */
  method LogsExactly(fs: FsCode.FileSystem) returns (r: int)
    requires Tight(fs.View()) && fs.logged == {}
    modifies fs
    ensures r == 3 * BSIZE && fs.Ready() && |fs.logged| == OpLimit(fs.g.holes)
  {
    ghost var s := fs.View();
    var data := Ones(3 * BSIZE);
    r := fs.Writei(0, OFF, data);
    ghost var t := fs.View();
    NotFull(s, t, fs.logged);
    forall k: nat | OFF <= k < OFF + 3 * BSIZE ensures ByteAt(t, 0, k) == 1 {
      FirstBytesAt(t, 0, t.ino[0].size, k);
      assert Contents(t, 0)[k] == data[k - OFF];
    }
    LimitReached(s, t, fs.logged);
  }

  // ---------------------------------------------------------------- such images exist

  const ISTART: nat := 33              // behind boot block, superblock and a log for LOGSIZE blocks
  const BSTART: nat := 6178            // an inode per block
  const NMETA: nat := 6191             // and the bitmap

  function Layout(holes: bool): Super {
    Super(SIZE, SIZE, ISTART, BSTART, NMETA, holes)
  }

  /** The last block of each group is free; file 0 has the first blocks unless it is all hole; every other block is the
      one block of the file with its own number. */
  function RoleOf(b: nat, holes: bool): Role {
    if b < NMETA then Meta
    else if b % BPB == BPB - 1 then Free
    else if !holes && b < NMETA + 11 then Data(0, b - NMETA)
    else Data(b, 0)
  }

  function FileOf(i: nat, holes: bool): Inode {
    if i == 0 then Inode(1, 1, OFF, seq(NDIRECT + 1, n => if n < 11 && !holes then NMETA + n else 0))
    else if RoleOf(i, holes) == Data(i, 0) then Inode(1, 1, 1, seq(NDIRECT + 1, n => if n == 0 then i else 0))
    else BlankInode()
  }

  /** A bitmap block with every bit set but the last. */
  function AllButLast(): Block {
    ClearBit(seq(BSIZE, _ => 255), BPB - 1)
  }

  lemma AllButLastBits(j: nat)
    requires j < BPB
    ensures Bit(AllButLast(), j) <==> j != BPB - 1
  {
    var b: Block := seq(BSIZE, _ => 255);
    BitAfter(b, BPB - 1, j);
    AllBits(j % 8);
  }

  lemma AllBits(j: nat)
    requires j < 8
    ensures BitOf(255, j)
  {
    assert BitOf(127, 6) by { assert BitOf(31, 4) by { assert BitOf(7, 2); } }
    assert BitOf(63, 5) by { assert BitOf(15, 3) by { assert BitOf(3, 1); } }
    assert j == 0 || j == 1 || j == 2 || j == 3 || j == 4 || j == 5 || j == 6 || j == 7;
  }

  function BlockOf(b: int): Block {
    if BSTART <= b < NMETA then AllButLast() else Zeros()
  }

  function Image(holes: bool): Fs {
    Fs(Layout(holes), seq(SIZE, b => BlockOf(b)),
       seq(SIZE, i requires i >= 0 => FileOf(i, holes)), seq(SIZE, b requires b >= 0 => RoleOf(b, holes)))
  }

  lemma ImageSlot(holes: bool, i: nat, bn: nat)
    ensures Ind(Image(holes), i) == 0
    ensures Slot(Image(holes), i, bn) ==
      if i >= SIZE then 0
      else if i == 0 then (if bn < 11 && !holes then NMETA + bn else 0)
      else if bn == 0 && RoleOf(i, holes) == Data(i, 0) then i else 0
  {
    var s := Image(holes);
    assert i < SIZE ==> s.ino[i] == FileOf(i, holes);
  }

  lemma ImageBlock(holes: bool, b: nat)
    requires b < SIZE
    ensures var s := Image(holes);
            && (InUse(s, b) <==> RoleAt(s, b) != Free) && (RoleAt(s, b) == Meta <==> b < NMETA) && RoleAt(s, b) != Held
            && (RoleAt(s, b).Data? ==> Slot(s, RoleAt(s, b).i, RoleAt(s, b).bn) == b)
  {
    var s := Image(holes);
    AllButLastBits(b % BPB);
    assert s.disk[BBlock(s.g, b)] == AllButLast();
    assert RoleAt(s, b) == RoleOf(b, holes);
    if RoleAt(s, b).Data? {
      ImageSlot(holes, RoleAt(s, b).i, RoleAt(s, b).bn);
    }
  }

  lemma ImageSound(holes: bool)
    ensures Inv(Image(holes)) && NoneHeld(Image(holes))
  {
    var s := Image(holes);
    forall i: nat, bn: nat ensures SlotFits(s, i, bn) {
      ImageSlot(holes, i, bn);
      assert i < SIZE ==> s.ino[i] == FileOf(i, holes);
    }
    forall b: nat | b < SIZE ensures BlockFits(s, b) {
      ImageBlock(holes, b);
    }
    forall i: nat | i < SIZE ensures |s.ino[i].addrs| == NDIRECT + 1 && s.ino[i].size <= MAXFILE * BSIZE {
      assert s.ino[i] == FileOf(i, holes);
    }
    FitsIsSound(s);
  }

  ghost predicate SlotFits(s: Fs, i: nat, bn: nat) {
    && Ind(s, i) == 0
    && (Slot(s, i, bn) != 0 ==> Slot(s, i, bn) < |s.role| && RoleAt(s, Slot(s, i, bn)) == Data(i, bn))
    && (!s.g.holes && i < |s.ino| && bn * BSIZE < s.ino[i].size ==> Slot(s, i, bn) != 0)
  }

  ghost predicate BlockFits(s: Fs, b: nat)
    requires b < |s.role|
  {
    && (InUse(s, b) <==> RoleAt(s, b) != Free) && (RoleAt(s, b) == Meta <==> b < s.g.nmeta) && RoleAt(s, b) != Held
    && (RoleAt(s, b).Data? ==> Slot(s, RoleAt(s, b).i, RoleAt(s, b).bn) == b)
    && !RoleAt(s, b).Indirect?
  }

  lemma FitsIsSound(s: Fs)
    requires Sized(s) && InodesOk(s)
    requires forall i: nat, bn: nat {:trigger Slot(s, i, bn)} :: SlotFits(s, i, bn)
    requires forall b: nat {:trigger RoleAt(s, b)} :: b < |s.role| ==> BlockFits(s, b)
    ensures Inv(s) && NoneHeld(s)
  {
    forall i: nat ensures Ind(s, i) == 0 {
      assert SlotFits(s, i, 0) by { assert Slot(s, i, 0) == Slot(s, i, 0); }
    }
  }

  /** Writing the dinodes of the first n files to disk. */
  lemma {:induction false} AllFlushed(s: Fs, n: nat) returns (t: Fs)
    requires Inv(s) && NoneHeld(s) && n <= |s.ino|
    ensures Inv(t) && NoneHeld(t) && t == s.(disk := t.disk) && |t.disk| == |s.disk|
    ensures forall b: nat {:trigger t.disk[b]} :: s.g.bmapstart <= b < |t.disk| ==> t.disk[b] == s.disk[b]
    ensures forall i: nat {:trigger Synced(t, i)} :: i < n ==> Synced(t, i)
    ensures forall j: nat, bn: nat {:trigger Slot(t, j, bn)} :: Slot(t, j, bn) == Slot(s, j, bn)
    ensures forall j: nat {:trigger Ind(t, j)} :: Ind(t, j) == Ind(s, j)
  {
    if n == 0 {
      t := s;
    } else {
      var u := AllFlushed(s, n - 1);
      FlushKeeps(u, n - 1);
      t := Flushed(u, n - 1);
      forall i: nat | i < n ensures Synced(t, i) {
        FlushSyncs(u, n - 1, i);
      }
    }
  }

  lemma TightImage(holes: bool) returns (t: Fs)
    ensures Tight(t) && t.g.holes == holes && t.g.inodestart == 2 + (LogDisk.LOGSIZE + 1)
  {
    ImageSound(holes);
    var s := Image(holes);
    t := AllFlushed(s, SIZE);
    ImageSlot(holes, 0, 10);
    ImageSlot(holes, 0, 11);
    ImageSlot(holes, 0, 12);
    ImageSlot(holes, 0, 13);
    assert s.ino[0] == FileOf(0, holes);
    forall b: nat | NMETA <= b < SIZE
      ensures t.disk[b] == Zeros() && (RoleAt(t, b) == Free <==> b % BPB == BPB - 1)
    {
      assert t.disk[b] == s.disk[b];
      assert RoleAt(t, b) == RoleOf(b, holes);
    }
  }
}

/** kernel/fs.c: block allocation, the block map of an inode, truncation, reading and writing. */
module Fs {
  import opened FsBlocks
  import opened FsFiles
  import opened FsLedger
  import opened FsState
  import opened FsTrunc
  import LogDisk

  /** Every block below n is in use. */
  ghost predicate FullBelow(role: seq<Role>, n: nat) {
    forall b: nat {:trigger role[b]} :: b < n && b < |role| ==> role[b] != Free
  }

  ghost predicate Full(s: Fs) {
    FullBelow(s.role, |s.role|)
  }

  /** What balloc's inner loop tests. */
  lemma BitOfBlock(s: Fs, b: nat, bi: nat)
    requires Inv(s) && b % BPB == 0 && bi < BPB && b + bi < s.g.size
    ensures BBlock(s.g, b) == BBlock(s.g, b + bi) < |s.disk| && (b + bi) % BPB == bi
    ensures Bit(s.disk[BBlock(s.g, b)], bi) <==> s.role[b + bi] != Free
  {
    assert InUse(s, b + bi) <==> RoleAt(s, b + bi) != Free;
  }

  /** What mapping block bn of file i may log: a new block and its bitmap block, and from NDIRECT on
      the indirect block and its bitmap block. */
  ghost function MapCost(s: Fs, i: nat, bn: nat): set<nat> {
    WithBitmap(s.g, Slot(s, i, bn)) + if bn < NDIRECT then {} else WithBitmap(s.g, Ind(s, i))
  }

  lemma OneMoreWord(b: Block, at: nat, ws: seq<nat>, k: nat)
    requires at + |ws| <= NINDIRECT && AreWords(ws) && k < |ws|
    ensures PutWords(b, at, ws[..k + 1]) == SetWord(PutWords(b, at, ws[..k]), at + k, ws[k])
  {
    assert ws[..k + 1][..k] == ws[..k];
  }

  /** iupdate's copy into the buffer: the scalar fields, then the addresses. */
  method PutInode(b: Block, at: nat, n: Inode) returns (r: Block)
    requires |n.addrs| == NDIRECT + 1 && AreWords(InodeWords(n)) && at + 16 <= NINDIRECT
    ensures r == PutWords(b, at, InodeWords(n))
  {
    ghost var ws := InodeWords(n);
    OneMoreWord(b, at, ws, 0);
    OneMoreWord(b, at, ws, 1);
    OneMoreWord(b, at, ws, 2);
    r := SetWord(b, at, n.kind);
    r := SetWord(r, at + 1, n.links);
    r := SetWord(r, at + 2, n.size);
    r := PutAddrs(b, r, at, n);
  }

  lemma OneMoreAddr(b: Block, at: nat, n: Inode, k: nat)
    requires |n.addrs| == NDIRECT + 1 && AreWords(InodeWords(n)) && at + 16 <= NINDIRECT && k <= NDIRECT
    ensures n.addrs[k] < WORD
    ensures SetWord(PutWords(b, at, InodeWords(n)[..3 + k]), at + 3 + k, n.addrs[k])
         == PutWords(b, at, InodeWords(n)[..4 + k])
  {
    assert InodeWords(n)[3 + k] == n.addrs[k];
    OneMoreWord(b, at, InodeWords(n), 3 + k);
  }

  /** memmove(dip->addrs, ip->addrs, sizeof(ip->addrs)). */
  method PutAddrs(ghost b: Block, r0: Block, at: nat, n: Inode) returns (r: Block)
    requires |n.addrs| == NDIRECT + 1 && AreWords(InodeWords(n)) && at + 16 <= NINDIRECT
    requires r0 == PutWords(b, at, InodeWords(n)[..3])
    ensures r == PutWords(b, at, InodeWords(n))
  {
    ghost var ws := InodeWords(n);
    r := r0;
    var k := 0;
    while k <= NDIRECT
      invariant k <= NDIRECT + 1 && r == PutWords(b, at, ws[..3 + k])
    {
      OneMoreAddr(b, at, n, k);
      r := SetWord(r, at + 3 + k, n.addrs[k]);
      k := k + 1;
    }
    assert ws[..16] == ws;
  }

  /** ilock's copy out of the buffer: the scalar fields, then the addresses. */
  method GetInode(b: Block, at: nat) returns (n: Inode)
    requires at + 16 <= NINDIRECT
    ensures n == Dinode(b, at)
  {
    var addrs := [];
    var k := 0;
    while k <= NDIRECT
      invariant k <= NDIRECT + 1 && addrs == Dinode(b, at).addrs[..k]
    {
      addrs := addrs + [Word(b, at + 3 + k)];
      k := k + 1;
    }
    n := Inode(Word(b, at), Word(b, at + 1), Word(b, at + 2), addrs);
  }

  function Min(a: nat, b: nat): nat {
    if a < b then a else b
  }

  /** A run inside one block is the same run of the file. */
  lemma BlockIsSlice(s: Fs, i: nat, pos: nat, m: nat)
    requires Inv(s) && !s.g.holes && i < |s.ino| && pos + m <= s.ino[i].size && 0 < m && pos % BSIZE + m <= BSIZE
    ensures var b := Slot(s, i, pos / BSIZE);
            0 < b < |s.disk| && s.disk[b][pos % BSIZE..pos % BSIZE + m] == Contents(s, i)[pos..pos + m]
  {
    var b := Slot(s, i, pos / BSIZE);
    assert 0 < b < |s.disk|;
    var d, e := s.disk[b][pos % BSIZE..pos % BSIZE + m], Contents(s, i)[pos..pos + m];
    forall k: nat | k < m ensures d[k] == e[k] {
      FirstBytesAt(s, i, s.ino[i].size, pos + k);
      InsideBlock(pos, pos / BSIZE, pos % BSIZE, m, pos + k);
    }
  }

  /** 32-bit unsigned addition. */
  function Plus(a: nat, b: nat): nat {
    (a + b) % WORD
  }

  lemma Wraparound(a: nat, b: nat)
    requires a < WORD && b < WORD
    ensures Plus(a, b) < a <==> a + b >= WORD
    ensures a + b < WORD ==> Plus(a, b) == a + b
  {
  }

  lemma SliceJoin<T>(c: seq<T>, a: nat, b: nat, e: nat)
    requires a <= b <= e <= |c|
    ensures c[a..b] + c[b..e] == c[a..e]
  {
  }

  ghost predicate OthersKept(s: Fs, t: Fs, i: nat) {
    |t.ino| == |s.ino| && forall j: nat {:trigger Contents(t, j)} ::
      j < |t.ino| && j != i ==> Contents(t, j) == Contents(s, j)
  }

  /** What one turn of writei's loop does: m bytes further, or 0 with the disk full. */
  ghost predicate Turned(w: Write, s: Fs, t: Fs, tot: nat, m: nat, logged: set<nat>, logged': set<nat>) {
    match w
    case Write(_, i, off, data) =>
      && tot < |data| && Writing(w, t, tot + m) && t.g == s.g
      && (if m == 0 then Full(t) && Slot(t, i, (off + tot) / BSIZE) == 0
          else m == Min(|data| - tot, BSIZE - (off + tot) % BSIZE))
      && (Ind(s, i) != 0 ==> Ind(t, i) == Ind(s, i))
      && logged' <= logged + BlockCost(s, t, i, (off + tot) / BSIZE)
  }

  lemma TurnedFull(w: Write, s: Fs, t: Fs, tot: nat, logged: set<nat>, logged': set<nat>)
    requires Writing(w, s, tot) && Mapped(s, t, w.i, (w.off + tot) / BSIZE) && tot < |w.data|
    requires Slot(t, w.i, (w.off + tot) / BSIZE) == 0 && Full(t)
    requires Ind(s, w.i) != 0 ==> Ind(t, w.i) == Ind(s, w.i)
    requires logged' <= logged + MapCost(t, w.i, (w.off + tot) / BSIZE)
    ensures Turned(w, s, t, tot, 0, logged, logged')
  {
    WritingAfterMap(w, s, t, tot, (w.off + tot) / BSIZE);
  }

  lemma TurnedStored(w: Write, s: Fs, t: Fs, tot: nat, m: nat, logged: set<nat>, logged': set<nat>)
    requires Writing(w, s, tot) && Mapped(s, t, w.i, (w.off + tot) / BSIZE) && tot < |w.data|
    requires Slot(t, w.i, (w.off + tot) / BSIZE) != 0 && m == Min(|w.data| - tot, BSIZE - (w.off + tot) % BSIZE)
    requires Ind(s, w.i) != 0 ==> Ind(t, w.i) == Ind(s, w.i)
    requires logged' <= logged + MapCost(t, w.i, (w.off + tot) / BSIZE)
    requires Slot(s, w.i, (w.off + tot) / BSIZE) != 0 ==> logged' == logged
    ensures var b := Slot(t, w.i, (w.off + tot) / BSIZE);
            && b < |t.disk|
            && Turned(w, s, Stored(t, b, (w.off + tot) % BSIZE, w.data[tot..tot + m]), tot, m, logged, logged' + {b})
  {
    var bn := (w.off + tot) / BSIZE;
    WritingAfterMap(w, s, t, tot, bn);
    WritingAfterStore(w, t, tot, m);
    var u := Stored(t, Slot(t, w.i, bn), (w.off + tot) % BSIZE, w.data[tot..tot + m]);
    StoreCost(s, t, u, w.i, bn, logged, logged');
  }

  /** A block that was there costs no bitmap block. */
  lemma StoreCost(s: Fs, t: Fs, u: Fs, i: nat, bn: nat, logged: set<nat>, logged': set<nat>)
    requires Slot(u, i, bn) == Slot(t, i, bn) != 0 && Ind(u, i) == Ind(t, i) && u.g == t.g
    requires logged' <= logged + MapCost(t, i, bn) && (Slot(s, i, bn) != 0 ==> logged' == logged)
    ensures logged' + {Slot(t, i, bn)} <= logged + BlockCost(s, u, i, bn)
  {
  }

  lemma AccountTurn(w: Write, l: Ledger, j: Job, s: Fs, t: Fs, tot: nat, m: nat, logged: set<nat>, logged': set<nat>)
    returns (l': Ledger)
    requires Turned(w, s, t, tot, m, logged, logged') && j == Job(w.i, w.off, |w.data|, j.before, j.holes)
    requires w.off % BSIZE != 0 && !j.holes ==> Slot(s, w.i, w.off / BSIZE) != 0
    requires Accounted(l, j, s, tot, logged)
    ensures Accounted(l', j, t, tot + m, logged')
  {
    if m == 0 {
      l' := LastTurn(l, j, s, t, tot, logged, logged');
    } else {
      l' := Turn(l, j, s, t, tot, m, logged, logged');
    }
  }

  lemma SplicedNothing(c: seq<Byte>, off: nat)
    ensures off <= |c| ==> Spliced(c, off, []) == c
  {
  }

  /** Two adjacent writes are one. */
  lemma SplicedAgain(c: seq<Byte>, off: nat, data: seq<Byte>, n: nat, n': nat)
    requires off <= |c| && n <= n' <= |data|
    ensures off + n <= |Spliced(c, off, data[..n])|
    ensures Spliced(Spliced(c, off, data[..n]), off + n, data[n..n']) == Spliced(c, off, data[..n'])
  {
  }

  /** t holds what s holds, with data written to file i from off up to `end`. Nothing can be written beyond
      the end of the file. */
  ghost predicate Wrote(s: Fs, t: Fs, i: nat, off: nat, data: seq<Byte>, end: nat) {
    && t.g == s.g && i < |s.ino| == |t.ino| && off <= end <= off + |data| && OthersKept(s, t, i)
    && if off <= |Contents(s, i)| then Contents(t, i) == Spliced(Contents(s, i), off, data[..end - off])
       else end == off && Contents(t, i) == Contents(s, i)
  }

  /** Why a write stops short: an offset past the end, the largest file size, or a full disk. */
  ghost predicate Refused(s: Fs, t: Fs, i: nat, off: nat, n: nat) {
    i < |s.ino| && (off > s.ino[i].size || off + n > MAXFILE * BSIZE || Full(t))
  }

  lemma WroteNothing(s: Fs, i: nat, off: nat, data: seq<Byte>)
    requires i < |s.ino|
    ensures Wrote(s, s, i, off, data, off)
  {
    SplicedNothing(Contents(s, i), off);
  }

  lemma WroteSizes(s: Fs, t: Fs, i: nat, off: nat, data: seq<Byte>, at: nat)
    requires Wrote(s, t, i, off, data, at)
    ensures off <= s.ino[i].size ==> at <= t.ino[i].size
    ensures off > s.ino[i].size ==> at == off && t.ino[i].size == s.ino[i].size
  {
    assert |Contents(s, i)| == s.ino[i].size && |Contents(t, i)| == t.ino[i].size;
  }

  lemma WhyShort(s: Fs, t: Fs, u: Fs, i: nat, off: nat, data: seq<Byte>, at: nat, n: nat, r: int)
    requires Wrote(s, t, i, off, data, at) && at + n <= off + |data| < WORD
    requires r == -1 ==> at > t.ino[i].size || at + n >= WORD || at + n > MAXFILE * BSIZE
    requires -1 <= r && (0 <= r < n ==> Full(u))
    ensures r < n ==> Refused(s, u, i, off, |data|)
  {
    WroteSizes(s, t, i, off, data, at);
  }

  lemma WroteMore(s: Fs, t: Fs, u: Fs, i: nat, off: nat, data: seq<Byte>, at: nat, chunk: seq<Byte>, r: nat)
    requires Wrote(s, t, i, off, data, at) && at + |chunk| <= off + |data|
    requires chunk == data[at - off..at - off + |chunk|] && r <= |chunk|
    requires u.g == t.g && at <= |Contents(t, i)| && OthersKept(t, u, i)
    requires Contents(u, i) == Spliced(Contents(t, i), at, chunk[..r])
    ensures Wrote(s, u, i, off, data, at + r)
  {
    OthersKeptTrans(s, t, u, i);
    if off <= |Contents(s, i)| {
      SplicedChunk(Contents(s, i), off, data, at - off, chunk, r);
    }
  }

  /** What one call of writei leaves, short or not. */
  lemma WroteChunk(s: Fs, t: Fs, u: Fs, i: nat, off: nat, data: seq<Byte>, at: nat, chunk: seq<Byte>, r: int)
    requires Wrote(s, t, i, off, data, at) && at + |chunk| <= off + |data| < WORD && -1 <= r <= |chunk|
    requires chunk == data[at - off..at - off + |chunk|]
    requires r == -1 ==> u == t
    requires r >= 0 ==> u.g == t.g && i < |u.ino| && at <= |Contents(t, i)| && OthersKept(t, u, i)
    requires r >= 0 ==> Contents(u, i) == Spliced(Contents(t, i), at, chunk[..r])
    ensures Wrote(s, u, i, off, data, if r > 0 then at + r else at)
  {
    if r >= 0 {
      WroteMore(s, t, u, i, off, data, at, chunk, r);
    }
  }

  lemma SplicedChunk(c: seq<Byte>, off: nat, data: seq<Byte>, k: nat, chunk: seq<Byte>, r: nat)
    requires off <= |c| && r <= |chunk| && k + |chunk| <= |data| && chunk == data[k..k + |chunk|]
    ensures off + k <= |Spliced(c, off, data[..k])|
    ensures Spliced(Spliced(c, off, data[..k]), off + k, chunk[..r]) == Spliced(c, off, data[..k + r])
  {
    assert chunk[..r] == data[k..k + r];
    SplicedAgain(c, off, data, k, k + r);
  }

  lemma OthersKeptTrans(s: Fs, t: Fs, u: Fs, i: nat)
    requires OthersKept(s, t, i) && OthersKept(t, u, i)
    ensures OthersKept(s, u, i)
  {
    forall j: nat | j < |u.ino| && j != i ensures Contents(u, j) == Contents(s, j) {
      assert Contents(u, j) == Contents(t, j);
    }
  }

  /** Of the inodes only the block numbers of file i may differ. */
  predicate OnlyAddrs(ino: seq<Inode>, ino': seq<Inode>, i: nat) {
    i < |ino| == |ino'| && ino' == ino[i := ino[i].(addrs := ino'[i].addrs)]
  }

  /** Of the inodes only the block numbers and the size of file i may differ. */
  predicate OnlyBody(ino: seq<Inode>, ino': seq<Inode>, i: nat) {
    i < |ino| == |ino'| && ino' == ino[i := ino[i].(addrs := ino'[i].addrs, size := ino'[i].size)]
  }

  class FileSystem {
    const g: Super
    var disk: seq<Block>
    var ino: seq<Inode>           // the in-core copies
    ghost var role: seq<Role>
    var logged: set<nat>          // the blocks passed to log_write in this operation

    ghost function View(): Fs
      reads this
    {
      Fs(g, disk, ino, role)
    }

    ghost predicate Valid()
      reads this
    {
      Inv(View())
    }

    /** mkfs, before any file is added. */
    constructor (g: Super)
      requires GeometryOk(g) && g.nmeta < BPB
      ensures Valid() && NoneHeld(View()) && AllSyncedBut(View(), |ino|) && this.g == g && logged == {}
      ensures forall i: nat {:trigger Contents(View(), i)} :: i < g.ninodes ==> Contents(View(), i) == []
    {
      var b := FirstBits(g.nmeta);
      BlankIsSound(g, b);
      this.g := g;
      disk := seq(g.size, _ => Zeros())[g.bmapstart := b];
      ino := seq(g.ninodes, _ => BlankInode());
      role := seq(g.size, c => if c < g.nmeta then Meta else Free);
      logged := {};
      new;
      assert View() == Blank(g, b);
    }

    /** balloc: the first free block, marked and zeroed, or 0 when there is none. */
    method Balloc() returns (r: nat)
      requires Valid()
      modifies `disk, `role, `logged
      ensures Valid()
      ensures r == 0 ==> View() == old(View()) && logged == old(logged) && Full(View())
      ensures r != 0 ==> r < g.size && old(role[r]) == Free && View() == Took(old(View()), r)
      ensures r != 0 ==> logged == old(logged) + {r, BBlock(g, r)} && FullBelow(old(role), r)
      ensures Covered(g, old(disk), disk, old(logged), logged)
    {
      ghost var s := View();
      var b := 0;
      while b < g.size
        invariant b % BPB == 0 && View() == s && logged == old(logged) && FullBelow(s.role, b)
      {
        var bi := 0;
        while bi < BPB && b + bi < g.size
          invariant bi <= BPB && View() == s && logged == old(logged) && FullBelow(s.role, b + bi)
        {
          BitOfBlock(s, b, bi);
          if !Bit(disk[BBlock(g, b)], bi) {
            Claim(b + bi);
            return b + bi;
          }
          bi := bi + 1;
        }
        b := b + BPB;
      }
      return 0;
    }

    /** balloc's two writes: mark the block in the bitmap, then bzero it. */
    method Claim(r: nat)
      requires Valid() && r < g.size && role[r] == Free
      modifies `disk, `role, `logged
      ensures Valid() && r != 0 && View() == Took(old(View()), r) && logged == old(logged) + {r, BBlock(g, r)}
      ensures Covered(g, old(disk), disk, old(logged), logged)
    {
      TakeStep(View(), r);
      assert RoleAt(View(), 0) == Meta && RoleAt(View(), r) == Free;
      disk := disk[BBlock(g, r) := SetBit(disk[BBlock(g, r)], r % BPB)];
      logged := logged + {BBlock(g, r)};
      disk := disk[r := Zeros()];
      logged := logged + {r};
      role := role[r := Held];
    }

    /** bfree, which panics on a block that is already free. */
    method Bfree(b: nat) returns (panicked: bool)
      requires Sized(View()) && b < g.size
      modifies `disk, `logged
      ensures panicked <==> !old(InUse(View(), b))
      ensures !panicked ==> disk == Released(old(View()), b).disk && logged == old(logged) + {BBlock(g, b)}
      ensures panicked ==> disk == old(disk)
      ensures Covered(g, old(disk), disk, old(logged), logged) && OnlyBitmaps(g, old(logged), logged)
    {
      var bi := b % BPB;
      if !Bit(disk[BBlock(g, b)], bi) {
        return true;
      }
      disk := disk[BBlock(g, b) := ClearBit(disk[BBlock(g, b)], bi)];
      logged := logged + {BBlock(g, b)};
      return false;
    }

    /** bmap, which panics on a block number no file can have. */
    method Bmap(i: nat, bn: nat) returns (r: nat, panicked: bool)
      requires Valid() && NoneHeld(View()) && i < g.ninodes
      modifies this
      ensures panicked <==> bn >= MAXFILE
      ensures Mapped(old(View()), View(), i, bn) && r == Slot(View(), i, bn)
      ensures panicked || Slot(old(View()), i, bn) != 0 ==> View() == old(View()) && logged == old(logged)
      ensures r == 0 && !panicked ==> Full(View())
      ensures old(Ind(View(), i)) != 0 ==> Ind(View(), i) == old(Ind(View(), i))
      ensures logged <= old(logged) + MapCost(View(), i, bn)
      ensures Covered(g, old(disk), disk, old(logged), logged)
      ensures OnlyAddrs(old(ino), ino, i)
    {
      panicked := false;
      if bn < NDIRECT {
        r := BmapDirect(i, bn);
        return;
      }
      if bn >= MAXFILE {
        ExtendsRefl(View(), i, bn);
        return 0, true;
      }
      var ok := LoadIndirect(i, bn);
      if !ok {
        return 0, false;
      }
      ghost var s, l := View(), logged;
      r := BmapEntry(i, bn);
      ExtendsTrans(old(View()), s, View(), i, bn);
      CoveredTrans(g, old(disk), s.disk, disk, old(logged), l, logged);
    }

    method BmapDirect(i: nat, bn: nat) returns (r: nat)
      requires Valid() && NoneHeld(View()) && i < g.ninodes && bn < NDIRECT
      modifies this
      ensures Mapped(old(View()), View(), i, bn) && r == Slot(View(), i, bn)
      ensures Slot(old(View()), i, bn) != 0 ==> View() == old(View()) && logged == old(logged)
      ensures r == 0 ==> Full(View())
      ensures Ind(View(), i) == old(Ind(View(), i)) && logged <= old(logged) + WithBitmap(g, r)
      ensures Covered(g, old(disk), disk, old(logged), logged)
      ensures OnlyAddrs(old(ino), ino, i)
    {
      ghost var s := View();
      ExtendsRefl(s, i, bn);
      r := ino[i].addrs[bn];
      if r == 0 {
        r := Balloc();
        if r == 0 {
          return;
        }
        DirectAllocation(s, i, bn, r);
        ino := ino[i := ino[i].(addrs := ino[i].addrs[bn := r])];
        role := role[r := Data(i, bn)];
        assert View() == LinkedDirect(Took(s, r), i, bn, r);
      }
    }

    /** Load the indirect block, allocating it if necessary. */
    method LoadIndirect(i: nat, bn: nat) returns (ok: bool)
      requires Valid() && NoneHeld(View()) && i < g.ninodes && NDIRECT <= bn < MAXFILE
      modifies this
      ensures Mapped(old(View()), View(), i, bn) && Slot(View(), i, bn) == Slot(old(View()), i, bn)
      ensures old(Ind(View(), i)) != 0 ==> View() == old(View()) && logged == old(logged)
      ensures if ok then Ind(View(), i) != 0 else Ind(View(), i) == 0 && Full(View())
      ensures logged <= old(logged) + WithBitmap(g, Ind(View(), i))
      ensures Covered(g, old(disk), disk, old(logged), logged)
      ensures OnlyAddrs(old(ino), ino, i)
    {
      ghost var s := View();
      ExtendsRefl(s, i, bn);
      var b := ino[i].addrs[NDIRECT];
      if b == 0 {
        b := Balloc();
        if b == 0 {
          return false;
        }
        IndirectAllocation(s, i, bn, b);
        ino := ino[i := ino[i].(addrs := ino[i].addrs[NDIRECT := b])];
        role := role[b := Indirect(i)];
        assert View() == LinkedIndirect(Took(s, b), i, b);
      }
      return true;
    }

    method BmapEntry(i: nat, bn: nat) returns (r: nat)
      requires Valid() && NoneHeld(View()) && i < g.ninodes && NDIRECT <= bn < MAXFILE && Ind(View(), i) != 0
      modifies this
      ensures Mapped(old(View()), View(), i, bn) && r == Slot(View(), i, bn)
      ensures Slot(old(View()), i, bn) != 0 ==> View() == old(View()) && logged == old(logged)
      ensures r == 0 ==> Full(View())
      ensures Ind(View(), i) == old(Ind(View(), i)) && logged <= old(logged) + WithBitmap(g, r) + {Ind(View(), i)}
      ensures Covered(g, old(disk), disk, old(logged), logged)
      ensures OnlyAddrs(old(ino), ino, i)
    {
      ghost var s := View();
      ExtendsRefl(s, i, bn);
      var ind := ino[i].addrs[NDIRECT];
      assert ind == Ind(s, i);
      r := Word(disk[ind], bn - NDIRECT);
      if r == 0 {
        r := Balloc();
        if r != 0 {
          AttachEntry(i, bn, ind, r, s);
          CoveredTrans(g, s.disk, Took(s, r).disk, disk, old(logged), old(logged) + {r, BBlock(g, r)}, logged);
        }
      }
    }

    /** The block just allocated becomes an entry of the indirect block. */
    method AttachEntry(i: nat, bn: nat, ind: nat, r: nat, ghost s: Fs)
      requires Inv(s) && NoneHeld(s) && s.g == g && i < |s.ino| && NDIRECT <= bn < MAXFILE && ind == Ind(s, i) != 0
      requires r < g.size && s.role[r] == Free && View() == Took(s, r) && Slot(s, i, bn) == 0
      modifies `disk, `role, `logged
      ensures Mapped(s, View(), i, bn) && Slot(View(), i, bn) == r && Ind(View(), i) == ind
      ensures logged == old(logged) + {ind} && Covered(g, old(disk), disk, old(logged), logged)
    {
      assert RoleAt(s, ind) == Indirect(i);
      PutEntry(ind, bn - NDIRECT, r);
      role := role[r := Data(i, bn)];
      EntryAttached(s, View(), i, bn, r);
    }

    /** The new entry of an indirect block, logged. */
    method PutEntry(ind: nat, k: nat, w: nat)
      requires g.inodestart <= ind < |disk| && k < NINDIRECT && w < WORD
      modifies `disk, `logged
      ensures disk == old(disk)[ind := SetWord(old(disk)[ind], k, w)] && logged == old(logged) + {ind}
      ensures Covered(g, old(disk), disk, old(logged), logged)
    {
      disk := disk[ind := SetWord(disk[ind], k, w)];
      logged := logged + {ind};
    }

    /** Between operations: nothing is half linked and every dinode is on disk. */
    ghost predicate Ready()
      reads this
    {
      Valid() && NoneHeld(View()) && AllSyncedBut(View(), |ino|)
    }

    /** iupdate. */
    method Iupdate(i: nat)
      requires Valid() && i < g.ninodes && AllSyncedBut(View(), i)
      modifies `disk, `logged
      ensures Valid() && AllSyncedBut(View(), |ino|) && (NoneHeld(old(View())) ==> NoneHeld(View()))
      ensures forall j: nat {:trigger Contents(View(), j)} ::
          j < g.ninodes ==> Contents(View(), j) == old(Contents(View(), j))
      ensures logged == old(logged) + {IBlock(g, i)}
      ensures forall j: nat, n: nat {:trigger Slot(View(), j, n)} :: Slot(View(), j, n) == Slot(old(View()), j, n)
      ensures forall j: nat {:trigger Ind(View(), j)} :: Ind(View(), j) == Ind(old(View()), j)
      ensures Covered(g, old(disk), disk, old(logged), logged)
    {
      ghost var s := View();
      FlushStep(s, i);
      var m := IBlock(g, i);
      var block := PutInode(disk[m], InodeWord(i), ino[i]);
      disk := disk[m := block];
      logged := logged + {m};
      assert View() == Flushed(s, i);
    }

    /** One turn of readi's loop: bytes from pos to the end of their block, at most n of them. */
    method ReadBlock(i: nat, pos: nat, n: nat) returns (d: seq<Byte>)
      requires Ready() && !g.holes && i < g.ninodes && 0 < n && pos + n <= ino[i].size
      modifies this
      ensures View() == old(View()) && logged == old(logged)
      ensures 0 < |d| <= n && d == Contents(View(), i)[pos..pos + |d|]
    {
      ghost var s := View();
      var m := Min(n, BSIZE - pos % BSIZE);
      BlockIsSlice(s, i, pos, m);
      var addr, panicked := Bmap(i, pos / BSIZE);
      d := disk[addr][pos % BSIZE..pos % BSIZE + m];
    }

    /** readi into dst; nothing is allocated on the way because files have no holes below their size. */
    method Readi(i: nat, off: nat, n: nat) returns (dst: seq<Byte>)
      requires Ready() && !g.holes && i < g.ninodes && off < WORD && n < WORD
      modifies this
      ensures View() == old(View()) && logged == old(logged)
      ensures var c := Contents(View(), i);
              dst == if off > |c| || off + n >= WORD then [] else c[off..Min(off + n, |c|)]
    {
      Wraparound(off, n);
      if off > ino[i].size || Plus(off, n) < off {
        return [];
      }
      dst := ReadBlocks(i, off, if off + n > ino[i].size then ino[i].size - off else n);
    }

    /** readi's loop. */
    method ReadBlocks(i: nat, off: nat, n: nat) returns (dst: seq<Byte>)
      requires Ready() && !g.holes && i < g.ninodes && off + n <= ino[i].size
      modifies this
      ensures View() == old(View()) && logged == old(logged) && dst == Contents(View(), i)[off..off + n]
    {
      dst := [];
      ghost var c := Contents(View(), i);
      while |dst| < n
        invariant |dst| <= n && dst == c[off..off + |dst|]
        invariant View() == old(View()) && logged == old(logged)
      {
        var d := ReadBlock(i, off + |dst|, n - |dst|);
        SliceJoin(c, off, off + |dst|, off + |dst| + |d|);
        dst := dst + d;
      }
    }

    /** either_copyin into the buffer, and log_write. */
    method CopyIn(b: nat, at: nat, d: seq<Byte>)
      requires g.inodestart <= b < |disk| && at + |d| <= BSIZE
      modifies `disk, `logged
      ensures View() == Stored(old(View()), b, at, d) && logged == old(logged) + {b}
      ensures Covered(g, old(disk), disk, old(logged), logged)
    {
      disk := disk[b := Overlay(disk[b], at, d)];
      logged := logged + {b};
    }

    /** One turn of writei's loop: map the block, copy up to its end, log it. m is 0 when the disk is full. */
    method WriteBlock(i: nat, off: nat, data: seq<Byte>, tot: nat, ghost w: Write, ghost j: Job, ghost l: Ledger)
      returns (m: nat, ghost l': Ledger)
      requires w == Write(w.before, i, off, data) && Writing(w, View(), tot)
      requires j == Job(i, off, |data|, j.before, g.holes) && Accounted(l, j, View(), tot, logged)
      requires i < |w.before.ino| && off <= w.before.ino[i].size && tot < |data| && off + |data| <= MAXFILE * BSIZE
      modifies this
      ensures tot + m <= |data| && Writing(w, View(), tot + m) && (m == 0 ==> Full(View()))
      ensures Accounted(l', j, View(), tot + m, logged)
      ensures Covered(g, old(disk), disk, old(logged), logged)
      ensures OnlyAddrs(old(ino), ino, i)
    {
      ghost var s, before := View(), logged;
      m := MapAndCopy(i, off, data, tot, w);
      if off % BSIZE != 0 && !g.holes {
        PartialBlockExists(w, s, tot);
      }
      l' := AccountTurn(w, l, j, s, View(), tot, m, before, logged);
    }

    method MapAndCopy(i: nat, off: nat, data: seq<Byte>, tot: nat, ghost w: Write) returns (m: nat)
      requires w == Write(w.before, i, off, data) && Writing(w, View(), tot)
      requires tot < |data| && off + |data| <= MAXFILE * BSIZE
      modifies this
      ensures Turned(w, old(View()), View(), tot, m, old(logged), logged)
      ensures Covered(g, old(disk), disk, old(logged), logged)
      ensures OnlyAddrs(old(ino), ino, i)
    {
      ghost var s := View();
      var bn, at := (off + tot) / BSIZE, (off + tot) % BSIZE;
      var addr, panicked := Bmap(i, bn);
      ghost var t, logged' := View(), logged;
      if addr == 0 {
        TurnedFull(w, s, t, tot, old(logged), logged');
        return 0;
      }
      m := StoreTurn(i, off, data, tot, addr, w, s, old(logged));
      CoveredTrans(g, s.disk, t.disk, disk, old(logged), logged', logged);
    }

    /** The rest of a turn, once the block is there. */
    method StoreTurn(i: nat, off: nat, data: seq<Byte>, tot: nat, addr: nat, ghost w: Write, ghost s: Fs,
        ghost before: set<nat>)
      returns (m: nat)
      requires w == Write(w.before, i, off, data) && Writing(w, s, tot) && tot < |data|
      requires Mapped(s, View(), i, (off + tot) / BSIZE) && addr == Slot(View(), i, (off + tot) / BSIZE) != 0
      requires Ind(s, i) != 0 ==> Ind(View(), i) == Ind(s, i)
      requires logged <= before + MapCost(View(), i, (off + tot) / BSIZE)
      requires Slot(s, i, (off + tot) / BSIZE) != 0 ==> logged == before
      modifies `disk, `logged
      ensures Turned(w, s, View(), tot, m, before, logged)
      ensures Covered(g, old(disk), disk, old(logged), logged)
    {
      var bn, at := (off + tot) / BSIZE, (off + tot) % BSIZE;
      ghost var t := View();
      m := Min(|data| - tot, BSIZE - at);
      BlocksOwnedOnce(t, i, bn, i, bn);
      TurnedStored(w, s, t, tot, m, before, logged);
      CopyIn(addr, at, data[tot..tot + m]);
    }

    /** writei. It fails on a bad range, and otherwise writes a prefix of the data: all of it unless the disk fills
        up. */
    method Writei(i: nat, off: nat, data: seq<Byte>) returns (r: int)
      requires Ready() && i < g.ninodes && off < WORD && |data| < WORD
      modifies this
      ensures Ready()
      ensures r == -1 <==> off > old(ino[i].size) || off + |data| >= WORD || off + |data| > MAXFILE * BSIZE
      ensures r == -1 ==> View() == old(View()) && logged == old(logged)
      ensures -1 <= r <= |data| && (0 <= r < |data| ==> Full(View()))
      ensures r >= 0 ==> Contents(View(), i) == Spliced(old(Contents(View(), i)), off, data[..r])
      ensures r >= 0 ==> OthersKept(old(View()), View(), i)
      ensures r >= 0 ==> SlotsGrow(old(View()), View(), i) && SlotsThere(View(), i, off, r) && IBlock(g, i) in logged
      ensures |data| <= 3 * BSIZE ==> |logged| <= |old(logged)| + OpLimit(g.holes)
      ensures Covered(g, old(disk), disk, old(logged), logged)
      ensures OnlyBody(old(ino), ino, i)
    {
      Wraparound(off, |data|);
      if off > ino[i].size || Plus(off, |data|) < off || off + |data| > MAXFILE * BSIZE {
        return -1;
      }
      ghost var w := Write(View(), i, off, data);
      var tot := WriteBlocks(i, off, data, w);
      r := tot;
      ghost var d, before := disk, logged;
      WriteEnd(i, off, tot, w);
      CoveredTrans(g, old(disk), d, disk, old(logged), before, logged);
    }

    /** The end of writei: the size, and the inode written back whether or not the size changed. */
    method WriteEnd(i: nat, off: nat, tot: nat, ghost w: Write)
      requires Writing(w, View(), tot) && w == Write(w.before, i, off, w.data) && Inv(w.before)
      requires i < |w.before.ino| && off <= w.before.ino[i].size && off + tot <= MAXFILE * BSIZE
      modifies this
      ensures Ready() && role == old(role) && logged == old(logged) + {IBlock(g, i)} && Ended(w, View(), tot)
      ensures Covered(g, old(disk), disk, old(logged), logged)
      ensures OnlyBody(old(ino), ino, i)
    {
      ghost var t := View();
      GrowSize(i, off + tot);
      ghost var u := View();
      WritingEndsAs(w, t, u, tot);
      Iupdate(i);
      EndedFlushed(w, u, View(), tot);
    }

    method GrowSize(i: nat, end: nat)
      requires i < |ino|
      modifies `ino
      ensures View() == Resized(old(View()), i, Grown(old(ino[i].size), end))
    {
      if end > ino[i].size {
        ino := ino[i := ino[i].(size := end)];
      } else {
        assert ino[i := ino[i].(size := ino[i].size)] == ino;
      }
    }

    /** writei's loop. */
    method WriteBlocks(i: nat, off: nat, data: seq<Byte>, ghost w: Write) returns (tot: nat)
      requires Ready() && i < g.ninodes && off <= ino[i].size
      requires off + |data| <= MAXFILE * BSIZE && w == Write(View(), i, off, data)
      modifies this
      ensures tot <= |data| && Writing(w, View(), tot) && (tot < |data| ==> Full(View()))
      ensures |data| <= 3 * BSIZE ==> |logged| <= |old(logged)| + OpLimit(g.holes) - 1
      ensures Covered(g, old(disk), disk, old(logged), logged)
      ensures OnlyAddrs(old(ino), ino, i)
    {
      ghost var j := Job(i, off, |data|, logged, g.holes);
      ghost var l := Ledger({}, {}, 0, 0);
      WritingStarts(w);
      tot := 0;
      while tot < |data|
        invariant tot <= |data| && Writing(w, View(), tot) && Accounted(l, j, View(), tot, logged)
        invariant OnlyAddrs(old(ino), ino, i)
        invariant Covered(g, old(disk), disk, old(logged), logged)
      {
        var m;
        ghost var d, before := disk, logged;
        m, l := WriteBlock(i, off, data, tot, w, j, l);
        CoveredTrans(g, old(disk), d, disk, old(logged), before, logged);
        if m == 0 {
          break;
        }
        tot := tot + m;
      }
      if |data| <= 3 * BSIZE {
        ChunkBound(l, j, View(), tot, logged);
      }
    }

    /** One turn of itrunc's first loop. */
    method FreeDirect(i: nat, d: nat, ghost s: Fs)
      requires i < |ino| && d < NDIRECT && DirectDone(s, Resized(View(), i, 0), i, d)
      modifies this
      ensures |ino| == old(|ino|) && DirectDone(s, Resized(View(), i, 0), i, d + 1)
      ensures Covered(g, old(disk), disk, old(logged), logged) && OnlyBitmaps(g, old(logged), logged)
      ensures OnlyAddrs(old(ino), ino, i)
    {
      DirectStep(s, Resized(View(), i, 0), i, d);
      if ino[i].addrs[d] != 0 {
        DropDirect(i, d);
      }
    }

    method DropDirect(i: nat, d: nat)
      requires Sized(View()) && i < |ino| && d < |ino[i].addrs| && ino[i].addrs[d] < g.size
      requires InUse(View(), ino[i].addrs[d])
      modifies this
      ensures i < |ino| == old(|ino|)
      ensures Resized(View(), i, 0) == Released(Unlinked(Resized(old(View()), i, 0), i, d), old(ino[i].addrs[d]))
      ensures Covered(g, old(disk), disk, old(logged), logged) && OnlyBitmaps(g, old(logged), logged)
      ensures OnlyAddrs(old(ino), ino, i)
    {
      var b := ino[i].addrs[d];
      var panicked := Bfree(b);
      ino := ino[i := ino[i].(addrs := ino[i].addrs[d := 0])];
      role := role[b := Free];
    }

    method TruncDirect(i: nat, ghost s: Fs)
      requires i < |ino| && DirectDone(s, Resized(View(), i, 0), i, 0)
      modifies this
      ensures |ino| == old(|ino|) && DirectDone(s, Resized(View(), i, 0), i, NDIRECT)
      ensures Covered(g, old(disk), disk, old(logged), logged) && OnlyBitmaps(g, old(logged), logged)
      ensures OnlyAddrs(old(ino), ino, i)
    {
      var d := 0;
      while d < NDIRECT
        invariant d <= NDIRECT && |ino| == old(|ino|) && DirectDone(s, Resized(View(), i, 0), i, d)
        invariant OnlyAddrs(old(ino), ino, i)
        invariant Covered(g, old(disk), disk, old(logged), logged) && OnlyBitmaps(g, old(logged), logged)
      {
        ghost var was, before := disk, logged;
        FreeDirect(i, d, s);
        CoveredTrans(g, old(disk), was, disk, old(logged), before, logged);
        d := d + 1;
      }
    }

    /** One turn of itrunc's second loop, the entries read from the indirect block. The inode still names the
        indirect block; h is the state without it. */
    method FreeEntry(i: nat, a: Block, e: nat, ghost s: Fs, ghost h: Fs) returns (ghost h': Fs)
      requires e < NINDIRECT && Inv(s) && EntriesDone(s, h, i, e) && Word(a, e) == Slot(s, i, NDIRECT + e)
      requires View() == h.(ino := ino) && |ino| == |h.ino|
      modifies `disk, `role, `logged
      ensures EntriesDone(s, h', i, e + 1) && View() == h'.(ino := ino) && h'.ino == h.ino
      ensures Covered(g, old(disk), disk, old(logged), logged) && OnlyBitmaps(g, old(logged), logged)
    {
      h' := h;
      EntryStep(s, h, i, e);
      if Word(a, e) != 0 {
        var b := Word(a, e);
        var panicked := Bfree(b);
        assert !panicked;
        role := role[b := Free];
        h' := Released(h, b);
      }
    }

    method TruncEntries(i: nat, a: Block, ghost s: Fs, ghost h: Fs) returns (ghost h': Fs)
      requires Inv(s) && EntriesDone(s, h, i, 0) && View() == h.(ino := ino) && |ino| == |h.ino|
      requires forall e: nat :: e < NINDIRECT ==> Word(a, e) == Slot(s, i, NDIRECT + e)
      modifies `disk, `role, `logged
      ensures EntriesDone(s, h', i, NINDIRECT) && View() == h'.(ino := ino) && h'.ino == h.ino
      ensures Covered(g, old(disk), disk, old(logged), logged) && OnlyBitmaps(g, old(logged), logged)
    {
      h' := h;
      var e := 0;
      while e < NINDIRECT
        invariant e <= NINDIRECT && EntriesDone(s, h', i, e) && View() == h'.(ino := ino) && h'.ino == h.ino
        invariant Covered(g, old(disk), disk, old(logged), logged) && OnlyBitmaps(g, old(logged), logged)
      {
        ghost var was, before := disk, logged;
        h' := FreeEntry(i, a, e, s, h');
        CoveredTrans(g, old(disk), was, disk, old(logged), before, logged);
        e := e + 1;
      }
    }

    /** The rest of itrunc's block work: the indirect block's entries, then the block itself. */
    method TruncIndirect(i: nat, ghost s: Fs)
      requires i < |ino| == |s.ino| && Inv(s) && DirectDone(s, Resized(View(), i, 0), i, NDIRECT)
      modifies this
      ensures |ino| == |s.ino| && Truncated(s, Resized(View(), i, 0), i)
      ensures Covered(g, old(disk), disk, old(logged), logged) && OnlyBitmaps(g, old(logged), logged)
      ensures OnlyAddrs(old(ino), ino, i)
    {
      ghost var h := Resized(View(), i, 0);
      EntriesStart(s, h, i);
      var ind := ino[i].addrs[NDIRECT];
      if ind == 0 {
        TruncEnds(s, h, i);
        return;
      }
      IndirectWords(s, h, i);
      role := Cut(h, i).role;
      ghost var h' := TruncEntries(i, disk[ind], s, Cut(h, i));
      ghost var was, before := disk, logged;
      FreeIndirect(i, ind, s, h');
      CoveredTrans(g, old(disk), was, disk, old(logged), before, logged);
    }

    method FreeIndirect(i: nat, ind: nat, ghost s: Fs, ghost h: Fs)
      requires i < |ino| == |s.ino| && Inv(s) && EntriesDone(s, h, i, NINDIRECT) && ind == Ind(s, i) != 0
      requires View() == h.(ino := ino) && |ino[i].addrs| == NDIRECT + 1
      requires h.ino == ino[i := ino[i].(size := 0, addrs := ino[i].addrs[NDIRECT := 0])]
      modifies this
      ensures |ino| == |s.ino| && Truncated(s, Resized(View(), i, 0), i)
      ensures Covered(g, old(disk), disk, old(logged), logged) && OnlyBitmaps(g, old(logged), logged)
      ensures OnlyAddrs(old(ino), ino, i)
    {
      TruncEnds(s, h, i);
      var panicked := Bfree(ind);
      assert !panicked;
      ino := ino[i := ino[i].(addrs := ino[i].addrs[NDIRECT := 0])];
      role := role[ind := Free];
      assert Resized(View(), i, 0) == Released(h, ind);
    }

    /** itrunc. */
    method Itrunc(i: nat)
      requires Ready() && i < g.ninodes
      modifies this
      ensures Ready() && Contents(View(), i) == [] && OthersKept(old(View()), View(), i)
      ensures FreedExactly(old(role), role, i)
      ensures |logged| <= |old(logged)| + g.size / BPB + 2
      ensures Covered(g, old(disk), disk, old(logged), logged)
      ensures ino == old(ino)[i := old(ino)[i].(size := 0, addrs := seq(NDIRECT + 1, _ => 0))]
    {
      ghost var s := View();
      TruncStarts(s, i);
      TruncDirect(i, s);
      ghost var d1, l1 := disk, logged;
      TruncIndirect(i, s);
      ghost var d2, l2 := disk, logged;
      CoveredTrans(g, s.disk, d1, d2, old(logged), l1, l2);
      ino := ino[i := ino[i].(size := 0)];
      TruncatedFiles(s, View(), i);
      TruncatedInode(s, View(), i);
      BitmapsCount(g, old(logged), l2);
      Iupdate(i);
      CoveredTrans(g, s.disk, d2, disk, old(logged), l2, logged);
    }

    /** One turn of filewrite's loop, at file offset at: one operation of the log, which never outgrows its
        reservation. at' is the offset afterwards. */
    method WriteChunk(i: nat, at: nat, chunk: seq<Byte>, ghost s: Fs, ghost off: nat, ghost data: seq<Byte>)
      returns (r: int, at': nat)
      requires Ready() && i < g.ninodes && off <= at <= at + |chunk| <= off + |data| < WORD
      requires 0 < |chunk| <= 3 * BSIZE && chunk == data[at - off..at - off + |chunk|]
      requires Wrote(s, View(), i, off, data, at)
      modifies this
      ensures Ready() && |logged| <= OpLimit(g.holes) && r <= |chunk| && at' == if r > 0 then at + r else at
      ensures Wrote(s, View(), i, off, data, at')
      ensures r < |chunk| ==> Refused(s, View(), i, off, |data|)
      ensures OnlyBody(old(ino), ino, i) && Covered(g, old(disk), disk, {}, logged)
    {
      ghost var t := View();
      logged := {};
      r := Writei(i, at, chunk);
      at' := if r > 0 then at + r else at;
      WhyShort(s, t, View(), i, off, data, at, |chunk|, r);
      WroteChunk(s, t, View(), i, off, data, at, chunk, r);
    }

    /** The size of filewrite's next chunk after n bytes: three blocks' worth, or what is left. */
    static method NextChunk(total: nat, n: nat) returns (n1: nat)
      requires n < total
      ensures n1 == Min(total - n, 3 * BSIZE)
    {
      var max := (LogDisk.MAXOPBLOCKS - 1 - 1 - 2) / 2 * BSIZE;
      n1 := total - n;
      if n1 > max {
        n1 := max;
      }
    }

    /** filewrite on an inode, chunk by chunk. off' is the file offset afterwards; `ops` are the blocks each of its
        operations logged. */
    method Filewrite(i: nat, off: nat, data: seq<Byte>) returns (ret: int, off': nat, ghost ops: seq<set<nat>>)
      requires Ready() && i < g.ninodes && off + |data| < WORD
      modifies this
      ensures Ready() && LoggedBy(g, old(disk), disk, ops, OpLimit(g.holes))
      ensures off <= off' <= off + |data| && ret == if off' == off + |data| then |data| else -1
      ensures Wrote(old(View()), View(), i, off, data, off')
      ensures off' < off + |data| ==> Refused(old(View()), View(), i, off, |data|)
      ensures OnlyBody(old(ino), ino, i)
    {
      ghost var s := View();
      off', ops := off, [];
      WroteNothing(s, i, off, data);
      var n := 0;
      while n < |data|
        invariant Ready() && n <= |data| && off' == off + n && OnlyBody(old(ino), ino, i)
        invariant LoggedBy(g, old(disk), disk, ops, OpLimit(g.holes)) && Wrote(s, View(), i, off, data, off')
      {
        var n1 := NextChunk(|data|, n);
        var r;
        ghost var d := disk;
        r, off' := WriteChunk(i, off', data[n..n + n1], s, off, data);
        OneMoreOperation(g, old(disk), d, disk, ops, logged, OpLimit(g.holes));
        ops := ops + [logged];
        if r != n1 {
          break;
        }
        n := n + r;
      }
      ret := if n == |data| then |data| else -1;
    }
  }
}

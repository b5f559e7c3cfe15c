/** Files as byte sequences over the block structure. */
module FsFiles {
  import opened FsBlocks
  import opened FsState

  /** Byte k of file i; blocks that do not exist read as zero. */
  function ByteAt(s: Fs, i: nat, k: nat): Byte {
    var b := Slot(s, i, k / BSIZE);
    if 0 < b < |s.disk| then s.disk[b][k % BSIZE] else 0
  }

  function FirstBytes(s: Fs, i: nat, n: nat): (c: seq<Byte>)
    ensures |c| == n
  {
    if n == 0 then [] else FirstBytes(s, i, n - 1) + [ByteAt(s, i, n - 1)]
  }

  lemma {:induction false} FirstBytesAt(s: Fs, i: nat, n: nat, k: nat)
    requires k < n
    ensures FirstBytes(s, i, n)[k] == ByteAt(s, i, k)
  {
    if k == n - 1 {
    } else {
      FirstBytesAt(s, i, n - 1, k);
    }
  }

  /** What file i holds. */
  function Contents(s: Fs, i: nat): seq<Byte>
    requires i < |s.ino|
  {
    FirstBytes(s, i, s.ino[i].size)
  }

  /** c with d laid over it from off on, longer if need be. */
  function Spliced(c: seq<Byte>, off: nat, d: seq<Byte>): seq<Byte>
    requires off <= |c|
  {
    c[..off] + d + if off + |d| <= |c| then c[off + |d|..] else []
  }

  // ---------------------------------------------------------------- the write loop

  /** Every block a file had it still has in the same place, and only file i has got new ones. */
  ghost predicate SlotsGrow(s: Fs, t: Fs, i: nat) {
    && (forall j: nat, n: nat {:trigger Slot(t, j, n)} ::
        j != i || Slot(s, j, n) != 0 ==> Slot(t, j, n) == Slot(s, j, n))
    && (forall j: nat {:trigger Ind(t, j)} :: j != i || Ind(s, j) != 0 ==> Ind(t, j) == Ind(s, j))
  }

  /** The blocks a file gets are blocks that were free. */
  lemma NewBlocksWereFree(s: Fs, t: Fs, i: nat, bn: nat)
    requires Inv(s) && NoneHeld(s) && Inv(t) && t.g == s.g && SlotsGrow(s, t, i)
    ensures Slot(s, i, bn) == 0 != Slot(t, i, bn) ==>
      && Slot(t, i, bn) < |s.role| && s.role[Slot(t, i, bn)] == Free
      && !InUse(s, Slot(t, i, bn)) && InUse(t, Slot(t, i, bn))
    ensures Ind(s, i) == 0 != Ind(t, i) ==>
      Ind(t, i) < |s.role| && s.role[Ind(t, i)] == Free && !InUse(s, Ind(t, i)) && InUse(t, Ind(t, i))
  {
    if Slot(s, i, bn) == 0 != Slot(t, i, bn) {
      WasFree(s, t, i, Slot(t, i, bn), Data(i, bn));
    }
    if Ind(s, i) == 0 != Ind(t, i) {
      WasFree(s, t, i, Ind(t, i), Indirect(i));
    }
  }

  lemma WasFree(s: Fs, t: Fs, i: nat, b: nat, r: Role)
    requires Inv(s) && NoneHeld(s) && Inv(t) && t.g == s.g && SlotsGrow(s, t, i) && b < |t.role| && RoleAt(t, b) == r
    requires r.Data? || r.Indirect?
    requires r.Data? ==> Slot(s, r.i, r.bn) == 0
    requires r.Indirect? ==> Ind(s, r.i) == 0
    ensures s.role[b] == Free && !InUse(s, b) && InUse(t, b)
  {
    var q := RoleAt(s, b);
    assert q != Held;
    assert q == Meta <==> b < s.g.nmeta;
    assert r == Meta <==> b < t.g.nmeta;
    assert q.Data? ==> Slot(t, q.i, q.bn) == b;
    assert q.Indirect? ==> Ind(t, q.i) == b;
  }

  /** t is s after the first tot bytes of data have been written to file i at off, its size not yet changed. */
  ghost predicate Written(s: Fs, t: Fs, i: nat, off: nat, data: seq<Byte>, tot: nat) {
    && t.g == s.g && |t.ino| == |s.ino| && |t.disk| == |s.disk| && InodeBlocksKept(s, t) && tot <= |data|
    && (forall j: nat {:trigger t.ino[j]} ::
        j < |t.ino| ==> if j == i then t.ino[j].(addrs := s.ino[j].addrs) == s.ino[j] else t.ino[j] == s.ino[j])
    && (forall j: nat, n: nat {:trigger Slot(t, j, n)} :: j != i ==> BlockKept(s, t, j, n))
    && (forall k: nat {:trigger ByteAt(t, i, k)} :: ByteAt(t, i, k) == Intended(s, i, off, data, tot, k))
    && (forall k: nat {:trigger ByteAt(t, i, k)} :: off <= k < off + tot ==> Slot(t, i, k / BSIZE) != 0)
  }

  function Intended(s: Fs, i: nat, off: nat, data: seq<Byte>, tot: nat, k: nat): Byte
    requires tot <= |data|
  {
    if off <= k < off + tot then data[k - off] else ByteAt(s, i, k)
  }

  lemma WrittenNothing(s: Fs, i: nat, off: nat, data: seq<Byte>)
    ensures Written(s, s, i, off, data, 0)
  {
    forall j: nat, n: nat ensures BlockKept(s, s, j, n) {
    }
    forall k: nat ensures ByteAt(s, i, k) == Intended(s, i, off, data, 0, k) {
    }
  }

  lemma WrittenAfterMap(s: Fs, t: Fs, u: Fs, i: nat, off: nat, data: seq<Byte>, tot: nat, bn: nat)
    requires Written(s, t, i, off, data, tot) && Extends(t, u, i, bn) && Inv(t) && Inv(u)
    ensures Written(s, u, i, off, data, tot)
  {
    forall j: nat | j < |u.ino|
      ensures if j == i then u.ino[j].(addrs := s.ino[j].addrs) == s.ino[j] else u.ino[j] == s.ino[j]
    {
      assert t.ino[j].(addrs := s.ino[j].addrs) == s.ino[j];
    }
    forall j: nat, n: nat | j != i ensures BlockKept(s, u, j, n) {
      assert Slot(u, j, n) == Slot(t, j, n) == Slot(s, j, n);
    }
    forall k: nat
      ensures ByteAt(u, i, k) == Intended(s, i, off, data, tot, k)
      ensures off <= k < off + tot ==> Slot(u, i, k / BSIZE) != 0
    {
      assert ByteAt(t, i, k) == Intended(s, i, off, data, tot, k);
      assert Slot(u, i, k / BSIZE) < |u.role|;
      assert NewBlock(t, u, i, k / BSIZE) ==> ByteAt(u, i, k) == 0;
    }
  }

  function Stored(s: Fs, b: nat, at: nat, d: seq<Byte>): Fs
    requires b < |s.disk| && at + |d| <= BSIZE
  {
    s.(disk := s.disk[b := Overlay(s.disk[b], at, d)])
  }

  /** Writing file data leaves the structure alone. */
  lemma StoreStep(s: Fs, i: nat, bn: nat, at: nat, d: seq<Byte>)
    requires Inv(s) && Slot(s, i, bn) != 0 && at + |d| <= BSIZE
    ensures Slot(s, i, bn) < |s.disk| && Inv(Stored(s, Slot(s, i, bn), at, d))
    ensures var t := Stored(s, Slot(s, i, bn), at, d);
            && (NoneHeld(s) ==> NoneHeld(t))
            && forall j: nat, n: nat {:trigger Slot(t, j, n)} {:trigger Slot(s, j, n)} :: Slot(t, j, n) == Slot(s, j, n)
  {
    var b := Slot(s, i, bn);
    var t := Stored(s, b, at, d);
    assert RoleAt(s, b) == Data(i, bn);
    SlotsKept(s, t);
    assert forall c: nat {:trigger RoleAt(t, c)} :: c < |t.role| ==> RoleAt(t, c) == RoleAt(s, c);
    BitsKept(s, t);
  }

  /** Storing into file i leaves every other file's blocks alone. */
  lemma StoredOthers(s: Fs, t: Fs, i: nat, bn: nat, at: nat, d: seq<Byte>, j: nat, n: nat)
    requires Inv(t) && Slot(t, i, bn) != 0 && at + |d| <= BSIZE && j != i && BlockKept(s, t, j, n)
    ensures Slot(t, i, bn) < |t.disk| && BlockKept(s, Stored(t, Slot(t, i, bn), at, d), j, n)
  {
    StoreStep(t, i, bn, at, d);
    BlocksOwnedOnce(t, i, bn, j, n);
    assert Slot(Stored(t, Slot(t, i, bn), at, d), j, n) == Slot(t, j, n);
  }

  lemma StoredBytes(s: Fs, t: Fs, i: nat, off: nat, data: seq<Byte>, tot: nat, m: nat, k: nat)
    requires Inv(t) && i < |t.ino| && 0 < m && tot + m <= |data|
    requires (off + tot) % BSIZE + m <= BSIZE && Slot(t, i, (off + tot) / BSIZE) != 0
    requires ByteAt(t, i, k) == Intended(s, i, off, data, tot, k)
    requires off <= k < off + tot ==> Slot(t, i, k / BSIZE) != 0
    ensures Slot(t, i, (off + tot) / BSIZE) < |t.disk|
    ensures var u := Stored(t, Slot(t, i, (off + tot) / BSIZE), (off + tot) % BSIZE, data[tot..tot + m]);
      && ByteAt(u, i, k) == Intended(s, i, off, data, tot + m, k)
      && (off <= k < off + tot + m ==> Slot(u, i, k / BSIZE) != 0)
  {
    var at, bn := (off + tot) % BSIZE, (off + tot) / BSIZE;
    var b, d := Slot(t, i, bn), data[tot..tot + m];
    StoreStep(t, i, bn, at, d);
    var u := Stored(t, b, at, d);
    assert Slot(u, i, k / BSIZE) == Slot(t, i, k / BSIZE);
    BlocksOwnedOnce(t, i, bn, i, k / BSIZE);
    ByteStored(t, u, i, off + tot, bn, at, b, d, k);
  }

  /** One more piece, up to the end of a block. */
  lemma WrittenAfterStore(s: Fs, t: Fs, i: nat, off: nat, data: seq<Byte>, tot: nat, m: nat)
    requires Written(s, t, i, off, data, tot) && Inv(t) && i < |t.ino| && 0 < m && tot + m <= |data|
    requires (off + tot) % BSIZE + m <= BSIZE && Slot(t, i, (off + tot) / BSIZE) != 0
    ensures var b := Slot(t, i, (off + tot) / BSIZE);
            b < |t.disk| && Written(s, Stored(t, b, (off + tot) % BSIZE, data[tot..tot + m]), i, off, data, tot + m)
  {
    var at, bn := (off + tot) % BSIZE, (off + tot) / BSIZE;
    var b, d := Slot(t, i, bn), data[tot..tot + m];
    StoreStep(t, i, bn, at, d);
    var u := Stored(t, b, at, d);
    assert RoleAt(t, b) == Data(i, bn);
    forall j: nat, n: nat | j != i ensures BlockKept(s, u, j, n) {
      assert Slot(t, j, n) == Slot(s, j, n) && BlockKept(s, t, j, n);
      StoredOthers(s, t, i, bn, at, d, j, n);
    }
    forall k: nat
      ensures ByteAt(u, i, k) == Intended(s, i, off, data, tot + m, k)
      ensures off <= k < off + tot + m ==> Slot(u, i, k / BSIZE) != 0
    {
      assert ByteAt(t, i, k) == Intended(s, i, off, data, tot, k);
      StoredBytes(s, t, i, off, data, tot, m, k);
    }
  }

  /** One byte of the file after a run of bytes has been stored inside block bn. */
  lemma ByteStored(t: Fs, u: Fs, i: nat, pos: nat, bn: nat, at: nat, b: nat, d: seq<Byte>, k: nat)
    requires bn == pos / BSIZE && at == pos % BSIZE && 0 < |d| && at + |d| <= BSIZE && b == Slot(t, i, bn)
    requires 0 < b < |t.disk| && u == Stored(t, b, at, d)
    requires Slot(u, i, k / BSIZE) == Slot(t, i, k / BSIZE) && (k / BSIZE != bn ==> Slot(t, i, k / BSIZE) != b)
    ensures ByteAt(u, i, k) == if pos <= k < pos + |d| then d[k - pos] else ByteAt(t, i, k)
    ensures pos <= k < pos + |d| ==> Slot(u, i, k / BSIZE) != 0
  {
    InsideBlock(pos, bn, at, |d|, k);
  }

  /** Positions inside one block. */
  lemma InsideBlock(pos: nat, bn: nat, at: nat, n: nat, k: nat)
    requires bn == pos / BSIZE && at == pos % BSIZE && 0 < n && at + n <= BSIZE
    ensures pos <= k < pos + n <==> k / BSIZE == bn && at <= k % BSIZE < at + n
    ensures k / BSIZE == bn ==> k - pos == k % BSIZE - at
  {
  }

  // ---------------------------------------------------------------- the end of writei

  function Resized(s: Fs, i: nat, size: nat): Fs
    requires i < |s.ino|
  {
    s.(ino := s.ino[i := s.ino[i].(size := size)])
  }

  lemma ResizeStep(s: Fs, i: nat, size: nat)
    requires Inv(s) && i < |s.ino| && size <= MAXFILE * BSIZE
    requires s.g.holes || forall bn: nat {:trigger Slot(s, i, bn)} :: bn * BSIZE < size ==> Slot(s, i, bn) != 0
    ensures Inv(Resized(s, i, size))
    ensures forall j: nat, n: nat {:trigger Slot(Resized(s, i, size), j, n)} ::
        Slot(Resized(s, i, size), j, n) == Slot(s, j, n)
  {
    var t := Resized(s, i, size);
    SlotsKept(s, t);
    assert forall c: nat {:trigger RoleAt(t, c)} :: c < |t.role| ==> RoleAt(t, c) == RoleAt(s, c);
    BitsKept(s, t);
  }

  /** The size writei leaves behind never exposes a hole. */
  lemma WrittenHasNoHoles(s: Fs, t: Fs, i: nat, off: nat, data: seq<Byte>, tot: nat, bn: nat)
    requires Written(s, t, i, off, data, tot) && Inv(t) && i < |t.ino| && off <= s.ino[i].size
    requires bn * BSIZE < Grown(s.ino[i].size, off + tot) && !t.g.holes
    ensures Slot(t, i, bn) != 0
  {
    assert t.ino[i].size == s.ino[i].size;
    if bn * BSIZE >= s.ino[i].size {
      assert ByteAt(t, i, bn * BSIZE) == Intended(s, i, off, data, tot, bn * BSIZE);
      assert bn * BSIZE / BSIZE == bn;
    }
  }

  function Grown(size: nat, end: nat): nat {
    if end > size then end else size
  }

  /** writei's effect on the files. */
  lemma WriteIsSplice(s: Fs, t: Fs, i: nat, off: nat, data: seq<Byte>, tot: nat)
    requires Written(s, t, i, off, data, tot) && Inv(s) && Inv(t) && i < |s.ino| && off <= s.ino[i].size
    requires forall j: nat, n: nat {:trigger Slot(Resized(t, i, Grown(s.ino[i].size, off + tot)), j, n)} ::
               Slot(Resized(t, i, Grown(s.ino[i].size, off + tot)), j, n) == Slot(t, j, n)
    ensures Contents(Resized(t, i, Grown(s.ino[i].size, off + tot)), i) == Spliced(Contents(s, i), off, data[..tot])
  {
    var u := Resized(t, i, Grown(s.ino[i].size, off + tot));
    forall k: nat | k < |Contents(u, i)| ensures Contents(u, i)[k] == Spliced(Contents(s, i), off, data[..tot])[k] {
      assert ByteAt(u, i, k) == ByteAt(t, i, k) == Intended(s, i, off, data, tot, k);
      ByteSpliced(s, u, i, off, data, tot, k);
    }
  }

  /** One byte of the file after the write. */
  lemma ByteSpliced(s: Fs, u: Fs, i: nat, off: nat, data: seq<Byte>, tot: nat, k: nat)
    requires i < |s.ino| == |u.ino| && off <= s.ino[i].size && tot <= |data| && k < u.ino[i].size
    requires u.ino[i].size == Grown(s.ino[i].size, off + tot) && ByteAt(u, i, k) == Intended(s, i, off, data, tot, k)
    ensures k < |Spliced(Contents(s, i), off, data[..tot])|
    ensures Contents(u, i)[k] == Spliced(Contents(s, i), off, data[..tot])[k]
  {
    FirstBytesAt(u, i, u.ino[i].size, k);
    if k < s.ino[i].size {
      FirstBytesAt(s, i, s.ino[i].size, k);
    }
  }

  lemma OthersUnwritten(s: Fs, t: Fs, u: Fs, i: nat, off: nat, data: seq<Byte>, tot: nat, j: nat)
    requires Written(s, t, i, off, data, tot) && j < |s.ino| && j != i
    requires |u.ino| == |t.ino| && u.disk == t.disk && u.ino[j] == t.ino[j]
    requires forall n: nat {:trigger Slot(u, j, n)} :: Slot(u, j, n) == Slot(t, j, n)
    ensures Contents(u, j) == Contents(s, j)
  {
    forall k: nat ensures ByteAt(u, j, k) == ByteAt(s, j, k) {
      assert Slot(u, j, k / BSIZE) == Slot(t, j, k / BSIZE);
    }
    assert t.ino[j] == s.ino[j];
    SameBytesSameFile(s, u, j, s.ino[j].size);
  }

  lemma {:induction false} SameBytesSameFile(s: Fs, t: Fs, i: nat, n: nat)
    requires forall k: nat {:trigger ByteAt(t, i, k)} :: ByteAt(t, i, k) == ByteAt(s, i, k)
    ensures FirstBytes(t, i, n) == FirstBytes(s, i, n)
  {
    if n == 0 {
    } else {
      SameBytesSameFile(s, t, i, n - 1);
    }
  }

  // ---------------------------------------------------------------- inodes on disk

  /** The sixteen words of a dinode. */
  function InodeWords(n: Inode): seq<nat> {
    [n.kind, n.links, n.size] + n.addrs
  }

  /** The word of its inode block at which dinode i starts. */
  function InodeWord(i: nat): nat {
    16 * (i % IPB)
  }

  /** The dinode of file i on disk is its in-core copy. */
  ghost predicate Synced(s: Fs, i: nat) {
    IBlock(s.g, i) < |s.disk| && i < |s.ino| && |InodeWords(s.ino[i])| == 16
    && forall k: nat {:trigger InodeWords(s.ino[i])[k]} ::
        k < 16 ==> Word(s.disk[IBlock(s.g, i)], InodeWord(i) + k) == InodeWords(s.ino[i])[k]
  }

  /** Every dinode but perhaps that of file x. */
  ghost predicate AllSyncedBut(s: Fs, x: nat) {
    forall i: nat {:trigger Synced(s, i)} :: i < |s.ino| && i != x ==> Synced(s, i)
  }

  lemma SyncedKept(s: Fs, t: Fs, x: nat)
    requires Sized(s) && AllSyncedBut(s, x) && InodeBlocksKept(s, t)
    requires t.g == s.g && |t.disk| == |s.disk| && |t.ino| == |s.ino|
    requires forall i: nat {:trigger t.ino[i]} :: i < |t.ino| && i != x ==> t.ino[i] == s.ino[i]
    ensures AllSyncedBut(t, x)
  {
    forall i: nat | i < |t.ino| && i != x ensures Synced(t, i) {
      assert Synced(s, i);
      assert t.ino[i] == s.ino[i];
      assert t.disk[IBlock(t.g, i)] == s.disk[IBlock(s.g, i)];
    }
  }

  /** iupdate. */
  function Flushed(s: Fs, i: nat): Fs
    requires Sized(s) && i < |s.ino| && |s.ino[i].addrs| == NDIRECT + 1 && AreWords(InodeWords(s.ino[i]))
  {
    var m := IBlock(s.g, i);
    s.(disk := s.disk[m := PutWords(s.disk[m], InodeWord(i), InodeWords(s.ino[i]))])
  }

  lemma InodeHoldsWords(s: Fs, i: nat)
    requires Inv(s) && i < |s.ino|
    ensures |s.ino[i].addrs| == NDIRECT + 1 && AreWords(InodeWords(s.ino[i]))
  {
    forall k: nat | k < NDIRECT + 1 ensures s.ino[i].addrs[k] < WORD {
      assert k < NDIRECT ==> Slot(s, i, k) == s.ino[i].addrs[k];
      assert k == NDIRECT ==> Ind(s, i) == s.ino[i].addrs[k];
    }
  }

  lemma FlushKeeps(s: Fs, i: nat)
    requires Inv(s) && i < |s.ino|
    ensures |s.ino[i].addrs| == NDIRECT + 1 && AreWords(InodeWords(s.ino[i]))
    ensures Inv(Flushed(s, i)) && (NoneHeld(s) ==> NoneHeld(Flushed(s, i)))
    ensures forall j: nat, n: nat {:trigger Slot(Flushed(s, i), j, n)} :: Slot(Flushed(s, i), j, n) == Slot(s, j, n)
    ensures forall j: nat {:trigger Ind(Flushed(s, i), j)} :: Ind(Flushed(s, i), j) == Ind(s, j)
  {
    InodeHoldsWords(s, i);
    var t := Flushed(s, i);
    assert RoleAt(s, IBlock(s.g, i)) == Meta;
    SlotsKept(s, t);
    assert forall c: nat {:trigger RoleAt(t, c)} :: c < |t.role| ==> RoleAt(t, c) == RoleAt(s, c);
    BitsKept(s, t);
  }

  lemma FlushStep(s: Fs, i: nat)
    requires Inv(s) && i < |s.ino| && AllSyncedBut(s, i)
    ensures |s.ino[i].addrs| == NDIRECT + 1 && AreWords(InodeWords(s.ino[i]))
    ensures Inv(Flushed(s, i)) && AllSyncedBut(Flushed(s, i), |s.ino|)
    ensures forall j: nat {:trigger Contents(Flushed(s, i), j)} ::
        j < |s.ino| ==> Contents(Flushed(s, i), j) == Contents(s, j)
    ensures NoneHeld(s) ==> NoneHeld(Flushed(s, i))
    ensures forall j: nat, n: nat {:trigger Slot(Flushed(s, i), j, n)} :: Slot(Flushed(s, i), j, n) == Slot(s, j, n)
    ensures forall j: nat {:trigger Ind(Flushed(s, i), j)} :: Ind(Flushed(s, i), j) == Ind(s, j)
  {
    FlushKeeps(s, i);
    var t := Flushed(s, i);
    assert RoleAt(s, IBlock(s.g, i)) == Meta;
    forall j: nat | j < |t.ino| ensures Synced(t, j) {
      FlushSyncs(s, i, j);
    }
    forall j: nat | j < |s.ino| ensures Contents(t, j) == Contents(s, j) {
      forall k: nat ensures ByteAt(t, j, k) == ByteAt(s, j, k) {
        assert Slot(t, j, k / BSIZE) == Slot(s, j, k / BSIZE);
      }
      SameBytesSameFile(s, t, j, s.ino[j].size);
    }
  }

  lemma FlushSyncs(s: Fs, i: nat, j: nat)
    requires Sized(s) && i < |s.ino| && |s.ino[i].addrs| == NDIRECT + 1 && AreWords(InodeWords(s.ino[i]))
    requires j < |s.ino| && (j != i ==> Synced(s, j))
    ensures Synced(Flushed(s, i), j)
  {
    var t, m := Flushed(s, i), IBlock(s.g, i);
    forall k: nat | k < 16 ensures Word(t.disk[IBlock(t.g, j)], InodeWord(j) + k) == InodeWords(t.ino[j])[k] {
      if IBlock(s.g, j) == m {
        PutWordsAt(s.disk[m], InodeWord(i), InodeWords(s.ino[i]), InodeWord(j) + k);
      }
      assert j != i ==> Word(s.disk[IBlock(s.g, j)], InodeWord(j) + k) == InodeWords(s.ino[j])[k];
    }
  }

  /** n words of a block from word k on. */
  function WordsAt(b: Block, k: nat, n: nat): (ws: seq<nat>)
    requires k + n <= NINDIRECT
    ensures |ws| == n && forall j: nat :: j < n ==> ws[j] == Word(b, k + j)
  {
    if n == 0 then [] else WordsAt(b, k, n - 1) + [Word(b, k + n - 1)]
  }

  /** The dinode that begins at word `at` of a block, as ilock copies it into the in-core inode. */
  function Dinode(b: Block, at: nat): Inode
    requires at + 16 <= NINDIRECT
  {
    Inode(Word(b, at), Word(b, at + 1), Word(b, at + 2), WordsAt(b, at + 3, NDIRECT + 1))
  }

  /** ilock reads an inode back exactly when its dinode is in step with it. */
  lemma SyncedIsLoaded(s: Fs, i: nat)
    requires IBlock(s.g, i) < |s.disk| && i < |s.ino| && |s.ino[i].addrs| == NDIRECT + 1
    ensures Synced(s, i) <==> Dinode(s.disk[IBlock(s.g, i)], InodeWord(i)) == s.ino[i]
  {
    var n, d, ws := s.ino[i], Dinode(s.disk[IBlock(s.g, i)], InodeWord(i)), InodeWords(s.ino[i]);
    if Synced(s, i) {
      assert d.kind == ws[0] && d.links == ws[1] && d.size == ws[2];
      assert forall k: nat :: k < NDIRECT + 1 ==> d.addrs[k] == ws[3 + k] == n.addrs[k];
      assert d.addrs == n.addrs;
    }
    if d == n {
      forall k: nat | k < 16 ensures Word(s.disk[IBlock(s.g, i)], InodeWord(i) + k) == ws[k] {
        assert k >= 3 ==> ws[k] == n.addrs[k - 3] == d.addrs[k - 3];
      }
    }
  }

  /** What iupdate writes ilock reads, and every other inode is read as before. */
  lemma UpdateThenLock(s: Fs, i: nat, j: nat)
    requires Sized(s) && i < |s.ino| && |s.ino[i].addrs| == NDIRECT + 1 && AreWords(InodeWords(s.ino[i])) && j < |s.ino|
    ensures Dinode(Flushed(s, i).disk[IBlock(s.g, j)], InodeWord(j))
            == if j == i then s.ino[i] else Dinode(s.disk[IBlock(s.g, j)], InodeWord(j))
  {
    var t, m := Flushed(s, i), IBlock(s.g, i);
    if j == i {
      FlushSyncs(s, i, i);
      SyncedIsLoaded(t, i);
    } else if IBlock(s.g, j) == m {
      var at := InodeWord(j);
      forall k: nat | at <= k < at + 16 ensures Word(t.disk[m], k) == Word(s.disk[m], k) {
        PutWordsAt(s.disk[m], InodeWord(i), InodeWords(s.ino[i]), k);
      }
      SameDinode(s.disk[m], t.disk[m], InodeWord(j));
    }
  }

  lemma SameDinode(b: Block, b': Block, at: nat)
    requires at + 16 <= NINDIRECT && forall k: nat :: at <= k < at + 16 ==> Word(b', k) == Word(b, k)
    ensures Dinode(b', at) == Dinode(b, at)
  {
    assert WordsAt(b', at + 3, NDIRECT + 1) == WordsAt(b, at + 3, NDIRECT + 1);
  }

  // ---------------------------------------------------------------- in the middle of writei

  /** A call of writei: the state it found and its arguments. */
  datatype Write = Write(before: Fs, i: nat, off: nat, data: seq<Byte>)

  /** t is a sound state in which the first tot bytes have been written. */
  ghost predicate Writing(w: Write, t: Fs, tot: nat) {
    match w
    case Write(s, i, off, data) =>
      && Inv(t) && NoneHeld(t) && AllSyncedBut(t, i) && i < |t.ino| && Written(s, t, i, off, data, tot)
      && SlotsGrow(s, t, i)
  }

  lemma SlotsGrowMore(s: Fs, t: Fs, u: Fs, i: nat, bn: nat)
    requires SlotsGrow(s, t, i) && Extends(t, u, i, bn) && (Ind(t, i) != 0 ==> Ind(u, i) == Ind(t, i))
    ensures SlotsGrow(s, u, i)
  {
    forall j: nat, n: nat | j != i || Slot(s, j, n) != 0 ensures Slot(u, j, n) == Slot(s, j, n) {
      assert Slot(t, j, n) == Slot(s, j, n);
      assert Slot(u, j, n) != 0 || Slot(u, j, n) == 0;
    }
    forall j: nat | j != i || Ind(s, j) != 0 ensures Ind(u, j) == Ind(s, j) {
      assert Ind(t, j) == Ind(s, j);
      assert j < |u.ino| && j != i ==> u.ino[j] == t.ino[j];
    }
  }

  lemma SlotsGrowSame(s: Fs, t: Fs, u: Fs, i: nat)
    requires SlotsGrow(s, t, i)
    requires forall j: nat, n: nat {:trigger Slot(u, j, n)} :: Slot(u, j, n) == Slot(t, j, n)
    requires forall j: nat {:trigger Ind(u, j)} :: Ind(u, j) == Ind(t, j)
    ensures SlotsGrow(s, u, i)
  {
    forall j: nat, n: nat | j != i || Slot(s, j, n) != 0 ensures Slot(u, j, n) == Slot(s, j, n) {
      assert Slot(t, j, n) == Slot(s, j, n);
    }
    forall j: nat | j != i || Ind(s, j) != 0 ensures Ind(u, j) == Ind(s, j) {
      assert Ind(t, j) == Ind(s, j);
    }
  }

  lemma WritingAfterMap(w: Write, s: Fs, t: Fs, tot: nat, bn: nat)
    requires Writing(w, s, tot) && Mapped(s, t, w.i, bn) && (Ind(s, w.i) != 0 ==> Ind(t, w.i) == Ind(s, w.i))
    ensures Writing(w, t, tot)
  {
    SlotsGrowMore(w.before, s, t, w.i, bn);
    WrittenAfterMap(w.before, s, t, w.i, w.off, w.data, tot, bn);
    SyncedKept(s, t, w.i);
  }

  lemma WritingAfterStore(w: Write, t: Fs, tot: nat, m: nat)
    requires Writing(w, t, tot) && 0 < m && tot + m <= |w.data|
    requires (w.off + tot) % BSIZE + m <= BSIZE && Slot(t, w.i, (w.off + tot) / BSIZE) != 0
    ensures var bn := (w.off + tot) / BSIZE; var b := Slot(t, w.i, bn);
            b < |t.disk| && var u := Stored(t, b, (w.off + tot) % BSIZE, w.data[tot..tot + m]);
            Writing(w, u, tot + m) && Slot(u, w.i, bn) == b && Ind(u, w.i) == Ind(t, w.i)
  {
    var bn, at := (w.off + tot) / BSIZE, (w.off + tot) % BSIZE;
    var d := w.data[tot..tot + m];
    WrittenAfterStore(w.before, t, w.i, w.off, w.data, tot, m);
    StoreStep(t, w.i, bn, at, d);
    assert RoleAt(t, Slot(t, w.i, bn)) == Data(w.i, bn);
    SyncedKept(t, Stored(t, Slot(t, w.i, bn), at, d), w.i);
    SlotsGrowSame(w.before, t, Stored(t, Slot(t, w.i, bn), at, d), w.i);
  }

  lemma WritingStarts(w: Write)
    requires Inv(w.before) && NoneHeld(w.before) && AllSyncedBut(w.before, |w.before.ino|) && w.i < |w.before.ino|
    ensures Writing(w, w.before, 0)
  {
    WrittenNothing(w.before, w.i, w.off, w.data);
  }

  /** A write that starts inside a block starts inside the file. */
  lemma PartialBlockExists(w: Write, t: Fs, tot: nat)
    requires Writing(w, t, tot) && w.off <= w.before.ino[w.i].size && w.off % BSIZE != 0 && !t.g.holes
    ensures Slot(t, w.i, w.off / BSIZE) != 0
  {
    assert t.ino[w.i].size == w.before.ino[w.i].size;
    assert w.off / BSIZE * BSIZE < w.off;
  }

  /** The blocks of the n bytes from off on exist. */
  ghost predicate SlotsThere(s: Fs, i: nat, off: nat, n: nat) {
    forall k: nat {:trigger k / BSIZE} :: off <= k < off + n ==> Slot(s, i, k / BSIZE) != 0
  }

  /** t holds what writei leaves behind: the data spliced in, every other file as it was. */
  ghost predicate Ended(w: Write, t: Fs, tot: nat) {
    match w
    case Write(s, i, off, data) =>
      && i < |s.ino| == |t.ino| && off <= |Contents(s, i)| && tot <= |data|
      && Contents(t, i) == Spliced(Contents(s, i), off, data[..tot])
      && (forall j: nat {:trigger Contents(t, j)} :: j < |t.ino| && j != i ==> Contents(t, j) == Contents(s, j))
      && SlotsGrow(s, t, i) && SlotsThere(t, i, off, tot)
  }

  /** The inode is still to be flushed. */
  ghost predicate AtEnd(w: Write, t: Fs, tot: nat) {
    match w
    case Write(_, i, _, _) => Inv(t) && NoneHeld(t) && AllSyncedBut(t, i) && Ended(w, t, tot)
  }

  lemma EndedFlushed(w: Write, t: Fs, u: Fs, tot: nat)
    requires Ended(w, t, tot) && |u.ino| == |t.ino|
    requires forall j: nat {:trigger Contents(u, j)} :: j < |t.ino| ==> Contents(u, j) == Contents(t, j)
    requires forall j: nat, n: nat {:trigger Slot(u, j, n)} :: Slot(u, j, n) == Slot(t, j, n)
    requires forall j: nat {:trigger Ind(u, j)} :: Ind(u, j) == Ind(t, j)
    ensures Ended(w, u, tot)
  {
    SlotsGrowSame(w.before, t, u, w.i);
    forall k: nat | w.off <= k < w.off + tot ensures Slot(u, w.i, k / BSIZE) != 0 {
      assert Slot(t, w.i, k / BSIZE) != 0;
    }
  }

  /** The size is set, the inode still to be flushed. */
  lemma WritingEnds(w: Write, t: Fs, tot: nat)
    requires Writing(w, t, tot) && Inv(w.before) && w.i < |w.before.ino|
    requires w.off <= w.before.ino[w.i].size && w.off + tot <= MAXFILE * BSIZE
    ensures var u := Resized(t, w.i, Grown(w.before.ino[w.i].size, w.off + tot));
            AtEnd(w, u, tot) && t.ino[w.i].size == w.before.ino[w.i].size
  {
    var size := Grown(w.before.ino[w.i].size, w.off + tot);
    assert t.ino[w.i].size == w.before.ino[w.i].size <= MAXFILE * BSIZE;
    forall bn: nat | bn * BSIZE < size && !t.g.holes ensures Slot(t, w.i, bn) != 0 {
      WrittenHasNoHoles(w.before, t, w.i, w.off, w.data, tot, bn);
    }
    ResizeStep(t, w.i, size);
    WriteIsSplice(w.before, t, w.i, w.off, w.data, tot);
    SyncedKept(t, Resized(t, w.i, size), w.i);
    var u := Resized(t, w.i, size);
    SlotsGrowSame(w.before, t, u, w.i);
    forall k: nat | w.off <= k < w.off + tot ensures Slot(u, w.i, k / BSIZE) != 0 {
      assert ByteAt(t, w.i, k) == Intended(w.before, w.i, w.off, w.data, tot, k);
    }
    forall j: nat | j < |u.ino| && j != w.i ensures Contents(u, j) == Contents(w.before, j) {
      OthersUnwritten(w.before, t, u, w.i, w.off, w.data, tot, j);
    }
    assert forall c: nat {:trigger RoleAt(u, c)} :: c < |u.role| ==> RoleAt(u, c) == RoleAt(t, c);
  }

  lemma WritingEndsAs(w: Write, t: Fs, u: Fs, tot: nat)
    requires Writing(w, t, tot) && Inv(w.before) && w.i < |w.before.ino| && w.i < |t.ino|
    requires w.off <= w.before.ino[w.i].size && w.off + tot <= MAXFILE * BSIZE
    requires u == Resized(t, w.i, Grown(t.ino[w.i].size, w.off + tot))
    ensures AtEnd(w, u, tot)
  {
    WritingEnds(w, t, tot);
  }

  // ---------------------------------------------------------------- an empty file system

  function BlankInode(): Inode {
    Inode(0, 0, 0, seq(NDIRECT + 1, _ => 0))
  }

  /** The image mkfs starts from: the metadata blocks marked in the first bitmap block b, no files. */
  function Blank(g: Super, b: Block): Fs
    requires GeometryOk(g)
  {
    Fs(g, seq(g.size, _ => Zeros())[g.bmapstart := b], seq(g.ninodes, _ => BlankInode()),
       seq(g.size, c => if c < g.nmeta then Meta else Free))
  }

  lemma BlankIsSound(g: Super, b: Block)
    requires GeometryOk(g) && g.nmeta < BPB && forall j: nat :: j < BPB ==> (Bit(b, j) <==> j < g.nmeta)
    ensures Inv(Blank(g, b)) && NoneHeld(Blank(g, b)) && AllSyncedBut(Blank(g, b), g.ninodes)
  {
    var s := Blank(g, b);
    forall c: nat | c < |s.role| ensures InUse(s, c) <==> RoleAt(s, c) != Free {
      ZeroBit(c % BPB % 8);
      if c < BPB {
        assert Bit(b, c) <==> c < g.nmeta;
      }
    }
    forall i: nat | i < |s.ino| ensures Synced(s, i) {
      forall k: nat | k < 16 ensures Word(s.disk[IBlock(g, i)], InodeWord(i) + k) == InodeWords(s.ino[i])[k] {
        ZeroWord(InodeWord(i) + k);
      }
    }
  }
}

/** The buffer cache of kernel/bio.c: NBUF buffers on a doubly linked list that is kept
    in order of last release, sitting over a disk whose single-block writes are atomic. */
module Bio {
  import opened Basics

  const NBUF: nat := 30
  const HEAD: nat := NBUF    // list position of bcache.head; buffers are 0 .. NBUF - 1
  const ROOTDEV: nat := 1

  /** A disk block, as its cells: the words of a header or the bytes of a file system block. */
  type Block = seq<int>
  type Disk = seq<Block>

  datatype Buf = Buf(dev: nat, blockno: nat, valid: bool, refcnt: nat, locked: bool, data: Block)

  // ---------------------------------------------------------------- the linked list

  /** The next and prev pointers of the buffers and, last, of the head. */
  datatype Lru = Lru(next: seq<nat>, prev: seq<nat>)

  /** The ring from the head through `order` and back to the head. */
  function Ring(order: seq<nat>): seq<nat> {
    [HEAD] + order + [HEAD]
  }

  predicate Links(p: seq<nat>) {
    |p| == NBUF + 1 && forall i :: 0 <= i < |p| ==> p[i] <= NBUF
  }

  predicate Forward(next: seq<nat>, r: seq<nat>)
    requires Links(next)
  {
    forall k: nat {:trigger At(r, k)} :: k < |r| - 1 ==> At(r, k) <= NBUF && next[At(r, k)] == r[k + 1]
  }

  predicate Backward(prev: seq<nat>, r: seq<nat>)
    requires Links(prev)
  {
    forall k: nat {:trigger At(r, k)} :: 1 <= k < |r| ==> At(r, k) <= NBUF && prev[At(r, k)] == r[k - 1]
  }

  /** `next` and `prev` spell out exactly the ring through `order`. */
  predicate Linked(lru: Lru, order: seq<nat>) {
    match lru
    case Lru(next, prev) =>
      && Links(next) && Links(prev)
      && DistinctAt(order)
      && (forall k :: 0 <= k < |order| ==> order[k] < NBUF)
      && Forward(next, Ring(order))
      && Backward(prev, Ring(order))
  }

  /** The two halves of the list surgery in brelse, as binit also uses the second. */
  function Unlink(lru: Lru, b: nat): Lru
    requires Links(lru.next) && Links(lru.prev) && b < NBUF
  {
    var n, p := lru.next[b], lru.prev[b];
    Lru(lru.next[p := n], lru.prev[n := p])
  }

  function PushFront(lru: Lru, b: nat): Lru
    requires Links(lru.next) && Links(lru.prev) && b < NBUF
  {
    var first := lru.next[HEAD];
    Lru(lru.next[b := first][HEAD := b], lru.prev[b := HEAD][first := b])
  }

  /** The list holds every buffer. */
  predicate Listed(lru: Lru, order: seq<nat>) {
    match lru
    case Lru(_, _) => |order| == NBUF && Linked(lru, order) && forall i: nat :: i < NBUF ==> i in order
  }

  function Without(order: seq<nat>, k: nat): seq<nat>
    requires k < |order|
  {
    order[..k] + order[k + 1..]
  }

  lemma UnlinkForward(lru: Lru, order: seq<nat>, k: nat)
    requires Linked(lru, order) && k < |order|
    ensures Links(Unlink(lru, order[k]).next) && Forward(Unlink(lru, order[k]).next, Ring(Without(order, k)))
  {
    var r, r', next' := Ring(order), Ring(Without(order, k)), Unlink(lru, order[k]).next;
    DistinctForms(order);
    assert At(r, k + 1) == order[k];
    assert r' == r[..k + 1] + r[k + 2..];
    forall j: nat | j < |r'| - 1 ensures At(r', j) <= NBUF && next'[At(r', j)] == r'[j + 1] {
      assert At(r, if j <= k then j else j + 1) == r'[j];
    }
  }

  lemma UnlinkBackward(lru: Lru, order: seq<nat>, k: nat)
    requires Linked(lru, order) && k < |order|
    ensures Links(Unlink(lru, order[k]).prev) && Backward(Unlink(lru, order[k]).prev, Ring(Without(order, k)))
  {
    var r, r', prev' := Ring(order), Ring(Without(order, k)), Unlink(lru, order[k]).prev;
    DistinctForms(order);
    assert At(r, k + 1) == order[k];
    assert r' == r[..k + 1] + r[k + 2..];
    forall j: nat | 1 <= j < |r'| ensures At(r', j) <= NBUF && prev'[At(r', j)] == r'[j - 1] {
      assert At(r, if j <= k then j else j + 1) == r'[j];
    }
  }

  lemma UnlinkKeepsRing(lru: Lru, order: seq<nat>, k: nat)
    requires Linked(lru, order) && k < |order|
    ensures Linked(Unlink(lru, order[k]), Without(order, k))
  {
    DistinctForms(order);
    DistinctForms(Without(order, k));
    UnlinkForward(lru, order, k);
    UnlinkBackward(lru, order, k);
  }

  lemma PushFrontForward(lru: Lru, order: seq<nat>, b: nat)
    requires Linked(lru, order) && b < NBUF && b !in order
    ensures Links(PushFront(lru, b).next) && Forward(PushFront(lru, b).next, Ring([b] + order))
  {
    var r, r', next' := Ring(order), Ring([b] + order), PushFront(lru, b).next;
    DistinctForms(order);
    assert At(r, 0) == HEAD && At(r, 1) == lru.next[HEAD] && r' == [HEAD, b] + r[1..];
    forall j: nat | j < |r'| - 1 ensures At(r', j) <= NBUF && next'[At(r', j)] == r'[j + 1] {
      if j > 1 { assert At(r, j - 1) == r'[j]; }
    }
  }

  lemma PushFrontBackward(lru: Lru, order: seq<nat>, b: nat)
    requires Linked(lru, order) && b < NBUF && b !in order
    ensures Links(PushFront(lru, b).prev) && Backward(PushFront(lru, b).prev, Ring([b] + order))
  {
    var r, r', prev' := Ring(order), Ring([b] + order), PushFront(lru, b).prev;
    DistinctForms(order);
    assert At(r, 0) == HEAD && At(r, 1) == lru.next[HEAD] && r' == [HEAD, b] + r[1..];
    forall j: nat | 1 <= j < |r'| ensures At(r', j) <= NBUF && prev'[At(r', j)] == r'[j - 1] {
      if j > 1 { assert At(r, j - 1) == r'[j]; }
    }
  }

  lemma PushFrontKeepsRing(lru: Lru, order: seq<nat>, b: nat)
    requires Linked(lru, order) && b < NBUF && b !in order
    ensures Linked(PushFront(lru, b), [b] + order)
  {
    DistinctForms(order);
    DistinctForms([b] + order);
    PushFrontForward(lru, order, b);
    PushFrontBackward(lru, order, b);
  }

  /** Unlinking buffer order[k] and relinking it right after the head. */
  lemma MoveToFrontKeepsList(lru: Lru, order: seq<nat>, k: nat)
    requires Listed(lru, order) && k < NBUF
    ensures Linked(Unlink(lru, order[k]), Without(order, k))
    ensures Listed(PushFront(Unlink(lru, order[k]), order[k]), [order[k]] + Without(order, k))
  {
    var i, rest := order[k], Without(order, k);
    DistinctForms(order);
    UnlinkKeepsRing(lru, order, k);
    PushFrontKeepsRing(Unlink(lru, i), rest, i);
    forall j: nat | j < NBUF ensures j in [i] + rest {
      assert j in order;
      var m :| 0 <= m < NBUF && order[m] == j;
      assert m < k ==> rest[m] == j;
      assert m > k ==> rest[m - 1] == j;
    }
  }

  // ---------------------------------------------------------------- what the cache holds

  predicate Keyed(bufs: seq<Buf>, i: nat, b: nat) {
    i < |bufs| && bufs[i].dev == ROOTDEV && bufs[i].blockno == b
  }

  /** At most one buffer per block of the device (device 0 marks a buffer never used). */
  ghost predicate Unique(bufs: seq<Buf>) {
    forall i: nat, j: nat, b: nat :: Keyed(bufs, i, b) && Keyed(bufs, j, b) ==> i == j
  }

  /** The block contents a reader is entitled to: the cached copy if there is a valid one,
      the disk's otherwise. */
  ghost function Contents(bufs: seq<Buf>, disk: Disk, b: nat): Block
    requires b < |disk|
  {
    if i: nat :| Keyed(bufs, i, b) && bufs[i].valid then bufs[i].data else disk[b]
  }

  ghost function StoreTo(bufs: seq<Buf>, disk: Disk, k: nat): (s: Disk)
    requires k <= |disk|
    ensures |s| == k
  {
    if k == 0 then [] else StoreTo(bufs, disk, k - 1) + [Contents(bufs, disk, k - 1)]
  }

  /** The plain block store that the cache and the disk together stand for. */
  ghost function Store(bufs: seq<Buf>, disk: Disk): (s: Disk)
    ensures |s| == |disk|
  {
    StoreTo(bufs, disk, |disk|)
  }

  lemma {:induction false} StoreToAt(bufs: seq<Buf>, disk: Disk, k: nat, b: nat)
    requires b < k <= |disk|
    ensures StoreTo(bufs, disk, k)[b] == Contents(bufs, disk, b)
  {
    if b == k - 1 {
    } else {
      StoreToAt(bufs, disk, k - 1, b);
    }
  }

  lemma StoreIsContents(bufs: seq<Buf>, disk: Disk)
    ensures forall b: nat :: b < |disk| ==> Store(bufs, disk)[b] == Contents(bufs, disk, b)
  {
    forall b: nat | b < |disk| ensures Store(bufs, disk)[b] == Contents(bufs, disk, b) {
      StoreToAt(bufs, disk, |disk|, b);
    }
  }

  lemma ContentsOfCached(bufs: seq<Buf>, disk: Disk, i: nat)
    requires Unique(bufs) && i < |bufs| && bufs[i].dev == ROOTDEV && bufs[i].valid && bufs[i].blockno < |disk|
    ensures Contents(bufs, disk, bufs[i].blockno) == bufs[i].data
  {
    assert Keyed(bufs, i, bufs[i].blockno);
  }

  lemma StoredCopy(bufs: seq<Buf>, disk: Disk, i: nat)
    requires Unique(bufs) && i < |bufs| && bufs[i].dev == ROOTDEV && bufs[i].valid && bufs[i].blockno < |disk|
    ensures Store(bufs, disk)[bufs[i].blockno] == bufs[i].data
  {
    ContentsOfCached(bufs, disk, i);
    StoreToAt(bufs, disk, |disk|, bufs[i].blockno);
  }

  /** Writing a cached copy to disk does not move the store. */
  lemma StoreAfterDiskWrite(bufs: seq<Buf>, disk: Disk, i: nat)
    requires Usable(bufs, disk) && i < NBUF && bufs[i].locked
    ensures Usable(bufs, disk[bufs[i].blockno := bufs[i].data])
    ensures Store(bufs, disk[bufs[i].blockno := bufs[i].data]) == Store(bufs, disk)
  {
    var b := bufs[i].blockno;
    var disk' := disk[b := bufs[i].data];
    StoreIsContents(bufs, disk);
    StoreIsContents(bufs, disk');
    ContentsOfCached(bufs, disk, i);
    ContentsOfCached(bufs, disk', i);
    forall j: nat | j < NBUF && bufs[j].dev == ROOTDEV && bufs[j].blockno == b ensures j == i {
      assert Keyed(bufs, j, b) && Keyed(bufs, i, b);
    }
  }

  lemma UniqueAfterRekey(bufs: seq<Buf>, i: nat, buf: Buf)
    requires Unique(bufs) && i < |bufs| && buf.dev == ROOTDEV
    requires Keyed(bufs, i, buf.blockno) || forall j: nat :: j < |bufs| ==> !Keyed(bufs, j, buf.blockno)
    ensures Unique(bufs[i := buf])
  {
    var after := bufs[i := buf];
    forall j: nat, k: nat, b: nat | Keyed(after, j, b) && Keyed(after, k, b) ensures j == k {
      assert j != i ==> Keyed(bufs, j, b);
      assert k != i ==> Keyed(bufs, k, b);
    }
  }

  predicate UsableBuf(b: Buf, disk: Disk) {
    && (b.dev == 0 || b.dev == ROOTDEV)
    && (b.dev == 0 ==> !b.valid && b.refcnt == 0)
    && (b.dev == ROOTDEV ==> b.blockno < |disk|)
    && (b.locked ==> b.refcnt > 0 && b.valid)
    && (b.valid && b.refcnt == 0 ==> b.data == disk[b.blockno])
  }

  ghost predicate Usable(bufs: seq<Buf>, disk: Disk) {
    && |bufs| == NBUF
    && Unique(bufs)
    && (forall i :: 0 <= i < NBUF ==> UsableBuf(bufs[i], disk))
  }

  /** Changing one buffer whose old copy agreed with the disk, or whose block stays the same,
      moves the store only at that buffer's new block. */
  lemma StoreAfterBufferChange(bufs: seq<Buf>, disk: Disk, i: nat, buf: Buf)
    requires Usable(bufs, disk) && i < NBUF
    requires buf.dev == ROOTDEV && buf.blockno < |disk| && buf.valid
    requires Unique(bufs[i := buf])
    requires Keyed(bufs, i, buf.blockno) || bufs[i].refcnt == 0
    ensures Store(bufs[i := buf], disk) == Store(bufs, disk)[buf.blockno := buf.data]
  {
    var bufs' := bufs[i := buf];
    StoreIsContents(bufs, disk);
    StoreIsContents(bufs', disk);
    ContentsOfCached(bufs', disk, i);
    forall b: nat | b < |disk| && b != buf.blockno
      ensures Contents(bufs', disk, b) == Contents(bufs, disk, b)
    {
      if j: nat :| Keyed(bufs, j, b) && bufs[j].valid && j != i {
        assert Keyed(bufs', j, b);
        ContentsOfCached(bufs, disk, j);
        ContentsOfCached(bufs', disk, j);
      } else {
        assert forall j: nat :: Keyed(bufs', j, b) ==> Keyed(bufs, j, b) && j != i;
        if Keyed(bufs, i, b) && bufs[i].valid {
          ContentsOfCached(bufs, disk, i);
        }
      }
    }
  }

  class Bcache {
    var disk: Disk
    var bufs: seq<Buf>
    var lru: Lru
    ghost var order: seq<nat>      // the list, most recently released first
    ghost var images: seq<Disk>    // every disk image so far, one per single-block write

    ghost predicate Valid()
      reads this
    {
      Usable(bufs, disk) && Listed(lru, order)
    }

    ghost function Logical(): (s: Disk)
      reads this
      ensures |s| == |disk|
    {
      Store(bufs, disk)
    }

    constructor Binit(disk: Disk)
      ensures Valid()
      ensures this.disk == disk && Logical() == disk && images == []
      ensures forall i :: 0 <= i < NBUF ==> bufs[i].refcnt == 0 && !bufs[i].locked && !bufs[i].valid
    {
      this.disk := disk;
      bufs := seq(NBUF, i => Buf(0, 0, false, 0, false, []));
      lru := Lru(seq(NBUF + 1, i => HEAD), seq(NBUF + 1, i => HEAD));
      order := [];
      images := [];
      new;
      var b := 0;
      while b < NBUF
        invariant 0 <= b <= NBUF && |order| == b
        invariant forall i :: 0 <= i < b ==> order[i] == b - 1 - i
        invariant Linked(lru, order)
        invariant this.disk == disk && images == []
        invariant bufs == seq(NBUF, i => Buf(0, 0, false, 0, false, []))
      {
        PushFrontKeepsRing(lru, order, b);
        lru := PushFront(lru, b);
        order := [b] + order;
        b := b + 1;
      }
      forall i: nat | i < NBUF ensures i in order {
        assert order[NBUF - 1 - i] == i;
      }
      StoreIsContents(bufs, disk);
      assert Store(bufs, disk) == disk;
    }

    /** The two scans of bget: for the block itself from the most recent end, then for an
        unreferenced buffer from the least recent end. */
    method Find(b: nat) returns (r: Option<nat>)
      requires Valid()
      ensures r.Some? ==> r.value < NBUF
      ensures r.Some? ==> Keyed(bufs, r.value, b) || Recycled(b, r.value)
      ensures r.None? <==> (forall i: nat :: i < NBUF ==> !Keyed(bufs, i, b) && bufs[i].refcnt > 0)
    {
      ghost var ring := Ring(order);
      var p := lru.next[HEAD];
      ghost var k := 1;
      assert At(ring, 0) == HEAD;
      while p != HEAD
        invariant 1 <= k <= NBUF + 1 && p == ring[k]
        invariant forall j :: 1 <= j < k ==> !Keyed(bufs, ring[j], b)
        decreases NBUF + 1 - k
      {
        assert p == order[k - 1] == At(ring, k);
        if bufs[p].dev == ROOTDEV && bufs[p].blockno == b {
          return Some(p);
        }
        p, k := lru.next[p], k + 1;
      }
      NothingBefore(k, b);
      p := lru.prev[HEAD];
      k := NBUF;
      assert At(ring, NBUF + 1) == HEAD;
      while p != HEAD
        invariant 0 <= k <= NBUF && p == ring[k]
        invariant forall j :: k < j <= NBUF ==> bufs[ring[j]].refcnt > 0
        decreases k
      {
        assert p == order[k - 1] == At(ring, k);
        if bufs[p].refcnt == 0 {
          assert forall j :: k - 1 < j < NBUF ==> order[j] == ring[j + 1];
          return Some(p);
        }
        p, k := lru.prev[p], k - 1;
      }
      forall i: nat | i < NBUF ensures bufs[i].refcnt > 0 {
        assert i in order;
        var j :| 0 <= j < NBUF && order[j] == i;
        assert ring[j + 1] == i;
      }
      r := None;
    }

    /** Buffer `v` is the least recently released of the unreferenced ones, and no buffer has block `b`. */
    ghost predicate Recycled(b: nat, v: nat)
      reads this
      requires Valid()
    {
      && v < NBUF && bufs[v].refcnt == 0
      && (forall i: nat :: i < NBUF ==> !Keyed(bufs, i, b))
      && exists k :: 0 <= k < NBUF && order[k] == v && forall j :: k < j < NBUF ==> bufs[order[j]].refcnt > 0
    }

    lemma NothingBefore(k: nat, b: nat)
      requires Valid() && k == NBUF + 1
      requires forall j :: 1 <= j < k ==> !Keyed(bufs, Ring(order)[j], b)
      ensures forall i: nat :: i < NBUF ==> !Keyed(bufs, i, b)
    {
      forall i: nat | i < NBUF ensures !Keyed(bufs, i, b) {
        assert i in order;
        var j :| 0 <= j < NBUF && order[j] == i;
        assert Ring(order)[j + 1] == i;
      }
    }

    /** bget followed by the disk read of bread. None is the "no buffers" panic. A caller whose
        block is locked sleeps instead, so the step is taken only once the lock is free. */
    method Bread(b: nat) returns (r: Option<nat>)
      requires Valid() && b < |disk|
      requires forall i: nat :: Keyed(bufs, i, b) ==> !bufs[i].locked
      modifies this
      ensures Valid() && disk == old(disk) && images == old(images) && order == old(order)
      ensures Logical() == old(Logical())
      ensures r.None? <==> old(forall i: nat :: i < NBUF ==> !Keyed(bufs, i, b) && bufs[i].refcnt > 0)
      ensures r.None? ==> bufs == old(bufs)
      ensures r.Some? ==> r.value < NBUF && bufs == old(bufs)[r.value := bufs[r.value]]
      ensures r.Some? ==> bufs[r.value] == Buf(ROOTDEV, b, true, old(bufs)[r.value].refcnt + 1, true, Logical()[b])
      ensures r.Some? ==> old(Keyed(bufs, r.value, b) || Recycled(b, r.value))
    {
      r := Find(b);
      if r.Some? {
        var i := r.value;
        ghost var was := bufs;
        if bufs[i].dev == ROOTDEV && bufs[i].blockno == b {
          bufs := bufs[i := bufs[i].(refcnt := bufs[i].refcnt + 1)];
        } else {
          bufs := bufs[i := Buf(ROOTDEV, b, false, 1, false, bufs[i].data)];
        }
        ghost var got := bufs;
        if !bufs[i].valid {
          bufs := bufs[i := bufs[i].(valid := true, data := disk[b])];
        }
        bufs := bufs[i := bufs[i].(locked := true)];
        assert bufs == was[i := bufs[i]];
        UniqueAfterRekey(was, i, bufs[i]);
        StoreAfterBufferChange(was, disk, i, bufs[i]);
        if Keyed(was, i, b) && was[i].valid {
          StoredCopy(was, disk, i);
        } else {
          assert forall j: nat :: Keyed(was, j, b) ==> !was[j].valid;
          StoreToAt(was, disk, |disk|, b);
        }
      }
    }

    /** The caller overwrites the data of a buffer it holds. */
    method SetData(i: nat, data: Block)
      requires Valid() && i < NBUF && bufs[i].locked
      modifies this`bufs
      ensures Valid()
      ensures bufs == old(bufs)[i := old(bufs)[i].(data := data)]
      ensures Logical() == old(Logical())[bufs[i].blockno := data]
    {
      ghost var was := bufs;
      bufs := bufs[i := bufs[i].(data := data)];
      UniqueAfterRekey(was, i, bufs[i]);
      StoreAfterBufferChange(was, disk, i, bufs[i]);
    }

    /** One atomic block write; the image it leaves is one a crash can expose. */
    method Bwrite(i: nat)
      requires Valid() && i < NBUF && bufs[i].locked
      modifies this`disk, this`images
      ensures Valid()
      ensures disk == old(disk)[bufs[i].blockno := bufs[i].data]
      ensures images == old(images) + [disk]
      ensures Logical() == old(Logical())
    {
      StoreAfterDiskWrite(bufs, disk, i);
      disk := disk[bufs[i].blockno := bufs[i].data];
      images := images + [disk];
    }

    /** Release a held buffer. A buffer that nobody else refers to must agree with the disk:
        whoever changed it has logged (and so pinned) it or written it out. */
    method Brelse(i: nat)
      requires Valid() && i < NBUF && bufs[i].locked
      requires bufs[i].refcnt == 1 ==> bufs[i].data == disk[bufs[i].blockno]
      modifies this`bufs, this`lru, this`order
      ensures Valid()
      ensures bufs == old(bufs)[i := old(bufs)[i].(locked := false, refcnt := old(bufs)[i].refcnt - 1)]
      ensures Logical() == old(Logical())
      ensures bufs[i].refcnt > 0 ==> order == old(order)
      ensures bufs[i].refcnt == 0 ==> exists k: nat ::
          k < NBUF && old(order)[k] == i && order == [i] + Without(old(order), k)
    {
      ghost var was := bufs;
      bufs := bufs[i := bufs[i].(locked := false, refcnt := bufs[i].refcnt - 1)];
      UniqueAfterRekey(was, i, bufs[i]);
      StoreAfterBufferChange(was, disk, i, bufs[i]);
      StoredCopy(was, disk, i);
      if bufs[i].refcnt == 0 {
        assert i in order;
        ghost var k: nat :| k < NBUF && order[k] == i;
        MoveToFrontKeepsList(lru, order, k);
        lru := Unlink(lru, i);
        lru := PushFront(lru, i);
        order := [i] + Without(order, k);
      }
    }

    method Bpin(i: nat)
      requires Valid() && i < NBUF && bufs[i].locked
      modifies this`bufs
      ensures Valid()
      ensures bufs == old(bufs)[i := old(bufs)[i].(refcnt := old(bufs)[i].refcnt + 1)]
      ensures Logical() == old(Logical())
    {
      ghost var was := bufs;
      bufs := bufs[i := bufs[i].(refcnt := bufs[i].refcnt + 1)];
      UniqueAfterRekey(was, i, bufs[i]);
      StoreAfterBufferChange(was, disk, i, bufs[i]);
      StoredCopy(was, disk, i);
    }

    method Bunpin(i: nat)
      requires Valid() && i < NBUF && bufs[i].locked && bufs[i].refcnt > 1
      modifies this`bufs
      ensures Valid()
      ensures bufs == old(bufs)[i := old(bufs)[i].(refcnt := old(bufs)[i].refcnt - 1)]
      ensures Logical() == old(Logical())
    {
      ghost var was := bufs;
      bufs := bufs[i := bufs[i].(refcnt := bufs[i].refcnt - 1)];
      UniqueAfterRekey(was, i, bufs[i]);
      StoreAfterBufferChange(was, disk, i, bufs[i]);
      StoredCopy(was, disk, i);
    }
  }
}

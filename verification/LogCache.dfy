/** What the log asks of the buffer cache: who may refer to a buffer, which copies agree with the disk, and how
    many buffers are left while blocks are logged. */
module LogCache {
  import opened Basics
  import opened Bio
  import opened LogDisk
  import opened Readers

  /** References are exactly the holder and one pin per logged block, logged blocks are cached,
      and every other unheld cached copy agrees with the disk. */
  predicate AccountedBuf(b: Buf, disk: Disk, pinned: set<nat>)
    requires b.dev == ROOTDEV ==> b.blockno < |disk|
  {
    b.dev == ROOTDEV ==>
      && b.refcnt == (if b.locked then 1 else 0) + (if b.blockno in pinned then 1 else 0)
      && (b.blockno in pinned ==> b.valid)
      && (b.valid && !b.locked && b.blockno !in pinned ==> b.data == disk[b.blockno])
  }

  ghost predicate Accounted(bufs: seq<Buf>, disk: Disk, pinned: set<nat>)
    requires Usable(bufs, disk)
  {
    forall i :: 0 <= i < NBUF ==> AccountedBuf(bufs[i], disk, pinned)
  }

  ghost predicate Cached(bufs: seq<Buf>, b: nat) {
    exists i: nat :: Keyed(bufs, i, b)
  }

  ghost predicate AllCached(bufs: seq<Buf>, pinned: set<nat>) {
    forall b: nat :: b in pinned ==> Cached(bufs, b)
  }

  /** Nobody holds a buffer. */
  predicate Unheld(bufs: seq<Buf>) {
    forall i :: 0 <= i < |bufs| ==> !bufs[i].locked
  }

  predicate Spare(bufs: seq<Buf>) {
    exists i :: 0 <= i < |bufs| && bufs[i].refcnt == 0
  }

  /** Cached copies of blocks that are not logged agree with the disk, whoever holds them. */
  ghost predicate Clean(bufs: seq<Buf>, disk: Disk, pinned: set<nat>)
    requires Usable(bufs, disk)
  {
    forall i :: 0 <= i < NBUF && bufs[i].valid && bufs[i].blockno !in pinned ==> bufs[i].data == disk[bufs[i].blockno]
  }

  /** Whoever holds a buffer holds one that commit does not need: no block of the log and no logged block. */
  predicate Aside(bufs: seq<Buf>, area: Area, pinned: set<nat>) {
    forall i :: 0 <= i < |bufs| && bufs[i].locked ==> !InLog(area, bufs[i].blockno) && bufs[i].blockno !in pinned
  }

  /** The buffers somebody held are as they were, and nobody holds others. */
  predicate Undisturbed(was: seq<Buf>, now: seq<Buf>) {
    && |now| == |was|
    && (forall i :: 0 <= i < |was| ==> now[i].locked == was[i].locked && (was[i].locked ==> now[i] == was[i]))
  }

  /** The discipline between any two steps; with `clean`, nobody has changed a block without logging it. */
  ghost predicate Kept(bufs: seq<Buf>, disk: Disk, pinned: set<nat>, clean: bool)
    requires Usable(bufs, disk)
  {
    KeptTo(bufs, disk, pinned, clean, |bufs|)
  }

  ghost predicate KeptTo(bufs: seq<Buf>, disk: Disk, pinned: set<nat>, clean: bool, k: nat)
    requires Usable(bufs, disk) && k <= |bufs|
  {
    if k == 0 then AllCached(bufs, pinned)
    else KeptTo(bufs, disk, pinned, clean, k - 1) && KeptBuf(bufs[k - 1], disk, pinned, clean)
  }

  predicate KeptBuf(b: Buf, disk: Disk, pinned: set<nat>, clean: bool)
    requires UsableBuf(b, disk)
  {
    AccountedBuf(b, disk, pinned) && (clean && b.valid && b.blockno !in pinned ==> b.data == disk[b.blockno])
  }

  lemma {:induction false} KeptToIs(bufs: seq<Buf>, disk: Disk, pinned: set<nat>, clean: bool, k: nat)
    requires Usable(bufs, disk) && k <= |bufs|
    ensures KeptTo(bufs, disk, pinned, clean, k)
       <==> AllCached(bufs, pinned) && forall i :: 0 <= i < k ==> KeptBuf(bufs[i], disk, pinned, clean)
  {
    if k == 0 {
    } else {
      KeptToIs(bufs, disk, pinned, clean, k - 1);
    }
  }

  lemma KeptIs(bufs: seq<Buf>, disk: Disk, pinned: set<nat>, clean: bool)
    requires Usable(bufs, disk)
    ensures Kept(bufs, disk, pinned, clean)
       <==> Accounted(bufs, disk, pinned) && AllCached(bufs, pinned) && (clean ==> Clean(bufs, disk, pinned))
  {
    KeptToIs(bufs, disk, pinned, clean, NBUF);
  }

  lemma KeptLess(bufs: seq<Buf>, disk: Disk, pinned: set<nat>, clean: bool)
    requires Usable(bufs, disk) && Kept(bufs, disk, pinned, clean)
    ensures Kept(bufs, disk, pinned, false)
    ensures Clean(bufs, disk, pinned) ==> Kept(bufs, disk, pinned, true)
  {
    KeptIs(bufs, disk, pinned, clean);
    KeptIs(bufs, disk, pinned, false);
    KeptIs(bufs, disk, pinned, true);
  }

  /** What commit and recovery start from and keep. */
  ghost predicate Quiet(bufs: seq<Buf>, disk: Disk, area: Area, pinned: set<nat>)
    requires Usable(bufs, disk)
  {
    match area
    case Area(_, _) => Kept(bufs, disk, pinned, true) && Aside(bufs, area, pinned)
  }

  lemma QuietIs(bufs: seq<Buf>, disk: Disk, area: Area, pinned: set<nat>)
    requires Usable(bufs, disk)
    ensures Quiet(bufs, disk, area, pinned)
       <==> && Accounted(bufs, disk, pinned) && AllCached(bufs, pinned)
            && Clean(bufs, disk, pinned) && Aside(bufs, area, pinned)
  {
    KeptIs(bufs, disk, pinned, true);
  }

  /** The blocks from the tail-th entry on. */
  function Rest(ts: seq<nat>, tail: nat): set<nat>
    requires tail <= |ts|
    decreases |ts| - tail
  {
    if tail == |ts| then {} else {ts[tail]} + Rest(ts, tail + 1)
  }

  lemma {:induction false} RestIs(ts: seq<nat>, tail: nat)
    requires tail <= |ts|
    ensures forall b: nat :: b in Rest(ts, tail) <==> exists k :: tail <= k < |ts| && ts[k] == b
    decreases |ts| - tail
  {
    if tail == |ts| {
    } else {
      RestIs(ts, tail + 1);
    }
  }

  lemma {:induction false} RestAppend(ts: seq<nat>, b: nat, tail: nat)
    requires tail <= |ts|
    ensures Rest(ts + [b], tail) == Rest(ts, tail) + {b}
    decreases |ts| - tail
  {
    if tail == |ts| {
    } else {
      RestAppend(ts, b, tail + 1);
    }
  }

  lemma RestStep(ts: seq<nat>, tail: nat)
    requires DistinctAt(ts) && tail < |ts|
    ensures ts[tail] in Rest(ts, tail)
    ensures Rest(ts, tail + 1) == Rest(ts, tail) - {ts[tail]}
  {
    RestIs(ts, tail + 1);
    DistinctForms(ts);
  }

  lemma RestWithin(ts: seq<nat>, tail: nat)
    requires tail <= |ts|
    ensures Rest(ts, tail) <= Rest(ts, 0)
  {
    RestIs(ts, tail);
    RestIs(ts, 0);
  }

  lemma RestOutsideLog(ts: seq<nat>, tail: nat, size: nat, area: Area)
    requires HomeBlocks(size, area, ts) && tail <= |ts|
    ensures OutsideLog(area, Rest(ts, tail))
  {
    RestIs(ts, tail);
  }

  /** Home blocks only: the log region is never pinned. */
  predicate OutsideLog(area: Area, pinned: set<nat>) {
    forall b :: b in pinned ==> !InLog(area, b)
  }

  lemma CleanContents(bufs: seq<Buf>, disk: Disk, pinned: set<nat>, b: nat)
    requires Usable(bufs, disk) && Clean(bufs, disk, pinned)
    requires b < |disk| && b !in pinned
    ensures Store(bufs, disk)[b] == disk[b]
  {
    StoreIsContents(bufs, disk);
  }

  /** Writing an unpinned block through to disk in an unreferenced buffer keeps the discipline. */
  lemma QuietAfterWrite(bufs: seq<Buf>, disk: Disk, area: Area, pinned: set<nat>, x: nat, f: Buf)
    requires Usable(bufs, disk) && Quiet(bufs, disk, area, pinned)
    requires x < NBUF && bufs[x].refcnt == 0
    requires f.blockno < |disk| && f == Buf(ROOTDEV, f.blockno, true, 0, false, f.data) && f.blockno !in pinned
    requires Unique(bufs[x := f])
    ensures Usable(bufs[x := f], disk[f.blockno := f.data])
    ensures Quiet(bufs[x := f], disk[f.blockno := f.data], area, pinned)
    ensures Spare(bufs[x := f]) && Undisturbed(bufs, bufs[x := f])
  {
    var bufs', disk' := bufs[x := f], disk[f.blockno := f.data];
    QuietIs(bufs, disk, area, pinned);
    assert bufs'[x].refcnt == 0;
    forall b: nat | b in pinned ensures Cached(bufs', b) {
      var i: nat :| Keyed(bufs, i, b);
      assert i != x && Keyed(bufs', i, b);
    }
    forall i | 0 <= i < NBUF
      ensures UsableBuf(bufs'[i], disk') && AccountedBuf(bufs'[i], disk', pinned)
      ensures bufs'[i].valid && bufs'[i].blockno !in pinned ==> bufs'[i].data == disk'[bufs'[i].blockno]
    {
      if i != x && bufs[i].dev == ROOTDEV {
        assert Keyed(bufs', i, bufs[i].blockno) && Keyed(bufs', x, f.blockno);
      }
    }
    QuietIs(bufs', disk', area, pinned);
  }

  /** Installing a block keeps the discipline, with one block less pinned. */
  lemma QuietAfterInstall(bufs: seq<Buf>, disk: Disk, area: Area, pinned: set<nat>, x: nat, f: Buf, y: nat, g: Buf)
    requires Usable(bufs, disk) && Quiet(bufs, disk, area, pinned)
    requires x < NBUF && y < NBUF && x != y && bufs[x].refcnt == 0
    requires f.blockno < |disk| && g.blockno < |disk| && f.blockno != g.blockno
    requires f == Buf(ROOTDEV, f.blockno, true, 0, false, disk[f.blockno]) && f.blockno !in pinned
    requires g == Buf(ROOTDEV, g.blockno, true, 0, false, g.data)
    requires !bufs[y].locked
    requires Keyed(bufs, y, g.blockno) || (bufs[y].refcnt == 0 && g.blockno !in pinned)
    requires Unique(bufs[x := f][y := g])
    ensures Usable(bufs[x := f][y := g], disk[g.blockno := g.data])
    ensures Quiet(bufs[x := f][y := g], disk[g.blockno := g.data], area, pinned - {g.blockno})
    ensures Spare(bufs[x := f][y := g]) && Undisturbed(bufs, bufs[x := f][y := g])
  {
    var bufs', disk', rest := bufs[x := f][y := g], disk[g.blockno := g.data], pinned - {g.blockno};
    QuietIs(bufs, disk, area, pinned);
    assert bufs'[y].refcnt == 0;
    forall i | 0 <= i < NBUF
      ensures UsableBuf(bufs'[i], disk') && AccountedBuf(bufs'[i], disk', rest)
      ensures bufs'[i].valid && bufs'[i].blockno !in rest ==> bufs'[i].data == disk'[bufs'[i].blockno]
    {
      if i != x && i != y && bufs[i].dev == ROOTDEV {
        assert Keyed(bufs', i, bufs[i].blockno) && Keyed(bufs', y, g.blockno);
      }
    }
    forall b: nat | b in rest ensures Cached(bufs', b) {
      var i: nat :| Keyed(bufs, i, b);
      assert i != x && i != y && Keyed(bufs', i, b);
    }
    QuietIs(bufs', disk', area, rest);
  }

  lemma RoundUpdates<T>(was: seq<T>, read: seq<T>, now: seq<T>, x: nat, f: T, y: nat, g: T)
    requires x < |was| && y < |was| && x != y && |read| == |was|
    requires read == was[x := read[x]][y := read[y]]
    requires now == read[x := f][y := g]
    ensures now == was[x := f][y := g]
  {
  }

  /** The two agree on every home block. */
  ghost predicate SameHome(a: Disk, b: Disk, area: Area) {
    |a| == |b| && forall x {:trigger IsHome(|a|, area, x)} :: IsHome(|a|, area, x) ==> a[x] == b[x]
  }

  lemma LogWriteKeepsHome(a: Disk, b: Disk, area: Area, l: nat, v: Block)
    requires SameHome(a, b, area) && InLog(area, l) && l < |b|
    ensures SameHome(a, b[l := v], area)
  {
  }

  /** What the store holds in the blocks `ts`. */
  function Values(s: Disk, ts: seq<nat>): (vals: seq<Block>)
    requires forall i :: 0 <= i < |ts| ==> ts[i] < |s|
    ensures |vals| == |ts|
  {
    if ts == [] then [] else Values(s, ts[..|ts| - 1]) + [s[ts[|ts| - 1]]]
  }

  lemma {:induction false} ValuesAt(s: Disk, ts: seq<nat>, k: nat)
    requires (forall i :: 0 <= i < |ts| ==> ts[i] < |s|) && k < |ts|
    ensures Values(s, ts)[k] == s[ts[k]]
  {
    if k == |ts| - 1 {
    } else {
      ValuesAt(s, ts[..|ts| - 1], k);
    }
  }

  lemma CleanStore(bufs: seq<Buf>, disk: Disk)
    requires Usable(bufs, disk) && Clean(bufs, disk, {})
    ensures Store(bufs, disk) == disk
  {
    forall b: nat | b < |disk| ensures Store(bufs, disk)[b] == disk[b] {
      CleanContents(bufs, disk, {}, b);
    }
  }

  /** A whole commit moves the logical contents, and nothing else, to the home blocks. */
  lemma CommittedContents(bufs: seq<Buf>, disk: Disk, area: Area, ts: seq<nat>)
    requires Usable(bufs, disk) && Clean(bufs, disk, Rest(ts, 0))
    requires LayoutOk(disk, area) && HomeBlocks(|disk|, area, ts)
    ensures var s := Store(bufs, disk);
            var h := Headed(disk, area, ts, Values(s, ts));
            HeaderOk(h, area) && SameHome(s, Recover(h, area), area)
  {
    var s := Store(bufs, disk);
    var vals := Values(s, ts);
    HeadedRecoversToUpdated(disk, area, ts, vals);
    var r := Recover(Headed(disk, area, ts, vals), area);
    RestIs(ts, 0);
    forall b | IsHome(|s|, area, b) ensures s[b] == r[b] {
      assert Home(r, area)[b] == Home(Updated(disk, ts, vals), area)[b];
      if i: nat :| i < |ts| && ts[i] == b {
        var j: nat :| j < |ts| && ts[j] == b && Updated(disk, ts, vals)[b] == vals[j];
        ValuesAt(s, ts, j);
      } else {
        CleanContents(bufs, disk, Rest(ts, 0), b);
      }
    }
  }

  // ---------------------------------------------------------------- room in the cache

  /** The blocks of the referenced buffers among the first `k`. */
  ghost function Referenced(bufs: seq<Buf>, k: nat): set<nat>
    requires k <= |bufs|
  {
    if k == 0 then {} else
      Referenced(bufs, k - 1) + if bufs[k - 1].refcnt > 0 then {bufs[k - 1].blockno} else {}
  }

  lemma {:induction false} ReferencedIs(bufs: seq<Buf>, disk: Disk, k: nat, b: nat)
    requires Usable(bufs, disk) && k <= NBUF
    ensures b in Referenced(bufs, k) <==> exists i: nat :: i < k && Keyed(bufs, i, b) && bufs[i].refcnt > 0
  {
    if k == 0 {
    } else {
      ReferencedIs(bufs, disk, k - 1, b);
      assert UsableBuf(bufs[k - 1], disk);
      assert bufs[k - 1].refcnt > 0 && bufs[k - 1].blockno == b ==> Keyed(bufs, k - 1, b);
    }
  }

  lemma {:induction false} ReferencedCount(bufs: seq<Buf>, disk: Disk, k: nat)
    requires Usable(bufs, disk) && k <= NBUF
    ensures |Referenced(bufs, k)| <= k
    ensures |Referenced(bufs, k)| == k <==> forall i :: 0 <= i < k ==> bufs[i].refcnt > 0
  {
    if k == 0 {
    } else {
      ReferencedCount(bufs, disk, k - 1);
      var b := bufs[k - 1].blockno;
      if bufs[k - 1].refcnt > 0 {
        assert Keyed(bufs, k - 1, b) by { assert UsableBuf(bufs[k - 1], disk); }
        ReferencedIs(bufs, disk, k - 1, b);
        assert b !in Referenced(bufs, k - 1);
      }
    }
  }

  lemma {:induction false} RestSize(ts: seq<nat>, tail: nat)
    requires DistinctAt(ts) && tail <= |ts|
    ensures |Rest(ts, tail)| == |ts| - tail
    decreases |ts| - tail
  {
    if tail == |ts| {
    } else {
      RestSize(ts, tail + 1);
      RestStep(ts, tail);
    }
  }

  /** The blocks somebody holds the buffer of. */
  function HeldBlocks(bufs: seq<Buf>): set<nat> {
    set i | 0 <= i < |bufs| && bufs[i].locked :: bufs[i].blockno
  }

  function HeldTo(bufs: seq<Buf>, k: nat): Crowd
    requires k <= |bufs|
  {
    if k == 0 then Crowd({}, 0)
    else if bufs[k - 1].locked then
      var c := HeldTo(bufs, k - 1); Crowd(c.blocks + {bufs[k - 1].blockno}, c.size + 1)
    else HeldTo(bufs, k - 1)
  }

  function Held(bufs: seq<Buf>): Crowd {
    HeldTo(bufs, |bufs|)
  }

  lemma {:induction false} HeldToIs(bufs: seq<Buf>, disk: Disk, k: nat)
    requires Usable(bufs, disk) && k <= |bufs|
    ensures var c := HeldTo(bufs, k);
            c.size == |c.blocks| && c.blocks == set i | 0 <= i < k && bufs[i].locked :: bufs[i].blockno
  {
    if k == 0 {
    } else {
      HeldToIs(bufs, disk, k - 1);
      var b := bufs[k - 1].blockno;
      if bufs[k - 1].locked {
        assert UsableBuf(bufs[k - 1], disk);
        forall i | 0 <= i < k - 1 && bufs[i].locked ensures bufs[i].blockno != b {
          assert UsableBuf(bufs[i], disk);
          assert Keyed(bufs, i, bufs[i].blockno) && Keyed(bufs, k - 1, b);
        }
      }
    }
  }

  lemma HeldIs(bufs: seq<Buf>, disk: Disk)
    requires Usable(bufs, disk)
    ensures Held(bufs) == Crowd(HeldBlocks(bufs), |HeldBlocks(bufs)|)
  {
    HeldToIs(bufs, disk, |bufs|);
  }

  lemma HeldFrom(bufs: seq<Buf>, disk: Disk, c: Crowd)
    requires Usable(bufs, disk) && c.size == |c.blocks|
    requires forall b: nat :: b in HeldBlocks(bufs) <==> b in c.blocks
    ensures Held(bufs) == c
  {
    HeldIs(bufs, disk);
    assert HeldBlocks(bufs) == c.blocks;
  }

  /** The referenced buffers are the pinned and the held ones. */
  lemma ReferencedBlocks(bufs: seq<Buf>, disk: Disk, area: Area, pinned: set<nat>)
    requires Usable(bufs, disk) && Quiet(bufs, disk, area, pinned)
    ensures Referenced(bufs, NBUF) == pinned + HeldBlocks(bufs) && pinned !! HeldBlocks(bufs)
  {
    QuietIs(bufs, disk, area, pinned);
    forall b: nat ensures b in Referenced(bufs, NBUF) <==> b in pinned + HeldBlocks(bufs) {
      ReferencedIs(bufs, disk, NBUF, b);
      if b in pinned {
        var i: nat :| Keyed(bufs, i, b);
        assert AccountedBuf(bufs[i], disk, pinned);
      }
      if i: nat :| i < NBUF && bufs[i].locked && bufs[i].blockno == b {
        assert UsableBuf(bufs[i], disk);
        assert Keyed(bufs, i, b);
      }
    }
  }

  lemma RoomIff(bufs: seq<Buf>, disk: Disk, area: Area, pinned: set<nat>)
    requires Usable(bufs, disk) && Quiet(bufs, disk, area, pinned)
    ensures Spare(bufs) <==> |pinned| + Held(bufs).size < NBUF
    ensures |pinned| + Held(bufs).size <= NBUF
  {
    HeldIs(bufs, disk);
    ReferencedCount(bufs, disk, NBUF);
    ReferencedBlocks(bufs, disk, area, pinned);
  }

  /** A buffer is unreferenced exactly when the logged blocks and the blocks held by readers leave one over. */
  lemma SpareIffRoom(bufs: seq<Buf>, disk: Disk, area: Area, ts: seq<nat>)
    requires Usable(bufs, disk) && Quiet(bufs, disk, area, Rest(ts, 0)) && DistinctAt(ts)
    ensures Spare(bufs) <==> |ts| + Held(bufs).size < NBUF
    ensures |ts| + Held(bufs).size <= NBUF
  {
    RestSize(ts, 0);
    RoomIff(bufs, disk, area, Rest(ts, 0));
  }

  /** Logging a held buffer pins it. */
  lemma PinnedByLogWrite(bufs: seq<Buf>, disk: Disk, ts: seq<nat>, clean: bool, i: nat)
    requires Usable(bufs, disk) && Kept(bufs, disk, Rest(ts, 0), clean)
    requires i < NBUF && bufs[i].locked && bufs[i].blockno !in ts
    ensures var pinned := bufs[i := bufs[i].(refcnt := bufs[i].refcnt + 1)];
            Usable(pinned, disk) ==> Kept(pinned, disk, Rest(ts + [bufs[i].blockno], 0), clean)
  {
    var b := bufs[i].blockno;
    var pinned, ts' := bufs[i := bufs[i].(refcnt := bufs[i].refcnt + 1)], ts + [b];
    KeptIs(bufs, disk, Rest(ts, 0), clean);
    RestAppend(ts, b, 0);
    assert b !in Rest(ts, 0) by { RestIs(ts, 0); }
    if Usable(pinned, disk) {
      forall j | 0 <= j < NBUF ensures AccountedBuf(pinned[j], disk, Rest(ts', 0)) {
        if j != i && bufs[j].dev == ROOTDEV {
          assert Keyed(bufs, j, bufs[j].blockno) && Keyed(bufs, i, b);
        }
      }
      forall c: nat | c in Rest(ts', 0) ensures Cached(pinned, c) {
        if c == b {
          assert Keyed(pinned, i, b);
        } else {
          var j: nat :| Keyed(bufs, j, c);
          assert Keyed(pinned, j, c);
        }
      }
      KeptIs(pinned, disk, Rest(ts', 0), clean);
    }
  }

  lemma HomeBlocksAppend(size: nat, area: Area, ts: seq<nat>, b: nat)
    requires HomeBlocks(size, area, ts) && |ts| < LOGSIZE && |ts| + 1 < area.size && IsHome(size, area, b) && b !in ts
    ensures HomeBlocks(size, area, ts + [b])
  {
    DistinctForms(ts);
    DistinctForms(ts + [b]);
  }

  /** Changing a buffer that keeps its block. */
  lemma KeptAfterRekeep(bufs: seq<Buf>, disk: Disk, pinned: set<nat>, clean: bool, i: nat, buf: Buf)
    requires Usable(bufs, disk) && Kept(bufs, disk, pinned, clean)
    requires i < NBUF && buf.dev == bufs[i].dev && buf.blockno == bufs[i].blockno
    requires Usable(bufs[i := buf], disk) && UsableBuf(buf, disk) && KeptBuf(buf, disk, pinned, clean)
    ensures Kept(bufs[i := buf], disk, pinned, clean)
  {
    KeptIs(bufs, disk, pinned, clean);
    forall b: nat | b in pinned ensures Cached(bufs[i := buf], b) {
      var j: nat :| Keyed(bufs, j, b);
      assert Keyed(bufs[i := buf], j, b);
    }
    KeptIs(bufs[i := buf], disk, pinned, clean);
  }

  /** Reading a block into a buffer that had it already or that nobody referred to. */
  lemma KeptAfterRead(bufs: seq<Buf>, disk: Disk, pinned: set<nat>, clean: bool, i: nat, buf: Buf)
    requires Usable(bufs, disk) && Kept(bufs, disk, pinned, clean)
    requires i < NBUF && !bufs[i].locked && buf.blockno < |disk|
    requires buf == Buf(ROOTDEV, buf.blockno, true, bufs[i].refcnt + 1, true, Store(bufs, disk)[buf.blockno])
    requires Keyed(bufs, i, buf.blockno)
          || (bufs[i].refcnt == 0 && forall j: nat :: j < NBUF ==> !Keyed(bufs, j, buf.blockno))
    requires Usable(bufs[i := buf], disk)
    ensures Kept(bufs[i := buf], disk, pinned, clean)
  {
    KeptIs(bufs, disk, pinned, clean);
    assert Keyed(bufs, i, buf.blockno) || buf.blockno !in pinned;
    forall b: nat | b in pinned ensures Cached(bufs[i := buf], b) {
      var j: nat :| Keyed(bufs, j, b);
      assert j == i ==> buf.blockno == b;
      assert Keyed(bufs[i := buf], j, b);
    }
    if clean && buf.blockno !in pinned {
      CleanContents(bufs, disk, pinned, buf.blockno);
    }
    KeptIs(bufs[i := buf], disk, pinned, clean);
  }

  /** A buffer after brelse. */
  function Released(b: Buf): Buf
    requires b.refcnt > 0
  {
    b.(locked := false, refcnt := b.refcnt - 1)
  }

  // ---------------------------------------------------------------- readers during a commit

  /** The visits are to home blocks that are not among the pinned ones. */
  predicate Elsewhere(vs: seq<Visit>, size: nat, area: Area, pinned: set<nat>) {
    forall k :: 0 <= k < |vs| ==> IsHome(size, area, vs[k].b) && vs[k].b !in pinned
  }

  predicate AllElsewhere(vs: seq<seq<Visit>>, size: nat, area: Area, pinned: set<nat>) {
    forall k :: 0 <= k < |vs| ==> Elsewhere(vs[k], size, area, pinned)
  }

  /** A schedule for a commit of the blocks ts. */
  predicate ScheduleFor(s: Schedule, size: nat, area: Area, ts: seq<nat>) {
    && |s.log| == |s.install| == |ts|
    && AllElsewhere(s.log, size, area, Rest(ts, 0)) && Elsewhere(s.head, size, area, Rest(ts, 0))
    && AllElsewhere(s.install, size, area, Rest(ts, 0)) && Elsewhere(s.clear, size, area, Rest(ts, 0))
  }

  lemma HeldNone(bufs: seq<Buf>, disk: Disk)
    requires Usable(bufs, disk)
    ensures Held(bufs) == Crowd({}, 0) <==> Unheld(bufs)
  {
    HeldIs(bufs, disk);
    assert forall i :: 0 <= i < |bufs| && bufs[i].locked ==> bufs[i].blockno in HeldBlocks(bufs);
  }

  /** A block that is neither pinned nor held is cached only in a buffer that can be recycled. */
  lemma UnreferencedBlock(bufs: seq<Buf>, disk: Disk, area: Area, pinned: set<nat>, b: nat)
    requires Usable(bufs, disk) && Quiet(bufs, disk, area, pinned) && b !in pinned && b !in Held(bufs).blocks
    ensures forall i: nat :: Keyed(bufs, i, b) ==> bufs[i].refcnt == 0 && !bufs[i].locked
  {
    HeldIs(bufs, disk);
    ReferencedBlocks(bufs, disk, area, pinned);
    ReferencedIs(bufs, disk, NBUF, b);
    forall i: nat | Keyed(bufs, i, b) ensures bufs[i].refcnt == 0 && !bufs[i].locked {
      assert UsableBuf(bufs[i], disk);
    }
  }

  lemma {:induction false} UndisturbedTo(was: seq<Buf>, now: seq<Buf>, k: nat)
    requires Undisturbed(was, now) && k <= |was|
    ensures HeldTo(now, k) == HeldTo(was, k)
  {
    if k == 0 {
    } else {
      UndisturbedTo(was, now, k - 1);
    }
  }

  lemma UndisturbedHeld(was: seq<Buf>, now: seq<Buf>)
    requires Undisturbed(was, now)
    ensures Held(now) == Held(was)
  {
    UndisturbedTo(was, now, |was|);
  }

  /** The cache after a reader has taken the buffer of block b. */
  lemma QuietAfterCome(bufs: seq<Buf>, disk: Disk, area: Area, pinned: set<nat>, i: nat, buf: Buf)
    requires Usable(bufs, disk) && Quiet(bufs, disk, area, pinned)
    requires i < NBUF && !bufs[i].locked && IsHome(|disk|, area, buf.blockno) && buf.blockno !in pinned
    requires buf == Buf(ROOTDEV, buf.blockno, true, bufs[i].refcnt + 1, true, Store(bufs, disk)[buf.blockno])
    requires Keyed(bufs, i, buf.blockno)
          || (bufs[i].refcnt == 0 && forall j: nat :: j < NBUF ==> !Keyed(bufs, j, buf.blockno))
    requires Usable(bufs[i := buf], disk)
    requires buf.blockno !in Held(bufs).blocks
    ensures Quiet(bufs[i := buf], disk, area, pinned)
    ensures Held(bufs[i := buf]) == Crowd(Held(bufs).blocks + {buf.blockno}, Held(bufs).size + 1)
  {
    KeptAfterRead(bufs, disk, pinned, true, i, buf);
    var now := bufs[i := buf];
    HeldIs(bufs, disk);
    forall b: nat ensures b in HeldBlocks(now) <==> b in HeldBlocks(bufs) || b == buf.blockno {
      assert now[i].locked && now[i].blockno == buf.blockno;
      if j :| 0 <= j < |bufs| && bufs[j].locked && bufs[j].blockno == b {
        assert now[j] == bufs[j];
      }
    }
    HeldFrom(now, disk, Crowd(Held(bufs).blocks + {buf.blockno}, Held(bufs).size + 1));
  }

  /** And after giving it back. */
  lemma QuietAfterGo(bufs: seq<Buf>, disk: Disk, area: Area, pinned: set<nat>, i: nat)
    requires Usable(bufs, disk) && Quiet(bufs, disk, area, pinned)
    requires i < NBUF && bufs[i].locked && bufs[i].blockno !in pinned
    ensures bufs[i].refcnt == 1 && bufs[i].data == disk[bufs[i].blockno]
    ensures var now := bufs[i := Released(bufs[i])];
            && bufs[i].blockno in Held(bufs).blocks && Held(bufs).size > 0
            && (Usable(now, disk) ==>
              && Quiet(now, disk, area, pinned)
              && Held(now) == Crowd(Held(bufs).blocks - {bufs[i].blockno}, Held(bufs).size - 1))
  {
    QuietIs(bufs, disk, area, pinned);
    assert UsableBuf(bufs[i], disk) && AccountedBuf(bufs[i], disk, pinned);
    var now, b := bufs[i := Released(bufs[i])], bufs[i].blockno;
    HeldIs(bufs, disk);
    assert b in HeldBlocks(bufs);
    if Usable(now, disk) {
      KeptAfterRekeep(bufs, disk, pinned, true, i, now[i]);
      forall c: nat ensures c in HeldBlocks(now) <==> c in HeldBlocks(bufs) && c != b {
        if j: nat :| j < |bufs| && bufs[j].locked && bufs[j].blockno == c {
          assert UsableBuf(bufs[j], disk);
          assert j != i ==> now[j] == bufs[j];
        }
        if j: nat :| j < |now| && now[j].locked && now[j].blockno == c {
          assert j != i && now[j] == bufs[j] && UsableBuf(bufs[j], disk);
          assert Keyed(bufs, j, c) && Keyed(bufs, i, b);
        }
      }
      HeldFrom(now, disk, Crowd(Held(bufs).blocks - {b}, Held(bufs).size - 1));
    }
  }

  // ---------------------------------------------------------------- the two loops of commit

  /** The cache, the disk, the images so far and the logical contents at some moment. */
  datatype Moment = Moment(bufs: seq<Buf>, disk: Disk, images: seq<Disk>, store: Disk)

  /** After `tail` rounds of write_log. */
  ghost predicate LogProgress(was: Moment, now: Moment, area: Area, ts: seq<nat>, tail: nat) {
    match was
    case Moment(_, d, images, s) =>
      && LayoutOk(d, area) && HomeBlocks(|d|, area, ts) && |s| == |d| && tail <= |ts|
      && now.disk == Logged(d, area, Values(s, ts), tail)
      && now.images == images + LogTrail(d, area, Values(s, ts), tail)
      && SameHome(s, now.store, area)
  }

  lemma LogProgressStarts(was: Moment, area: Area, ts: seq<nat>)
    requires LayoutOk(was.disk, area) && HomeBlocks(|was.disk|, area, ts) && |was.store| == |was.disk|
    ensures LogProgress(was, was, area, ts, 0)
  {
  }

  lemma LogProgressStep(was: Moment, m: Moment, n: Moment, area: Area, ts: seq<nat>, tail: nat)
    requires LogProgress(was, m, area, ts, tail) && tail < |ts|
    requires |m.store| == |m.disk|
    requires var v := m.store[ts[tail]];
      && n.disk == m.disk[area.start + tail + 1 := v] && n.images == m.images + [n.disk]
      && n.store == m.store[area.start + tail + 1 := v]
    ensures LogProgress(was, n, area, ts, tail + 1)
  {
    var d, s, vals := was.disk, was.store, Values(was.store, ts);
    assert IsHome(|s|, area, ts[tail]);
    LogStep(d, area, vals, tail);
    ValuesAt(s, ts, tail);
    LogWriteKeepsHome(s, m.store, area, area.start + tail + 1, vals[tail]);
  }

  /** After `tail` rounds of install_trans. */
  ghost predicate InstallProgress(was: Moment, now: Moment, area: Area, tail: nat) {
    match was
    case Moment(_, d, images, _) =>
      && HeaderOk(d, area) && tail <= |Targets(d, area)|
      && now.disk == Installed(d, area, Targets(d, area), tail)
      && now.images == images + RecoverTrail(d, area, tail)
  }

  lemma InstallProgressStep(was: Moment, m: Moment, n: Moment, area: Area, tail: nat)
    requires InstallProgress(was, m, area, tail) && tail < |Targets(was.disk, area)|
    requires n.disk == m.disk[Targets(was.disk, area)[tail] := m.disk[area.start + tail + 1]]
    requires n.images == m.images + [n.disk]
    ensures InstallProgress(was, n, area, tail + 1)
  {
    InstallStep(was.disk, area, Targets(was.disk, area), tail);
  }
}

/** The write-ahead log of kernel/log.c over the buffer cache: reservation by begin_op and
    end_op, absorption and pinning by log_write, group commit, and recovery. */
module Log {
  import opened Basics
  import opened Bio
  import opened LogCache
  import opened LogDisk
  import opened Readers

  // ---------------------------------------------------------------- reservations

  ghost function Sum(m: map<nat, nat>): nat {
    if m == map[] then 0 else
      var k :| k in m;
      m[k] + Sum(m - {k})
  }

  lemma {:induction false} SumWithout(m: map<nat, nat>, k: nat)
    requires k in m
    ensures Sum(m) == m[k] + Sum(m - {k})
    decreases |m|
  {
    var j :| j in m && Sum(m) == m[j] + Sum(m - {j});
    if j != k {
      SumWithout(m - {j}, k);
      SumWithout(m - {k}, j);
      assert m - {j} - {k} == m - {k} - {j};
    }
  }

  lemma SumWith(m: map<nat, nat>, k: nat, v: nat)
    ensures Sum(m[k := v]) == Sum(m - {k}) + v
  {
    SumWithout(m[k := v], k);
    assert m[k := v] - {k} == m - {k};
  }

  lemma {:induction false} SumBound(m: map<nat, nat>)
    requires forall k :: k in m ==> m[k] <= MAXOPBLOCKS
    ensures Sum(m) <= |m| * MAXOPBLOCKS
    decreases |m|
  {
    if m == map[] {
    } else {
      var k :| k in m;
      SumWithout(m, k);
      assert (m - {k}).Keys == m.Keys - {k};
      SumBound(m - {k});
    }
  }

  /** The test in begin_op leaves room for every operation's reservation. */
  lemma Admission(unspent: map<nat, nat>, op: nat, n: nat)
    requires forall k :: k in unspent ==> unspent[k] <= MAXOPBLOCKS
    requires op !in unspent && n + (|unspent| + 1) * MAXOPBLOCKS <= LOGSIZE
    ensures n + Sum(unspent[op := MAXOPBLOCKS]) <= LOGSIZE
    ensures |unspent[op := MAXOPBLOCKS]| == |unspent| + 1
  {
    SumBound(unspent);
    SumNew(unspent, op, MAXOPBLOCKS);
  }

  lemma SumNew(m: map<nat, nat>, k: nat, v: nat)
    requires k !in m
    ensures Sum(m[k := v]) == Sum(m) + v && |m[k := v]| == |m| + 1
  {
    SumWith(m, k, v);
    assert m - {k} == m;
    assert m[k := v].Keys == m.Keys + {k};
  }

  /** log_write's own check. */
  predicate Refused(n: nat, size: nat) {
    n >= LOGSIZE || n >= size - 1
  }

  /** What became of a change to a block: it is logged, or one of two panics. */
  datatype Outcome = Done | NoBuffer | TooBig

  class Log {
    const area: Area
    const cache: Bcache
    var block: seq<nat>    // log.lh: the first lh.n entries
    var outstanding: nat
    var committing: bool
    ghost var unspent: map<nat, nat>    // per operation in progress, the blocks it may still add
    ghost var history: History          // what has been committed since start-up

    ghost function Now(): Moment
      reads cache
    {
      Moment(cache.bufs, cache.disk, cache.images, cache.Logical())
    }

    /** What holds however far a commit or a recovery has got. */
    ghost predicate Shape()
      reads this, cache
    {
      && cache.Valid()
      && LayoutOk(cache.disk, area)
      && HomeBlocks(|cache.disk|, area, block)
    }

    ghost predicate Reserved()
      reads this
    {
      && outstanding == |unspent|
      && (forall op :: op in unspent ==> unspent[op] <= MAXOPBLOCKS)
      && |block| + Sum(unspent) <= LOGSIZE
      && (committing ==> outstanding == 0)
    }

    /** What holds between the steps of all processes. */
    ghost predicate Valid()
      reads this, cache
    {
      && Shape()
      && HeadN(cache.disk, area) == 0
      && Kept(cache.bufs, cache.disk, Rest(block, 0), outstanding == 0)
      && Reserved()
      && Recorded()
    }

    /** The history is that of the disk. */
    ghost predicate Recorded()
      reads this, cache
    {
      HistoryOk(history, area) && cache.disk == history.points[|history.txns|] && cache.images == Images(history)
    }

    /** A commit of t has stopped half way: the images are those of the history and the first of the commit's, and so
        the first of the history with the whole commit. */
    ghost predicate Torn(t: Txn)
      reads this, cache
    {
      && HistoryOk(history, area) && TxnOk(|history.points[0]|, area, t)
      && Images(history) <= cache.images <= Images(Extended(history, area, t))
    }

    /** An operation with part of its reservation left passes log_write's check if the log has more than LOGSIZE
        blocks. */
    lemma ReservationHonoured(op: nat)
      requires Valid() && op in unspent && unspent[op] > 0
      ensures area.size > LOGSIZE ==> !Refused(|block|, area.size)
    {
      SumWithout(unspent, op);
    }

    /** On such a log an operation is refused exactly when LOGSIZE blocks are logged, even for a block that is among
        them; all reservations are then used up. */
    lemma RefusedIff(op: nat)
      requires Valid() && area.size > LOGSIZE && op in unspent
      ensures Refused(|block|, area.size) <==> |block| == LOGSIZE
      ensures |block| == LOGSIZE ==> unspent[op] == 0
    {
      SumWithout(unspent, op);
    }

    /** initlog: recover, and only then accept operations. */
    constructor (cache: Bcache, area: Area)
      requires cache.Valid() && Quiet(cache.bufs, cache.disk, area, {})
      requires Unheld(cache.bufs) && HeaderOk(cache.disk, area)
      modifies cache
      ensures this.cache == cache && this.area == area && Unheld(cache.bufs)
      ensures Valid() && history.txns == [] && outstanding == 0 && !committing && block == []
      ensures cache.disk == Recover(old(cache.disk), area) && cache.Logical() == cache.disk
      ensures cache.images == old(cache.images) + RecoverTrail(old(cache.disk), area, HeadN(old(cache.disk), area) + 1)
    {
      this.cache, this.area := cache, area;
      block, outstanding, committing := [], 0, false;
      unspent := map[];
      history := History([], [], [], [[]]);
      new;
      RecoverFromLog();
      history := History(cache.images, [], [], [cache.disk]);
      QuietIs(cache.bufs, cache.disk, area, {});
      CleanStore(cache.bufs, cache.disk);
    }

    // -------------------------------------------------------------- loop bodies

    /** The read of a log block that opens a round. False is the "no buffers" panic. */
    method ReadLogBlock(l: nat, ghost pinned: set<nat>) returns (ok: bool, x: nat)
      requires Shape() && InLog(area, l) && Quiet(cache.bufs, cache.disk, area, pinned) && OutsideLog(area, pinned)
      modifies cache
      ensures ok <==> old(Spare(cache.bufs))
      ensures ok ==>
        && x < NBUF && old(cache.bufs)[x].refcnt == 0
        && cache.Valid() && cache.disk == old(cache.disk) && cache.images == old(cache.images)
        && cache.Logical() == old(cache.Logical())
        && cache.bufs == old(cache.bufs)[x := Buf(ROOTDEV, l, true, 1, true, cache.Logical()[l])]
      ensures cache.images == old(cache.images)
    {
      QuietIs(cache.bufs, cache.disk, area, pinned);
      assert l !in pinned;
      var r := cache.Bread(l);
      ok, x := r.Some?, if r.Some? then r.value else 0;
    }

    /** The two reads of a round of write_log and of install_trans: the tail-th log block
        and the block it is a copy of. */
    method ReadPair(tail: nat, ghost pinned: set<nat>) returns (ok: bool, x: nat, y: nat)
      requires Shape() && tail < |block| && Quiet(cache.bufs, cache.disk, area, pinned)
      requires OutsideLog(area, pinned)
      requires block[tail] in pinned || (pinned == {} && Unheld(cache.bufs))
      modifies cache
      ensures ok <==> old(Spare(cache.bufs))
      ensures ok ==>
        && x < NBUF && y < NBUF && x != y
        && var l, t, s := area.start + tail + 1, block[tail], old(cache.Logical());
        && cache.Valid() && cache.disk == old(cache.disk) && cache.images == old(cache.images) && cache.Logical() == s
        && cache.bufs == old(cache.bufs)[x := Buf(ROOTDEV, l, true, 1, true, s[l])]
                                        [y := Buf(ROOTDEV, t, true, old(cache.bufs)[y].refcnt + 1, true, s[t])]
        && old(cache.bufs)[x].refcnt == 0
        && old(cache.bufs)[y].refcnt == (if t in pinned then 1 else 0)
        && (Keyed(old(cache.bufs), y, t) || t !in pinned) && !old(cache.bufs)[y].locked
      ensures cache.images == old(cache.images)
    {
      ghost var was := cache.bufs;
      QuietIs(was, cache.disk, area, pinned);
      var t := block[tail];
      y := 0;
      ok, x := ReadLogBlock(area.start + tail + 1, pinned);
      if ok {
        if t in pinned {
          ghost var i: nat :| Keyed(was, i, t);
          assert i != x && Keyed(cache.bufs, i, t);
        } else {
          assert cache.bufs[if x == 0 then 1 else 0].refcnt == 0;
        }
        ghost var read := cache.bufs;
        assert forall i: nat :: Keyed(read, i, t) ==> i != x && Keyed(was, i, t);
        var r := cache.Bread(t);
        y := r.value;
        assert x != y by { assert read[x].refcnt == 1; }
      }
    }

    /** memmove into a held buffer, then bwrite. */
    method WriteOut(i: nat, data: Block)
      requires cache.Valid() && i < NBUF && cache.bufs[i].locked
      modifies cache`bufs, cache`disk, cache`images
      ensures cache.Valid()
      ensures cache.bufs == old(cache.bufs)[i := old(cache.bufs)[i].(data := data)]
      ensures cache.disk == old(cache.disk)[cache.bufs[i].blockno := data]
      ensures cache.images == old(cache.images) + [cache.disk]
      ensures cache.Logical() == old(cache.Logical())[cache.bufs[i].blockno := data]
    {
      cache.SetData(i, data);
      cache.Bwrite(i);
    }

    /** The two releases that close a round. */
    method ReleasePair(i: nat, j: nat)
      requires cache.Valid() && i < NBUF && j < NBUF && i != j && cache.bufs[i].locked && cache.bufs[j].locked
      requires cache.bufs[i].refcnt == 1 ==> cache.bufs[i].data == cache.disk[cache.bufs[i].blockno]
      requires cache.bufs[j].refcnt == 1 ==> cache.bufs[j].data == cache.disk[cache.bufs[j].blockno]
      modifies cache`bufs, cache`lru, cache`order
      ensures cache.Valid() && cache.Logical() == old(cache.Logical())
      ensures cache.bufs == old(cache.bufs)[i := Released(old(cache.bufs)[i])][j := Released(old(cache.bufs)[j])]
    {
      cache.Brelse(i);
      cache.Brelse(j);
    }

    /** The rest of a round of write_log: copy, write, release. */
    method LogPair(x: nat, y: nat)
      requires cache.Valid() && x < NBUF && y < NBUF && x != y && cache.bufs[x].locked && cache.bufs[y].locked
      requires cache.bufs[y].refcnt > 1 && cache.bufs[x].blockno != cache.bufs[y].blockno
      modifies cache
      ensures cache.Valid()
      ensures var a, b := old(cache.bufs)[x], old(cache.bufs)[y];
        && cache.bufs == old(cache.bufs)[x := Released(a.(data := b.data))][y := Released(b)]
        && cache.disk == old(cache.disk)[a.blockno := b.data]
        && cache.images == old(cache.images) + [cache.disk]
        && cache.Logical() == old(cache.Logical())[a.blockno := b.data]
    {
      WriteOut(x, cache.bufs[y].data);
      ReleasePair(y, x);
    }

    /** One round of write_log. */
    method LogOne(tail: nat, ghost pinned: set<nat>) returns (ok: bool)
      requires Shape() && tail < |block| && Quiet(cache.bufs, cache.disk, area, pinned)
      requires OutsideLog(area, pinned) && block[tail] in pinned
      modifies cache
      ensures ok <==> old(Spare(cache.bufs))
      ensures ok ==> Shape() && Quiet(cache.bufs, cache.disk, area, pinned) && Spare(cache.bufs)
      ensures ok ==> Undisturbed(old(cache.bufs), cache.bufs)
      ensures ok ==> var v := old(cache.Logical())[block[tail]];
        && cache.disk == old(cache.disk)[area.start + tail + 1 := v]
        && cache.images == old(cache.images) + [cache.disk]
        && cache.Logical() == old(cache.Logical())[area.start + tail + 1 := v]
      ensures !ok ==> cache.images == old(cache.images)
    {
      ghost var was, s := cache.bufs, cache.Logical();
      var x, y;
      ok, x, y := ReadPair(tail, pinned);
      if ok {
        QuietIs(was, old(cache.disk), area, pinned);
        ghost var v := s[block[tail]];
        assert was[y] == Buf(ROOTDEV, block[tail], true, 1, false, v) by {
          StoredCopy(was, old(cache.disk), y);
        }
        ghost var read := cache.bufs;
        LogPair(x, y);
        ghost var f := Buf(ROOTDEV, area.start + tail + 1, true, 0, false, v);
        RoundUpdates(was, read, cache.bufs, x, f, y, was[y]);
        assert was[x := f][y := was[y]] == was[x := f];
        QuietAfterWrite(was, old(cache.disk), area, pinned, x, f);
      }
    }

    /** The rest of a round of install_trans: copy, write, drop the pin after a commit, release. */
    method InstallPair(x: nat, y: nat, recovering: bool)
      requires cache.Valid() && x < NBUF && y < NBUF && x != y && cache.bufs[x].locked && cache.bufs[y].locked
      requires cache.bufs[x].data == cache.disk[cache.bufs[x].blockno] && cache.bufs[x].blockno != cache.bufs[y].blockno
      requires !recovering ==> cache.bufs[y].refcnt > 1
      modifies cache
      ensures cache.Valid()
      ensures var a, b := old(cache.bufs)[x], old(cache.bufs)[y];
        && cache.bufs == old(cache.bufs)[x := Released(a)]
                                        [y := b.(data := a.data, locked := false,
                                            refcnt := b.refcnt - if recovering then 1 else 2)]
        && cache.disk == old(cache.disk)[b.blockno := a.data]
        && cache.images == old(cache.images) + [cache.disk]
        && cache.Logical() == old(cache.Logical())[b.blockno := a.data]
    {
      WriteOut(y, cache.bufs[x].data);
      if !recovering {
        cache.Bunpin(y);
      }
      ReleasePair(x, y);
    }

    /** One round of install_trans. */
    method InstallOne(tail: nat, recovering: bool, ghost pinned: set<nat>) returns (ok: bool)
      requires Shape() && tail < |block| && Quiet(cache.bufs, cache.disk, area, pinned)
      requires OutsideLog(area, pinned)
      requires if recovering then pinned == {} && Unheld(cache.bufs) else block[tail] in pinned
      modifies cache
      ensures ok <==> old(Spare(cache.bufs))
      ensures ok ==> Shape() && Quiet(cache.bufs, cache.disk, area, pinned - {block[tail]})
      ensures ok ==> Undisturbed(old(cache.bufs), cache.bufs)
      ensures ok ==> var v := old(cache.disk)[area.start + tail + 1];
        && cache.disk == old(cache.disk)[block[tail] := v]
        && cache.images == old(cache.images) + [cache.disk]
        && cache.Logical() == old(cache.Logical())[block[tail] := v]
      ensures !ok ==> cache.images == old(cache.images)
    {
      ghost var was, disk, l, t := cache.bufs, cache.disk, area.start + tail + 1, block[tail];
      assert cache.Logical()[l] == disk[l] by {
        QuietIs(was, disk, area, pinned);
        CleanContents(was, disk, pinned, l);
      }
      var x, y;
      ok, x, y := ReadPair(tail, pinned);
      if ok {
        ghost var read := cache.bufs;
        InstallPair(x, y, recovering);
        ghost var f, g := Buf(ROOTDEV, l, true, 0, false, disk[l]), Buf(ROOTDEV, t, true, 0, false, disk[l]);
        RoundUpdates(was, read, cache.bufs, x, f, y, g);
        QuietAfterInstall(was, disk, area, pinned, x, f, y, g);
      }
    }

    // -------------------------------------------------------------- readers

    /** One visit of a reader. False is the "no buffers" panic. */
    method ReaderStep(v: Visit, ghost pinned: set<nat>, ghost pins: nat) returns (ok: bool)
      requires Shape() && Quiet(cache.bufs, cache.disk, area, pinned)
      requires IsHome(|cache.disk|, area, v.b) && v.b !in pinned && |pinned| == pins
      modifies cache
      ensures ok <==> Visited(old(Held(cache.bufs)), pins, v).Some?
      ensures ok ==> Shape() && Quiet(cache.bufs, cache.disk, area, pinned) && Now() == old(Now()).(bufs := cache.bufs)
      ensures ok ==> Visited(old(Held(cache.bufs)), pins, v) == Some(Held(cache.bufs))
      ensures cache.images == old(cache.images)
    {
      HeldIs(cache.bufs, cache.disk);
      ok := true;
      match v
      case Come(b) =>
        if b !in HeldBlocks(cache.bufs) {
          ok := ReaderComes(b, pinned, pins);
        }
      case Go(b) =>
        if b in HeldBlocks(cache.bufs) {
          ReaderGoes(b, pinned);
        }
    }

    method ReaderComes(b: nat, ghost pinned: set<nat>, ghost pins: nat) returns (ok: bool)
      requires Shape() && Quiet(cache.bufs, cache.disk, area, pinned)
      requires IsHome(|cache.disk|, area, b) && b !in pinned && b !in Held(cache.bufs).blocks && |pinned| == pins
      modifies cache
      ensures ok <==> pins + old(Held(cache.bufs)).size < NBUF
      ensures ok ==> Shape() && Quiet(cache.bufs, cache.disk, area, pinned) && Now() == old(Now()).(bufs := cache.bufs)
      ensures ok ==> var was := old(Held(cache.bufs)); Held(cache.bufs) == Crowd(was.blocks + {b}, was.size + 1)
      ensures cache.images == old(cache.images)
    {
      ghost var was, disk := cache.bufs, cache.disk;
      RoomIff(was, disk, area, pinned);
      UnreferencedBlock(was, disk, area, pinned, b);
      var r := cache.Bread(b);
      ok := r.Some?;
      if ok {
        QuietAfterCome(was, disk, area, pinned, r.value, cache.bufs[r.value]);
      }
    }

    method ReaderGoes(b: nat, ghost pinned: set<nat>)
      requires Shape() && Quiet(cache.bufs, cache.disk, area, pinned) && b !in pinned && b in HeldBlocks(cache.bufs)
      modifies cache
      ensures Shape() && Quiet(cache.bufs, cache.disk, area, pinned) && Now() == old(Now()).(bufs := cache.bufs)
      ensures var was := old(Held(cache.bufs));
        && b in was.blocks && was.size > 0
        && Held(cache.bufs) == Crowd(was.blocks - {b}, was.size - 1)
    {
      var i :| 0 <= i < NBUF && cache.bufs[i].locked && cache.bufs[i].blockno == b;
      QuietAfterGo(cache.bufs, cache.disk, area, pinned, i);
      cache.Brelse(i);
    }

    method ReadersPass(vs: seq<Visit>, ghost pinned: set<nat>, ghost pins: nat) returns (ok: bool)
      requires Shape() && Quiet(cache.bufs, cache.disk, area, pinned) && Elsewhere(vs, |cache.disk|, area, pinned)
      requires |pinned| == pins
      modifies cache
      ensures ok <==> VisitedAll(old(Held(cache.bufs)), pins, vs, |vs|).Some?
      ensures ok ==> Shape() && Quiet(cache.bufs, cache.disk, area, pinned) && Now() == old(Now()).(bufs := cache.bufs)
      ensures ok ==> VisitedAll(old(Held(cache.bufs)), pins, vs, |vs|) == Some(Held(cache.bufs))
      ensures cache.images == old(cache.images)
    {
      ghost var held := Held(cache.bufs);
      var k := 0;
      while k < |vs|
        invariant k <= |vs| && Shape() && Quiet(cache.bufs, cache.disk, area, pinned)
        invariant Now() == old(Now()).(bufs := cache.bufs)
        invariant VisitedAll(held, pins, vs, k) == Some(Held(cache.bufs))
      {
        ok := ReaderStep(vs[k], pinned, pins);
        if !ok {
          VisitsFail(held, pins, vs, k + 1, |vs|);
          return;
        }
        k := k + 1;
      }
      ok := true;
    }

    // -------------------------------------------------------------- header, install, recovery

    /** write_head: copy the in-memory header into the header block and write it. */
    method WriteHead(ghost pinned: set<nat>) returns (ok: bool)
      requires Shape() && Quiet(cache.bufs, cache.disk, area, pinned)
      requires OutsideLog(area, pinned)
      modifies cache
      ensures ok <==> old(Spare(cache.bufs))
      ensures ok ==> Shape() && Quiet(cache.bufs, cache.disk, area, pinned) && Undisturbed(old(cache.bufs), cache.bufs)
      ensures ok ==> var h := HeadBlock(old(cache.disk)[area.start], block);
        && cache.disk == old(cache.disk)[area.start := h]
        && cache.images == old(cache.images) + [cache.disk]
        && cache.Logical() == old(cache.Logical())[area.start := h]
      ensures !ok ==> cache.images == old(cache.images)
    {
      ghost var was, disk := cache.bufs, cache.disk;
      assert cache.Logical()[area.start] == disk[area.start] by {
        QuietIs(was, disk, area, pinned);
        CleanContents(was, disk, pinned, area.start);
      }
      var x;
      ok, x := ReadLogBlock(area.start, pinned);
      if ok {
        var h := HeaderBytes(cache.bufs[x].data);
        WriteOut(x, h);
        cache.Brelse(x);
        ghost var f := Buf(ROOTDEV, area.start, true, 0, false, h);
        assert cache.bufs == was[x := f];
        QuietAfterWrite(was, disk, area, pinned, x, f);
      }
    }

    /** write_head with what readers do before it. */
    method HeadRound(vs: seq<Visit>, ghost pinned: set<nat>, ghost pins: nat) returns (ok: bool)
      requires Shape() && Quiet(cache.bufs, cache.disk, area, pinned)
      requires OutsideLog(area, pinned) && Elsewhere(vs, |cache.disk|, area, pinned) && |pinned| == pins
      modifies cache
      ensures ok <==> Opened(old(Held(cache.bufs)), pins, vs).Some?
      ensures ok ==> Shape() && Quiet(cache.bufs, cache.disk, area, pinned)
      ensures ok ==> Opened(old(Held(cache.bufs)), pins, vs) == Some(Held(cache.bufs))
      ensures ok ==> var h := HeadBlock(old(cache.disk)[area.start], block);
        && cache.disk == old(cache.disk)[area.start := h]
        && cache.images == old(cache.images) + [cache.disk]
      ensures !ok ==> cache.images == old(cache.images)
    {
      ok := ReadersPass(vs, pinned, pins);
      if ok {
        ghost var was := cache.bufs;
        RoomIff(was, cache.disk, area, pinned);
        ok := WriteHead(pinned);
        if ok {
          UndisturbedHeld(was, cache.bufs);
        }
      }
    }

    /** The word loop of write_head. */
    method HeaderBytes(was: Block) returns (h: Block)
      requires |block| <= LOGSIZE < |was|
      ensures h == HeadBlock(was, block)
    {
      h := was[0 := |block|];
      var i := 0;
      while i < |block|
        invariant 0 <= i <= |block|
        invariant h == HeadTo(was, block, i)
      {
        h := h[1 + i := block[i]];
        i := i + 1;
      }
    }

    /** read_head: load the in-memory header from disk. */
    method ReadHead()
      requires cache.Valid() && Quiet(cache.bufs, cache.disk, area, {})
      requires Unheld(cache.bufs) && HeaderOk(cache.disk, area)
      modifies this`block, cache
      ensures cache.disk == old(cache.disk) && cache.images == old(cache.images)
      ensures Shape() && Quiet(cache.bufs, cache.disk, area, {}) && Unheld(cache.bufs) && Spare(cache.bufs)
      ensures block == Targets(cache.disk, area)
    {
      ghost var was, disk := cache.bufs, cache.disk;
      QuietIs(was, disk, area, {});
      CleanContents(was, disk, {}, area.start);
      assert was[0].refcnt == 0;
      var r := cache.Bread(area.start);
      var x := r.value;
      var h := cache.bufs[x].data;
      cache.Brelse(x);
      ghost var f := Buf(ROOTDEV, area.start, true, 0, false, h);
      assert cache.bufs == was[x := f];
      QuietAfterWrite(was, disk, area, {}, x, f);
      assert disk[area.start := h] == disk;
      ReadEntries(h);
    }

    /** The word loop of read_head. */
    method ReadEntries(h: Block)
      requires LOGSIZE < |h| && 0 <= h[0] <= LOGSIZE && NamesOk(h, h[0])
      modifies this`block
      ensures block == Names(h, h[0])
    {
      block := [];
      var i := 0;
      while i < h[0]
        invariant 0 <= i <= h[0] && NamesOk(h, i) && block == Names(h, i)
      {
        NamesPrefix(h, i + 1, h[0]);
        block := block + [h[1 + i]];
        i := i + 1;
      }
    }

    /** install_trans: copy the logged blocks home. The header on disk names them already. */
    method InstallTrans(recovering: bool, vs: seq<seq<Visit>>) returns (ok: bool)
      requires Shape() && HeaderOk(cache.disk, area) && Targets(cache.disk, area) == block
      requires Quiet(cache.bufs, cache.disk, area, if recovering then {} else Rest(block, 0))
      requires |vs| == |block| && AllElsewhere(vs, |cache.disk|, area, Rest(block, 0))
      requires recovering ==> Unheld(cache.bufs) && forall k :: 0 <= k < |vs| ==> vs[k] == []
      modifies cache
      ensures var r := Rounds(old(Held(cache.bufs)), if recovering then 0 else |block|, !recovering, vs, |block|);
        if ok then r == Some(Held(cache.bufs)) else r == None
      ensures ok ==> Shape() && Quiet(cache.bufs, cache.disk, area, {})
      ensures ok ==> cache.disk == RecoverImage(old(cache.disk), area, |block|)
      ensures ok ==> cache.images == old(cache.images) + RecoverTrail(old(cache.disk), area, |block|)
      ensures !ok ==> Within(cache.images, old(cache.images), RecoverTrail(old(cache.disk), area, |block|))
    {
      ghost var was, held, pins := Now(), Held(cache.bufs), if recovering then 0 else |block|;
      ghost var pinned := if recovering then {} else Rest(block, 0);
      var tail := 0;
      while tail < |block|
        invariant 0 <= tail <= |block| && Shape()
        invariant pinned == if recovering then {} else Rest(block, tail)
        invariant Quiet(cache.bufs, cache.disk, area, pinned) && (recovering ==> Unheld(cache.bufs))
        invariant InstallProgress(was, Now(), area, tail)
        invariant Rounds(held, pins, !recovering, vs, tail) == Some(Held(cache.bufs))
      {
        RestStep(block, tail);
        ok := InstallTurn(was, held, tail, recovering, pinned, vs);
        if !ok {
          RecoverTrailGrows(was.disk, area, tail, |block|);
          PrefixOnto(was.images, RecoverTrail(was.disk, area, tail), RecoverTrail(was.disk, area, |block|));
          return;
        }
        pinned := pinned - {block[tail]};
        tail := tail + 1;
      }
      ok := true;
    }

    method InstallTurn(ghost was: Moment, ghost held: Crowd, tail: nat, recovering: bool, ghost pinned: set<nat>,
                       vs: seq<seq<Visit>>)
      returns (ok: bool)
      requires Shape() && tail < |block| == |vs| && Quiet(cache.bufs, cache.disk, area, pinned)
      requires pinned == if recovering then {} else Rest(block, tail)
      requires recovering ==> Unheld(cache.bufs) && forall k :: 0 <= k < |vs| ==> vs[k] == []
      requires InstallProgress(was, Now(), area, tail) && block == Targets(was.disk, area)
      requires AllElsewhere(vs, |cache.disk|, area, Rest(block, 0))
      requires Rounds(held, if recovering then 0 else |block|, !recovering, vs, tail) == Some(Held(cache.bufs))
      modifies cache
      ensures if ok then Rounds(held, if recovering then 0 else |block|, !recovering, vs, tail + 1)
                         == Some(Held(cache.bufs))
              else Rounds(held, if recovering then 0 else |block|, !recovering, vs, |block|) == None
      ensures ok ==> Shape() && Quiet(cache.bufs, cache.disk, area, pinned - {block[tail]})
      ensures ok && recovering ==> Unheld(cache.bufs)
      ensures ok ==> InstallProgress(was, Now(), area, tail + 1)
      ensures !ok ==> cache.images == old(cache.images)
    {
      ghost var n, pins := if recovering then 0 else |block|, if recovering then 0 else |block| - tail;
      RestStep(block, tail);
      RestSize(block, tail);
      RestOutsideLog(block, tail, |was.disk|, area);
      RestWithin(block, tail);
      RoundsStep(held, n, !recovering, vs, tail, Held(cache.bufs));
      ok := InstallRound(was, tail, recovering, pinned, pins, vs[tail]);
      if !ok {
        RoundsFail(held, n, !recovering, vs, tail + 1, |block|);
      }
    }

    method InstallRound(ghost was: Moment, tail: nat, recovering: bool, ghost pinned: set<nat>, ghost pins: nat,
                        vs: seq<Visit>)
      returns (ok: bool)
      requires Shape() && tail < |block| && Quiet(cache.bufs, cache.disk, area, pinned)
      requires OutsideLog(area, pinned) && Elsewhere(vs, |cache.disk|, area, pinned) && |pinned| == pins
      requires if recovering then pinned == {} && Unheld(cache.bufs) && vs == [] else block[tail] in pinned
      requires InstallProgress(was, Now(), area, tail) && block == Targets(was.disk, area)
      modifies cache
      ensures ok <==> Opened(old(Held(cache.bufs)), pins, vs).Some?
      ensures ok ==> Shape() && Quiet(cache.bufs, cache.disk, area, pinned - {block[tail]})
      ensures ok ==> Opened(old(Held(cache.bufs)), pins, vs) == Some(Held(cache.bufs))
      ensures ok && recovering ==> Unheld(cache.bufs)
      ensures ok ==> InstallProgress(was, Now(), area, tail + 1)
      ensures !ok ==> cache.images == old(cache.images)
    {
      ok := ReadersPass(vs, pinned, pins);
      if ok {
        ghost var now := Now();
        RoomIff(now.bufs, cache.disk, area, pinned);
        if recovering {
          HeldNone(old(cache.bufs), cache.disk);
          HeldNone(now.bufs, cache.disk);
        }
        ok := InstallOne(tail, recovering, pinned);
        if ok {
          UndisturbedHeld(now.bufs, cache.bufs);
          InstallProgressStep(was, now, Now(), area, tail);
        }
      }
    }

    /** recover_from_log. */
    method RecoverFromLog()
      requires cache.Valid() && Quiet(cache.bufs, cache.disk, area, {})
      requires Unheld(cache.bufs) && HeaderOk(cache.disk, area)
      modifies this`block, cache
      ensures Shape() && Quiet(cache.bufs, cache.disk, area, {}) && Unheld(cache.bufs) && block == []
      ensures cache.disk == Recover(old(cache.disk), area)
      ensures cache.images == old(cache.images) + RecoverTrail(old(cache.disk), area, HeadN(old(cache.disk), area) + 1)
      ensures cache.images != [] && cache.images[|cache.images| - 1] == cache.disk
    {
      ReadHead();
      HeldNone(cache.bufs, cache.disk);
      RoundsStill(Crowd({}, 0), 0, false, |block|, |block|);
      var ok := InstallTrans(true, seq(|block|, _ => []));
      block := [];
      RoomIff(cache.bufs, cache.disk, area, {});
      HeldNone(cache.bufs, cache.disk);
      ok := WriteHead({});
    }

    // -------------------------------------------------------------- commit

    /** write_log: copy the logged blocks from the cache into the log. */
    method WriteLog(ghost pinned: set<nat>, vs: seq<seq<Visit>>) returns (ok: bool)
      requires Shape() && pinned == Rest(block, 0) && Quiet(cache.bufs, cache.disk, area, pinned)
      requires |vs| == |block| && AllElsewhere(vs, |cache.disk|, area, pinned)
      modifies cache
      ensures var r := Rounds(old(Held(cache.bufs)), |block|, false, vs, |block|);
        if ok then r == Some(Held(cache.bufs)) else r == None
      ensures ok ==> Shape() && Quiet(cache.bufs, cache.disk, area, pinned)
      ensures ok ==> LogProgress(old(Now()), Now(), area, block, |block|)
      ensures !ok ==> Within(cache.images, old(cache.images),
          LogTrail(old(cache.disk), area, Values(old(cache.Logical()), block), |block|))
    {
      ghost var was, held := Now(), Held(cache.bufs);
      LogProgressStarts(was, area, block);
      var tail := 0;
      while tail < |block|
        invariant 0 <= tail <= |block| && |cache.disk| == |was.disk| && AtRound(was, held, pinned, vs, tail)
      {
        ok := LogTurn(was, held, tail, pinned, vs);
        if !ok {
          ghost var vals := Values(was.store, block);
          LogTrailGrows(was.disk, area, vals, tail, |block|);
          PrefixOnto(was.images, LogTrail(was.disk, area, vals, tail), LogTrail(was.disk, area, vals, |block|));
          return;
        }
        tail := tail + 1;
      }
      ok := true;
    }

    ghost predicate AtRound(was: Moment, held: Crowd, pinned: set<nat>, vs: seq<seq<Visit>>, tail: nat)
      reads this, cache
    {
      && Shape() && Quiet(cache.bufs, cache.disk, area, pinned) && tail <= |vs| == |block|
      && LogProgress(was, Now(), area, block, tail)
      && Rounds(held, |block|, false, vs, tail) == Some(Held(cache.bufs))
    }

    method LogTurn(ghost was: Moment, ghost held: Crowd, tail: nat, ghost pinned: set<nat>, vs: seq<seq<Visit>>)
      returns (ok: bool)
      requires tail < |block| && pinned == Rest(block, 0) && AtRound(was, held, pinned, vs, tail)
      requires AllElsewhere(vs, |cache.disk|, area, pinned)
      modifies cache
      ensures if ok then |cache.disk| == |old(cache.disk)| && AtRound(was, held, pinned, vs, tail + 1)
              else |vs| == |block| && Rounds(held, |block|, false, vs, |block|) == None
      ensures !ok ==> cache.images == old(cache.images)
    {
      RestSize(block, 0);
      RestOutsideLog(block, 0, |was.disk|, area);
      assert block[tail] in pinned by { RestIs(block, 0); }
      RoundsStep(held, |block|, false, vs, tail, Held(cache.bufs));
      ok := LogRound(was, tail, pinned, |block|, vs[tail]);
      if !ok {
        RoundsFail(held, |block|, false, vs, tail + 1, |block|);
      }
    }

    method LogRound(ghost was: Moment, tail: nat, ghost pinned: set<nat>, ghost pins: nat, vs: seq<Visit>)
      returns (ok: bool)
      requires Shape() && tail < |block| && block[tail] in pinned && Quiet(cache.bufs, cache.disk, area, pinned)
      requires OutsideLog(area, pinned) && Elsewhere(vs, |cache.disk|, area, pinned) && |pinned| == pins
      requires LogProgress(was, Now(), area, block, tail)
      modifies cache
      ensures ok <==> Opened(old(Held(cache.bufs)), pins, vs).Some?
      ensures ok ==> Shape() && Quiet(cache.bufs, cache.disk, area, pinned)
      ensures ok ==> Opened(old(Held(cache.bufs)), pins, vs) == Some(Held(cache.bufs))
      ensures ok ==> LogProgress(was, Now(), area, block, tail + 1)
      ensures !ok ==> cache.images == old(cache.images)
    {
      ok := ReadersPass(vs, pinned, pins);
      if ok {
        ghost var now := Now();
        RoomIff(now.bufs, cache.disk, area, pinned);
        ok := LogOne(tail, pinned);
        if ok {
          UndisturbedHeld(now.bufs, cache.bufs);
          LogProgressStep(was, now, Now(), area, block, tail);
        }
      }
    }

    /** The four calls inside commit, for a transaction that logged something. */
    method CommitBlocks(s: Schedule) returns (ok: bool)
      requires Shape() && block != [] && Quiet(cache.bufs, cache.disk, area, Rest(block, 0))
      requires ScheduleFor(s, |cache.disk|, area, block)
      modifies this`block, cache
      ensures var r := Committed(old(Held(cache.bufs)), old(|block|), s);
        if ok then r == Some(Held(cache.bufs)) else r == None
      ensures ok ==> Shape() && block == [] && Settled()
      ensures ok ==> var d, ts, vals := old(cache.disk), old(block), Values(old(cache.Logical()), old(block));
        && HeaderOk(Headed(d, area, ts, vals), area)
        && cache.disk == Recover(Headed(d, area, ts, vals), area)
        && cache.images == old(cache.images) + CommitTrail(d, area, Txn(ts, vals), Writes(Txn(ts, vals)))
      ensures !ok ==> var t := Txn(old(block), Values(old(cache.Logical()), old(block)));
        Within(cache.images, old(cache.images), CommitTrail(old(cache.disk), area, t, Writes(t)))
    {
      ghost var d, t, images := cache.disk, Txn(block, Values(cache.Logical(), block)), cache.images;
      HeadedIsTransaction(d, area, t.ts, t.vals);
      ghost var h := Headed(d, area, t.ts, t.vals);
      ghost var logged;
      ok, logged := CommitHalves(s, t, h);
      if ok {
        CommitMakesTrail(images, d, area, t, h);
      } else if logged {
        PartOfInstall(images, cache.images, d, area, t, h);
      } else {
        PartOfLog(images, cache.images, d, area, t, h);
      }
    }

    method CommitHalves(s: Schedule, ghost t: Txn, ghost h: Disk) returns (ok: bool, ghost logged: bool)
      requires Shape() && block != [] && Quiet(cache.bufs, cache.disk, area, Rest(block, 0))
      requires ScheduleFor(s, |cache.disk|, area, block)
      requires t == Txn(block, Values(cache.Logical(), block)) && IsHeaded(cache.disk, area, t, h)
      modifies this`block, cache
      ensures var r := Committed(old(Held(cache.bufs)), |t.ts|, s);
        if ok then r == Some(Held(cache.bufs)) else r == None
      ensures ok ==> Shape() && block == [] && Settled() && cache.disk == Recover(h, area)
      ensures var log, inst := LogTrail(old(cache.disk), area, t.vals, |t.ts|), RecoverTrail(h, area, |t.ts|);
        if ok then cache.images == old(cache.images) + log + [h] + (inst + [Recover(h, area)])
        else if logged then Within(cache.images, old(cache.images) + log + [h], inst)
        else Within(cache.images, old(cache.images), log)
    {
      ok := LogAndHead(s);
      logged := ok;
      if ok {
        ok := InstallAndClear(s);
      }
    }

    /** The first half of commit, up to the header on disk. */
    method LogAndHead(s: Schedule) returns (ok: bool)
      requires Shape() && block != [] && Quiet(cache.bufs, cache.disk, area, Rest(block, 0))
      requires ScheduleFor(s, |cache.disk|, area, block)
      modifies cache
      ensures var r := Rounds(old(Held(cache.bufs)), |block|, false, s.log, |block|);
        if ok then r.Some? && Opened(r.value, |block|, s.head) == Some(Held(cache.bufs))
        else r.Some? ==> Opened(r.value, |block|, s.head) == None
      ensures ok ==> Shape() && Quiet(cache.bufs, cache.disk, area, Rest(block, 0))
      ensures var d, vals := old(cache.disk), Values(old(cache.Logical()), block);
        if ok then
          && cache.disk == Headed(d, area, block, vals)
          && cache.images == old(cache.images) + LogTrail(d, area, vals, |block|) + [cache.disk]
        else Within(cache.images, old(cache.images), LogTrail(d, area, vals, |block|))
    {
      ghost var pinned := Rest(block, 0);
      RestOutsideLog(block, 0, |cache.disk|, area);
      RestSize(block, 0);
      ok := WriteLog(pinned, s.log);
      if ok {
        ok := HeadRound(s.head, pinned, |block|);
      }
    }

    /** The second half of commit, from the header on disk. */
    method InstallAndClear(s: Schedule) returns (ok: bool)
      requires Shape() && HeaderOk(cache.disk, area) && Targets(cache.disk, area) == block
      requires Quiet(cache.bufs, cache.disk, area, Rest(block, 0)) && ScheduleFor(s, |cache.disk|, area, block)
      modifies this`block, cache
      ensures var r := Rounds(old(Held(cache.bufs)), old(|block|), true, s.install, old(|block|));
        if ok then r.Some? && Opened(r.value, 0, s.clear) == Some(Held(cache.bufs))
        else r.Some? ==> Opened(r.value, 0, s.clear) == None
      ensures ok ==> Shape() && block == [] && Settled()
      ensures ok ==>
        && cache.disk == Recover(old(cache.disk), area)
        && cache.images == old(cache.images) + (RecoverTrail(old(cache.disk), area, old(|block|)) + [cache.disk])
      ensures !ok ==> Within(cache.images, old(cache.images), RecoverTrail(old(cache.disk), area, old(|block|)))
    {
      ok := InstallTrans(false, s.install);
      if ok {
        block := [];
        ok := HeadRound(s.clear, {}, 0);
        if ok {
          QuietIs(cache.bufs, cache.disk, area, {});
          CleanStore(cache.bufs, cache.disk);
        }
      }
    }

    /** Nothing is logged, and the cache agrees with the disk. */
    ghost predicate Settled()
      requires cache.Valid()
      reads this, cache
    {
      && cache.Logical() == cache.disk
      && Quiet(cache.bufs, cache.disk, area, {})
    }

    /** commit, with readers of blocks that are neither logged nor part of the log. False is the "no buffers" panic. */
    method Commit(s: Schedule) returns (ok: bool)
      requires Valid() && committing && Aside(cache.bufs, area, Rest(block, 0))
      requires ScheduleFor(s, |cache.disk|, area, block)
      modifies this`block, this`history, cache
      ensures var r := Committed(old(Held(cache.bufs)), old(|block|), s);
        if old(block) == [] then ok && cache.bufs == old(cache.bufs)
        else if ok then r == Some(Held(cache.bufs)) else r == None
      ensures ok ==> Valid() && block == [] && Aside(cache.bufs, area, {})
      ensures ok ==> var d, ts, s := old(cache.disk), old(block), old(cache.Logical());
        && SameHome(s, cache.disk, area)
        && cache.Logical() == cache.disk
        && (forall i :: 0 <= i < |ts| ==> ts[i] < |s|)
        && var t := Txn(ts, Values(s, ts));
        && (ts != [] ==> TxnOk(|d|, area, t))
        && history == if ts == [] then old(history) else Extended(old(history), area, t)
      ensures !ok ==> var t := Txn(old(block), Values(old(cache.Logical()), old(block)));
        history == old(history) && Torn(t) && SameHome(old(cache.Logical()), After(old(cache.disk), area, t), area)
    {
      QuietIs(cache.bufs, cache.disk, area, Rest(block, 0));
      CommittedContents(cache.bufs, cache.disk, area, block);
      ok := true;
      if |block| > 0 {
        AfterIsRecovered(cache.disk, area, Txn(block, Values(cache.Logical(), block)));
        ok := CommitAndRecord(s);
      } else {
        CleanStore(cache.bufs, cache.disk);
      }
    }

    method CommitAndRecord(s: Schedule) returns (ok: bool)
      requires Shape() && block != [] && Quiet(cache.bufs, cache.disk, area, Rest(block, 0)) && Recorded()
      requires ScheduleFor(s, |cache.disk|, area, block)
      modifies this`block, this`history, cache
      ensures var r := Committed(old(Held(cache.bufs)), old(|block|), s);
        if ok then r == Some(Held(cache.bufs)) else r == None
      ensures ok ==> Shape() && block == [] && Settled() && Recorded()
      ensures ok ==> var d, ts, s := old(cache.disk), old(block), old(cache.Logical());
        && (forall i :: 0 <= i < |ts| ==> ts[i] < |s|)
        && var t := Txn(ts, Values(s, ts));
        && TxnOk(|d|, area, t) && history == Extended(old(history), area, t)
        && HeaderOk(Headed(d, area, ts, t.vals), area) && cache.disk == Recover(Headed(d, area, ts, t.vals), area)
      ensures !ok ==> history == old(history) && Torn(Txn(old(block), Values(old(cache.Logical()), old(block))))
    {
      ghost var t := Txn(block, Values(cache.Logical(), block));
      ok := CommitBlocks(s);
      if ok {
        Record(old(cache.disk), t, old(cache.images));
      } else {
        ExtendedOk(history, area, t);
      }
    }

    /** The commit that has just been carried out joins the history. */
    ghost method Record(d: Disk, t: Txn, images: seq<Disk>)
      requires HistoryOk(history, area) && d == history.points[|history.txns|] && images == Images(history)
      requires TxnOk(|d|, area, t) && HeaderOk(Headed(d, area, t.ts, t.vals), area)
      requires cache.disk == Recover(Headed(d, area, t.ts, t.vals), area)
      requires cache.images == images + CommitTrail(d, area, t, Writes(t))
      modifies this`history
      ensures history == Extended(old(history), area, t) && Recorded()
    {
      CommitTrailAt(d, area, t, Writes(t), 2 * |t.ts| + 1);
      HeadedIsTransaction(d, area, t.ts, t.vals);
      ExtendedOk(history, area, t);
      history := Extended(history, area, t);
    }

    // -------------------------------------------------------------- operations

    /** One pass of the loop in begin_op for operation `op`. False means it went to sleep. */
    method BeginOp(ghost op: nat) returns (admitted: bool)
      requires Valid() && op !in unspent
      modifies this`outstanding, this`unspent
      ensures Valid()
      ensures admitted <==> !committing && |block| + (old(outstanding) + 1) * MAXOPBLOCKS <= LOGSIZE
      ensures outstanding == old(outstanding) + if admitted then 1 else 0
      ensures unspent == if admitted then old(unspent)[op := MAXOPBLOCKS] else old(unspent)
    {
      admitted := false;
      if committing {
      } else if |block| + (outstanding + 1) * MAXOPBLOCKS > LOGSIZE {
      } else {
        Admission(unspent, op, |block|);
        KeptLess(cache.bufs, cache.disk, Rest(block, 0), outstanding == 0);
        outstanding := outstanding + 1;
        unspent := unspent[op := MAXOPBLOCKS];
        admitted := true;
      }
    }

    /** The first half of end_op, under log.lock. The last operation to end has logged and released what it changed. */
    method EndOp(ghost op: nat) returns (doCommit: bool, panicked: bool)
      requires Valid() && op in unspent
      requires outstanding == 1 ==> Clean(cache.bufs, cache.disk, Rest(block, 0))
      modifies this`outstanding, this`committing, this`unspent
      ensures Valid()
      ensures !panicked
      ensures outstanding == old(outstanding) - 1 && unspent == old(unspent) - {op}
      ensures doCommit <==> outstanding == 0
      ensures committing <==> doCommit
    {
      SumWithout(unspent, op);
      assert (unspent - {op}).Keys == unspent.Keys - {op};
      KeptLess(cache.bufs, cache.disk, Rest(block, 0), false);
      outstanding := outstanding - 1;
      unspent := unspent - {op};
      doCommit, panicked := false, committing;
      if outstanding == 0 {
        doCommit, committing := true, true;
      }
    }

    /** The second half of end_op, once commit has returned. */
    method EndCommit()
      requires Valid() && committing
      modifies this`committing
      ensures Valid() && !committing
    {
      committing := false;
    }

    /** The absorption loop of log_write. */
    method FindLogged(b: nat) returns (k: nat)
      ensures k <= |block| && if k < |block| then block[k] == b else b !in block
    {
      k := 0;
      while k < |block|
        invariant k <= |block| && b !in block[..k]
      {
        if block[k] == b {
          return;
        }
        k := k + 1;
      }
      assert block[..k] == block;
    }

    /** log_write by operation `op`, on a buffer it holds. An operation adds no more blocks than
        begin_op reserved for it; rewriting a block that is already logged is free. */
    method LogWrite(i: nat, ghost op: nat) returns (panicked: bool)
      requires Valid() && i < NBUF && cache.bufs[i].locked && IsHome(|cache.disk|, area, cache.bufs[i].blockno)
      requires op in unspent && (cache.bufs[i].blockno !in block ==> unspent[op] > 0)
      modifies this`block, this`unspent, cache`bufs
      ensures Valid()
      ensures panicked <==> Refused(old(|block|), area.size)
      ensures old(unspent)[op] > 0 && area.size > LOGSIZE ==> !panicked
      ensures cache.Logical() == old(cache.Logical())
      ensures panicked ==> block == old(block) && unspent == old(unspent) && cache.bufs == old(cache.bufs)
      ensures !panicked ==> var b, was := old(cache.bufs)[i].blockno, old(cache.bufs);
        if b in old(block) then
          block == old(block) && unspent == old(unspent) && cache.bufs == was
        else
          && block == old(block) + [b]
          && unspent == old(unspent)[op := old(unspent)[op] - 1]
          && cache.bufs == was[i := was[i].(refcnt := was[i].refcnt + 1)]
    {
      SumWithout(unspent, op);
      panicked := false;
      if |block| >= LOGSIZE || |block| >= area.size - 1 {
        return true;
      }
      if outstanding < 1 {
        return true;
      }
      var k := FindLogged(cache.bufs[i].blockno);
      if k == |block| {
        Append(i, op);
      } else {
        block := block[k := cache.bufs[i].blockno];
        assert block == old(block);
      }
    }

    /** A block that is new to the transaction: pinned and added to the header. */
    method Append(i: nat, ghost op: nat)
      requires Valid() && i < NBUF && cache.bufs[i].locked && IsHome(|cache.disk|, area, cache.bufs[i].blockno)
      requires cache.bufs[i].blockno !in block && !Refused(|block|, area.size) && op in unspent && unspent[op] > 0
      modifies this`block, this`unspent, cache`bufs
      ensures Valid() && cache.Logical() == old(cache.Logical())
      ensures block == old(block) + [old(cache.bufs)[i].blockno] && unspent == old(unspent)[op := old(unspent)[op] - 1]
      ensures cache.bufs == old(cache.bufs)[i := old(cache.bufs)[i].(refcnt := old(cache.bufs)[i].refcnt + 1)]
    {
      SumWithout(unspent, op);
      SumWith(unspent, op, unspent[op] - 1);
      assert unspent[op := unspent[op] - 1].Keys == unspent.Keys;
      PinnedByLogWrite(cache.bufs, cache.disk, block, outstanding == 0, i);
      HomeBlocksAppend(|cache.disk|, area, block, cache.bufs[i].blockno);
      cache.Bpin(i);
      block := block + [cache.bufs[i].blockno];
      unspent := unspent[op := unspent[op] - 1];
    }

    // -------------------------------------------------------------- what an operation does between begin_op and end_op

    /** bread: the latest contents, whoever wrote them and whether or not they are committed. */
    method Read(b: nat) returns (r: Option<nat>)
      requires Valid() && b < |cache.disk|
      requires forall i: nat :: Keyed(cache.bufs, i, b) ==> !cache.bufs[i].locked
      modifies cache
      ensures cache.disk == old(cache.disk) && cache.images == old(cache.images)
      ensures Valid() && cache.Logical() == old(cache.Logical())
      ensures r.None? <==> old(!Cached(cache.bufs, b) && !Spare(cache.bufs))
      ensures r.None? ==> cache.bufs == old(cache.bufs)
      ensures r.Some? ==> r.value < NBUF && cache.bufs[r.value].locked && !old(cache.bufs)[r.value].locked
      ensures r.Some? ==> cache.bufs == old(cache.bufs)[r.value := cache.bufs[r.value]]
      ensures r.Some? ==> Keyed(cache.bufs, r.value, b) && cache.bufs[r.value].data == cache.Logical()[b]
      ensures b in block ==> r.Some? && old(Keyed(cache.bufs, r.value, b))
    {
      assert b in block ==> Cached(cache.bufs, b) by {
        RestIs(block, 0);
        KeptIs(cache.bufs, cache.disk, Rest(block, 0), outstanding == 0);
      }
      ghost var was := cache.bufs;
      r := cache.Bread(b);
      if r.Some? {
        KeptAfterRead(was, cache.disk, Rest(block, 0), outstanding == 0, r.value, cache.bufs[r.value]);
      }
    }

    /** Within an operation, a held buffer is overwritten in memory; the disk does not see it. */
    method Modify(i: nat, data: Block)
      requires Valid() && i < NBUF && cache.bufs[i].locked && outstanding > 0
      modifies cache`bufs
      ensures cache.bufs == old(cache.bufs)[i := old(cache.bufs)[i].(data := data)]
      ensures Valid() && cache.Logical() == old(cache.Logical())[old(cache.bufs)[i].blockno := data]
    {
      ghost var was := cache.bufs;
      KeptIs(was, cache.disk, Rest(block, 0), false);
      cache.SetData(i, data);
      KeptAfterRekeep(was, cache.disk, Rest(block, 0), outstanding == 0, i, cache.bufs[i]);
    }

    /** brelse, once every change to the buffer has been logged. */
    method Release(i: nat)
      requires Valid() && i < NBUF && cache.bufs[i].locked
      requires cache.bufs[i].blockno in block || cache.bufs[i].data == cache.disk[cache.bufs[i].blockno]
      modifies cache
      ensures cache.disk == old(cache.disk) && cache.images == old(cache.images)
      ensures Valid() && cache.Logical() == old(cache.Logical())
      ensures cache.bufs == old(cache.bufs)[i := Released(old(cache.bufs)[i])]
    {
      ghost var was := cache.bufs;
      RestIs(block, 0);
      KeptIs(was, cache.disk, Rest(block, 0), outstanding == 0);
      cache.Brelse(i);
      KeptAfterRekeep(was, cache.disk, Rest(block, 0), outstanding == 0, i, cache.bufs[i]);
    }

    /** The pattern of every change to a block: bread, change, log_write, brelse. */
    method Update(b: nat, data: Block, ghost op: nat) returns (r: Outcome)
      requires Valid() && IsHome(|cache.disk|, area, b)
      requires forall i: nat :: Keyed(cache.bufs, i, b) ==> !cache.bufs[i].locked
      requires op in unspent && (b !in block ==> unspent[op] > 0)
      modifies this`block, this`unspent, cache
      ensures r == NoBuffer <==> old(!Cached(cache.bufs, b) && !Spare(cache.bufs))
      ensures r == TooBig <==> old(Cached(cache.bufs, b) || Spare(cache.bufs)) && Refused(old(|block|), area.size)
      ensures Valid() && cache.disk == old(cache.disk) && cache.images == old(cache.images)
      ensures r != Done ==> block == old(block) && unspent == old(unspent)
      ensures r != TooBig ==>
        forall i :: 0 <= i < NBUF && cache.bufs[i].locked ==> cache.bufs[i] == old(cache.bufs)[i]
      ensures r == Done ==>
        && cache.Logical() == old(cache.Logical())[b := data]
        && block == (if b in old(block) then old(block) else old(block) + [b])
        && unspent == if b in old(block) then old(unspent) else old(unspent)[op := old(unspent)[op] - 1]
    {
      var got := Read(b);
      if got.None? {
        return NoBuffer;
      }
      var panicked := UpdateHeld(got.value, data, op);
      r := if panicked then TooBig else Done;
    }

    method UpdateHeld(i: nat, data: Block, ghost op: nat) returns (panicked: bool)
      requires Valid() && i < NBUF && cache.bufs[i].locked && IsHome(|cache.disk|, area, cache.bufs[i].blockno)
      requires op in unspent && (cache.bufs[i].blockno !in block ==> unspent[op] > 0)
      modifies this`block, this`unspent, cache
      ensures panicked <==> Refused(old(|block|), area.size)
      ensures Valid() && cache.disk == old(cache.disk) && cache.images == old(cache.images)
      ensures panicked ==> block == old(block) && unspent == old(unspent)
      ensures !panicked ==> var b := old(cache.bufs)[i].blockno;
        && cache.Logical() == old(cache.Logical())[b := data]
        && block == (if b in old(block) then old(block) else old(block) + [b])
        && unspent == (if b in old(block) then old(unspent) else old(unspent)[op := old(unspent)[op] - 1])
        && cache.bufs == old(cache.bufs)[i := cache.bufs[i]] && !cache.bufs[i].locked
    {
      Modify(i, data);
      panicked := LogWrite(i, op);
      if !panicked {
        Release(i);
      }
    }
  }
}

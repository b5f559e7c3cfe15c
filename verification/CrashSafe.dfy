/** The file system over the log: whatever a crash leaves behind, recovery finds a sound file system on it. */
module CrashSafe {
  import Bio
  import Log
  import Readers
  import LogCache
  import FsCode = Fs
  import opened FsBlocks
  import opened FsFiles
  import opened FsLedger
  import opened FsState
  import FsTrunc
  import opened LogDisk

  /** A file system between operations: every block owned once, bitmap exact, every dinode on disk. */
  ghost predicate Sound(s: Fs) {
    Inv(s) && NoneHeld(s) && AllSyncedBut(s, |s.ino|)
  }

  /** Outside the log, the disk d holds the blocks of s. */
  ghost predicate Shows(d: Bio.Disk, area: Area, s: Fs) {
    |d| == |s.disk| && forall b: nat {:trigger s.disk[b]} :: b < |d| && !InLog(area, b) ==> d[b] == s.disk[b]
  }

  lemma ShowsHome(d: Bio.Disk, d': Bio.Disk, area: Area, s: Fs)
    requires Shows(d, area, s) && Home(d', area) == Home(d, area) && |d'| == |d|
    ensures Shows(d', area, s)
  {
    forall b: nat | b < |d'| && !InLog(area, b) ensures d'[b] == s.disk[b] {
      assert Home(d', area)[b] == Home(d, area)[b];
    }
  }

  lemma ShowsSame(d: Bio.Disk, d': Bio.Disk, area: Area, s: Fs)
    requires Shows(d, area, s) && LogCache.SameHome(d, d', area)
    ensures Shows(d', area, s)
  {
    forall b: nat | b < |d'| && !InLog(area, b) ensures d'[b] == s.disk[b] {
      assert IsHome(|d|, area, b);
    }
  }

  /** ilock on such a disk reads every inode of s. */
  lemma ShowsInodes(d: Bio.Disk, area: Area, s: Fs, i: nat)
    requires Shows(d, area, s) && Sound(s) && area.start + area.size <= s.g.inodestart && i < |s.ino|
    ensures IBlock(s.g, i) < |d| && d[IBlock(s.g, i)] == s.disk[IBlock(s.g, i)]
    ensures Dinode(s.disk[IBlock(s.g, i)], InodeWord(i)) == s.ino[i]
  {
    assert Synced(s, i);
    SyncedIsLoaded(s, i);
  }

  /** What is on the way from s to t once all but the blocks `rest` have been passed to the log. */
  ghost predicate Between(d: Bio.Disk, area: Area, s: Fs, t: Fs, rest: set<nat>) {
    && |d| == |s.disk| == |t.disk|
    && forall b: nat {:trigger b in rest} {:trigger t.disk[b]} :: b < |d| && !InLog(area, b) ==>
         d[b] == if b in rest then s.disk[b] else t.disk[b]
  }

  lemma BetweenStarts(d: Bio.Disk, area: Area, s: Fs, t: Fs, logged: set<nat>)
    requires Shows(d, area, s) && Covered(t.g, s.disk, t.disk, {}, logged)
    ensures Between(d, area, s, t, logged)
  {
    forall b: nat | b < |d| && !InLog(area, b) ensures d[b] == if b in logged then s.disk[b] else t.disk[b] {
      assert d[b] == s.disk[b];
      assert t.disk[b] != s.disk[b] ==> b in logged;
    }
  }

  lemma BetweenMoves(d: Bio.Disk, area: Area, s: Fs, t: Fs, rest: set<nat>, b: nat)
    requires Between(d, area, s, t, rest) && b < |d|
    ensures Between(d[b := t.disk[b]], area, s, t, rest - {b})
  {
  }

  class FileStack {
    const log: Log.Log
    const files: FsCode.FileSystem
    ghost var points: seq<Fs>    // the file system as recovery found it, and as each commit left it

    /** Every point of the log's history is a sound file system. */
    ghost predicate Anchored()
      reads this, log
    {
      && |points| == |log.history.points|
      && forall k: nat {:trigger points[k]} :: k < |points| ==>
           Sound(points[k]) && Shows(log.history.points[k], log.area, points[k])
    }

    ghost predicate Valid()
      reads this, log, log.cache, files
    {
      && log.Valid() && files.Ready() && log.area.start + log.area.size <= files.g.inodestart
      && Shows(log.cache.Logical(), log.area, files.View()) && Anchored()
    }

    /** After initlog, with the file system it found. */
    constructor (log: Log.Log, files: FsCode.FileSystem)
      requires log.Valid() && log.history.txns == [] && files.Ready()
      requires log.area.start + log.area.size <= files.g.inodestart
      requires log.cache.Logical() == log.cache.disk && Shows(log.cache.disk, log.area, files.View())
      ensures this.log == log && this.files == files && Valid()
    {
      this.log, this.files := log, files;
      points := [files.View()];
    }

    /** Nobody holds the buffer of one of these blocks. */
    ghost predicate Unlocked(bs: set<nat>)
      reads log.cache
    {
      forall i: nat, b: nat {:trigger Bio.Keyed(log.cache.bufs, i, b)} ::
        b in bs && Bio.Keyed(log.cache.bufs, i, b) ==> !log.cache.bufs[i].locked
    }

    /** Every block the operation has changed goes through the cache into the log. */
    method Replay(ghost op: nat, ghost was: Fs) returns (out: Log.Outcome)
      requires log.Valid() && files.Ready() && log.area.start + log.area.size <= files.g.inodestart
      requires Shows(log.cache.Logical(), log.area, was) && Covered(files.g, was.disk, files.disk, {}, files.logged)
      requires op in log.unspent && |files.logged| <= log.unspent[op] && Unlocked(files.logged)
      modifies log`block, log`unspent, log.cache
      ensures log.Valid() && log.cache.disk == old(log.cache.disk) && log.unspent.Keys == old(log.unspent.Keys)
      ensures log.area.size > LOGSIZE ==> out != Log.TooBig
      ensures out == Log.Done ==> Shows(log.cache.Logical(), log.area, files.View())
      ensures out == Log.Done ==> forall i :: 0 <= i < Bio.NBUF && log.cache.bufs[i].locked ==>
        log.cache.bufs[i] == old(log.cache.bufs)[i]
    {
      ghost var t := files.View();
      var rest := files.logged;
      BetweenStarts(log.cache.Logical(), log.area, was, t, rest);
      out := Log.Done;
      while rest != {}
        invariant out == Log.Done && rest <= files.logged && log.Valid() && log.cache.disk == old(log.cache.disk)
        invariant log.unspent.Keys == old(log.unspent.Keys) && |rest| <= log.unspent[op]
        invariant Between(log.cache.Logical(), log.area, was, t, rest) && Unlocked(rest)
        invariant forall i ::
            0 <= i < Bio.NBUF && log.cache.bufs[i].locked ==> log.cache.bufs[i] == old(log.cache.bufs)[i]
        decreases |rest|
      {
        var b :| b in rest;
        out := ReplayOne(op, b, was, t, rest);
        if out != Log.Done {
          return;
        }
        rest := rest - {b};
      }
    }

    method ReplayOne(ghost op: nat, b: nat, ghost was: Fs, ghost t: Fs, ghost rest: set<nat>) returns (out: Log.Outcome)
      requires log.Valid() && b < |files.disk| && t == files.View() && b in rest
      requires IsHome(|log.cache.disk|, log.area, b) && op in log.unspent && |rest| <= log.unspent[op]
      requires Between(log.cache.Logical(), log.area, was, t, rest) && Unlocked(rest)
      modifies log`block, log`unspent, log.cache
      ensures log.Valid() && log.cache.disk == old(log.cache.disk) && log.unspent.Keys == old(log.unspent.Keys)
      ensures log.area.size > LOGSIZE ==> out != Log.TooBig
      ensures out == Log.Done ==>
        && |rest - {b}| <= log.unspent[op] && Unlocked(rest - {b})
        && Between(log.cache.Logical(), log.area, was, t, rest - {b})
        && forall i :: 0 <= i < Bio.NBUF && log.cache.bufs[i].locked ==> log.cache.bufs[i] == old(log.cache.bufs)[i]
    {
      assert |rest - {b}| == |rest| - 1;
      log.ReservationHonoured(op);
      BetweenMoves(log.cache.Logical(), log.area, was, t, rest, b);
      ghost var bufs := log.cache.bufs;
      out := log.Update(b, files.disk[b], op);
      if out == Log.Done {
        assert log.unspent.Keys == old(log.unspent.Keys);
        forall i: nat, c: nat | c in rest - {b} && Bio.Keyed(log.cache.bufs, i, c) ensures !log.cache.bufs[i].locked {
          assert log.cache.bufs[i].locked ==> Bio.Keyed(bufs, i, c);
        }
      }
    }

    /** One write of at most three blocks, as an operation that has just begun. */
    method Write(ghost op: nat, i: nat, off: nat, data: seq<Byte>) returns (r: int, out: Log.Outcome)
      requires Valid() && !files.g.holes && op in log.unspent && log.unspent[op] == MAXOPBLOCKS
      requires i < files.g.ninodes && off < WORD && |data| <= 3 * BSIZE && LogCache.Unheld(log.cache.bufs)
      modifies files, log`block, log`unspent, log.cache
      ensures log.area.size > LOGSIZE ==> out != Log.TooBig
      ensures out == Log.Done ==> Valid() && LogCache.Unheld(log.cache.bufs) && log.cache.disk == old(log.cache.disk)
      ensures log.unspent.Keys == old(log.unspent.Keys)
      ensures -1 <= r <= |data| && i < |files.ino|
      ensures r == -1 <==> off > old(files.ino[i].size) || off + |data| > MAXFILE * BSIZE
      ensures r == -1 ==> files.View() == old(files.View())
      ensures 0 <= r < |data| ==> FsCode.Full(files.View())
      ensures FsCode.OnlyBody(old(files.ino), files.ino, i)
      ensures r >= 0 ==>
        && off <= |old(Contents(files.View(), i))|
        && Contents(files.View(), i) == Spliced(old(Contents(files.View(), i)), off, data[..r])
        && FsCode.OthersKept(old(files.View()), files.View(), i)
    {
      ghost var was := files.View();
      files.logged := {};
      r := files.Writei(i, off, data);
      out := Replay(op, was);
    }

    /** Truncation as an operation that has just begun, on a disk with few enough bitmap blocks. */
    method Truncate(ghost op: nat, i: nat) returns (out: Log.Outcome)
      requires Valid() && op in log.unspent && log.unspent[op] == MAXOPBLOCKS
      requires i < files.g.ninodes && files.g.size / BPB + 2 <= MAXOPBLOCKS && LogCache.Unheld(log.cache.bufs)
      modifies files, log`block, log`unspent, log.cache
      ensures log.area.size > LOGSIZE ==> out != Log.TooBig
      ensures out == Log.Done ==> Valid() && LogCache.Unheld(log.cache.bufs) && log.cache.disk == old(log.cache.disk)
      ensures log.unspent.Keys == old(log.unspent.Keys)
      ensures i < |files.ino| && Contents(files.View(), i) == []
      ensures FsTrunc.FreedExactly(old(files.role), files.role, i)
      ensures files.ino == old(files.ino)[i := old(files.ino)[i].(size := 0, addrs := seq(NDIRECT + 1, _ => 0))]
      ensures FsCode.OthersKept(old(files.View()), files.View(), i)
    {
      ghost var was := files.View();
      files.logged := {};
      files.Itrunc(i);
      out := Replay(op, was);
    }

    /** end_op, and commit by the last operation. False is commit's panic. */
    method End(ghost op: nat, s: Readers.Schedule) returns (ok: bool)
      requires Valid() && op in log.unspent
      requires log.outstanding == 1 ==> LogCache.Clean(log.cache.bufs, log.cache.disk, LogCache.Rest(log.block, 0))
      requires LogCache.Aside(log.cache.bufs, log.area, LogCache.Rest(log.block, 0))
      requires LogCache.ScheduleFor(s, |log.cache.disk|, log.area, log.block)
      modifies this`points, log, log.cache
      ensures ok ==> Valid() && files.View() == old(files.View()) && log.outstanding == old(log.outstanding) - 1
      ensures ok ==> !log.committing && (old(log.outstanding) == 1 ==> log.block == [])
      ensures ok ==>
        if old(log.outstanding) > 1 || old(log.block) == [] then points == old(points)
        else points == old(points) + [files.View()]
      ensures !ok ==> points == old(points) && exists t :: Broken(t)
    {
      var doCommit, panicked := log.EndOp(op);
      ok := true;
      if doCommit {
        ok := CommitFiles(s);
        if ok {
          log.EndCommit();
        }
      }
    }

    method CommitFiles(s: Readers.Schedule) returns (ok: bool)
      requires Valid() && log.committing && LogCache.Aside(log.cache.bufs, log.area, LogCache.Rest(log.block, 0))
      requires LogCache.ScheduleFor(s, |log.cache.disk|, log.area, log.block)
      modifies this`points, log`block, log`history, log.cache
      ensures ok ==> Valid() && log.committing && log.block == []
      ensures ok ==> points == if old(log.block) == [] then old(points) else old(points) + [files.View()]
      ensures !ok ==> points == old(points) && exists t :: Broken(t)
    {
      ghost var t;
      ok, t := CommitLog(s);
      if ok {
        Anchor(old(log.history), old(log.block) != []);
      } else {
        assert Broken(t);
      }
    }

    method CommitLog(s: Readers.Schedule) returns (ok: bool, ghost t: Txn)
      requires Valid() && log.committing && LogCache.Aside(log.cache.bufs, log.area, LogCache.Rest(log.block, 0))
      requires LogCache.ScheduleFor(s, |log.cache.disk|, log.area, log.block)
      modifies log`block, log`history, log.cache
      ensures ok ==> log.Valid() && Shows(log.cache.disk, log.area, files.View()) && log.block == []
      ensures ok ==> log.cache.Logical() == log.cache.disk
      ensures ok ==> Joins(old(log.history), old(log.block) != [])
      ensures !ok ==> log.history == old(log.history) && Broken(t)
    {
      t := Txn(log.block, LogCache.Values(log.cache.Logical(), log.block));
      ghost var store := log.cache.Logical();
      ok := log.Commit(s);
      if ok {
        ShowsSame(store, log.cache.disk, log.area, files.View());
      } else {
        TornIsBroken(t, store);
      }
    }

    /** The log's history is `was`, or with `more` has the present disk as one more point. */
    ghost predicate Joins(was: History, more: bool)
      reads log, log.cache
    {
      if more then log.history.points == was.points + [log.cache.disk] else log.history == was
    }

    /** The file system a commit has left joins the points. */
    ghost method Anchor(was: History, more: bool)
      requires |points| == |was.points|
      requires forall k: nat {:trigger points[k]} :: k < |points| ==>
        Sound(points[k]) && Shows(was.points[k], log.area, points[k])
      requires log.Valid() && files.Ready() && Shows(log.cache.disk, log.area, files.View())
      requires Joins(was, more)
      modifies this`points
      ensures Anchored() && points == if more then old(points) + [files.View()] else old(points)
    {
      if more {
        points := points + [files.View()];
      }
    }

    lemma TornIsBroken(t: Txn, store: Bio.Disk)
      requires log.Torn(t) && Anchored() && files.Ready() && Shows(store, log.area, files.View())
      requires LogCache.SameHome(store, After(log.history.points[|log.history.txns|], log.area, t), log.area)
      ensures Broken(t)
    {
      ShowsSame(store, After(log.history.points[|log.history.txns|], log.area, t), log.area, files.View());
    }

    /** A commit of t has ended in the "no buffers" panic. */
    ghost predicate Broken(t: Txn)
      reads this, log, log.cache, files
    {
      && log.Torn(t) && Anchored() && Sound(files.View())
      && Shows(After(log.history.points[|log.history.txns|], log.area, t), log.area, files.View())
    }

    /** Whatever image of the disk a crash exposes, from the one recovery ended with on, and however often recovery
        crashes too, recovery leaves a sound file system: one that a commit left, and none older than the last commit
        that had finished by then. */
    lemma AfterAnyCrash(i: nat, cs: seq<nat>, j: nat) returns (p: nat)
      requires Valid() && |log.history.before| <= i + 1 && i < |log.cache.images|
      requires j <= |log.history.txns| && |Joined(log.history.before, log.history.trails, j)| <= i + 1
      ensures HeaderOk(log.cache.images[i], log.area) && j <= p < |points| && Sound(points[p])
      ensures Shows(Recover(AfterCrashes(log.cache.images[i], log.area, cs), log.area), log.area, points[p])
    {
      var h := log.history;
      p := CrashKeepsAPrefix(h, log.area, i, cs, j);
      var d := Recover(AfterCrashes(log.cache.images[i], log.area, cs), log.area);
      assert |Home(d, log.area)| == |Home(h.points[p], log.area)|;
      ShowsHome(h.points[p], d, log.area, points[p]);
    }

    /** Once a commit has ended, a crash before the next write leaves what it committed. */
    lemma CommittedSurvives(cs: seq<nat>)
      requires Valid()
      ensures log.cache.images != []
      ensures var last := log.cache.images[|log.cache.images| - 1];
        && HeaderOk(last, log.area)
        && Shows(Recover(AfterCrashes(last, log.area, cs), log.area), log.area, points[|points| - 1])
    {
      JoinedGrows(log.history.before, log.history.trails, 0, |log.history.trails|);
      var p := AfterAnyCrash(|log.cache.images| - 1, cs, |log.history.txns|);
    }

    /** The same when the last commit ended in a panic: what recovery leaves is a sound file system, that commit's own
        or one that an earlier commit left, and none older than the last commit that had finished by then. */
    lemma AfterPanic(t: Txn, i: nat, cs: seq<nat>, j: nat) returns (p: nat)
      requires Broken(t) && |log.history.before| <= i + 1 && i < |log.cache.images|
      requires j <= |log.history.txns| && |Joined(log.history.before, log.history.trails, j)| <= i + 1
      ensures HeaderOk(log.cache.images[i], log.area) && j <= p <= |points|
      ensures var s := if p < |points| then points[p] else files.View();
        Sound(s) && Shows(Recover(AfterCrashes(log.cache.images[i], log.area, cs), log.area), log.area, s)
    {
      var h := Extended(log.history, log.area, t);
      ExtendedOk(log.history, log.area, t);
      JoinedAppend(log.history.before, log.history.trails, h.trails[|log.history.txns|], j);
      assert log.cache.images[i] == Images(h)[i];
      p := CrashKeepsAPrefix(h, log.area, i, cs, j);
      var d := Recover(AfterCrashes(log.cache.images[i], log.area, cs), log.area);
      assert |Home(d, log.area)| == |Home(h.points[p], log.area)|;
      ShowsHome(h.points[p], d, log.area, if p < |points| then points[p] else files.View());
    }
  }
}

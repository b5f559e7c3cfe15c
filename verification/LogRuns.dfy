/** Runs of the log that end in one of its panics, each step of them allowed by the steps before. */
module LogRuns {
  import opened Basics
  import opened Bio
  import opened Log
  import opened LogCache
  import opened LogDisk
  import opened Readers

  /** The `n` blocks from `first` on. */
  function Row(first: nat, n: nat): (r: seq<nat>)
    ensures |r| == n && forall i :: 0 <= i < n ==> r[i] == first + i
  {
    if n == 0 then [] else Row(first, n - 1) + [first + n - 1]
  }

  /** What operation `op` has left of its reservation when each in turn has used up its own and n blocks are logged. */
  function Left(op: nat, n: nat): nat {
    if n <= op * MAXOPBLOCKS then MAXOPBLOCKS
    else if n >= (op + 1) * MAXOPBLOCKS then 0
    else (op + 1) * MAXOPBLOCKS - n
  }

  /** The reservations of the three operations 0, 1 and 2. */
  predicate Budgets(unspent: map<nat, nat>, n: nat) {
    unspent.Keys == {0, 1, 2} && forall op :: op in unspent ==> unspent[op] == Left(op, n)
  }

  lemma BudgetsStep(unspent: map<nat, nat>, k: nat)
    requires Budgets(unspent, k) && k < LOGSIZE
    ensures k / MAXOPBLOCKS in unspent && unspent[k / MAXOPBLOCKS] > 0
    ensures Budgets(unspent[k / MAXOPBLOCKS := unspent[k / MAXOPBLOCKS] - 1], k + 1)
  {
    assert k / MAXOPBLOCKS == 0 || k / MAXOPBLOCKS == 1 || k / MAXOPBLOCKS == 2;
    assert unspent[k / MAXOPBLOCKS := 0].Keys == {0, 1, 2};
  }

  /** Nothing has been logged, nobody holds a buffer, and LOGSIZE home blocks follow `first`. */
  ghost predicate Fresh(log: Log, first: nat)
    reads log, log.cache
  {
    && log.Valid() && log.block == [] && log.outstanding == 0 && !log.committing && Unheld(log.cache.bufs)
    && log.area.start + log.area.size <= first && first + LOGSIZE <= |log.cache.disk|
  }

  /** Three operations have logged the n blocks from `first` on. */
  ghost predicate FilledTo(log: Log, first: nat, n: nat)
    reads log, log.cache
  {
    log.Valid() && log.block == Row(first, n) && Unheld(log.cache.bufs) && Budgets(log.unspent, n)
  }

  /** With nobody holding a buffer the cache is quiet. */
  lemma UnheldIsQuiet(bufs: seq<Buf>, disk: Disk, area: Area, pinned: set<nat>, clean: bool)
    requires Usable(bufs, disk) && Kept(bufs, disk, pinned, clean) && Unheld(bufs)
    ensures Quiet(bufs, disk, area, pinned) && Clean(bufs, disk, pinned) && Held(bufs) == Crowd({}, 0)
  {
    HeldNone(bufs, disk);
    KeptIs(bufs, disk, pinned, clean);
    QuietIs(bufs, disk, area, pinned);
  }

  /** Three operations are admitted. */
  method AdmitThree(log: Log)
    requires log.Valid() && log.block == [] && log.outstanding == 0 && !log.committing
    modifies log`unspent, log`outstanding
    ensures log.Valid() && Budgets(log.unspent, 0)
  {
    assert log.unspent == map[];
    var admitted := log.BeginOp(0);
    admitted := log.BeginOp(1);
    admitted := log.BeginOp(2);
  }

  /** Three operations are admitted and together log `n` blocks, each within its reservation. */
  method Fill(log: Log, first: nat, n: nat)
    requires Fresh(log, first) && n < log.area.size && n <= LOGSIZE
    modifies log`block, log`unspent, log`outstanding, log.cache
    ensures FilledTo(log, first, n) && log.cache.disk == old(log.cache.disk)
  {
    AdmitThree(log);
    var k := 0;
    while k < n
      invariant k <= n && FilledTo(log, first, k) && log.cache.disk == old(log.cache.disk)
    {
      HomeBehind(|log.cache.disk|, log.area, first + k);
      LogNext(log, first, k);
      k := k + 1;
    }
  }

  lemma HomeBehind(size: nat, area: Area, b: nat)
    requires area.start + area.size <= b < size
    ensures IsHome(size, area, b)
  {
  }

  method LogNext(log: Log, first: nat, k: nat)
    requires FilledTo(log, first, k)
    requires k < LOGSIZE && k + 1 < log.area.size && IsHome(|log.cache.disk|, log.area, first + k)
    modifies log`block, log`unspent, log.cache
    ensures FilledTo(log, first, k + 1) && log.cache.disk == old(log.cache.disk)
  {
    RoomLeft(log);
    BudgetsStep(log.unspent, k);
    var r := log.Update(first + k, [k], k / MAXOPBLOCKS);
  }

  lemma RoomLeft(log: Log)
    requires log.Valid() && Unheld(log.cache.bufs) && |log.block| < NBUF
    ensures Spare(log.cache.bufs)
  {
    UnheldIsQuiet(log.cache.bufs, log.cache.disk, log.area, Rest(log.block, 0), log.outstanding == 0);
    SpareIffRoom(log.cache.bufs, log.cache.disk, log.area, log.block);
  }

  /** On every log of at most LOGSIZE blocks, an operation that has part of its reservation left can be refused. */
  method ReservationBroken(log: Log, first: nat) returns (r: Outcome, ghost op: nat)
    requires Fresh(log, first) && log.area.size <= LOGSIZE
    modifies log`block, log`unspent, log`outstanding, log.cache
    ensures r == TooBig && op in log.unspent && log.unspent[op] > 0
  {
    var n := log.area.size - 1;
    Fill(log, first, n);
    op := n / MAXOPBLOCKS;
    RoomLeft(log);
    BudgetsStep(log.unspent, n);
    r := log.Update(first + n, [n], op);
  }

  /** And on every log of more blocks, an operation that has added exactly its reservation is refused when it changes
      again a block it has logged: the size check comes before the search for the block. */
  method RewriteRefused(log: Log, first: nat) returns (r: Outcome)
    requires Fresh(log, first) && log.area.size > LOGSIZE
    modifies log`block, log`unspent, log`outstanding, log.cache
    ensures r == TooBig && first in log.block && 0 in log.unspent && log.unspent[0] == 0
  {
    Fill(log, first, LOGSIZE);
    CachedWhenLogged(log, first);
    r := log.Update(first, [LOGSIZE], 0);
  }

  lemma CachedWhenLogged(log: Log, b: nat)
    requires log.Valid() && b in log.block
    ensures Cached(log.cache.bufs, b)
  {
    KeptIs(log.cache.bufs, log.cache.disk, Rest(log.block, 0), log.outstanding == 0);
    RestIs(log.block, 0);
  }

  /** On the disk mkfs makes, one reader is enough to leave a commit of LOGSIZE - 1 blocks without a buffer. */
  method ReaderStarvesCommit(log: Log, first: nat) returns (ok: bool)
    requires Fresh(log, first) && log.area.size == LOGSIZE
    modifies log, log.cache
    ensures !ok
  {
    Fill(log, first, LOGSIZE - 1);
    EndAll(log);
    var r := StartReading(log, first + LOGSIZE - 1);
    CommittedStill(Held(log.cache.bufs), LOGSIZE - 1);
    ok := log.Commit(Still(LOGSIZE - 1));
  }

  /** So are readers that come while it runs: with n blocks logged and nobody reading, NBUF - n readers between two
      rounds of write_log. */
  method LateReadersStarveCommit(log: Log, first: nat, n: nat, r: nat) returns (ok: bool)
    requires Fresh(log, first) && n < log.area.size && r < n <= LOGSIZE
    requires first + LOGSIZE + (NBUF - n) <= |log.cache.disk|
    modifies log, log.cache
    ensures !ok
  {
    Fill(log, first, n);
    EndAll(log);
    var s := Arrivals(first, n, r);
    ArrivalsElsewhere(first, n, r, |log.cache.disk|, log.area);
    ArrivalsStarve(first, n, r);
    ok := log.Commit(s);
  }

  /** The blocks behind the logged ones are read, one after the other. */
  function Comers(first: nat, m: nat): (vs: seq<Visit>)
    ensures |vs| == m && forall k :: 0 <= k < m ==> vs[k] == Come(first + LOGSIZE + k)
  {
    seq(m, k requires k >= 0 => Come(first + LOGSIZE + k))
  }

  /** Before round r of write_log as many readers come as there are buffers left. */
  function Arrivals(first: nat, n: nat, r: nat): Schedule
    requires r < n <= NBUF
  {
    Still(n).(log := Still(n).log[r := Comers(first, NBUF - n)])
  }

  lemma ArrivalsElsewhere(first: nat, n: nat, r: nat, size: nat, area: Area)
    requires r < n <= LOGSIZE && area.start + area.size <= first && first + LOGSIZE + (NBUF - n) <= size
    ensures ScheduleFor(Arrivals(first, n, r), size, area, Row(first, n))
  {
    RestIs(Row(first, n), 0);
  }

  lemma {:induction false} ComersCount(first: nat, n: nat, k: nat)
    requires n <= NBUF && k <= NBUF - n
    ensures var c := VisitedAll(Crowd({}, 0), n, Comers(first, NBUF - n), k);
            c.Some? && c.value.size == k && forall b :: b in c.value.blocks ==> b < first + LOGSIZE + k
  {
    if k == 0 {
    } else {
      ComersCount(first, n, k - 1);
    }
  }

  lemma {:induction false} StillBefore(first: nat, n: nat, r: nat, k: nat)
    requires k <= r < n < NBUF
    ensures Rounds(Crowd({}, 0), n, false, Arrivals(first, n, r).log, k) == Some(Crowd({}, 0))
  {
    if k == 0 {
    } else {
      StillBefore(first, n, r, k - 1);
    }
  }

  lemma ArrivalsStarve(first: nat, n: nat, r: nat)
    requires r < n <= NBUF
    ensures Committed(Crowd({}, 0), n, Arrivals(first, n, r)) == None
  {
    var s := Arrivals(first, n, r);
    if n == NBUF {
      RoundsStep(Crowd({}, 0), n, false, s.log, 0, Crowd({}, 0));
      ComersCount(first, n, 0);
      RoundsFail(Crowd({}, 0), n, false, s.log, 1, n);
    } else {
      StillBefore(first, n, r, r);
      RoundsStep(Crowd({}, 0), n, false, s.log, r, Crowd({}, 0));
      ComersCount(first, n, NBUF - n);
      RoundsFail(Crowd({}, 0), n, false, s.log, r + 1, n);
    }
  }

  /** The three operations end, and the last one is to commit. */
  method EndAll(log: Log)
    requires log.Valid() && log.unspent.Keys == {0, 1, 2} && Unheld(log.cache.bufs)
    modifies log`outstanding, log`unspent, log`committing
    ensures log.Valid() && log.committing && Held(log.cache.bufs) == Crowd({}, 0)
    ensures Aside(log.cache.bufs, log.area, Rest(log.block, 0))
  {
    UnheldIsQuiet(log.cache.bufs, log.cache.disk, log.area, Rest(log.block, 0), log.outstanding == 0);
    var last, panicked := log.EndOp(0);
    last, panicked := log.EndOp(1);
    last, panicked := log.EndOp(2);
  }

  /** A reader holds the buffer of a home block that is not logged. */
  method StartReading(log: Log, b: nat) returns (i: nat)
    requires log.Valid() && IsHome(|log.cache.disk|, log.area, b) && b !in log.block
    requires Unheld(log.cache.bufs) && |log.block| < NBUF
    modifies log.cache
    ensures log.Valid() && Held(log.cache.bufs) == Crowd({b}, 1) && Aside(log.cache.bufs, log.area, Rest(log.block, 0))
  {
    RoomLeft(log);
    var r := log.Read(b);
    i := r.value;
    assert b !in Rest(log.block, 0) by { RestIs(log.block, 0); }
    assert log.cache.bufs[i].locked && log.cache.bufs[i].blockno == b;
    HeldFrom(log.cache.bufs, log.cache.disk, Crowd({b}, 1));
  }
}

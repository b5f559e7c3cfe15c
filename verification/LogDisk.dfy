/** What kernel/log.c leaves on disk, write by write, and what recovery makes of it.
    Everything here is about disk images: the methods that produce them are in Log.dfy. */
module LogDisk {
  import opened Basics
  import opened Bio

  const MAXOPBLOCKS: nat := 10
  const LOGSIZE: nat := 30

  /** The part of the disk the superblock gives to the log: the header block and then the log blocks. */
  datatype Area = Area(start: nat, size: nat)

  predicate InLog(area: Area, b: int) {
    area.start <= b < area.start + area.size
  }

  predicate IsHome(size: nat, area: Area, b: int) {
    0 <= b < size && !InLog(area, b)
  }

  /** Blocks a transaction may name: home blocks, each at most once, as many as the log has room for. */
  predicate HomeBlocks(size: nat, area: Area, ts: seq<nat>) {
    && |ts| <= LOGSIZE && |ts| < area.size
    && DistinctAt(ts)
    && (forall i :: 0 <= i < |ts| ==> IsHome(size, area, ts[i]))
  }

  predicate LayoutOk(d: Disk, area: Area) {
    1 <= area.size && area.start + area.size <= |d| && |d[area.start]| > LOGSIZE
  }

  function HeadN(d: Disk, area: Area): int
    requires LayoutOk(d, area)
  {
    d[area.start][0]
  }

  /** The first `n` block numbers of a header block make sense. */
  predicate NamesOk(h: Block, n: nat) {
    n < |h| && (n == 0 || (NamesOk(h, n - 1) && h[n] >= 0))
  }

  lemma {:induction false} NamesPrefix(h: Block, i: nat, n: nat)
    requires NamesOk(h, n) && i <= n
    ensures NamesOk(h, i)
  {
    if i == n {
    } else {
      NamesPrefix(h, i, n - 1);
    }
  }

  function Names(h: Block, n: nat): (ts: seq<nat>)
    requires NamesOk(h, n)
    ensures |ts| == n
  {
    if n == 0 then [] else Names(h, n - 1) + [h[n]]
  }

  /** The on-disk header names a transaction. */
  predicate HeaderOk(d: Disk, area: Area) {
    && LayoutOk(d, area)
    && 0 <= HeadN(d, area) && NamesOk(d[area.start], HeadN(d, area))
    && HomeBlocks(|d|, area, Names(d[area.start], HeadN(d, area)))
  }

  function Targets(d: Disk, area: Area): seq<nat>
    requires HeaderOk(d, area)
  {
    Names(d[area.start], HeadN(d, area))
  }

  /** The header block once write_head has stored the count and the first `k` names; the rest is as it was. */
  function HeadTo(h: Block, ts: seq<nat>, k: nat): (r: Block)
    requires |ts| < |h| && k <= |ts|
    ensures |r| == |h| && r[0] == |ts|
  {
    if k == 0 then h[0 := |ts|] else HeadTo(h, ts, k - 1)[k := ts[k - 1]]
  }

  function HeadBlock(h: Block, ts: seq<nat>): (r: Block)
    requires |ts| < |h|
    ensures |r| == |h| && r[0] == |ts|
  {
    HeadTo(h, ts, |ts|)
  }

  lemma {:induction false} HeadToAt(h: Block, ts: seq<nat>, k: nat, i: nat)
    requires |ts| < |h| && 1 <= i <= k <= |ts|
    ensures HeadTo(h, ts, k)[i] == ts[i - 1]
  {
    if i == k {
    } else {
      HeadToAt(h, ts, k - 1, i);
    }
  }

  /** Writing the header and reading it gives the names back. */
  lemma {:induction false} HeadRoundTrip(h: Block, ts: seq<nat>, n: nat)
    requires |ts| < |h| && n <= |ts|
    ensures NamesOk(HeadBlock(h, ts), n) && Names(HeadBlock(h, ts), n) == ts[..n]
  {
    if n == 0 {
    } else {
      HeadRoundTrip(h, ts, n - 1);
      HeadToAt(h, ts, |ts|, n);
      assert ts[..n] == ts[..n - 1] + [ts[n - 1]];
    }
  }

  /** The first `k` log blocks overwritten with `vals`. */
  function Logged(d: Disk, area: Area, vals: seq<Block>, k: nat): (r: Disk)
    requires LayoutOk(d, area) && k <= |vals| < area.size
    ensures |r| == |d| && r[area.start] == d[area.start]
  {
    if k == 0 then d else Logged(d, area, vals, k - 1)[area.start + k := vals[k - 1]]
  }

  lemma {:induction false} LoggedAt(d: Disk, area: Area, vals: seq<Block>, k: nat, b: nat)
    requires LayoutOk(d, area) && k <= |vals| < area.size && b < |d|
    ensures Logged(d, area, vals, k)[b] == if area.start < b <= area.start + k then vals[b - area.start - 1] else d[b]
  {
    if k == 0 {
    } else {
      LoggedAt(d, area, vals, k - 1, b);
    }
  }

  /** The first `k` log blocks copied to the blocks `ts` names for them. */
  function Installed(d: Disk, area: Area, ts: seq<nat>, k: nat): (r: Disk)
    requires LayoutOk(d, area) && HomeBlocks(|d|, area, ts) && k <= |ts|
    ensures |r| == |d| && r[area.start] == d[area.start]
  {
    if k == 0 then d else Installed(d, area, ts, k - 1)[ts[k - 1] := d[area.start + k]]
  }

  lemma {:induction false} InstalledTarget(d: Disk, area: Area, ts: seq<nat>, k: nat, i: nat)
    requires LayoutOk(d, area) && HomeBlocks(|d|, area, ts) && i < k <= |ts|
    ensures Installed(d, area, ts, k)[ts[i]] == d[area.start + 1 + i]
  {
    if i == k - 1 {
    } else {
      InstalledTarget(d, area, ts, k - 1, i);
      assert At(ts, i) != At(ts, k - 1);
    }
  }

  lemma {:induction false} InstalledOther(d: Disk, area: Area, ts: seq<nat>, k: nat, b: nat)
    requires LayoutOk(d, area) && HomeBlocks(|d|, area, ts) && k <= |ts|
    requires b < |d| && forall i :: 0 <= i < k ==> ts[i] != b
    ensures Installed(d, area, ts, k)[b] == d[b]
  {
    if k == 0 {
    } else {
      InstalledOther(d, area, ts, k - 1, b);
    }
  }

  function Cleared(d: Disk, area: Area): Disk
    requires LayoutOk(d, area)
  {
    d[area.start := HeadBlock(d[area.start], [])]
  }

  /** The disk recover_from_log ends with. */
  function Recover(d: Disk, area: Area): Disk
    requires HeaderOk(d, area)
  {
    Cleared(Installed(d, area, Targets(d, area), HeadN(d, area)), area)
  }

  /** The disk after the first `w` block writes of recover_from_log. */
  function RecoverImage(d: Disk, area: Area, w: nat): (r: Disk)
    requires HeaderOk(d, area) && w <= HeadN(d, area) + 1
  {
    if w <= HeadN(d, area) then Installed(d, area, Targets(d, area), w) else Recover(d, area)
  }

  function Headed(d: Disk, area: Area, ts: seq<nat>, vals: seq<Block>): Disk
    requires LayoutOk(d, area) && |ts| == |vals| <= LOGSIZE && |ts| < area.size
  {
    Logged(d, area, vals, |vals|)[area.start := HeadBlock(d[area.start], ts)]
  }

  lemma HeadedIsTransaction(d: Disk, area: Area, ts: seq<nat>, vals: seq<Block>)
    requires LayoutOk(d, area) && HomeBlocks(|d|, area, ts) && |ts| == |vals|
    ensures HeaderOk(Headed(d, area, ts, vals), area) && HeadN(Headed(d, area, ts, vals), area) == |ts|
    ensures Targets(Headed(d, area, ts, vals), area) == ts
  {
    HeadRoundTrip(d[area.start], ts, |ts|);
    assert ts[..|ts|] == ts;
  }

  /** The disk after the first `w` block writes of the commit that gives `ts` the contents `vals`:
      first the log blocks, then the header, and from there on what a recovery would write. */
  function CommitImage(d: Disk, area: Area, ts: seq<nat>, vals: seq<Block>, w: nat): Disk
    requires LayoutOk(d, area) && HomeBlocks(|d|, area, ts) && |ts| == |vals| && w <= 2 * |ts| + 2
  {
    if w <= |ts| then Logged(d, area, vals, w) else
      HeadedIsTransaction(d, area, ts, vals);
      RecoverImage(Headed(d, area, ts, vals), area, w - |ts| - 1)
  }

  /** The first `k` images of a recovery, and of write_log. */
  function RecoverTrail(d: Disk, area: Area, k: nat): (r: seq<Disk>)
    requires HeaderOk(d, area) && k <= HeadN(d, area) + 1
    ensures |r| == k
  {
    if k == 0 then [] else RecoverTrail(d, area, k - 1) + [RecoverImage(d, area, k)]
  }

  function LogTrail(d: Disk, area: Area, vals: seq<Block>, k: nat): (r: seq<Disk>)
    requires LayoutOk(d, area) && k <= |vals| < area.size
    ensures |r| == k
  {
    if k == 0 then [] else LogTrail(d, area, vals, k - 1) + [Logged(d, area, vals, k)]
  }

  lemma InstallStep(d: Disk, area: Area, ts: seq<nat>, k: nat)
    requires HeaderOk(d, area) && ts == Targets(d, area) && k < |ts|
    ensures Installed(d, area, ts, k)[area.start + k + 1] == d[area.start + k + 1]
    ensures Installed(d, area, ts, k + 1) == Installed(d, area, ts, k)[ts[k] := d[area.start + k + 1]]
    ensures RecoverTrail(d, area, k + 1) == RecoverTrail(d, area, k) + [Installed(d, area, ts, k + 1)]
  {
    InstalledOther(d, area, ts, k, area.start + k + 1);
  }

  lemma LogStep(d: Disk, area: Area, vals: seq<Block>, k: nat)
    requires LayoutOk(d, area) && k < |vals| < area.size
    ensures Logged(d, area, vals, k + 1) == Logged(d, area, vals, k)[area.start + k + 1 := vals[k]]
    ensures LogTrail(d, area, vals, k + 1) == LogTrail(d, area, vals, k) + [Logged(d, area, vals, k + 1)]
  {
  }

  /** Home contents only: what a file system above the log can see. */
  function Home(d: Disk, area: Area): Disk {
    seq(|d|, b requires 0 <= b < |d| => if InLog(area, b) then [] else d[b])
  }

  /** The home contents `d` with `ts` given the contents `vals`, all at once. */
  ghost function Updated(d: Disk, ts: seq<nat>, vals: seq<Block>): Disk
    requires |ts| == |vals|
  {
    seq(|d|, b requires 0 <= b < |d| => if i: nat :| i < |ts| && ts[i] == b then vals[i] else d[b])
  }

  // ---------------------------------------------------------------- crashes

  lemma RecoverOfIdle(d: Disk, area: Area)
    requires LayoutOk(d, area) && HeadN(d, area) == 0
    ensures HeaderOk(d, area) && Home(Recover(d, area), area) == Home(d, area)
  {
  }

  /** Stopping an install after `j` copies and starting again from the log loses nothing. */
  lemma InstallAgain(d: Disk, area: Area, ts: seq<nat>, j: nat, k: nat)
    requires LayoutOk(d, area) && HomeBlocks(|d|, area, ts) && j <= k <= |ts|
    ensures Installed(Installed(d, area, ts, j), area, ts, k) == Installed(d, area, ts, k)
  {
    var d' := Installed(d, area, ts, j);
    forall b: nat | b < |d| ensures Installed(d', area, ts, k)[b] == Installed(d, area, ts, k)[b] {
      if i: nat :| i < k && ts[i] == b {
        InstalledTarget(d', area, ts, k, i);
        InstalledTarget(d, area, ts, k, i);
        InstalledOther(d, area, ts, j, area.start + 1 + i);
      } else {
        InstalledOther(d', area, ts, k, b);
        InstalledOther(d, area, ts, k, b);
        InstalledOther(d, area, ts, j, b);
      }
    }
  }

  /** Every image of a recovery, whether it was cut short or not, recovers to the same home contents. */
  lemma RecoveryImagesAgree(d: Disk, area: Area, w: nat)
    requires HeaderOk(d, area) && w <= HeadN(d, area) + 1
    ensures HeaderOk(RecoverImage(d, area, w), area)
    ensures Home(Recover(RecoverImage(d, area, w), area), area) == Home(Recover(d, area), area)
  {
    var n, ts := HeadN(d, area), Targets(d, area);
    if w <= n {
      InstallAgain(d, area, ts, w, n);
    } else {
      RecoverOfIdle(Recover(d, area), area);
    }
  }

  /** The disk after recoveries that crash after cs[0], cs[1], … block writes. */
  function AfterCrashes(d: Disk, area: Area, cs: seq<nat>): (r: Disk)
    requires HeaderOk(d, area)
    ensures HeaderOk(r, area)
    decreases |cs|
  {
    if cs == [] then d
    else
      var w := if cs[0] <= HeadN(d, area) then cs[0] else HeadN(d, area) + 1;
      RecoveryImagesAgree(d, area, w);
      AfterCrashes(RecoverImage(d, area, w), area, cs[1..])
  }

  lemma {:induction false} CrashesInRecoveryAreHarmless(d: Disk, area: Area, cs: seq<nat>)
    requires HeaderOk(d, area)
    ensures Home(Recover(AfterCrashes(d, area, cs), area), area) == Home(Recover(d, area), area)
    decreases |cs|
  {
    if cs == [] {
    } else {
      var w := if cs[0] <= HeadN(d, area) then cs[0] else HeadN(d, area) + 1;
      RecoveryImagesAgree(d, area, w);
      CrashesInRecoveryAreHarmless(RecoverImage(d, area, w), area, cs[1..]);
    }
  }

  lemma InstallOfHeaded(d: Disk, area: Area, ts: seq<nat>, vals: seq<Block>, b: nat)
    requires LayoutOk(d, area) && HomeBlocks(|d|, area, ts) && |ts| == |vals|
    requires IsHome(|d|, area, b)
    ensures LayoutOk(Headed(d, area, ts, vals), area)
    ensures Installed(Headed(d, area, ts, vals), area, ts, |ts|)[b] == Updated(d, ts, vals)[b]
  {
    var h := Headed(d, area, ts, vals);
    if i: nat :| i < |ts| && ts[i] == b {
      InstalledTarget(h, area, ts, |ts|, i);
      LoggedAt(d, area, vals, |vals|, area.start + 1 + i);
      DistinctForms(ts);
      assert Updated(d, ts, vals)[b] == vals[i];
    } else {
      InstalledOther(h, area, ts, |ts|, b);
      LoggedAt(d, area, vals, |vals|, b);
    }
  }

  lemma HeadedRecoversToUpdated(d: Disk, area: Area, ts: seq<nat>, vals: seq<Block>)
    requires LayoutOk(d, area) && HomeBlocks(|d|, area, ts) && |ts| == |vals|
    ensures HeaderOk(Headed(d, area, ts, vals), area)
    ensures Home(Recover(Headed(d, area, ts, vals), area), area) == Home(Updated(d, ts, vals), area)
  {
    HeadedIsTransaction(d, area, ts, vals);
    forall b: nat | IsHome(|d|, area, b)
      ensures Installed(Headed(d, area, ts, vals), area, ts, |ts|)[b] == Updated(d, ts, vals)[b]
    {
      InstallOfHeaded(d, area, ts, vals, b);
    }
  }

  lemma CrashBeforeHeader(d: Disk, area: Area, ts: seq<nat>, vals: seq<Block>, w: nat)
    requires LayoutOk(d, area) && HeadN(d, area) == 0 && HomeBlocks(|d|, area, ts) && |ts| == |vals| && w <= |ts|
    ensures var crashed := Logged(d, area, vals, w);
            HeaderOk(crashed, area) && Home(Recover(crashed, area), area) == Home(d, area)
  {
    var crashed := Logged(d, area, vals, w);
    RecoverOfIdle(crashed, area);
    forall b: nat | IsHome(|d|, area, b) ensures crashed[b] == d[b] {
      LoggedAt(d, area, vals, w, b);
    }
    assert Home(crashed, area) == Home(d, area);
  }

  lemma CrashAfterHeader(d: Disk, area: Area, ts: seq<nat>, vals: seq<Block>, w: nat)
    requires LayoutOk(d, area) && HomeBlocks(|d|, area, ts) && |ts| == |vals| && w <= |ts| + 1
    ensures var h := Headed(d, area, ts, vals);
            && HeaderOk(h, area) && HeadN(h, area) == |ts| && HeaderOk(RecoverImage(h, area, w), area)
            && Home(Recover(RecoverImage(h, area, w), area), area) == Home(Updated(d, ts, vals), area)
  {
    HeadedRecoversToUpdated(d, area, ts, vals);
    HeadedIsTransaction(d, area, ts, vals);
    RecoveryImagesAgree(Headed(d, area, ts, vals), area, w);
  }

  /** Crash atomicity. A crash after any number `w` of commit's block writes, followed by any
      number of crashed recoveries and one complete one, leaves the home blocks all as before
      the transaction when the header has not been written, and all as after it otherwise;
      and the log is idle again. */
  lemma CrashAtomicity(d: Disk, area: Area, ts: seq<nat>, vals: seq<Block>, w: nat, cs: seq<nat>)
    requires LayoutOk(d, area) && HeadN(d, area) == 0
    requires HomeBlocks(|d|, area, ts) && |ts| == |vals| && w <= 2 * |ts| + 2
    ensures var crashed := CommitImage(d, area, ts, vals, w);
            && HeaderOk(crashed, area)
            && var final := Recover(AfterCrashes(crashed, area, cs), area);
            && LayoutOk(final, area) && HeadN(final, area) == 0
            && Home(final, area) == Home(if w <= |ts| then d else Updated(d, ts, vals), area)
  {
    var crashed := CommitImage(d, area, ts, vals, w);
    CrashedRecovers(d, area, ts, vals, w);
    CrashesInRecoveryAreHarmless(crashed, area, cs);
    RecoveredIsIdle(AfterCrashes(crashed, area, cs), area);
  }

  lemma CrashedRecovers(d: Disk, area: Area, ts: seq<nat>, vals: seq<Block>, w: nat)
    requires LayoutOk(d, area) && HeadN(d, area) == 0
    requires HomeBlocks(|d|, area, ts) && |ts| == |vals| && w <= 2 * |ts| + 2
    ensures var crashed := CommitImage(d, area, ts, vals, w);
            && HeaderOk(crashed, area)
            && Home(Recover(crashed, area), area) == Home(if w <= |ts| then d else Updated(d, ts, vals), area)
  {
    if w <= |ts| {
      CrashBeforeHeader(d, area, ts, vals, w);
    } else {
      CrashAfterHeader(d, area, ts, vals, w - |ts| - 1);
    }
  }

  lemma RecoveredIsIdle(d: Disk, area: Area)
    requires HeaderOk(d, area)
    ensures LayoutOk(Recover(d, area), area) && HeadN(Recover(d, area), area) == 0
  {
  }

  /** The log blocks are only ever overwritten while the on-disk header says the log is empty. */
  lemma LogWritesOnlyWhileIdle(d: Disk, area: Area, ts: seq<nat>, vals: seq<Block>, w: nat, b: nat)
    requires LayoutOk(d, area) && HeadN(d, area) == 0
    requires HomeBlocks(|d|, area, ts) && |ts| == |vals|
    requires w < 2 * |ts| + 2 && InLog(area, b) && b != area.start
    ensures var now := CommitImage(d, area, ts, vals, w);
            now[b] != CommitImage(d, area, ts, vals, w + 1)[b] ==> LayoutOk(now, area) && HeadN(now, area) == 0
  {
    if w > |ts| {
      HeadedIsTransaction(d, area, ts, vals);
      var h := Headed(d, area, ts, vals);
      InstalledOther(h, area, ts, if w - |ts| - 1 < |ts| then w - |ts| - 1 else |ts|, b);
      InstalledOther(h, area, ts, if w - |ts| < |ts| then w - |ts| else |ts|, b);
    }
  }

  // ---------------------------------------------------------------- whole runs

  /** A committed transaction: the blocks it names and the contents it gives them. */
  datatype Txn = Txn(ts: seq<nat>, vals: seq<Block>)

  predicate TxnOk(size: nat, area: Area, t: Txn) {
    HomeBlocks(size, area, t.ts) && |t.ts| == |t.vals|
  }

  /** The block writes of a whole commit. */
  function Writes(t: Txn): nat {
    2 * |t.ts| + 2
  }

  /** The first `w` images of the commit of `t`. */
  function CommitTrail(d: Disk, area: Area, t: Txn, w: nat): (r: seq<Disk>)
    requires LayoutOk(d, area) && TxnOk(|d|, area, t) && w <= Writes(t)
    ensures |r| == w
  {
    if w == 0 then [] else CommitTrail(d, area, t, w - 1) + [CommitImage(d, area, t.ts, t.vals, w)]
  }

  lemma {:induction false} CommitTrailAt(d: Disk, area: Area, t: Txn, n: nat, w: nat)
    requires LayoutOk(d, area) && TxnOk(|d|, area, t) && w < n <= Writes(t)
    ensures CommitTrail(d, area, t, n)[w] == CommitImage(d, area, t.ts, t.vals, w + 1)
  {
    if w == n - 1 {
    } else {
      CommitTrailAt(d, area, t, n - 1, w);
    }
  }

  lemma {:induction false} TrailLogs(d: Disk, area: Area, t: Txn, w: nat)
    requires LayoutOk(d, area) && TxnOk(|d|, area, t) && w <= |t.ts|
    ensures CommitTrail(d, area, t, w) == LogTrail(d, area, t.vals, w)
  {
    if w == 0 {
    } else {
      TrailLogs(d, area, t, w - 1);
    }
  }

  /** h is what the disk d is with the log blocks and the header of t written. */
  predicate IsHeaded(d: Disk, area: Area, t: Txn, h: Disk) {
    && LayoutOk(d, area) && TxnOk(|d|, area, t) && h == Headed(d, area, t.ts, t.vals)
    && HeaderOk(h, area) && HeadN(h, area) == |t.ts| && Targets(h, area) == t.ts
  }

  lemma {:induction false} TrailInstalls(d: Disk, area: Area, t: Txn, h: Disk, k: nat)
    requires IsHeaded(d, area, t, h) && k <= |t.ts| + 1
    ensures CommitTrail(d, area, t, |t.ts| + 1 + k)
         == LogTrail(d, area, t.vals, |t.ts|) + [h] + RecoverTrail(h, area, k)
  {
    if k == 0 {
      TrailLogs(d, area, t, |t.ts|);
    } else {
      TrailInstalls(d, area, t, h, k - 1);
      assert CommitImage(d, area, t.ts, t.vals, |t.ts| + 1 + k) == RecoverImage(h, area, k);
    }
  }

  lemma RecoverTrailEnds(d: Disk, area: Area)
    requires HeaderOk(d, area)
    ensures RecoverTrail(d, area, HeadN(d, area) + 1) == RecoverTrail(d, area, HeadN(d, area)) + [Recover(d, area)]
  {
  }

  lemma JoinFour<T>(a: seq<T>, b: seq<T>, c: seq<T>, d: seq<T>)
    ensures a + b + c + d == a + (b + c + d)
  {
  }

  /** The images write_log, write_head, install_trans and the second write_head add to a history, in this order, are
      those of a commit. */
  lemma CommitMakesTrail(images: seq<Disk>, d: Disk, area: Area, t: Txn, h: Disk)
    requires IsHeaded(d, area, t, h)
    ensures images + LogTrail(d, area, t.vals, |t.ts|) + [h] + (RecoverTrail(h, area, |t.ts|) + [Recover(h, area)])
         == images + CommitTrail(d, area, t, Writes(t))
  {
    TrailInstalls(d, area, t, h, |t.ts| + 1);
    RecoverTrailEnds(h, area);
    JoinFour(images, LogTrail(d, area, t.vals, |t.ts|), [h], RecoverTrail(h, area, |t.ts| + 1));
  }

  /** The prefix of a sequence joined to the same beginning. */
  lemma PrefixOnto<T>(a: seq<T>, b: seq<T>, c: seq<T>)
    requires b <= c
    ensures a + b <= a + c
  {
    assert c == b + c[|b|..];
    assert a + c == a + b + c[|b|..];
  }

  /** The images are `before` and a beginning of `trail`. */
  predicate Within(images: seq<Disk>, before: seq<Disk>, trail: seq<Disk>) {
    before <= images <= before + trail
  }

  lemma WithinLonger(images: seq<Disk>, before: seq<Disk>, trail: seq<Disk>, more: seq<Disk>)
    requires Within(images, before, trail)
    ensures Within(images, before, trail + more)
  {
    assert before + (trail + more) == before + trail + more;
  }

  /** A commit that stops before its header is written shows a beginning of its trail. */
  lemma PartOfLog(before: seq<Disk>, images: seq<Disk>, d: Disk, area: Area, t: Txn, h: Disk)
    requires IsHeaded(d, area, t, h) && Within(images, before, LogTrail(d, area, t.vals, |t.ts|))
    ensures Within(images, before, CommitTrail(d, area, t, Writes(t)))
  {
    TrailInstalls(d, area, t, h, |t.ts| + 1);
    var log, rest := LogTrail(d, area, t.vals, |t.ts|), RecoverTrail(h, area, |t.ts| + 1);
    WithinLonger(images, before, log, [h] + rest);
    assert log + ([h] + rest) == log + [h] + rest;
  }

  /** And so does one that stops after. */
  lemma PartOfInstall(before: seq<Disk>, images: seq<Disk>, d: Disk, area: Area, t: Txn, h: Disk)
    requires IsHeaded(d, area, t, h)
    requires Within(images, before + LogTrail(d, area, t.vals, |t.ts|) + [h], RecoverTrail(h, area, |t.ts|))
    ensures Within(images, before, CommitTrail(d, area, t, Writes(t)))
  {
    TrailInstalls(d, area, t, h, |t.ts| + 1);
    RecoverTrailEnds(h, area);
    var log, inst := LogTrail(d, area, t.vals, |t.ts|), RecoverTrail(h, area, |t.ts|);
    WithinLonger(images, before + log + [h], inst, [Recover(h, area)]);
    assert before + log + [h] == before + (log + [h]);
    assert before + log + [h] + (inst + [Recover(h, area)]) == before + (log + [h] + (inst + [Recover(h, area)]));
  }

  lemma {:induction false} LogTrailGrows(d: Disk, area: Area, vals: seq<Block>, j: nat, k: nat)
    requires LayoutOk(d, area) && j <= k <= |vals| < area.size
    ensures LogTrail(d, area, vals, j) <= LogTrail(d, area, vals, k)
  {
    if j == k {
    } else {
      LogTrailGrows(d, area, vals, j, k - 1);
    }
  }

  lemma {:induction false} RecoverTrailGrows(d: Disk, area: Area, j: nat, k: nat)
    requires HeaderOk(d, area) && j <= k <= HeadN(d, area) + 1
    ensures RecoverTrail(d, area, j) <= RecoverTrail(d, area, k)
  {
    if j == k {
    } else {
      RecoverTrailGrows(d, area, j, k - 1);
    }
  }

  /** The disk after a whole commit. */
  function After(d: Disk, area: Area, t: Txn): Disk
    requires LayoutOk(d, area) && TxnOk(|d|, area, t)
  {
    CommitTrail(d, area, t, Writes(t))[2 * |t.ts| + 1]
  }

  lemma AfterIsUpdated(d: Disk, area: Area, t: Txn)
    requires LayoutOk(d, area) && TxnOk(|d|, area, t)
    ensures |After(d, area, t)| == |d| && LayoutOk(After(d, area, t), area) && HeadN(After(d, area, t), area) == 0
    ensures Home(After(d, area, t), area) == Home(Updated(d, t.ts, t.vals), area)
  {
    CommitTrailAt(d, area, t, Writes(t), 2 * |t.ts| + 1);
    HeadedIsTransaction(d, area, t.ts, t.vals);
    HeadedRecoversToUpdated(d, area, t.ts, t.vals);
  }

  /** The plain meaning of a run: each of the first `k` transactions updates its blocks at once. */
  ghost function Applied(d: Disk, txns: seq<Txn>, k: nat): (r: Disk)
    requires (forall i :: 0 <= i < |txns| ==> |txns[i].ts| == |txns[i].vals|) && k <= |txns|
    ensures |r| == |d|
  {
    if k == 0 then d else Updated(Applied(d, txns, k - 1), txns[k - 1].ts, txns[k - 1].vals)
  }

  lemma UpdatedHome(a: Disk, b: Disk, area: Area, t: Txn)
    requires |a| == |b| && Home(a, area) == Home(b, area) && |t.ts| == |t.vals|
    ensures Home(Updated(a, t.ts, t.vals), area) == Home(Updated(b, t.ts, t.vals), area)
  {
    forall x | 0 <= x < |a| && !InLog(area, x) ensures Updated(a, t.ts, t.vals)[x] == Updated(b, t.ts, t.vals)[x] {
      assert Home(a, area)[x] == Home(b, area)[x];
    }
  }

  // ---------------------------------------------------------------- the history of a running log

  /** The images up to the end of recovery; the transactions committed since, with the images of each commit; and
      the disk as recovery and then each commit left it. */
  datatype History = History(before: seq<Disk>, txns: seq<Txn>, trails: seq<seq<Disk>>, points: seq<Disk>)

  predicate Idle(d: Disk, area: Area) {
    LayoutOk(d, area) && HeadN(d, area) == 0
  }

  /** The k-th commit took the disk from one point to the next. */
  predicate CommitOk(h: History, area: Area, k: nat)
    requires k < |h.txns| == |h.trails| && |h.points| == |h.txns| + 1
  {
    && Idle(h.points[k], area) && TxnOk(|h.points[k]|, area, h.txns[k])
    && h.trails[k] == CommitTrail(h.points[k], area, h.txns[k], Writes(h.txns[k]))
    && h.points[k + 1] == After(h.points[k], area, h.txns[k])
  }

  predicate HistoryOk(h: History, area: Area) {
    && |h.trails| == |h.txns| && |h.points| == |h.txns| + 1
    && h.before != [] && h.before[|h.before| - 1] == h.points[0]
    && (forall k: nat {:trigger CommitOk(h, area, k)} :: k < |h.txns| ==> CommitOk(h, area, k))
    && (forall k: nat {:trigger h.points[k]} ::
        k < |h.points| ==> Idle(h.points[k], area) && |h.points[k]| == |h.points[0]|)
  }

  /** `before` continued by the first `n` trails. */
  function Joined(before: seq<Disk>, trails: seq<seq<Disk>>, n: nat): seq<Disk>
    requires n <= |trails|
  {
    if n == 0 then before else Joined(before, trails, n - 1) + trails[n - 1]
  }

  /** Every image the disk has shown, one per block write. */
  function Images(h: History): seq<Disk> {
    Joined(h.before, h.trails, |h.trails|)
  }

  lemma {:induction false} Locate(before: seq<Disk>, trails: seq<seq<Disk>>, n: nat, i: nat) returns (k: nat, w: nat)
    requires n <= |trails| && |before| <= i < |Joined(before, trails, n)|
    ensures k < n && w < |trails[k]| && i == |Joined(before, trails, k)| + w
    ensures Joined(before, trails, n)[i] == trails[k][w]
  {
    if i < |Joined(before, trails, n - 1)| {
      k, w := Locate(before, trails, n - 1, i);
    } else {
      k, w := n - 1, i - |Joined(before, trails, n - 1)|;
    }
  }

  lemma {:induction false} JoinedGrows(before: seq<Disk>, trails: seq<seq<Disk>>, j: nat, k: nat)
    requires j <= k <= |trails|
    ensures Joined(before, trails, j) <= Joined(before, trails, k)
  {
    if j == k {
    } else {
      JoinedGrows(before, trails, j, k - 1);
    }
  }

  lemma {:induction false} JoinedAppend(before: seq<Disk>, trails: seq<seq<Disk>>, trail: seq<Disk>, k: nat)
    requires k <= |trails|
    ensures Joined(before, trails + [trail], k) == Joined(before, trails, k)
  {
    if k == 0 {
    } else {
      JoinedAppend(before, trails, trail, k - 1);
    }
  }

  /** The history with one more commit. */
  function Extended(h: History, area: Area, t: Txn): History
    requires HistoryOk(h, area) && TxnOk(|h.points[0]|, area, t)
  {
    var d := h.points[|h.txns|];
    History(h.before, h.txns + [t], h.trails + [CommitTrail(d, area, t, Writes(t))], h.points + [After(d, area, t)])
  }

  /** It is what recovery makes of the header. */
  lemma AfterIsRecovered(d: Disk, area: Area, t: Txn)
    requires LayoutOk(d, area) && TxnOk(|d|, area, t)
    ensures HeaderOk(Headed(d, area, t.ts, t.vals), area)
    ensures After(d, area, t) == Recover(Headed(d, area, t.ts, t.vals), area)
  {
    CommitTrailAt(d, area, t, Writes(t), 2 * |t.ts| + 1);
    HeadedIsTransaction(d, area, t.ts, t.vals);
  }

  lemma ExtendedOk(h: History, area: Area, t: Txn)
    requires HistoryOk(h, area) && TxnOk(|h.points[0]|, area, t)
    ensures HistoryOk(Extended(h, area, t), area)
    ensures Images(Extended(h, area, t)) == Images(h) + CommitTrail(h.points[|h.txns|], area, t, Writes(t))
  {
    var d, n := h.points[|h.txns|], |h.txns|;
    var h' := Extended(h, area, t);
    AfterIsUpdated(d, area, t);
    forall k: nat | k <= n ensures CommitOk(h', area, k) {
      assert k < n ==> CommitOk(h, area, k);
    }
    JoinedAppend(h.before, h.trails, h'.trails[n], n);
  }

  /** A crash at any image of a commit. */
  lemma CrashInCommit(d: Disk, area: Area, t: Txn, w: nat, cs: seq<nat>)
    requires LayoutOk(d, area) && HeadN(d, area) == 0 && TxnOk(|d|, area, t) && w < Writes(t)
    ensures var crashed := CommitTrail(d, area, t, Writes(t))[w];
            && HeaderOk(crashed, area)
            && Home(Recover(AfterCrashes(crashed, area, cs), area), area)
            == Home(if w < |t.ts| then d else After(d, area, t), area)
  {
    CommitTrailAt(d, area, t, Writes(t), w);
    CrashAtomicity(d, area, t.ts, t.vals, w + 1, cs);
    AfterIsUpdated(d, area, t);
  }

  /** Whatever image a crash exposes, and however often recovery crashes too, the home blocks end up as one of the
      points of the history has them: the one before the commit under way if its header had not been written, the
      one after it otherwise. */
  lemma AfterAnyCrash(h: History, area: Area, i: nat, cs: seq<nat>) returns (k: nat, w: nat)
    requires HistoryOk(h, area) && |h.before| <= i < |Images(h)|
    ensures k < |h.txns| && w < Writes(h.txns[k]) && i == |Joined(h.before, h.trails, k)| + w
    ensures HeaderOk(Images(h)[i], area)
    ensures Home(Recover(AfterCrashes(Images(h)[i], area, cs), area), area)
         == Home(h.points[if w < |h.txns[k].ts| then k else k + 1], area)
  {
    k, w := Locate(h.before, h.trails, |h.trails|, i);
    assert CommitOk(h, area, k);
    CrashInCommit(h.points[k], area, h.txns[k], w, cs);
  }

  /** The points are what the transactions mean, one after the other. */
  lemma {:induction false} PointsAreApplied(h: History, area: Area, k: nat)
    requires HistoryOk(h, area) && k <= |h.txns|
    ensures forall i :: 0 <= i < |h.txns| ==> |h.txns[i].ts| == |h.txns[i].vals|
    ensures Home(h.points[k], area) == Home(Applied(h.points[0], h.txns, k), area)
  {
    forall i: nat | i < |h.txns| ensures |h.txns[i].ts| == |h.txns[i].vals| {
      assert CommitOk(h, area, i);
    }
    if k == 0 {
    } else {
      assert CommitOk(h, area, k - 1);
      PointsAreApplied(h, area, k - 1);
      AfterIsUpdated(h.points[k - 1], area, h.txns[k - 1]);
      UpdatedHome(h.points[k - 1], Applied(h.points[0], h.txns, k - 1), area, h.txns[k - 1]);
    }
  }

  lemma CommitEnds(h: History, area: Area, k: nat, w: nat, p: nat)
    requires HistoryOk(h, area) && k <= p < |h.txns| && p <= k + 1 && w < Writes(h.txns[k])
    requires p == k ==> w + 1 < Writes(h.txns[k])
    ensures |Joined(h.before, h.trails, k)| + w + 1 < |Joined(h.before, h.trails, p + 1)|
  {
    assert CommitOk(h, area, k) && CommitOk(h, area, p);
  }

  /** A crash before the first write of the first commit. */
  lemma CrashBeforeAny(h: History, area: Area, cs: seq<nat>)
    requires HistoryOk(h, area)
    ensures var i := |h.before| - 1;
            && i < |Images(h)| && Images(h)[i] == h.points[0] && HeaderOk(h.points[0], area)
            && Home(Recover(AfterCrashes(h.points[0], area, cs), area), area) == Home(h.points[0], area)
  {
    JoinedGrows(h.before, h.trails, 0, |h.trails|);
    RecoverOfIdle(h.points[0], area);
    CrashesInRecoveryAreHarmless(h.points[0], area, cs);
  }

  /** Over every run, from the image recovery ended with: whatever image a crash exposes, and however often recovery
      crashes too, what is left is exactly the effect of a prefix of the transactions; and no transaction is lost whose
      commit had finished by then. */
  lemma CrashKeepsAPrefix(h: History, area: Area, i: nat, cs: seq<nat>, j: nat) returns (p: nat)
    requires HistoryOk(h, area) && |h.before| <= i + 1 && i < |Images(h)|
    requires j <= |h.txns| && |Joined(h.before, h.trails, j)| <= i + 1
    ensures j <= p <= |h.txns| && HeaderOk(Images(h)[i], area)
    ensures forall k :: 0 <= k < |h.txns| ==> |h.txns[k].ts| == |h.txns[k].vals|
    ensures Home(Recover(AfterCrashes(Images(h)[i], area, cs), area), area)
         == Home(h.points[p], area) == Home(Applied(h.points[0], h.txns, p), area)
  {
    if i + 1 == |h.before| {
      p := 0;
      CrashBeforeAny(h, area, cs);
      PointsAreApplied(h, area, 0);
      if j > 0 {
        assert CommitOk(h, area, 0);
        JoinedGrows(h.before, h.trails, 1, j);
      }
      return;
    }
    var k, w := AfterAnyCrash(h, area, i, cs);
    p := if w < |h.txns[k].ts| then k else k + 1;
    PointsAreApplied(h, area, p);
    if p < j {
      CommitEnds(h, area, k, w, p);
      JoinedGrows(h.before, h.trails, p + 1, j);
    }
  }
}

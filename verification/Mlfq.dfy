/** The multi-level feedback queue of kernel/proc.c and kernel/trap.c on one CPU: rows of process slots, filled
    from the left and closed up by shifting. A process is its index in the process table. */
module Mlfq {
  import opened Basics

  const NPROC: nat := 64
  const NPR: nat := 5
  const AGE: nat := 30

  type Row = seq<Option<nat>>

  /** The row is exactly the list l, without gaps. */
  predicate RowIs(row: Row, l: seq<nat>) {
    |row| == NPROC && |l| <= NPROC && forall k: nat {:trigger row[k]} ::
      k < NPROC ==> row[k] == if k < |l| then Some(l[k]) else None
  }

  function RemoveAt(l: seq<nat>, i: nat): seq<nat>
    requires i < |l|
  {
    l[..i] + l[i + 1..]
  }

  /** What dequeue_proc's shift does to a row: the last slot keeps its value. */
  function Shifted(row: Row, i: nat): Row
    requires i < |row|
  {
    row[..i] + row[i + 1..] + [row[|row| - 1]]
  }

  lemma ShiftedRow(row: Row, l: seq<nat>, i: nat)
    requires RowIs(row, l) && i < |l| < NPROC
    ensures RowIs(Shifted(row, i), RemoveAt(l, i))
  {
  }

  /** Removing an entry leaves a duplicate-free list without it exactly if the level was not full. */
  lemma DequeueSoundIff(row: Row, l: seq<nat>, i: nat)
    requires RowIs(row, l) && Distinct(l) && i < |l|
    ensures (exists l': seq<nat> :: RowIs(Shifted(row, i), l') && Distinct(l') && l[i] !in l') <==> |l| < NPROC
  {
    var t := Shifted(row, i);
    if |l| < NPROC {
      ShiftedRow(row, l, i);
      assert RowIs(t, RemoveAt(l, i)) && Distinct(RemoveAt(l, i)) && l[i] !in RemoveAt(l, i);
    } else {
      assert t[NPROC - 1] == Some(l[NPROC - 1]) && (i < NPROC - 1 ==> t[NPROC - 2] == t[NPROC - 1]);
      forall l': seq<nat> | RowIs(t, l') && Distinct(l') ensures l[i] in l' {
        assert l'[NPROC - 1] == l[NPROC - 1];
      }
    }
  }

  // ---------------------------------------------------------------- the state

  /** queue[NPR][NPROC] with the list each row stands for, and of each process its level, its waiting ticks and
      whether it is RUNNABLE. */
  datatype Sched = Sched(queue: seq<Row>, lists: seq<seq<nat>>, pr: seq<nat>, wticks: seq<nat>, runnable: seq<bool>)

  predicate Sized(s: Sched) {
    |s.queue| == |s.lists| == NPR && |s.pr| == |s.wticks| == |s.runnable| == NPROC
  }

  /** Level l: no gaps, no duplicates, and only RUNNABLE processes of this level. */
  predicate LevelOk(s: Sched, l: nat) {
    l < NPR && Sized(s) ==>
      && RowIs(s.queue[l], s.lists[l]) && Distinct(s.lists[l])
      && forall k: nat {:trigger s.lists[l][k]} ::
          k < |s.lists[l]| ==> var p := s.lists[l][k]; p < NPROC && s.pr[p] == l && s.runnable[p]
  }

  ghost predicate Inv(s: Sched) {
    && Sized(s) && (forall p: nat {:trigger s.pr[p]} :: p < NPROC ==> s.pr[p] < NPR)
    && forall l: nat {:trigger LevelOk(s, l)} :: LevelOk(s, l)
  }

  predicate Queued(s: Sched, p: nat) {
    p < |s.pr| && s.pr[p] < |s.lists| && p in s.lists[s.pr[p]]
  }

  /** In an invariant state no process is in two places. */
  lemma QueuedOnce(s: Sched, l: nat, k: nat, l': nat, k': nat)
    requires Inv(s) && l < NPR && k < |s.lists[l]| && l' < NPR && k' < |s.lists[l']| && s.lists[l][k] == s.lists[l'][k']
    ensures l == l' && k == k' && k < |s.queue[l]| && s.queue[l][k] == Some(s.lists[l][k])
  {
    assert LevelOk(s, l) && LevelOk(s, l');
  }

  // ---------------------------------------------------------------- levels fill up only when every process is on them

  function Below(n: nat): (r: set<nat>)
    ensures |r| == n && forall i: nat {:trigger i in r} :: i in r <==> i < n
  {
    if n == 0 then {} else Below(n - 1) + {n - 1}
  }

  /** A level that misses a process has room for it. */
  lemma RoomFor(s: Sched, l: nat, p: nat)
    requires Inv(s) && l < NPR && p < NPROC && p !in s.lists[l]
    ensures |s.lists[l]| < NPROC
  {
    assert LevelOk(s, l);
    OneShort(s.lists[l], NPROC, p);
  }

  lemma OneShort(l: seq<nat>, n: nat, p: nat)
    requires Distinct(l) && p < n && p !in l && forall i: nat :: i < |l| ==> l[i] < n
    ensures |l| < n
  {
    DistinctFits(l, Below(n) - {p});
  }

  // ---------------------------------------------------------------- queue_proc and dequeue_proc

  function Enqueued(s: Sched, p: nat): Sched
    requires Sized(s) && p < NPROC && s.pr[p] < NPR && |s.lists[s.pr[p]]| < |s.queue[s.pr[p]]|
  {
    var l := s.pr[p];
    s.(queue := s.queue[l := s.queue[l][|s.lists[l]| := Some(p)]], lists := s.lists[l := s.lists[l] + [p]])
  }

  lemma EnqueueStep(s: Sched, p: nat)
    requires Inv(s) && p < NPROC && s.runnable[p] && !Queued(s, p)
    ensures s.pr[p] < NPR && |s.lists[s.pr[p]]| < |s.queue[s.pr[p]]| && Inv(Enqueued(s, p))
  {
    var l := s.pr[p];
    assert LevelOk(s, l);
    RoomFor(s, l, p);
    var t := Enqueued(s, p);
    forall m: nat ensures LevelOk(t, m) {
      assert LevelOk(s, m);
    }
  }

  function Dequeued(s: Sched, l: nat, i: nat): Sched
    requires Sized(s) && l < NPR && i < |s.lists[l]| && i < |s.queue[l]|
  {
    s.(queue := s.queue[l := Shifted(s.queue[l], i)], lists := s.lists[l := RemoveAt(s.lists[l], i)])
  }

  lemma DequeueStep(s: Sched, l: nat, i: nat)
    requires Inv(s) && l < NPR && i < |s.lists[l]| < NPROC
    ensures i < |s.queue[l]| && Inv(Dequeued(s, l, i))
    ensures forall x: nat :: x in Dequeued(s, l, i).lists[l] <==> x in s.lists[l] && x != s.lists[l][i]
  {
    assert LevelOk(s, l);
    var t := Dequeued(s, l, i);
    ShiftedRow(s.queue[l], s.lists[l], i);
    assert s.lists[l] == s.lists[l][..i] + [s.lists[l][i]] + s.lists[l][i + 1..];
    forall m: nat ensures LevelOk(t, m) {
      assert LevelOk(s, m);
    }
  }

  // ---------------------------------------------------------------- what a pass does

  ghost predicate AllQueued(s: Sched, n: nat) {
    forall p: nat {:trigger s.runnable[p]} :: p < n && p < |s.runnable| && s.runnable[p] ==> Queued(s, p)
  }

  /** Every level from l on has a free slot, so that dequeue_proc is sound on it. */
  predicate RoomFrom(lists: seq<seq<nat>>, l: nat) {
    forall m: nat {:trigger lists[m]} :: l <= m < |lists| ==> |lists[m]| < NPROC
  }

  /** Some process is not RUNNABLE. */
  ghost predicate SomeIdle(s: Sched) {
    exists p: nat :: p < |s.runnable| && !s.runnable[p]
  }

  /** The lists after the first n turns of the loop that queues the RUNNABLE processes. */
  function Collected(s: Sched, n: nat): (c: seq<seq<nat>>)
    requires Sized(s) && n <= NPROC
    ensures |c| == NPR
  {
    if n == 0 then s.lists else
      var c, p := Collected(s, n - 1), n - 1;
      if s.runnable[p] && s.pr[p] < NPR && p !in c[s.pr[p]] then c[s.pr[p] := c[s.pr[p]] + [p]] else c
  }

  predicate Aged(wticks: seq<nat>, p: nat) {
    p < |wticks| && wticks[p] >= AGE
  }

  /** What the ageing scan of a level leaves on it from place j on: a promoted entry's neighbour moves up into its
      place and is not looked at. */
  function ScanLeft(l: seq<nat>, wticks: seq<nat>, j: nat): seq<nat>
    decreases |l| - j
  {
    if j >= |l| then l
    else if Aged(wticks, l[j]) then ScanLeft(RemoveAt(l, j), wticks, j + 1)
    else ScanLeft(l, wticks, j + 1)
  }

  /** What it promotes, in order. */
  function ScanMoved(l: seq<nat>, wticks: seq<nat>, j: nat): seq<nat>
    decreases |l| - j
  {
    if j >= |l| then []
    else if Aged(wticks, l[j]) then [l[j]] + ScanMoved(RemoveAt(l, j), wticks, j + 1)
    else ScanMoved(l, wticks, j + 1)
  }

  /** Level l after ageing: what its own scan left, and behind it what the scan of the level below promoted. */
  function AgedLevel(lists: seq<seq<nat>>, wticks: seq<nat>, l: nat): seq<nat>
    requires |lists| == NPR && l < NPR
  {
    (if l == 0 then lists[0] else ScanLeft(lists[l], wticks, 0))
    + if l + 1 < NPR then ScanMoved(lists[l + 1], wticks, 0) else []
  }

  function AgedLists(lists: seq<seq<nat>>, wticks: seq<nat>): seq<seq<nat>>
    requires |lists| == NPR
  {
    seq(NPR, l requires 0 <= l < NPR => AgedLevel(lists, wticks, l))
  }

  /** The scan conserves processes. */
  lemma {:induction false} ScanConserves(l: seq<nat>, wticks: seq<nat>, j: nat)
    ensures multiset(ScanLeft(l, wticks, j)) + multiset(ScanMoved(l, wticks, j)) == multiset(l)
    ensures |ScanLeft(l, wticks, j)| + |ScanMoved(l, wticks, j)| == |l|
    decreases |l| - j
  {
    if j >= |l| {
    } else if Aged(wticks, l[j]) {
      ScanConserves(RemoveAt(l, j), wticks, j + 1);
      assert l == l[..j] + [l[j]] + l[j + 1..];
      assert multiset(l) == multiset(RemoveAt(l, j)) + multiset{l[j]};
      assert multiset(ScanMoved(l, wticks, j)) == multiset{l[j]} + multiset(ScanMoved(RemoveAt(l, j), wticks, j + 1));
    } else {
      ScanConserves(l, wticks, j + 1);
    }
  }

  // ---------------------------------------------------------------- the ageing scan, step by step

  /** t is s with the levels above i aged, and level i up to place j. */
  ghost predicate Ageing(s: Sched, t: Sched, i: nat, j: nat) {
    && Sized(s) && Sized(t) && 1 <= i <= NPR
    && (forall l: nat {:trigger t.lists[l]} :: l < i - 1 ==> t.lists[l] == AgedLevel(s.lists, s.wticks, l))
    && (forall l: nat {:trigger t.lists[l]} :: i < l < NPR ==> t.lists[l] == s.lists[l])
    && (if i == NPR then t.lists[i - 1] == AgedLevel(s.lists, s.wticks, i - 1)
        else
          && ScanLeft(t.lists[i], s.wticks, j) == ScanLeft(s.lists[i], s.wticks, 0)
          && t.lists[i - 1] + ScanMoved(t.lists[i], s.wticks, j) == AgedLevel(s.lists, s.wticks, i - 1))
    && (forall p: nat {:trigger t.wticks[p]} :: p < NPROC && t.pr[p] >= i ==> t.wticks[p] == s.wticks[p])
    && Promoted(s, t)
  }

  lemma AgeingStarts(s: Sched)
    requires Sized(s)
    ensures Ageing(s, s, 1, 0)
  {
  }

  /** The entry at place j stays, or there is none. */
  lemma AgeingSkips(s: Sched, t: Sched, i: nat, j: nat)
    requires Ageing(s, t, i, j) && i < NPR && (j < |t.lists[i]| ==> !Aged(s.wticks, t.lists[i][j]))
    ensures Ageing(s, t, i, j + 1)
  {
  }

  /** The entry at place j moves up. */
  lemma AgeingMoves(s: Sched, t: Sched, u: Sched, i: nat, j: nat, p: nat)
    requires Ageing(s, t, i, j) && i < NPR && j < |t.lists[i]| && t.lists[i][j] == p && p < NPROC
    requires Aged(s.wticks, p) && t.pr[p] == i && t.wticks[p] == s.wticks[p] && t.pr[p] == s.pr[p]
    requires Sized(u) && u.pr == t.pr[p := i - 1] && u.wticks == t.wticks[p := 0] && u.runnable == t.runnable
    requires u.lists == t.lists[i := RemoveAt(t.lists[i], j)][i - 1 := t.lists[i - 1] + [p]]
    ensures Ageing(s, u, i, j + 1)
  {
    var moved := ScanMoved(RemoveAt(t.lists[i], j), s.wticks, j + 1);
    assert t.lists[i - 1] + ([p] + moved) == t.lists[i - 1] + [p] + moved;
  }

  lemma AgeingNext(s: Sched, t: Sched, i: nat)
    requires Ageing(s, t, i, NPROC) && i < NPR && |t.lists[i]| <= NPROC
    ensures Ageing(s, t, i + 1, 0)
  {
    assert t.lists[i - 1] + [] == t.lists[i - 1];
    if i + 1 == NPR {
      assert t.lists[i] + [] == t.lists[i];
    }
  }

  lemma AgeingEnds(s: Sched, t: Sched, j: nat)
    requires Ageing(s, t, NPR, j)
    ensures t.lists == AgedLists(s.lists, s.wticks)
  {
  }

  /** Only RUNNABLE processes of the level are collected on it, each once. */
  lemma {:induction false} CollectedLevels(s: Sched, n: nat, l: nat)
    requires Inv(s) && n <= NPROC && l < NPR
    ensures Distinct(Collected(s, n)[l])
    ensures forall p: nat {:trigger p in Collected(s, n)[l]} ::
      p in Collected(s, n)[l] ==> p < NPROC && s.pr[p] == l && s.runnable[p]
  {
    if n == 0 {
      assert LevelOk(s, l);
    } else {
      CollectedLevels(s, n - 1, l);
    }
  }

  lemma WithoutAt(l: seq<nat>, j: nat)
    requires j < |l|
    ensures forall p: nat {:trigger p in RemoveAt(l, j)} :: p in RemoveAt(l, j) ==> p in l
    ensures Distinct(l) ==> Distinct(RemoveAt(l, j)) && l[j] !in RemoveAt(l, j)
  {
    var r := RemoveAt(l, j);
    forall i: nat | i < |r| ensures r[i] == l[if i < j then i else i + 1] {
    }
  }

  /** The scan keeps or promotes only what is there, and nothing twice. */
  lemma {:induction false} ScanPicks(l: seq<nat>, wticks: seq<nat>, j: nat)
    ensures forall p: nat {:trigger p in ScanLeft(l, wticks, j)} :: p in ScanLeft(l, wticks, j) ==> p in l
    ensures forall p: nat {:trigger p in ScanMoved(l, wticks, j)} :: p in ScanMoved(l, wticks, j) ==> p in l
    ensures Distinct(l) ==> Distinct(ScanLeft(l, wticks, j)) && Distinct(ScanMoved(l, wticks, j))
    decreases |l| - j
  {
    if j >= |l| {
    } else if Aged(wticks, l[j]) {
      WithoutAt(l, j);
      ScanPicks(RemoveAt(l, j), wticks, j + 1);
      if Distinct(l) {
        DistinctCons(l[j], ScanMoved(RemoveAt(l, j), wticks, j + 1));
      }
    } else {
      ScanPicks(l, wticks, j + 1);
    }
  }

  lemma DistinctCons(p: nat, l: seq<nat>)
    requires Distinct(l) && p !in l
    ensures Distinct([p] + l)
  {
  }

  lemma JoinShort(l: seq<nat>, m: seq<nat>, n: nat, p: nat)
    requires Distinct(l) && Distinct(m) && p < n && p !in l && p !in m
    requires forall x: nat {:trigger x in l} {:trigger x in m} :: x in l ==> x < n && x !in m
    requires forall x: nat {:trigger x in m} :: x in m ==> x < n
    ensures |l + m| < n
  {
    var all := l + m;
    forall i: nat, j: nat | i < j < |all| ensures all[i] != all[j] {
      assert i < |l| ==> all[i] in l;
      assert j >= |l| ==> all[j] in m;
    }
    forall i: nat | i < |all| ensures all[i] < n {
      assert all[i] in l || all[i] in m;
    }
    OneShort(all, n, p);
  }

  /** With some process not RUNNABLE no level fills up. */
  lemma IdleMeansRoom(s: Sched, l: nat)
    requires Inv(s) && SomeIdle(s) && l < NPR
    ensures var c := Collected(s, NPROC); |c[l]| < NPROC && |AgedLevel(c, s.wticks, l)| < NPROC
  {
    var p: nat :| p < |s.runnable| && !s.runnable[p];
    var c := Collected(s, NPROC);
    CollectedLevels(s, NPROC, l);
    JoinShort(c[l], [], NPROC, p);
    assert c[l] + [] == c[l];
    ScanPicks(c[l], s.wticks, 0);
    var left := if l == 0 then c[0] else ScanLeft(c[l], s.wticks, 0);
    var moved := if l + 1 < NPR then ScanMoved(c[l + 1], s.wticks, 0) else [];
    if l + 1 < NPR {
      CollectedLevels(s, NPROC, l + 1);
      ScanPicks(c[l + 1], s.wticks, 0);
      forall x: nat | x in moved ensures x < NPROC && s.pr[x] == l + 1 && s.runnable[x] {
        assert x in c[l + 1];
      }
    }
    forall x: nat | x in left ensures x < NPROC && x !in moved {
      assert x in c[l];
    }
    JoinShort(left, moved, NPROC, p);
  }

  /** All but the last process on the top level, and that one below it, due to move up. */
  function Crowded(): Sched {
    var top := seq(NPROC - 1, i => i);
    Sched([seq(NPROC, k => if k < NPROC - 1 then Some(k) else None),
           seq(NPROC, k => if k == 0 then Some(NPROC - 1) else None)]
            + seq(NPR - 2, _ => seq(NPROC, _ => None)),
          [top, [NPROC - 1]] + seq(NPR - 2, _ => []),
          seq(NPROC, p => if p < NPROC - 1 then 0 else 1), seq(NPROC, _ => AGE), seq(NPROC, _ => true))
  }

  /** Ageing can fill a level that was not full: here the top one, after which the choice of a process would leave
      an entry behind. */
  lemma AgeingCanFillALevel()
    ensures var s := Crowded(); Inv(s) && AllQueued(s, NPROC) && RoomFrom(s.lists, 0)
    ensures var s := Crowded(); !RoomFrom(AgedLists(s.lists, s.wticks), 0)
  {
    var s := Crowded();
    forall l: nat ensures LevelOk(s, l) {
    }
    forall p: nat | p < NPROC ensures Queued(s, p) {
      assert p < NPROC - 1 ==> s.lists[0][p] == p;
    }
    var aged := AgedLists(s.lists, s.wticks);
    assert aged[0] == AgedLevel(s.lists, s.wticks, 0);
    assert |ScanMoved(s.lists[1], s.wticks, 0)| == 1;
  }

  /** Only entries at the ends of the levels are new. */
  ghost predicate Extends(s: Sched, t: Sched) {
    && |t.lists| == |s.lists| && t == s.(queue := t.queue, lists := t.lists)
    && forall l: nat {:trigger t.lists[l]} :: l < |t.lists| ==> s.lists[l] <= t.lists[l]
  }

  /** Every process is on its level or one higher, and in the latter case its waiting time starts again. */
  ghost predicate Promoted(s: Sched, t: Sched) {
    && |t.pr| == |s.pr| == |t.wticks| == |s.wticks| && t.runnable == s.runnable
    && forall p: nat {:trigger t.pr[p]} :: p < |t.pr| ==>
         || (t.pr[p] == s.pr[p] && t.wticks[p] == s.wticks[p])
         || (t.pr[p] + 1 == s.pr[p] && t.wticks[p] == 0 && s.wticks[p] >= AGE)
  }

  lemma PromotedFrom(s: Sched, c: Sched, t: Sched)
    requires Promoted(c, t) && c.pr == s.pr && c.wticks == s.wticks && c.runnable == s.runnable
    ensures Promoted(s, t)
  {
    forall p: nat | p < |t.pr|
      ensures || (t.pr[p] == s.pr[p] && t.wticks[p] == s.wticks[p])
              || (t.pr[p] + 1 == s.pr[p] && t.wticks[p] == 0 && s.wticks[p] >= AGE)
    {
      assert t.pr[p] == c.pr[p] || t.pr[p] + 1 == c.pr[p];
    }
  }

  /** p is first in level l, and all higher levels are empty. */
  ghost predicate Head(s: Sched, l: nat, p: nat) {
    && l < |s.lists| && s.lists[l] != [] && s.lists[l][0] == p
    && forall m: nat {:trigger s.lists[m]} :: m < l ==> s.lists[m] == []
  }

  /** p was first in level l, above which all levels were empty, and has been taken from it. */
  ghost predicate Picked(s: Sched, t: Sched, l: nat, p: nat) {
    && Head(s, l, p) && p < |s.wticks| && t.lists == s.lists[l := s.lists[l][1..]] && t.wticks == s.wticks[p := 0]
    && t.pr == s.pr && t.runnable == s.runnable
  }

  /** Taking the head of the highest level that is not empty leaves a sound row exactly if no level is full: a full
      level holds every process, and so is the one the choice is made on. */
  lemma PickSoundIff(s: Sched, l: nat, p: nat)
    requires Inv(s) && Head(s, l, p) && |s.queue[l]| == NPROC
    ensures (exists l': seq<nat> ::
        RowIs(Shifted(s.queue[l], 0), l') && Distinct(l') && p !in l') <==> RoomFrom(s.lists, 0)
  {
    assert LevelOk(s, l);
    DequeueSoundIff(s.queue[l], s.lists[l], 0);
    forall m: nat | m < NPR && m != l ensures |s.lists[m]| < NPROC {
      assert LevelOk(s, m);
      RoomFor(s, m, p);
    }
  }

  lemma QueuedAt(s: Sched, l: nat, p: nat)
    requires Inv(s) && l < NPR && s.lists[l] != [] && s.lists[l][0] == p
    ensures forall i: nat ::
        i < |s.lists[l]| && s.lists[l][i] == p ==> i == 0 && RemoveAt(s.lists[l], i) == s.lists[l][1..]
  {
    assert LevelOk(s, l);
  }

  /** Between being dequeued and queued again a process may change level. */
  lemma Moved(s: Sched, t: Sched, u: Sched, p: nat)
    requires Inv(t) && p < NPROC && !Queued(t, p) && t.pr[p] > 0
    requires u == t.(pr := t.pr[p := t.pr[p] - 1], wticks := t.wticks[p := 0])
    ensures Inv(u) && !Queued(u, p)
  {
    forall l: nat ensures LevelOk(u, l) {
      assert LevelOk(t, l);
    }
    assert LevelOk(t, t.pr[p] - 1);
  }

  lemma PickedGone(s: Sched, t: Sched, l: nat, p: nat)
    requires Inv(s) && Inv(t) && l < NPR && Picked(s, t, l, p)
    ensures p < NPROC && t.runnable[p] && !Queued(t, p)
  {
    assert LevelOk(s, l) && LevelOk(t, l);
  }

  /** A process on no queue may stop being RUNNABLE. */
  lemma NotOnAnyLevel(s: Sched, p: nat, r: bool)
    requires Inv(s) && p < NPROC && !Queued(s, p)
    ensures Inv(s.(runnable := s.runnable[p := r])) && forall l: nat :: l < NPR ==> p !in s.lists[l]
  {
    forall l: nat ensures LevelOk(s.(runnable := s.runnable[p := r]), l) && (l < NPR ==> p !in s.lists[l]) {
      assert LevelOk(s, l);
    }
  }

  lemma Demoted(s: Sched, t: Sched, p: nat)
    requires Inv(s) && p < NPROC && s.pr[p] + 1 < NPR && t == s.(pr := s.pr[p := s.pr[p] + 1])
    requires forall l: nat :: l < NPR ==> p !in s.lists[l]
    ensures Inv(t)
  {
    forall l: nat ensures LevelOk(t, l) {
      assert LevelOk(s, l);
    }
  }

  /** Waiting times are no part of the queues' order. */
  lemma TicksFree(s: Sched, wticks: seq<nat>)
    requires Inv(s) && |wticks| == NPROC
    ensures Inv(s.(wticks := wticks))
  {
    forall l: nat ensures LevelOk(s.(wticks := wticks), l) {
      assert LevelOk(s, l);
    }
  }

  // ---------------------------------------------------------------- waiting times

  ghost predicate Waited(s: Sched, wticks: seq<nat>) {
    |wticks| == |s.wticks| && forall p: nat {:trigger wticks[p]} ::
      p < |wticks| ==> wticks[p] == s.wticks[p] + if Queued(s, p) then 1 else 0
  }

  /** p stands before place j of level i. */
  ghost predicate Before(s: Sched, p: nat, i: nat, j: nat) {
    && p < |s.pr| && Queued(s, p)
    && (s.pr[p] < i || (s.pr[p] == i && exists k: nat :: k < j && k < |s.lists[i]| && s.lists[i][k] == p))
  }

  ghost predicate WaitedBelow(s: Sched, wticks: seq<nat>, i: nat, j: nat) {
    |wticks| == |s.wticks| && forall p: nat {:trigger wticks[p]} ::
      p < |wticks| ==> wticks[p] == s.wticks[p] + if Before(s, p, i, j) then 1 else 0
  }

  lemma OneMoreWaited(s: Sched, before: seq<nat>, wticks: seq<nat>, i: nat, j: nat)
    requires Inv(s) && i < NPR && j < NPROC && WaitedBelow(s, before, i, j)
    requires wticks ==
      if j < |s.lists[i]| && s.lists[i][j] < |before| then before[s.lists[i][j] := before[s.lists[i][j]] + 1]
      else before
    ensures WaitedBelow(s, wticks, i, j + 1)
  {
    assert LevelOk(s, i);
    forall p: nat | p < |wticks| ensures wticks[p] == s.wticks[p] + if Before(s, p, i, j + 1) then 1 else 0 {
      assert before[p] == s.wticks[p] + if Before(s, p, i, j) then 1 else 0;
      if j < |s.lists[i]| && p == s.lists[i][j] {
        assert Queued(s, p);
        assert !Before(s, p, i, j);
        assert Before(s, p, i, j + 1);
      } else {
        assert Before(s, p, i, j + 1) <==> Before(s, p, i, j);
      }
    }
  }

  lemma LevelWaited(s: Sched, wticks: seq<nat>, i: nat)
    requires Inv(s) && i < NPR && WaitedBelow(s, wticks, i, NPROC)
    ensures WaitedBelow(s, wticks, i + 1, 0)
  {
    assert LevelOk(s, i);
    forall p: nat | p < |wticks| ensures Before(s, p, i, NPROC) <==> Before(s, p, i + 1, 0) {
    }
  }

  lemma AllWaited(s: Sched, wticks: seq<nat>)
    requires Inv(s) && WaitedBelow(s, wticks, NPR, 0)
    ensures Waited(s, wticks)
  {
    forall p: nat | p < |wticks| ensures Before(s, p, NPR, 0) <==> Queued(s, p) {
      assert s.pr[p] < NPR;
    }
  }

  // ---------------------------------------------------------------- the code

  class Scheduler {
    var queue: seq<Row>
    var pr: seq<nat>
    var wticks: seq<nat>
    var rticks: seq<nat>
    var runnable: seq<bool>       // p->state == RUNNABLE
    ghost var lists: seq<seq<nat>>

    ghost function View(): Sched
      reads this
    {
      Sched(queue, lists, pr, wticks, runnable)
    }

    ghost predicate Valid()
      reads this
    {
      Inv(View()) && |rticks| == NPROC
    }

    constructor ()
      ensures Valid() && forall p: nat :: p < NPROC ==> !runnable[p]
      ensures forall p: nat :: p < NPROC ==> pr[p] == wticks[p] == rticks[p] == 0
    {
      queue, lists := seq(NPR, _ => seq(NPROC, _ => None)), seq(NPR, _ => []);
      pr, wticks, rticks := seq(NPROC, _ => 0), seq(NPROC, _ => 0), seq(NPROC, _ => 0);
      runnable := seq(NPROC, _ => false);
      new;
      assert forall l: nat :: LevelOk(View(), l);
    }

    /** queue_proc: at the end of its level, unless it is there already. */
    method QueueProc(p: nat)
      requires Valid() && p < NPROC && runnable[p]
      modifies `queue, `lists
      ensures Valid() && Queued(View(), p)
      ensures if Queued(old(View()), p) then View() == old(View())
              else |old(lists)[pr[p]]| < |old(queue)[pr[p]]| && View() == Enqueued(old(View()), p)
    {
      ghost var s, l := View(), pr[p];
      assert LevelOk(s, l);
      if !Queued(s, p) {
        EnqueueStep(s, p);
      }
      var i := 0;
      while i < NPROC
        invariant i <= NPROC && View() == s && i <= |lists[l]| && p !in lists[l][..i]
      {
        var fp := queue[pr[p]][i];
        if fp == Some(p) {
          return;
        }
        if fp == None {
          assert lists[l][..i] == lists[l];
          queue := queue[pr[p] := queue[pr[p]][i := Some(p)]];
          lists := lists[l := lists[l] + [p]];
          return;
        }
        i := i + 1;
      }
    }

    /** dequeue_proc: closes the gap p leaves. On a full level the last slot is left as it was. */
    method DequeueProc(p: nat)
      requires Valid() && p < NPROC
      modifies `queue, `lists
      ensures !Queued(old(View()), p) ==> View() == old(View())
      ensures Queued(old(View()), p) && |old(lists)[pr[p]]| < NPROC ==> Valid() && !Queued(View(), p)
      ensures Queued(old(View()), p) ==> exists i: nat ::
                && i < |old(lists)[pr[p]]| && old(lists)[pr[p]][i] == p && i < |old(queue)[pr[p]]|
                && View() == Dequeued(old(View()), pr[p], i)
    {
      ghost var s, l := View(), pr[p];
      assert LevelOk(s, l);
      var i := 0;
      while i < NPROC
        invariant i <= NPROC && View() == s && forall k: nat :: k < i && k < |lists[l]| ==> lists[l][k] != p
      {
        if queue[pr[p]][i] == Some(p) {
          if |lists[l]| < NPROC {
            DequeueStep(s, l, i);
          }
          var row := Shift(queue[pr[p]], i);
          queue := queue[pr[p] := row];
          lists := lists[l := RemoveAt(lists[l], i)];
          assert View() == Dequeued(s, l, i);
          return;
        }
        i := i + 1;
      }
    }

    /** The first loop of a pass: every RUNNABLE process is queued, behind those that already were. */
    method Collect()
      requires Valid()
      modifies `queue, `lists
      ensures Valid() && AllQueued(View(), NPROC)
      ensures Extends(old(View()), View()) && lists == Collected(old(View()), NPROC)
    {
      var p := 0;
      while p < NPROC
        invariant p <= NPROC && Valid() && AllQueued(View(), p) && Extends(old(View()), View())
        invariant lists == Collected(old(View()), p)
      {
        if runnable[p] {
          QueueProc(p);
        }
        p := p + 1;
      }
    }

    /** The second loop: a process that has waited AGE ticks moves up one level, unless the scan skips it. Only full
        levels are a problem, and those below the top are the ones it takes processes from. */
    method Age()
      requires Valid() && AllQueued(View(), NPROC) && RoomFrom(lists, 1)
      modifies `queue, `lists, `pr, `wticks
      ensures Valid() && AllQueued(View(), NPROC) && Promoted(old(View()), View())
      ensures lists == AgedLists(old(lists), old(wticks))
    {
      ghost var s := View();
      AgeingStarts(s);
      var i := 1;
      while i < NPR
        invariant 1 <= i <= NPR && Valid() && AllQueued(View(), NPROC) && RoomFrom(lists, i)
        invariant Ageing(s, View(), i, 0)
      {
        AgeLevel(s, i);
        i := i + 1;
      }
      AgeingEnds(s, View(), 0);
    }

    /** The scan of level i. */
    method AgeLevel(ghost s: Sched, i: nat)
      requires 1 <= i < NPR && Valid() && AllQueued(View(), NPROC) && RoomFrom(lists, i) && Ageing(s, View(), i, 0)
      modifies `queue, `lists, `pr, `wticks
      ensures Valid() && AllQueued(View(), NPROC) && RoomFrom(lists, i + 1) && Ageing(s, View(), i + 1, 0)
    {
      var j := 0;
      while j < NPROC
        invariant j <= NPROC && Valid() && AllQueued(View(), NPROC) && RoomFrom(lists, i)
        invariant Ageing(s, View(), i, j)
      {
        AgeTurn(s, i, j);
        j := j + 1;
      }
      assert LevelOk(View(), i);
      AgeingNext(s, View(), i);
    }

    /** Place j of level i. */
    method AgeTurn(ghost s: Sched, i: nat, j: nat)
      requires 1 <= i < NPR && j < NPROC && Valid() && AllQueued(View(), NPROC) && RoomFrom(lists, i)
      requires Ageing(s, View(), i, j)
      modifies `queue, `lists, `pr, `wticks
      ensures Valid() && AllQueued(View(), NPROC) && RoomFrom(lists, i) && Ageing(s, View(), i, j + 1)
    {
      assert LevelOk(View(), i);
      ghost var t := View();
      var fp := queue[i][j];
      if fp.Some? && wticks[fp.value] >= AGE {
        assert t.pr[fp.value] == i;
        Promote(fp.value, j);
        AgeingMoves(s, t, View(), i, j, fp.value);
      } else {
        AgeingSkips(s, t, i, j);
      }
    }

    /** One promotion, of the process at place j of its level. */
    method Promote(p: nat, ghost j: nat)
      requires Valid() && p < NPROC && pr[p] > 0 && AllQueued(View(), NPROC)
      requires j < |lists[pr[p]]| < NPROC && lists[pr[p]][j] == p
      modifies `queue, `lists, `pr, `wticks
      ensures Valid() && AllQueued(View(), NPROC)
      ensures pr == old(pr)[p := old(pr)[p] - 1] && wticks == old(wticks)[p := 0]
      ensures var l := old(pr)[p];
        lists == old(lists)[l := RemoveAt(old(lists)[l], j)][l - 1 := old(lists)[l - 1] + [p]]
    {
      ghost var s := View();
      assert LevelOk(s, pr[p]);
      DequeueProc(p);
      ghost var t := View();
      pr := pr[p := pr[p] - 1];
      wticks := wticks[p := 0];
      Moved(s, t, View(), p);
      QueueProc(p);
      assert forall k: nat :: k < NPROC && runnable[k] ==> Queued(View(), k);
    }

    /** The third loop: the head of the highest level that is not empty leaves its queue. Every queued process is
        RUNNABLE, so the branch that drops one that is not is never taken, and no row is read past its head. */
    method Pick() returns (r: Option<nat>)
      requires Valid() && RoomFrom(lists, 0)
      modifies `queue, `lists, `wticks
      ensures Valid()
      ensures r == None ==> View() == old(View()) && forall l: nat :: l < NPR ==> lists[l] == []
      ensures r.Some? ==> exists l: nat :: l < NPR && Picked(old(View()), View(), l, r.value)
    {
      ghost var s := View();
      var i := 0;
      while i < NPR
        invariant i <= NPR && View() == s && forall l: nat :: l < i ==> lists[l] == []
      {
        assert LevelOk(s, i);
        var fp := queue[i][0];
        if fp.Some? {
          var p := fp.value;
          assert p == lists[i][0];
          DequeueProc(p);
          QueuedAt(s, i, p);
          ghost var t := View();
          wticks := wticks[p := 0];
          TicksFree(t, wticks);
          assert Picked(s, View(), i, p);
          return Some(p);
        }
        i := i + 1;
      }
      return None;
    }

    /** One pass of the scheduler up to its choice. `aged` is the state the choice is made in. No level may be full
        where a process is taken from it: below the top after queueing, and anywhere after ageing. */
    method Pass() returns (r: Option<nat>, ghost aged: Sched)
      requires Valid() && RoomFrom(Collected(View(), NPROC), 1)
      requires RoomFrom(AgedLists(Collected(View(), NPROC), wticks), 0)
      modifies `queue, `lists, `pr, `wticks
      ensures Valid() && Promoted(old(View()), aged) && AllQueued(aged, NPROC)
      ensures aged.lists == AgedLists(Collected(old(View()), NPROC), old(wticks))
      ensures r == None ==> forall p: nat :: p < NPROC ==> !runnable[p]
      ensures r.Some? ==> r.value < NPROC && runnable[r.value] && !Queued(View(), r.value)
      ensures r.Some? ==> exists l: nat :: l < NPR && Picked(aged, View(), l, r.value)
    {
      Collect();
      ghost var c := View();
      Age();
      aged := View();
      PromotedFrom(old(View()), c, aged);
      r := Pick();
      if r.Some? {
        ghost var l: nat :| l < NPR && Picked(aged, View(), l, r.value);
        PickedGone(aged, View(), l, r.value);
      } else {
        forall p: nat | p < NPROC ensures !runnable[p] {
          assert runnable[p] ==> Queued(View(), p);
        }
      }
    }

    /** The chosen process runs; it is on no queue. */
    method Dispatch(p: nat)
      requires Valid() && p < NPROC && !Queued(View(), p)
      modifies `runnable
      ensures Valid() && runnable == old(runnable)[p := false]
    {
      NotOnAnyLevel(View(), p, false);
      runnable := runnable[p := false];
    }

    /** What allocproc and freeproc do to the slot of a process that is not RUNNABLE. */
    method Reset(p: nat)
      requires Valid() && p < NPROC && !runnable[p]
      modifies `pr, `wticks, `rticks
      ensures Valid() && pr == old(pr)[p := 0] && wticks == old(wticks)[p := 0] && rticks == old(rticks)[p := 0]
    {
      ghost var s := View();
      pr, wticks, rticks := pr[p := 0], wticks[p := 0], rticks[p := 0];
      forall l: nat ensures LevelOk(View(), l) {
        assert LevelOk(s, l);
      }
    }

    /** yield, wakeup or fork makes p RUNNABLE; the next pass queues it. */
    method MakeRunnable(p: nat)
      requires Valid() && p < NPROC
      modifies `runnable
      ensures Valid() && runnable == old(runnable)[p := true]
    {
      ghost var s := View();
      runnable := runnable[p := true];
      forall l: nat ensures LevelOk(View(), l) {
        assert LevelOk(s, l);
      }
    }

    /** A timer tick while p runs: its slice, the waiting times, and demotion at the end of the slice, at which p gives
        up the CPU. */
    method Tick(p: nat) returns (ended: bool)
      requires Valid() && p < NPROC && !runnable[p]
      modifies `pr, `wticks, `rticks
      ensures Valid() && lists == old(lists)
      ensures Waited(old(View()), wticks)
      ensures ended <==> old(rticks)[p] + 1 == Power(old(pr)[p])
      ensures pr == old(pr)[p := if ended && old(pr)[p] < NPR - 1 then old(pr)[p] + 1 else old(pr)[p]]
      ensures rticks == old(rticks)[p := if ended then 0 else old(rticks)[p] + 1]
    {
      rticks := rticks[p := rticks[p] + 1];
      CountWaiting();
      ghost var s := View();
      ended := false;
      if rticks[p] == Power(pr[p]) {
        rticks := rticks[p := 0];
        if pr[p] != NPR - 1 {
          assert LevelOk(s, pr[p]);
          NotOnAnyLevel(s, p, false);
          pr := pr[p := pr[p] + 1];
          Demoted(s, View(), p);
        }
        ended := true;
      }
    }

    /** The loop over the levels above p's, from level i on until p gives up the CPU or the loop ends. After each time
        p has given it up, whatever has happened meanwhile, the loop goes on at `next`. */
    method Outranked(p: nat, i: nat) returns (next: nat, gives: bool)
      requires Valid() && p < NPROC
      ensures i <= next && (next <= pr[p] || next == i)
      ensures gives <==> exists l: nat :: i <= l < pr[p] && lists[l] != []
      ensures gives ==> i < next <= pr[p] && lists[next - 1] != []
      ensures forall l: nat :: i <= l < (if gives then next - 1 else pr[p]) ==> lists[l] == []
    {
      next, gives := i, false;
      while next < pr[p]
        invariant i <= next && (next <= pr[p] || next == i) && forall l: nat :: i <= l < next ==> lists[l] == []
        decreases pr[p] - next
      {
        var j := Occupied(next);
        next := next + 1;
        if j > 0 {
          return next, true;
        }
      }
    }

    /** The inner loop: how many entries level i has. */
    method Occupied(i: nat) returns (j: nat)
      requires Valid() && i < NPR
      ensures j == |lists[i]|
    {
      assert LevelOk(View(), i);
      j := 0;
      while j < NPROC
        invariant j <= |lists[i]|
      {
        if queue[i][j] == None {
          break;
        }
        j := j + 1;
      }
    }

    /** A timer tick in kernel mode, where the process running, if any, gives up the CPU whatever is left of its
        slice. */
    method KernelTick(running: Option<nat>) returns (gives: bool)
      requires Valid()
      modifies `wticks
      ensures Valid() && Waited(old(View()), wticks) && (gives <==> running.Some?)
    {
      CountWaiting();
      gives := running.Some?;
    }

    /** Every queued process has waited one tick more: each is met exactly once. */
    method CountWaiting()
      requires Valid()
      modifies `wticks
      ensures Valid() && Waited(old(View()), wticks)
    {
      ghost var s := View();
      var i := 0;
      while i < NPR
        invariant i <= NPR && Valid() && View() == s.(wticks := wticks) && WaitedBelow(s, wticks, i, 0)
      {
        var j := 0;
        while j < NPROC
          invariant j <= NPROC && Valid() && View() == s.(wticks := wticks) && WaitedBelow(s, wticks, i, j)
        {
          assert LevelOk(s, i);
          ghost var before := wticks;
          var fp := queue[i][j];
          if fp.Some? && runnable[fp.value] {
            wticks := wticks[fp.value := wticks[fp.value] + 1];
          }
          OneMoreWaited(s, before, wticks, i, j);
          TicksFree(s, wticks);
          j := j + 1;
        }
        LevelWaited(s, wticks, i);
        i := i + 1;
      }
      AllWaited(s, wticks);
    }
  }

  /** dequeue_proc's inner loop. */
  method Shift(row0: Row, i: nat) returns (row: Row)
    requires i < |row0|
    ensures row == Shifted(row0, i)
  {
    row := row0;
    var j := i + 1;
    while j < |row0|
      invariant i + 1 <= j <= |row0| && row == row0[..i] + row0[i + 1..j] + row0[j - 1..]
    {
      row := row[j - 1 := row[j]];
      j := j + 1;
    }
  }
}

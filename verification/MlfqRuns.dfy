/** Runs of the scheduler that fill a level, and what taking a process off it does. */
module MlfqRuns {
  import opened Basics
  import opened Mlfq

  lemma FirstIsQueued(s: Sched, l: nat)
    requires Inv(s) && l < NPR && s.lists[l] != []
    ensures var p := s.lists[l][0]; p < NPROC && Queued(s, p) && s.runnable[p]
  {
    assert LevelOk(s, l);
  }

  /** Nobody is queued unless RUNNABLE. */
  lemma NobodyQueued(s: Sched)
    requires Inv(s) && forall p: nat :: p < NPROC ==> !s.runnable[p] || !Queued(s, p)
    ensures forall l: nat :: l < NPR ==> s.lists[l] == []
  {
    forall l: nat | l < NPR ensures s.lists[l] == [] {
      if s.lists[l] != [] {
        FirstIsQueued(s, l);
        assert false;
      }
    }
  }

  /** From empty queues, collecting processes of which the last is on level 1 and the others on the top one, or all
      on the top one. */
  lemma {:induction false} CollectedFrom(s: Sched, n: nat, last: nat)
    requires Inv(s) && n <= NPROC && last <= 1 && (forall l: nat :: l < NPR ==> s.lists[l] == [])
    requires forall p: nat :: p < NPROC ==> s.runnable[p] && s.pr[p] == if p == NPROC - 1 then last else 0
    ensures Collected(s, n)[0] == seq(if n == NPROC && last == 1 then n - 1 else n, i => i)
    ensures Collected(s, n)[1] == if n == NPROC && last == 1 then [NPROC - 1] else []
    ensures forall l: nat :: 1 < l < NPR ==> Collected(s, n)[l] == []
  {
    if n == 0 {
    } else {
      CollectedFrom(s, n - 1, last);
    }
  }

  method AllRunnable(s: Scheduler)
    requires s.Valid()
    modifies s`runnable
    ensures s.Valid() && forall p: nat :: p < NPROC ==> s.runnable[p]
  {
    var p := 0;
    while p < NPROC
      invariant p <= NPROC && s.Valid() && forall q: nat :: q < p ==> s.runnable[q]
    {
      s.MakeRunnable(p);
      p := p + 1;
    }
  }

  /** With all processes RUNNABLE on the top level, taking the first off breaks the queues. */
  method DequeueBreaks() returns (s: Scheduler)
    ensures fresh(s) && !s.Valid()
  {
    s := new Scheduler();
    NobodyQueued(s.View());
    AllRunnable(s);
    CollectedFrom(s.View(), NPROC, 0);
    s.Collect();
    ghost var before := s.View();
    assert s.lists[0][0] == 0 && Queued(before, 0);
    s.DequeueProc(0);
    FullRowStays(before, s.View());
  }

  /** A full row is still full after the shift, while its list has become shorter. */
  lemma FullRowStays(s: Sched, t: Sched)
    requires Inv(s) && |s.lists[0]| == NPROC && NPR > 0
    requires exists i: nat :: i < |s.lists[0]| && i < |s.queue[0]| && t == Dequeued(s, 0, i)
    ensures !Inv(t)
  {
    assert LevelOk(s, 0);
    var i: nat :| i < |s.lists[0]| && i < |s.queue[0]| && t == Dequeued(s, 0, i);
    assert t.queue[0][NPROC - 1] == s.queue[0][NPROC - 1] != None;
    assert !LevelOk(t, 0);
  }

  /** One process runs to the end of its slice and is then the only one on level 1. */
  method OneBelow() returns (s: Scheduler)
    ensures fresh(s) && s.Valid() && AllQueued(s.View(), NPROC) && s.wticks[NPROC - 1] == 0
    ensures |s.lists[0]| == NPROC - 1 && s.lists[1] == [NPROC - 1] && forall l: nat :: 1 < l < NPR ==> s.lists[l] == []
  {
    s := new Scheduler();
    s.MakeRunnable(NPROC - 1);
    forall l: nat | l < NPR
      ensures var c := Collected(s.View(), NPROC); |c[l]| < NPROC && |AgedLevel(c, s.wticks, l)| < NPROC
    {
      assert !s.runnable[0];
      IdleMeansRoom(s.View(), l);
    }
    var r, aged := s.Pass();
    assert r == Some(NPROC - 1);
    s.Dispatch(NPROC - 1);
    NobodyQueued(s.View());
    var ended := s.Tick(NPROC - 1);
    AllRunnable(s);
    CollectedFrom(s.View(), NPROC, 1);
    s.Collect();
  }

  /** After thirty more ticks ageing fills the top level. */
  method AgeingFillsALevel() returns (s: Scheduler)
    ensures fresh(s) && s.Valid() && |s.lists[0]| == NPROC
  {
    s := OneBelow();
    ghost var lists := s.lists;
    var k := 0;
    while k < AGE
      invariant k <= AGE && s.Valid() && AllQueued(s.View(), NPROC) && s.lists == lists && s.wticks[NPROC - 1] == k
    {
      assert Queued(s.View(), NPROC - 1) by {
        assert LevelOk(s.View(), 1) && s.lists[1][0] == NPROC - 1;
      }
      s.CountWaiting();
      k := k + 1;
    }
    assert |ScanMoved(s.lists[1], s.wticks, 0)| == 1;
    label Before: s.Age();
    assert s.lists[0] == AgedLevel(lists, old@Before(s.wticks), 0);
  }
}

/** wait, exit and fork cannot deadlock: a process that cannot go on waits for one that can, or for one that waits for
    one that can. And wait_lock is given back after a bounded number of its holder's own steps. */
module ExitWaitProgress {
  import opened Basics
  import opened ExitWait
  import opened ExitWaitRuns

  // ---------------------------------------------------------------- who waits for whom

  /** A step of p's own code, or of the scheduler taking p on or off the CPU. */
  predicate Onward(s: System, t: System, p: nat, c: nat) {
    WaitStep(s, t, p) || ExitStep(s, t, p) || ForkStep(s, t, p, c) || SchedOut(s, t, p) || SchedIn(s, t, p)
  }

  ghost predicate CanMove(s: System, p: nat) {
    exists t: System, c: nat :: Onward(s, t, p, c)
  }

  /** In the middle of wait, exit or fork, and not asleep. */
  predicate Busy(q: Proc) {
    !q.pc.User? && !q.pc.Idle? && !q.pc.Gone? && !(q.pc.Asleep? && q.state == Sleeping)
  }

  predicate NeedsWaitLock(q: Proc) {
    q.state == Running && (q.pc.WaitLock? || q.pc.ExitLock? || q.pc.ForkParent?)
  }

  /** The table entry whose lock the next step of p takes. */
  function NeedsLockOf(s: System, p: nat): Option<nat>
    requires p < |s.proc|
  {
    var q := s.proc[p];
    if q.state == Runnable then Some(p)
    else
      match q.pc
      case Scan(i, _) => Some(i)
      case ReparentWake(_, j) => Some(j)
      case Wake(j) => Some(j)
      case Doze => Some(p)
      case ExitOwn => Some(p)
      case ForkRun(c) => Some(c)
      case _ => None
  }

  /** p waits for a lock that r holds. */
  predicate WaitsFor(s: System, p: nat, r: nat)
    requires p < |s.proc|
  {
    || (NeedsWaitLock(s.proc[p]) && s.waitLock == Some(r))
    || (var k := NeedsLockOf(s, p); k.Some? && k.value < |s.proc| && s.proc[k.value].lock == Some(r))
  }

  /** A process that holds its own lock but not wait_lock needs nothing else. */
  lemma ParkedMoves(s: System, r: nat)
    requires Inv(s) && r < |s.proc| && OwnLock(s.proc[r].pc) && s.waitLock != Some(r)
    ensures CanMove(s, r)
  {
    assert Shape(s, r);
    var q := s.proc[r];
    if q.pc.DozeMark? {
      assert Onward(s, Set(s, r, q.(pc := DozePark, state := Sleeping, chan := Some(r))), r, 0);
    } else {
      assert Onward(s, Set(s, r, q.(pc := if q.pc.DozePark? then Asleep else Gone, lock := None)), r, 0);
    }
  }

  /** While p holds wait_lock, and is not looking at k, only k itself can hold k's lock. */
  lemma OnlyItsOwn(s: System, p: nat, k: nat)
    requires Inv(s) && s.waitLock == Some(p) && p < |s.proc| && !s.proc[p].pc.Child? && k < |s.proc|
    ensures s.proc[k].lock == None || (s.proc[k].lock == Some(k) && OwnLock(s.proc[k].pc))
  {
    var l := s.proc[k].lock;
    assert Shape(s, k) && Shape(s, if l.Some? then l.value else k);
  }

  // ---------------------------------------------------------------- no deadlock

  ghost predicate WaitsForMover(s: System, p: nat)
    requires p < |s.proc|
  {
    exists r: nat :: r < |s.proc| && WaitsFor(s, p, r) && CanMove(s, r)
  }

  /** k's lock is free, or p waits for a process that can move. */
  lemma LockComesFree(s: System, p: nat, k: nat)
    requires Inv(s) && s.waitLock == Some(p) && p < |s.proc| && !s.proc[p].pc.Child? && k < |s.proc| && k != p
    requires NeedsLockOf(s, p) == Some(k)
    ensures s.proc[k].lock == None || WaitsForMover(s, p)
  {
    OnlyItsOwn(s, p, k);
    if s.proc[k].lock.Some? {
      ParkedMoves(s, k);
      assert WaitsFor(s, p, k);
    }
  }

  lemma WaitHolderMoves(s: System, p: nat)
    requires Inv(s) && s.waitLock == Some(p) && p < |s.proc|
    requires var pc := s.proc[p].pc; pc.Scan? || pc.Child? || pc.Doze? || pc.DozeLocked?
    ensures CanMove(s, p) || WaitsForMover(s, p)
  {
    assert Shape(s, p) && Loop(s, p);
    var q := s.proc[p];
    match q.pc
    case Scan(i, kids) =>
      if i == |s.proc| {
        var t := if !kids || q.killed then Set(s, p, q.(pc := User)).(waitLock := None) else Set(s, p, q.(pc := Doze));
        assert Onward(s, t, p, 0) by { assert EndScan(s, t, p); }
      } else if s.proc[i].parent != Some(p) {
        var t := Set(s, p, q.(pc := Scan(i + 1, kids)));
        assert Onward(s, t, p, 0) by { assert LookPast(s, t, p); }
      } else {
        assert Shape(s, i);
        LockComesFree(s, p, i);
        if s.proc[i].lock == None {
          var u := Set(s, p, q.(pc := Child(i)));
          var t := Set(u, i, u.proc[i].(lock := Some(p)));
          assert Onward(s, t, p, 0) by { assert LookAt(s, t, p); }
        }
      }
    case Child(i) => ChildMoves(s, p);
    case Doze =>
      OnlyItsOwn(s, p, p);
      var t := Set(s, p, q.(pc := DozeLocked, lock := Some(p)));
      assert Onward(s, t, p, 0) by { assert LockDoze(s, t, p); }
    case DozeLocked =>
      var t := Set(s, p, q.(pc := DozeMark)).(waitLock := None);
      assert Onward(s, t, p, 0) by { assert ReleaseDoze(s, t, p); }
  }

  lemma ChildMoves(s: System, p: nat)
    requires Inv(s) && p < |s.proc| && s.proc[p].pc.Child?
    ensures CanMove(s, p)
  {
    assert Loop(s, p);
    var q, i := s.proc[p], s.proc[p].pc.i;
    if s.proc[i].state == Zombie {
      var t := Set(Set(s, p, q.(pc := User)), i, FreeSlot()).(waitLock := None, reaped := s.reaped + [s.proc[i].pid]);
      assert Onward(s, t, p, 0) by { assert Reap(s, t, p); }
    } else {
      var u := Set(s, p, q.(pc := Scan(i + 1, true)));
      var t := Set(u, i, u.proc[i].(lock := None));
      assert Onward(s, t, p, 0) by { assert NotYet(s, t, p); }
    }
  }

  lemma ExitHolderMoves(s: System, p: nat)
    requires Inv(s) && s.waitLock == Some(p) && p < |s.proc|
    requires var pc := s.proc[p].pc; pc.Reparent? || pc.ExitOwn? || pc.ExitMark? || pc.ExitRelease?
    ensures CanMove(s, p)
  {
    assert Shape(s, p) && Loop(s, p);
    var q := s.proc[p];
    match q.pc
    case Reparent(i) =>
      if i == |s.proc| {
        var t := Set(s, p, q.(pc := Wake(0)));
        assert Onward(s, t, p, 0) by { assert EndReparent(s, t, p); }
      } else if s.proc[i].parent == Some(p) {
        var u := Set(s, p, q.(pc := ReparentWake(i, 0)));
        var t := Set(u, i, u.proc[i].(parent := Some(INIT)));
        assert Onward(s, t, p, 0) by { assert GiveAway(s, t, p); }
      } else {
        var t := Set(s, p, q.(pc := Reparent(i + 1)));
        assert Onward(s, t, p, 0) by { assert PassBy(s, t, p); }
      }
    case ExitOwn =>
      OnlyItsOwn(s, p, p);
      var t := Set(s, p, q.(pc := ExitMark, lock := Some(p)));
      assert Onward(s, t, p, 0) by { assert LockOwn(s, t, p); }
    case ExitMark =>
      var t := Set(s, p, q.(pc := ExitRelease, state := Zombie));
      assert Onward(s, t, p, 0) by { assert Die(s, t, p); }
    case ExitRelease =>
      var t := Set(s, p, q.(pc := ExitPark)).(waitLock := None);
      assert Onward(s, t, p, 0) by { assert ReleaseExit(s, t, p); }
  }

  lemma WakerMoves(s: System, p: nat)
    requires Inv(s) && s.waitLock == Some(p) && p < |s.proc| && (s.proc[p].pc.ReparentWake? || s.proc[p].pc.Wake?)
    ensures CanMove(s, p) || WaitsForMover(s, p)
  {
    assert Shape(s, p) && Loop(s, p);
    var q, j := s.proc[p], s.proc[p].pc.j;
    if j < |s.proc| && j != p {
      LockComesFree(s, p, j);
    }
    if j == |s.proc| {
      if q.pc.Wake? {
        var t := Set(s, p, q.(pc := ExitOwn));
        assert Onward(s, t, p, 0) by { assert EndWakeParent(s, t, p); }
      } else {
        var t := Set(s, p, q.(pc := Reparent(q.pc.i + 1)));
        assert Onward(s, t, p, 0) by { assert EndWakeInit(s, t, p); }
      }
    } else if WakeTurn(s, p, j) {
      if q.pc.Wake? {
        var t := Woken(Set(s, p, q.(pc := Wake(j + 1))), p, j, q.parent);
        assert Onward(s, t, p, 0) by { assert WakeParent(s, t, p); }
      } else {
        var t := Woken(Set(s, p, q.(pc := ReparentWake(q.pc.i, j + 1))), p, j, Some(INIT));
        assert Onward(s, t, p, 0) by { assert WakeInit(s, t, p); }
      }
    }
  }

  /** Whoever holds wait_lock can move, or waits for a process that can. */
  lemma HolderMoves(s: System, p: nat)
    requires Inv(s) && s.waitLock == Some(p) && p < |s.proc|
    ensures CanMove(s, p) || WaitsForMover(s, p)
  {
    assert Shape(s, p);
    var pc := s.proc[p].pc;
    if pc.Scan? || pc.Child? || pc.Doze? || pc.DozeLocked? {
      WaitHolderMoves(s, p);
    } else if pc.ReparentWake? || pc.Wake? {
      WakerMoves(s, p);
    } else {
      ExitHolderMoves(s, p);
    }
  }

  /** A process that may run is taken on, or waits for the parent looking at it. */
  lemma RunnableMoves(s: System, p: nat)
    requires Inv(s) && p < |s.proc| && s.proc[p].state == Runnable
    ensures CanMove(s, p) || WaitsForMover(s, p)
  {
    assert Shape(s, p);
    var q := s.proc[p];
    if q.lock == None {
      var q' := if q.pc.Asleep? then q.(state := Running, chan := None, pc := WaitLock) else q.(state := Running);
      var t := Set(s, p, q');
      assert Onward(s, t, p, 0) by { assert SchedIn(s, t, p); }
    } else {
      ChildMoves(s, q.lock.value);
      assert WaitsFor(s, p, q.lock.value);
    }
  }

  /** A process about to take wait_lock. */
  lemma TakerMoves(s: System, p: nat)
    requires Inv(s) && p < |s.proc| && NeedsWaitLock(s.proc[p]) && s.waitLock == None
    ensures CanMove(s, p)
  {
    assert Shape(s, p);
    var q := s.proc[p];
    if q.pc.WaitLock? {
      var t := Set(s, p, q.(pc := Scan(0, false))).(waitLock := Some(p));
      assert Onward(s, t, p, 0) by { assert LockWait(s, t, p); }
    } else if q.pc.ExitLock? {
      var t := Set(s, p, q.(pc := Reparent(0))).(waitLock := Some(p));
      assert Onward(s, t, p, 0) by { assert LockExit(s, t, p); }
    } else {
      var c := q.pc.c;
      var u := Set(s, p, q.(pc := ForkRun(c)));
      var t := Set(u, c, u.proc[c].(parent := Some(p)));
      assert Onward(s, t, p, 0) by { assert SetParent(s, t, p); }
    }
  }

  /** Nobody can be looking at the child fork is about to start. */
  lemma StarterMoves(s: System, p: nat)
    requires Inv(s) && p < |s.proc| && s.proc[p].pc.ForkRun? && s.proc[p].state == Running
    ensures CanMove(s, p)
  {
    assert Shape(s, p);
    var q, c := s.proc[p], s.proc[p].pc.c;
    var l := s.proc[c].lock;
    assert Shape(s, c) && Loop(s, if l.Some? then l.value else c);
    var u := Set(s, p, q.(pc := User));
    var t := Set(u, c, u.proc[c].(state := Runnable, pc := User));
    assert Onward(s, t, p, 0) by { assert Start(s, t, p); }
  }

  /** In every run, a process in the middle of wait, exit or fork can move, or waits for one that can, or waits for one
      that waits for one that can. */
  lemma NoDeadlock(n: nat, run: seq<System>, i: nat, p: nat)
    requires IsRun(n, run) && i < |run| && p < |run[i].proc| && Busy(run[i].proc[p])
    ensures var s := run[i];
            || CanMove(s, p) || WaitsForMover(s, p)
            || exists r: nat :: r < |s.proc| && WaitsFor(s, p, r) && WaitsForMover(s, r)
  {
    var s, q := run[i], run[i].proc[p];
    RunKeeps(n, run, i);
    assert Shape(s, p);
    if s.waitLock == Some(p) {
      HolderMoves(s, p);
    } else if q.state == Runnable {
      RunnableMoves(s, p);
    } else if OwnLock(q.pc) {
      ParkedMoves(s, p);
    } else if q.pc.ForkRun? {
      StarterMoves(s, p);
    } else if s.waitLock == None {
      TakerMoves(s, p);
    } else {
      var r := s.waitLock.value;
      HolderMoves(s, r);
      assert WaitsFor(s, p, r);
    }
  }

  /** What the rest of the system may do at any time: preempt p where it holds no spinlock, put it to sleep and wake it
      outside wait, kill it, make it call wait, exit or fork, and let fork or wait's copyout fail. */
  lemma OutsideIsFree(s: System, p: nat, c: nat)
    requires p < |s.proc| && c < |s.proc|
    ensures var q := s.proc[p];
            && (q.state == Running && q.lock == None && Preemptible(q.pc) ==> exists t :: Yield(s, t, p))
            && (q.state == Running && q.lock == None && q.pc.User? ==> exists t :: SleepElsewhere(s, t, p))
            && (q.state == Sleeping && q.lock == None && q.pc.User? ==> exists t :: WakeElsewhere(s, t, p))
            && (q.lock == None ==> exists t :: Kill(s, t, p))
            && (q.state == Running && q.pc.User? ==> exists t :: StartWait(s, t, p))
            && (q.state == Running && q.pc.User? && p != INIT ==> exists t :: StartExit(s, t, p))
            && (q.state == Running && q.pc.User? && s.proc[c].state == Unused && s.proc[c].lock == None ==>
                exists t :: Alloc(s, t, p, c))
            && (q.state == Running && q.pc == ForkParent(c) ==> exists t :: CopyFails(s, t, p))
            && (q.pc == Child(c) && s.proc[c].state == Zombie ==> exists t :: CopyoutFails(s, t, p))
  {
    var q := s.proc[p];
    var away := Set(s, p, q.(pc := User));
    assert q.state == Running && q.lock == None && Preemptible(q.pc) ==> Yield(s, Set(s, p, q.(state := Runnable)), p);
    assert q.state == Running && q.lock == None && q.pc.User? ==>
        SleepElsewhere(s, Set(s, p, q.(state := Sleeping)), p);
    assert q.state == Sleeping && q.lock == None && q.pc.User? ==>
        WakeElsewhere(s, Set(s, p, q.(state := Runnable)), p);
    assert q.lock == None ==>
        Kill(s, Set(s, p, q.(killed := true, state := if q.state == Sleeping then Runnable else q.state)), p);
    assert q.state == Running && q.pc.User? ==> StartWait(s, Set(s, p, q.(pc := WaitLock)), p);
    assert q.state == Running && q.pc.User? && p != INIT ==> StartExit(s, Set(s, p, q.(pc := ExitLock)), p);
    var u := Set(Set(s, p, q.(pc := ForkParent(c))), c, s.proc[c].(state := Used, pid := s.nextpid));
    assert q.state == Running && q.pc.User? && s.proc[c].state == Unused && s.proc[c].lock == None ==>
        Alloc(s, u.(nextpid := s.nextpid + 1), p, c);
    assert q.state == Running && q.pc == ForkParent(c) ==> CopyFails(s, Set(away, c, FreeSlot()), p);
    assert q.pc == Child(c) && s.proc[c].state == Zombie ==>
        CopyoutFails(s, Set(away, c, away.proc[c].(lock := None)).(waitLock := None), p);
  }

  // ---------------------------------------------------------------- wait_lock comes back

  /** How many steps the holder of wait_lock still takes at most, with n table entries. */
  function Rank(n: nat, pc: Pc): int {
    match pc
    case Scan(i, _) => 2 * (n - i) + 4
    case Child(i) => 2 * (n - i) + 3
    case Doze => 2
    case DozeLocked => 1
    case Reparent(i) => (n - i) * (n + 2) + n + 5
    case ReparentWake(i, j) => (n - i) * (n + 2) + n - j + 4
    case Wake(j) => n - j + 4
    case ExitOwn => 3
    case ExitMark => 2
    case ExitRelease => 1
    case _ => 0
  }

  /** The steps exit can take with wait_lock held, and wait fewer. */
  function MostSteps(n: nat): nat {
    n * (n + 2) + n + 5
  }

  lemma NextRound(n: nat, i: nat)
    requires i < n
    ensures (n - i) * (n + 2) == (n - (i + 1)) * (n + 2) + n + 2
  {
  }

  lemma RankBounds(s: System, p: nat)
    requires Inv(s) && s.waitLock == Some(p) && p < |s.proc|
    ensures 0 < Rank(|s.proc|, s.proc[p].pc) <= MostSteps(|s.proc|)
  {
    assert Shape(s, p) && Loop(s, p);
    var n, pc := |s.proc|, s.proc[p].pc;
    if pc.Reparent? || pc.ReparentWake? {
      RoundsLeft(n, pc.i);
    }
  }

  lemma RoundsLeft(n: nat, i: nat)
    requires i <= n
    ensures 0 <= (n - i) * (n + 2) <= n * (n + 2)
  {
  }

  /** Wait_lock has been given back, or its holder is at least d steps nearer to that. */
  predicate Nearer(s: System, t: System, p: nat, d: nat) {
    p < |s.proc| == |t.proc| && var n := |s.proc|;
    t.waitLock == None || (t.waitLock == Some(p) && Rank(n, t.proc[p].pc) + d <= Rank(n, s.proc[p].pc))
  }

  lemma WaitNearer(s: System, t: System, p: nat)
    requires Inv(s) && s.waitLock == Some(p) && WaitStep(s, t, p)
    ensures Nearer(s, t, p, 1)
  {
    assert Shape(s, p) && Loop(s, p);
  }

  lemma ReparentNearer(s: System, t: System, p: nat)
    requires Inv(s) && s.waitLock == Some(p) && p < |s.proc| && (s.proc[p].pc.Reparent? || s.proc[p].pc.ReparentWake?)
    requires GiveAway(s, t, p) || PassBy(s, t, p) || EndReparent(s, t, p) || WakeInit(s, t, p) || EndWakeInit(s, t, p)
    ensures Nearer(s, t, p, 1)
  {
    assert Loop(s, p);
    var n, pc := |s.proc|, s.proc[p].pc;
    if pc.i < n {
      NextRound(n, pc.i);
    }
  }

  lemma ExitNearer(s: System, t: System, p: nat)
    requires Inv(s) && s.waitLock == Some(p) && ExitStep(s, t, p)
    ensures Nearer(s, t, p, 1)
  {
    assert Shape(s, p) && Loop(s, p);
    var pc := s.proc[p].pc;
    if pc.Reparent? || pc.ReparentWake? {
      ReparentNearer(s, t, p);
    }
  }

  /** Each step of its own brings the holder nearer to the release. */
  lemma HolderNearer(s: System, t: System, p: nat, c: nat)
    requires Inv(s) && s.waitLock == Some(p) && Onward(s, t, p, c)
    ensures Nearer(s, t, p, 1)
  {
    assert Shape(s, p);
    if WaitStep(s, t, p) {
      WaitNearer(s, t, p);
    } else {
      ExitNearer(s, t, p);
    }
  }

  lemma WaitLeaves(s: System, t: System, p: nat, r: nat)
    requires Inv(s) && s.waitLock == Some(p) && p < |s.proc| && WaitStep(s, t, r) && r != p
    ensures t.waitLock == Some(p) && |t.proc| == |s.proc| && t.proc[p].pc == s.proc[p].pc
  {
    assert Shape(s, p) && Shape(s, r);
  }

  lemma ExitLeaves(s: System, t: System, p: nat, r: nat)
    requires Inv(s) && s.waitLock == Some(p) && p < |s.proc| && ExitStep(s, t, r) && r != p
    ensures t.waitLock == Some(p) && |t.proc| == |s.proc| && t.proc[p].pc == s.proc[p].pc
  {
    assert Shape(s, p) && Shape(s, r);
  }

  lemma ForkLeaves(s: System, t: System, p: nat, r: nat, c: nat)
    requires Inv(s) && s.waitLock == Some(p) && p < |s.proc| && ForkStep(s, t, r, c) && r != p
    ensures t.waitLock == Some(p) && |t.proc| == |s.proc| && t.proc[p].pc == s.proc[p].pc
  {
    assert Shape(s, p) && Shape(s, r);
  }

  /** The other processes, and kill, leave it where it is. */
  lemma OthersLeave(s: System, t: System, p: nat, r: nat, c: nat)
    requires Inv(s) && s.waitLock == Some(p) && p < |s.proc| && StepOf(s, t, r, c) && (r != p || SchedulerStep(s, t, r))
    ensures t.waitLock == Some(p) && |t.proc| == |s.proc| && t.proc[p].pc == s.proc[p].pc
  {
    assert Shape(s, p) && Shape(s, r);
    if SchedulerStep(s, t, r) {
    } else if WaitStep(s, t, r) {
      WaitLeaves(s, t, p, r);
    } else if ExitStep(s, t, r) {
      ExitLeaves(s, t, p, r);
    } else if ForkStep(s, t, r, c) {
      ForkLeaves(s, t, p, r, c);
    }
  }

  /** How often p moves on between states i and j of a run. */
  function Moves(run: seq<System>, p: nat, i: nat, j: nat): nat
    requires i <= j < |run| && forall k: nat :: k < |run| ==> p < |run[k].proc|
    decreases j - i
  {
    if i == j then 0 else Moves(run, p, i, j - 1) + if run[j].proc[p].pc != run[j - 1].proc[p].pc then 1 else 0
  }

  lemma ExitStepSize(s: System, t: System, p: nat)
    requires ExitStep(s, t, p)
    ensures |t.proc| == |s.proc|
  {
  }

  lemma WaitStepSize(s: System, t: System, p: nat)
    requires WaitStep(s, t, p)
    ensures |t.proc| == |s.proc|
  {
  }

  lemma StepSize(s: System, t: System)
    requires Next(s, t)
    ensures |t.proc| == |s.proc|
  {
    var p: nat, c: nat :| StepOf(s, t, p, c);
    if ExitStep(s, t, p) {
      ExitStepSize(s, t, p);
    } else if WaitStep(s, t, p) {
      WaitStepSize(s, t, p);
    }
  }

  lemma {:induction false} SizeKept(n: nat, run: seq<System>, i: nat)
    requires IsRun(n, run) && i < |run|
    ensures |run[i].proc| == n
  {
    if i > 0 {
      SizeKept(n, run, i - 1);
      StepSize(run[i - 1], run[i]);
    }
  }

  /** One step of anybody while p holds wait_lock before and after. */
  lemma StepNearer(s: System, t: System, p: nat)
    requires Inv(s) && p < |s.proc| && Next(s, t) && s.waitLock == Some(p) && t.waitLock == Some(p)
    ensures |t.proc| == |s.proc|
    ensures Nearer(s, t, p, if t.proc[p].pc != s.proc[p].pc then 1 else 0)
  {
    var r: nat, c: nat :| StepOf(s, t, r, c);
    if r == p && !SchedulerStep(s, t, r) {
      HolderNearer(s, t, p, c);
    } else {
      OthersLeave(s, t, p, r, c);
    }
  }

  lemma {:induction false} HeldRank(n: nat, run: seq<System>, p: nat, i: nat, j: nat)
    requires IsRun(n, run) && p < n && i <= j < |run| && forall k: nat :: k < |run| ==> |run[k].proc| == n
    requires forall k: nat :: i <= k <= j ==> run[k].waitLock == Some(p)
    ensures Moves(run, p, i, j) + Rank(n, run[j].proc[p].pc) <= Rank(n, run[i].proc[p].pc)
    decreases j - i
  {
    if i < j {
      HeldRank(n, run, p, i, j - 1);
      RunKeeps(n, run, j - 1);
      StepNearer(run[j - 1], run[j], p);
    }
  }

  /** In every run and however long, a process moves on fewer than MostSteps times without giving wait_lock back. */
  lemma HeldBoundedly(n: nat, run: seq<System>, p: nat, i: nat, j: nat)
    requires IsRun(n, run) && p < n && i <= j < |run| && forall k: nat :: i <= k <= j ==> run[k].waitLock == Some(p)
    ensures (forall k: nat :: k < |run| ==> |run[k].proc| == n) && Moves(run, p, i, j) < MostSteps(n)
  {
    forall k: nat | k < |run| ensures |run[k].proc| == n {
      SizeKept(n, run, k);
    }
    HeldRank(n, run, p, i, j);
    RunKeeps(n, run, i);
    RunKeeps(n, run, j);
    RankBounds(run[i], p);
    RankBounds(run[j], p);
  }
}

/** The life of a process slot: which run states follow which, who sets killed, and how long a process id lasts. */
module ProcessStates {
  import opened Basics
  import opened ExitWait
  import opened ExitWaitRuns

  /** The state diagram of kernel/proc.c. */
  predicate Follows(a: Run, b: Run) {
    match a
    case Unused => b == Used
    case Used => b == Runnable || b == Unused
    case Runnable => b == Running
    case Running => b == Runnable || b == Sleeping || b == Zombie
    case Sleeping => b == Runnable
    case Zombie => b == Unused
  }

  /** What a step may do to table entry k. */
  ghost predicate Lives(s: System, t: System, k: nat) {
    k < |s.proc| == |t.proc| && var q, q' := s.proc[k], t.proc[k];
    && (q'.state == q.state || Follows(q.state, q'.state))
    && (q'.state == Running && q.state != Running ==> q.lock == None)
    && (q.killed && !q'.killed ==> q' == FreeSlot())
    && (!q.killed && q'.killed ==> q.lock == None && forall l: nat :: l < |s.proc| && l != k ==> t.proc[l] == s.proc[l])
    && (q'.pid != q.pid ==> q' == FreeSlot() || (q.state == Unused && q'.pid == s.nextpid))
  }

  lemma ChildLives(s: System, t: System, p: nat, k: nat)
    requires Inv(s) && k < |s.proc|
    requires LookAt(s, t, p) || Reap(s, t, p) || CopyoutFails(s, t, p) || NotYet(s, t, p)
    ensures Lives(s, t, k)
  {
    assert Loop(s, p);
  }

  lemma DozeLives(s: System, t: System, p: nat, k: nat)
    requires Inv(s) && k < |s.proc| && (LockDoze(s, t, p) || ReleaseDoze(s, t, p) || MarkDoze(s, t, p))
    ensures Lives(s, t, k)
  {
    assert Shape(s, p);
  }

  lemma WaitLives(s: System, t: System, p: nat, k: nat)
    requires Inv(s) && WaitStep(s, t, p) && k < |s.proc|
    ensures Lives(s, t, k)
  {
    if LookAt(s, t, p) || Reap(s, t, p) || CopyoutFails(s, t, p) || NotYet(s, t, p) {
      ChildLives(s, t, p, k);
    } else if LockDoze(s, t, p) || ReleaseDoze(s, t, p) || MarkDoze(s, t, p) {
      DozeLives(s, t, p, k);
    }
  }

  lemma KillLives(s: System, t: System, p: nat, k: nat)
    requires k < |s.proc| && Kill(s, t, p)
    ensures Lives(s, t, k)
  {
  }

  lemma SchedulerLives(s: System, t: System, p: nat, k: nat)
    requires Inv(s) && SchedulerStep(s, t, p) && k < |s.proc|
    ensures Lives(s, t, k)
  {
    if Kill(s, t, p) {
      KillLives(s, t, p, k);
    } else {
      assert Shape(s, p);
    }
  }

  lemma WakeLives(s: System, t: System, p: nat, k: nat)
    requires k < |s.proc| && (WakeInit(s, t, p) || WakeParent(s, t, p))
    ensures Lives(s, t, k)
  {
  }

  lemma ReparentLives(s: System, t: System, p: nat, k: nat)
    requires k < |s.proc| && (GiveAway(s, t, p) || PassBy(s, t, p) || EndReparent(s, t, p))
    ensures Lives(s, t, k)
  {
  }

  lemma EndLives(s: System, t: System, p: nat, k: nat)
    requires Inv(s) && k < |s.proc|
    requires StartExit(s, t, p) || LockExit(s, t, p) || EndWakeInit(s, t, p) || EndWakeParent(s, t, p)
             || LockOwn(s, t, p) || Die(s, t, p) || ReleaseExit(s, t, p)
    ensures Lives(s, t, k)
  {
    assert Shape(s, p);
  }

  lemma ExitLives(s: System, t: System, p: nat, k: nat)
    requires Inv(s) && ExitStep(s, t, p) && k < |s.proc|
    ensures Lives(s, t, k)
  {
    if WakeInit(s, t, p) || WakeParent(s, t, p) {
      WakeLives(s, t, p, k);
    } else if GiveAway(s, t, p) || PassBy(s, t, p) || EndReparent(s, t, p) {
      ReparentLives(s, t, p, k);
    } else {
      EndLives(s, t, p, k);
    }
  }

  lemma ForkLives(s: System, t: System, p: nat, c: nat, k: nat)
    requires Inv(s) && ForkStep(s, t, p, c) && k < |s.proc|
    ensures Lives(s, t, k)
  {
    assert Shape(s, p);
  }

  /** In every run, every table entry follows the diagram: it gets the CPU only from RUNNABLE and with its lock free,
      keeps its process id until it is freed, and is killed only by kill, until it is freed. */
  lemma EveryStepLives(n: nat, run: seq<System>, i: nat, k: nat)
    requires IsRun(n, run) && i + 1 < |run| && k < |run[i].proc|
    ensures Lives(run[i], run[i + 1], k)
  {
    var s, t := run[i], run[i + 1];
    RunKeeps(n, run, i);
    assert Next(s, t);
    var p: nat, c: nat :| StepOf(s, t, p, c);
    if WaitStep(s, t, p) {
      WaitLives(s, t, p, k);
    } else if SchedulerStep(s, t, p) {
      SchedulerLives(s, t, p, k);
    } else if ExitStep(s, t, p) {
      ExitLives(s, t, p, k);
    } else {
      ForkLives(s, t, p, c, k);
    }
  }
}

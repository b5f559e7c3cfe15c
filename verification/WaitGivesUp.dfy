/** When wait gives up: havekids means what its name says in every interleaving. */
module WaitGivesUp {
  import opened Basics
  import opened ExitWait
  import opened ExitWaitRuns

  /** While k scans the table, havekids says whether it has seen a child. */
  ghost predicate KidsFit(s: System, k: nat) {
    k < |s.proc| && s.proc[k].pc.Scan? ==> (s.proc[k].pc.kids <==> !NoChildBelow(s, k, s.proc[k].pc.i))
  }

  ghost predicate SameParents(s: System, t: System) {
    |t.proc| == |s.proc| && forall d: nat {:trigger t.proc[d]} {:trigger s.proc[d]} ::
      d < |s.proc| ==> t.proc[d].parent == s.proc[d].parent
  }

  lemma ChildParents(s: System, t: System, p: nat, k: nat)
    requires Inv(s) && s.waitLock == Some(k) && (k != p || !Reap(s, t, p))
    requires LookAt(s, t, p) || Reap(s, t, p) || CopyoutFails(s, t, p) || NotYet(s, t, p)
    ensures SameParents(s, t)
  {
    assert Shape(s, p);
  }

  /** Nobody's parent changes while another process has wait_lock for its scan. */
  lemma WaitParents(s: System, t: System, p: nat, k: nat)
    requires Inv(s) && WaitStep(s, t, p) && s.waitLock == Some(k) && (k != p || !Reap(s, t, p))
    ensures SameParents(s, t)
  {
    if LookAt(s, t, p) || Reap(s, t, p) || CopyoutFails(s, t, p) || NotYet(s, t, p) {
      ChildParents(s, t, p, k);
    }
  }

  lemma ExitParents(s: System, t: System, p: nat, k: nat)
    requires Inv(s) && ExitStep(s, t, p) && s.waitLock == Some(k) && k != p
    ensures SameParents(s, t)
  {
    assert Shape(s, p);
  }

  lemma ForkParents(s: System, t: System, p: nat, c: nat, k: nat)
    requires Inv(s) && ForkStep(s, t, p, c) && s.waitLock == Some(k)
    ensures SameParents(s, t)
  {
    assert Shape(s, p);
  }

  lemma StepParents(s: System, t: System, p: nat, c: nat, k: nat)
    requires Inv(s) && StepOf(s, t, p, c) && s.waitLock == Some(k) && k != p
    ensures SameParents(s, t)
  {
    if WaitStep(s, t, p) {
      WaitParents(s, t, p, k);
    } else if ExitStep(s, t, p) {
      ExitParents(s, t, p, k);
    } else if ForkStep(s, t, p, c) {
      ForkParents(s, t, p, c, k);
    }
  }

  /** A step of another process leaves a scan where it is. */
  lemma WaitScan(s: System, t: System, p: nat, k: nat)
    requires WaitStep(s, t, p) && k != p && k < |t.proc| && t.proc[k].pc.Scan?
    ensures k < |s.proc| && s.proc[k].pc == t.proc[k].pc
  {
  }

  lemma SchedulerScan(s: System, t: System, p: nat, k: nat)
    requires SchedulerStep(s, t, p) && k < |t.proc| && t.proc[k].pc.Scan?
    ensures k < |s.proc| && s.proc[k].pc == t.proc[k].pc && SameParents(s, t)
  {
  }

  lemma ExitScan(s: System, t: System, p: nat, k: nat)
    requires ExitStep(s, t, p) && k < |t.proc| && t.proc[k].pc.Scan?
    ensures k != p && k < |s.proc| && s.proc[k].pc == t.proc[k].pc
  {
  }

  lemma ForkScan(s: System, t: System, p: nat, c: nat, k: nat)
    requires Inv(s) && ForkStep(s, t, p, c) && k < |t.proc| && t.proc[k].pc.Scan?
    ensures k != p && k < |s.proc| && s.proc[k].pc == t.proc[k].pc
  {
    assert Shape(s, p) && Shape(s, k);
  }

  lemma ScanUndisturbed(s: System, t: System, p: nat, c: nat, k: nat)
    requires Inv(s) && StepOf(s, t, p, c) && k != p && k < |t.proc| && t.proc[k].pc.Scan?
    ensures k < |s.proc| && s.proc[k].pc == t.proc[k].pc
  {
    if WaitStep(s, t, p) { WaitScan(s, t, p, k); }
    else if SchedulerStep(s, t, p) { SchedulerScan(s, t, p, k); }
    else if ExitStep(s, t, p) { ExitScan(s, t, p, k); }
    else { ForkScan(s, t, p, c, k); }
  }

  lemma NotYetKids(s: System, t: System, p: nat)
    requires Inv(s) && NotYet(s, t, p)
    ensures KidsFit(t, p)
  {
    assert Shape(s, p) && Loop(s, p);
    assert t.proc[s.proc[p].pc.i].parent == Some(p);
  }

  lemma LookPastKids(s: System, t: System, p: nat)
    requires KidsFit(s, p) && LookPast(s, t, p)
    ensures KidsFit(t, p)
  {
    assert SameParents(s, t);
  }

  /** The other steps of wait do not lead into the scan, except at its start. */
  lemma OtherWaitKids(s: System, t: System, p: nat)
    requires WaitStep(s, t, p) && !NotYet(s, t, p) && !LookPast(s, t, p)
    ensures KidsFit(t, p)
  {
  }

  lemma OwnStep(s: System, t: System, p: nat, c: nat)
    requires Inv(s) && KidsFit(s, p) && StepOf(s, t, p, c)
    ensures KidsFit(t, p)
  {
    if p < |t.proc| && t.proc[p].pc.Scan? {
      if NotYet(s, t, p) { NotYetKids(s, t, p); }
      else if LookPast(s, t, p) { LookPastKids(s, t, p); }
      else if WaitStep(s, t, p) { OtherWaitKids(s, t, p); }
      else if SchedulerStep(s, t, p) { SchedulerScan(s, t, p, p); }
      else if ExitStep(s, t, p) { ExitScan(s, t, p, p); }
      else { ForkScan(s, t, p, c, p); }
    }
  }

  lemma NextKids(s: System, t: System, k: nat)
    requires Inv(s) && KidsFit(s, k) && Next(s, t)
    ensures KidsFit(t, k)
  {
    var p: nat, c: nat :| StepOf(s, t, p, c);
    if k == p {
      OwnStep(s, t, p, c);
    } else if k < |t.proc| && t.proc[k].pc.Scan? {
      ScanUndisturbed(s, t, p, c, k);
      assert Shape(s, k);
      StepParents(s, t, p, c, k);
    }
  }

  lemma {:induction false} RunKids(n: nat, run: seq<System>, i: nat, k: nat)
    requires IsRun(n, run) && i < |run|
    ensures KidsFit(run[i], k)
  {
    if i == 0 {
    } else {
      RunKids(n, run, i - 1, k);
      RunKeeps(n, run, i - 1);
      NextKids(run[i - 1], run[i], k);
    }
  }

  /** In every run, the end of wait's scan returns -1 if and only if the process has been killed or has no child, and
      otherwise the process goes to sleep. */
  lemma GivesUpIff(n: nat, run: seq<System>, i: nat, p: nat, t: System)
    requires IsRun(n, run) && i < |run| && EndScan(run[i], t, p)
    ensures var s := run[i];
            && p < |t.proc| == |s.proc| && (t.proc[p].pc == User || t.proc[p].pc == Doze)
            && (t.proc[p].pc == User <==>
                s.proc[p].killed || forall c: nat :: c < |s.proc| ==> s.proc[c].parent != Some(p))
            && t.waitLock == if t.proc[p].pc == User then None else Some(p)
  {
    RunKeeps(n, run, i);
    RunKids(n, run, i, p);
    assert Shape(run[i], p);
  }

  /** kill leaves its target with the flag set and not sleeping. */
  lemma KillWakes(s: System, t: System, p: nat)
    requires Kill(s, t, p)
    ensures p < |t.proc| == |s.proc| && t.proc[p].killed && t.proc[p].state != Sleeping
    ensures t.proc[p].pc == s.proc[p].pc && t.proc[p].parent == s.proc[p].parent && t.proc[p].pid == s.proc[p].pid
    ensures forall k: nat :: k < |s.proc| && k != p ==> t.proc[k] == s.proc[k]
  {
  }
}

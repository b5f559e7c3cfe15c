/** The invariant of wait, exit and fork is kept by every step, and what follows for every run. */
module ExitWaitRuns {
  import opened ExitWait
  import opened Basics

  // ---------------------------------------------------------------- steps that change no parent and end no process

  predicate Alive(q: Proc) {
    q.state != Unused && q.state != Used && q.state != Zombie
  }

  /** From q to q' nothing changes that another process could rely on. */
  predicate Quiet(q: Proc, q': Proc) {
    && q'.parent == q.parent && q'.pid == q.pid && (q'.state == Zombie <==> q.state == Zombie)
    && (q'.state == Unused <==> q.state == Unused) && (q'.state == Used <==> q.state == Used)
    && (AsleepInWait(q') ==> AsleepInWait(q))
    && (Making(q'.pc) == None || Making(q'.pc) == Making(q.pc))
  }

  /** q's lock, if some third process holds it, is still held; a child looked at outside {p, o} still is. */
  predicate LocksKept(s: System, t: System, k: nat, p: nat, o: nat)
    requires k < |s.proc| && k < |t.proc|
  {
    && (s.proc[k].lock.Some? && s.proc[k].lock.value !in {k, p, o} ==> t.proc[k].lock == s.proc[k].lock)
    && (s.proc[k].pc.Child? && s.proc[k].pc.i !in {p, o} ==> t.proc[k].pc == s.proc[k].pc)
  }

  /** Only p and o change, quietly; p alone may take or release wait_lock. */
  ghost predicate Local(s: System, t: System, p: nat, o: nat) {
    && p < |s.proc| && o < |s.proc| && |t.proc| == |s.proc| && t.nextpid == s.nextpid && t.reaped == s.reaped
    && (forall k: nat {:trigger t.proc[k]} {:trigger s.proc[k]} ::
        k < |t.proc| && k != p && k != o ==> t.proc[k] == s.proc[k])
    && Quiet(s.proc[p], t.proc[p]) && Quiet(s.proc[o], t.proc[o])
    && LocksKept(s, t, p, p, o) && LocksKept(s, t, o, p, o)
    && (|| t.waitLock == s.waitLock
        || (s.waitLock == Some(p) && t.waitLock == None)
        || (s.waitLock == None && t.waitLock == Some(p)))
    && (WakePending(s, INIT) ==> WakePending(t, INIT) || !AsleepInWait(t.proc[INIT]))
  }

  lemma LocalShape(s: System, t: System, p: nat, o: nat, k: nat)
    requires Inv(s) && Local(s, t, p, o) && Shape(t, p) && Shape(t, o)
    ensures Shape(t, k) && PidFits(t, k)
  {
    assert Shape(s, k) && PidFits(s, k);
  }

  lemma LocalLoop(s: System, t: System, p: nat, o: nat, k: nat)
    requires Inv(s) && Local(s, t, p, o) && Loop(t, p) && Loop(t, o)
    ensures Loop(t, k)
  {
    assert Loop(s, k) && Shape(s, k);
  }

  lemma LocalKeeps(s: System, t: System, p: nat, o: nat)
    requires Inv(s) && Local(s, t, p, o)
    requires Shape(t, p) && Shape(t, o) && Loop(t, p) && Loop(t, o)
    ensures Inv(t)
  {
    forall k: nat ensures Shape(t, k) && PidFits(t, k) {
      LocalShape(s, t, p, o, k);
    }
    forall k: nat, l: nat ensures Apart(t, k, l) {
      assert Apart(s, k, l);
    }
    forall k: nat ensures Loop(t, k) {
      LocalLoop(s, t, p, o, k);
    }
    forall k: nat, l: nat ensures NotLost(t, k, l) {
      assert NotLost(s, k, l);
    }
  }

  lemma StartWaitKeeps(s: System, t: System, p: nat)
    requires Inv(s) && StartWait(s, t, p)
    ensures Inv(t)
  {
    assert Shape(s, p) && Loop(s, p);
    LocalKeeps(s, t, p, p);
  }

  lemma LockWaitKeeps(s: System, t: System, p: nat)
    requires Inv(s) && LockWait(s, t, p)
    ensures Inv(t)
  {
    assert Shape(s, p) && Loop(s, p);
    LocalKeeps(s, t, p, p);
  }

  lemma LookPastKeeps(s: System, t: System, p: nat)
    requires Inv(s) && LookPast(s, t, p)
    ensures Inv(t)
  {
    assert Shape(s, p) && Loop(s, p);
    LocalKeeps(s, t, p, p);
  }

  lemma LookAtIsLocal(s: System, t: System, p: nat, i: nat)
    requires Inv(s) && LookAt(s, t, p) && i == s.proc[p].pc.i
    ensures Local(s, t, p, i)
  {
    assert Shape(s, p) && Loop(s, p) && Shape(s, i) && Loop(s, i);
  }

  lemma LookAtFits(s: System, t: System, p: nat, i: nat)
    requires Inv(s) && LookAt(s, t, p) && i == s.proc[p].pc.i
    ensures Shape(t, p) && Shape(t, i) && Loop(t, p) && Loop(t, i)
  {
    assert Shape(s, p) && Loop(s, p) && Shape(s, i) && Loop(s, i);
  }

  lemma LookAtKeeps(s: System, t: System, p: nat)
    requires Inv(s) && LookAt(s, t, p)
    ensures Inv(t)
  {
    var i := s.proc[p].pc.i;
    LookAtIsLocal(s, t, p, i);
    LookAtFits(s, t, p, i);
    LocalKeeps(s, t, p, i);
  }

  lemma CopyoutFailsIsLocal(s: System, t: System, p: nat, i: nat)
    requires Inv(s) && CopyoutFails(s, t, p) && i == s.proc[p].pc.i
    ensures Local(s, t, p, i)
  {
    assert Shape(s, p) && Loop(s, p) && Shape(s, i) && Loop(s, i);
  }

  lemma CopyoutFailsFits(s: System, t: System, p: nat, i: nat)
    requires Inv(s) && CopyoutFails(s, t, p) && i == s.proc[p].pc.i
    ensures Shape(t, p) && Shape(t, i) && Loop(t, p) && Loop(t, i)
  {
    assert Shape(s, p) && Loop(s, p) && Shape(s, i) && Loop(s, i);
  }

  lemma CopyoutFailsKeeps(s: System, t: System, p: nat)
    requires Inv(s) && CopyoutFails(s, t, p)
    ensures Inv(t)
  {
    var i := s.proc[p].pc.i;
    CopyoutFailsIsLocal(s, t, p, i);
    CopyoutFailsFits(s, t, p, i);
    LocalKeeps(s, t, p, i);
  }

  lemma NotYetIsLocal(s: System, t: System, p: nat, i: nat)
    requires Inv(s) && NotYet(s, t, p) && i == s.proc[p].pc.i
    ensures Local(s, t, p, i)
  {
    assert Shape(s, p) && Loop(s, p) && Shape(s, i) && Loop(s, i);
  }

  lemma NotYetFits(s: System, t: System, p: nat, i: nat)
    requires Inv(s) && NotYet(s, t, p) && i == s.proc[p].pc.i
    ensures Shape(t, p) && Shape(t, i) && Loop(t, p) && Loop(t, i)
  {
    assert Shape(s, p) && Loop(s, p) && Shape(s, i) && Loop(s, i);
  }

  lemma NotYetKeeps(s: System, t: System, p: nat)
    requires Inv(s) && NotYet(s, t, p)
    ensures Inv(t)
  {
    var i := s.proc[p].pc.i;
    NotYetIsLocal(s, t, p, i);
    NotYetFits(s, t, p, i);
    LocalKeeps(s, t, p, i);
  }

  lemma EndScanKeeps(s: System, t: System, p: nat)
    requires Inv(s) && EndScan(s, t, p)
    ensures Inv(t)
  {
    assert Shape(s, p) && Loop(s, p);
    LocalKeeps(s, t, p, p);
  }

  lemma LockDozeKeeps(s: System, t: System, p: nat)
    requires Inv(s) && LockDoze(s, t, p)
    ensures Inv(t)
  {
    assert Shape(s, p) && Loop(s, p);
    LocalKeeps(s, t, p, p);
  }

  lemma MarkDozeKeeps(s: System, t: System, p: nat)
    requires Inv(s) && MarkDoze(s, t, p)
    ensures Inv(t)
  {
    assert Shape(s, p) && Loop(s, p);
    LocalKeeps(s, t, p, p);
  }

  lemma SchedOutKeeps(s: System, t: System, p: nat)
    requires Inv(s) && SchedOut(s, t, p)
    ensures Inv(t)
  {
    assert Shape(s, p) && Loop(s, p);
    LocalKeeps(s, t, p, p);
  }

  lemma SchedInKeeps(s: System, t: System, p: nat)
    requires Inv(s) && SchedIn(s, t, p)
    ensures Inv(t)
  {
    assert Shape(s, p) && Loop(s, p);
    LocalKeeps(s, t, p, p);
  }

  lemma YieldKeeps(s: System, t: System, p: nat)
    requires Inv(s) && Yield(s, t, p)
    ensures Inv(t)
  {
    assert Shape(s, p) && Loop(s, p);
    LocalKeeps(s, t, p, p);
  }

  lemma SleepElsewhereKeeps(s: System, t: System, p: nat)
    requires Inv(s) && SleepElsewhere(s, t, p)
    ensures Inv(t)
  {
    assert Shape(s, p) && Loop(s, p);
    LocalKeeps(s, t, p, p);
  }

  lemma WakeElsewhereKeeps(s: System, t: System, p: nat)
    requires Inv(s) && WakeElsewhere(s, t, p)
    ensures Inv(t)
  {
    assert Shape(s, p) && Loop(s, p);
    LocalKeeps(s, t, p, p);
  }

  lemma KillKeeps(s: System, t: System, p: nat)
    requires Inv(s) && Kill(s, t, p)
    ensures Inv(t)
  {
    assert Shape(s, p) && Loop(s, p);
    LocalKeeps(s, t, p, p);
  }

  lemma StartExitKeeps(s: System, t: System, p: nat)
    requires Inv(s) && StartExit(s, t, p)
    ensures Inv(t)
  {
    assert Shape(s, p) && Loop(s, p);
    LocalKeeps(s, t, p, p);
  }

  lemma LockExitKeeps(s: System, t: System, p: nat)
    requires Inv(s) && LockExit(s, t, p)
    ensures Inv(t)
  {
    assert Shape(s, p) && Loop(s, p);
    LocalKeeps(s, t, p, p);
  }

  lemma PassByKeeps(s: System, t: System, p: nat)
    requires Inv(s) && PassBy(s, t, p)
    ensures Inv(t)
  {
    assert Shape(s, p) && Loop(s, p);
    LocalKeeps(s, t, p, p);
  }

  lemma EndReparentKeeps(s: System, t: System, p: nat)
    requires Inv(s) && EndReparent(s, t, p)
    ensures Inv(t)
  {
    assert Shape(s, p) && Loop(s, p);
    LocalKeeps(s, t, p, p);
  }

  /** Waking a process is quiet by itself, and whoever sleeps on chan in wait is awake afterwards. */
  lemma WokenKeeps(s: System, p: nat, j: nat, chan: Option<nat>)
    requires Inv(s) && WakeTurn(s, p, j)
    ensures Inv(Woken(s, p, j, chan)) && (j != p && chan == Some(j) ==> !AsleepInWait(Woken(s, p, j, chan).proc[j]))
  {
    assert Shape(s, j) && Loop(s, j);
    LocalKeeps(s, Woken(s, p, j, chan), j, j);
  }

  lemma WakeInitKeeps(s: System, t: System, p: nat)
    requires Inv(s) && WakeInit(s, t, p)
    ensures Inv(t)
  {
    var q, j := s.proc[p], s.proc[p].pc.j;
    WokenKeeps(s, p, j, Some(INIT));
    WakeInitOn(Woken(s, p, j, Some(INIT)), t, p, q);
  }

  lemma WakeInitOn(s: System, t: System, p: nat, q: Proc)
    requires Inv(s) && p < |s.proc| && q == s.proc[p] && q.pc.ReparentWake? && q.pc.j < |s.proc|
    requires q.pc.j == INIT && p != INIT ==> !AsleepInWait(s.proc[INIT])
    requires t == Set(s, p, q.(pc := ReparentWake(q.pc.i, q.pc.j + 1)))
    ensures Inv(t)
  {
    assert Shape(s, p) && Loop(s, p);
    LocalKeeps(s, t, p, p);
  }

  lemma WakeParentKeeps(s: System, t: System, p: nat)
    requires Inv(s) && WakeParent(s, t, p)
    ensures Inv(t)
  {
    var q, j := s.proc[p], s.proc[p].pc.j;
    WokenKeeps(s, p, j, q.parent);
    assert Shape(s, p);
    WakeParentOn(Woken(s, p, j, q.parent), t, p, q);
  }

  lemma WakeParentOn(s: System, t: System, p: nat, q: Proc)
    requires Inv(s) && p < |s.proc| && q == s.proc[p] && q.pc.Wake? && q.pc.j < |s.proc|
    requires q.parent == Some(q.pc.j) ==> !AsleepInWait(s.proc[q.pc.j])
    requires t == Set(s, p, q.(pc := Wake(q.pc.j + 1)))
    ensures Inv(t)
  {
    assert Shape(s, p) && Loop(s, p);
    LocalKeeps(s, t, p, p);
  }

  lemma EndWakeInitKeeps(s: System, t: System, p: nat)
    requires Inv(s) && EndWakeInit(s, t, p)
    ensures Inv(t)
  {
    assert Shape(s, p) && Loop(s, p);
    LocalKeeps(s, t, p, p);
  }

  lemma EndWakeParentKeeps(s: System, t: System, p: nat)
    requires Inv(s) && EndWakeParent(s, t, p)
    ensures Inv(t)
  {
    assert Shape(s, p) && Loop(s, p);
    LocalKeeps(s, t, p, p);
  }

  lemma LockOwnKeeps(s: System, t: System, p: nat)
    requires Inv(s) && LockOwn(s, t, p)
    ensures Inv(t)
  {
    assert Shape(s, p) && Loop(s, p);
    LocalKeeps(s, t, p, p);
  }

  lemma ReleaseExitKeeps(s: System, t: System, p: nat)
    requires Inv(s) && ReleaseExit(s, t, p)
    ensures Inv(t)
  {
    assert Shape(s, p) && Loop(s, p);
    LocalKeeps(s, t, p, p);
  }

  lemma ReleaseDozeKeeps(s: System, t: System, p: nat)
    requires Inv(s) && ReleaseDoze(s, t, p)
    ensures Inv(t)
  {
    assert Shape(s, p) && Loop(s, p);
    forall k: nat ensures Shape(t, k) && PidFits(t, k) {
      assert Shape(s, k) && PidFits(s, k);
    }
    forall k: nat ensures Loop(t, k) {
      assert Loop(s, k) && Shape(s, k);
    }
    forall k: nat, l: nat ensures Apart(t, k, l) {
      assert Apart(s, k, l);
    }
    forall k: nat, l: nat ensures NotLost(t, k, l) {
      assert NotLost(s, k, l);
    }
  }

  lemma DieKeeps(s: System, t: System, p: nat)
    requires Inv(s) && Die(s, t, p)
    ensures Inv(t)
  {
    assert Shape(s, p) && Loop(s, p);
    forall k: nat ensures Shape(t, k) && PidFits(t, k) {
      assert Shape(s, k) && PidFits(s, k);
    }
    forall k: nat ensures Loop(t, k) {
      assert Loop(s, k) && Shape(s, k);
    }
    forall k: nat, l: nat ensures Apart(t, k, l) {
      assert Apart(s, k, l);
    }
    forall k: nat, l: nat ensures NotLost(t, k, l) {
      assert NotLost(s, k, l);
    }
  }

  lemma GiveAwayState(s: System, t: System, p: nat, k: nat)
    requires Inv(s) && GiveAway(s, t, p)
    ensures k < |t.proc| ==> Fits(t, k, t.proc[k]) && LockFits(t, k, t.proc[k])
  {
    var i := s.proc[p].pc.i;
    assert Shape(s, p) && Shape(s, i) && Shape(s, INIT) && Shape(s, k) && PidFits(s, k);
    if k < |t.proc| && k != p && k != i {
      assert t.proc[k] == s.proc[k];
    }
  }

  lemma GiveAwayKin(s: System, t: System, p: nat, k: nat)
    requires Inv(s) && GiveAway(s, t, p)
    ensures k < |t.proc| ==> ParentFits(t, k, t.proc[k]) && ForkFits(t, k, t.proc[k])
    ensures PidFits(t, k)
  {
    var i := s.proc[p].pc.i;
    assert Shape(s, p) && Shape(s, i) && Shape(s, INIT) && Shape(s, k) && PidFits(s, k);
    if k < |t.proc| && k != p && k != i {
      assert t.proc[k] == s.proc[k];
    }
  }

  lemma GiveAwayLoop(s: System, t: System, p: nat, k: nat)
    requires Inv(s) && GiveAway(s, t, p)
    ensures Loop(t, k)
  {
    var i := s.proc[p].pc.i;
    assert Shape(s, p) && Loop(s, p) && Shape(s, i) && Shape(s, INIT);
    assert Loop(s, k) && Shape(s, k);
  }

  lemma GiveAwayKeeps(s: System, t: System, p: nat)
    requires Inv(s) && GiveAway(s, t, p)
    ensures Inv(t)
  {
    var i := s.proc[p].pc.i;
    assert Shape(s, p) && Loop(s, p) && Shape(s, i) && Shape(s, INIT);
    forall k: nat ensures Shape(t, k) && PidFits(t, k) {
      GiveAwayState(s, t, p, k);
      GiveAwayKin(s, t, p, k);
    }
    forall k: nat ensures Loop(t, k) {
      GiveAwayLoop(s, t, p, k);
    }
    forall k: nat, l: nat ensures Apart(t, k, l) {
      assert Apart(s, k, l);
    }
    forall k: nat, l: nat ensures NotLost(t, k, l) {
      assert NotLost(s, k, l);
    }
  }

  lemma ReapState(s: System, t: System, p: nat, k: nat)
    requires Inv(s) && Reap(s, t, p)
    ensures k < |t.proc| ==> Fits(t, k, t.proc[k]) && LockFits(t, k, t.proc[k])
  {
    var i := s.proc[p].pc.i;
    assert Shape(s, p) && Loop(s, p) && Shape(s, i) && PidFits(s, i) && Shape(s, k) && PidFits(s, k) && Apart(s, k, i);
    if k < |t.proc| && k != p && k != i {
      assert t.proc[k] == s.proc[k];
    }
  }

  lemma ReapKin(s: System, t: System, p: nat, k: nat)
    requires Inv(s) && Reap(s, t, p)
    ensures k < |t.proc| ==> ParentFits(t, k, t.proc[k]) && ForkFits(t, k, t.proc[k])
    ensures PidFits(t, k)
  {
    var i := s.proc[p].pc.i;
    assert Shape(s, p) && Loop(s, p) && Shape(s, i) && PidFits(s, i) && Shape(s, k) && PidFits(s, k) && Apart(s, k, i);
    if k < |t.proc| && k != p && k != i {
      assert t.proc[k] == s.proc[k];
    }
  }

  lemma ReapLoop(s: System, t: System, p: nat, k: nat)
    requires Inv(s) && Reap(s, t, p)
    ensures Loop(t, k)
  {
    var i := s.proc[p].pc.i;
    assert Shape(s, p) && Loop(s, p) && Shape(s, i) && PidFits(s, i);
    assert Loop(s, k) && Shape(s, k);
  }

  lemma ReapKeeps(s: System, t: System, p: nat)
    requires Inv(s) && Reap(s, t, p)
    ensures Inv(t)
  {
    var i := s.proc[p].pc.i;
    assert Shape(s, p) && Loop(s, p) && Shape(s, i) && PidFits(s, i);
    forall k: nat ensures Shape(t, k) && PidFits(t, k) {
      ReapState(s, t, p, k);
      ReapKin(s, t, p, k);
    }
    forall k: nat ensures Loop(t, k) {
      ReapLoop(s, t, p, k);
    }
    forall k: nat, l: nat ensures Apart(t, k, l) {
      assert Apart(s, k, l);
    }
    forall k: nat, l: nat ensures NotLost(t, k, l) {
      assert NotLost(s, k, l);
    }
  }

  lemma AllocState(s: System, t: System, p: nat, c: nat, k: nat)
    requires Inv(s) && Alloc(s, t, p, c)
    ensures k < |t.proc| ==> Fits(t, k, t.proc[k]) && LockFits(t, k, t.proc[k])
  {
    assert Shape(s, p) && Shape(s, c);
    assert Shape(s, k) && PidFits(s, k);
  }

  lemma AllocKin(s: System, t: System, p: nat, c: nat, k: nat)
    requires Inv(s) && Alloc(s, t, p, c)
    ensures k < |t.proc| ==> ParentFits(t, k, t.proc[k]) && ForkFits(t, k, t.proc[k])
    ensures PidFits(t, k)
  {
    assert Shape(s, p) && Shape(s, c);
    assert Shape(s, k) && PidFits(s, k);
  }

  lemma AllocLoop(s: System, t: System, p: nat, c: nat, k: nat)
    requires Inv(s) && Alloc(s, t, p, c)
    ensures Loop(t, k)
  {
    assert Shape(s, p) && Shape(s, c);
    if k < |t.proc| && k != p && k != c {
      assert Loop(s, k) && Shape(s, k) && t.proc[k] == s.proc[k];
    }
  }

  lemma AllocKeeps(s: System, t: System, p: nat, c: nat)
    requires Inv(s) && Alloc(s, t, p, c)
    ensures Inv(t)
  {
    assert Shape(s, p) && Shape(s, c);
    forall k: nat ensures Shape(t, k) && PidFits(t, k) {
      AllocState(s, t, p, c, k);
      AllocKin(s, t, p, c, k);
    }
    forall k: nat ensures Loop(t, k) {
      AllocLoop(s, t, p, c, k);
    }
    forall k: nat, l: nat ensures Apart(t, k, l) {
      assert Apart(s, k, l) && PidFits(s, k) && PidFits(s, l) && Shape(s, k) && Shape(s, l);
    }
    forall k: nat, l: nat ensures NotLost(t, k, l) {
      assert NotLost(s, k, l);
    }
  }

  lemma CopyFailsState(s: System, t: System, p: nat, k: nat)
    requires Inv(s) && CopyFails(s, t, p)
    ensures k < |t.proc| ==> Fits(t, k, t.proc[k]) && LockFits(t, k, t.proc[k])
  {
    var c := s.proc[p].pc.c;
    assert Shape(s, p) && Shape(s, c) && Shape(s, k) && PidFits(s, k) && Apart(s, k, p);
    if k < |t.proc| && k != p && k != c {
      assert t.proc[k] == s.proc[k];
    }
  }

  lemma CopyFailsKin(s: System, t: System, p: nat, k: nat)
    requires Inv(s) && CopyFails(s, t, p)
    ensures k < |t.proc| ==> ParentFits(t, k, t.proc[k]) && ForkFits(t, k, t.proc[k])
    ensures PidFits(t, k)
  {
    var c := s.proc[p].pc.c;
    assert Shape(s, p) && Shape(s, c) && Shape(s, k) && PidFits(s, k) && Apart(s, k, p);
    if k < |t.proc| && k != p && k != c {
      assert t.proc[k] == s.proc[k];
    }
  }

  lemma CopyFailsLoop(s: System, t: System, p: nat, k: nat)
    requires Inv(s) && CopyFails(s, t, p)
    ensures Loop(t, k)
  {
    var c := s.proc[p].pc.c;
    assert Shape(s, p) && Shape(s, c);
    assert Loop(s, k) && Shape(s, k);
  }

  lemma CopyFailsKeeps(s: System, t: System, p: nat)
    requires Inv(s) && CopyFails(s, t, p)
    ensures Inv(t)
  {
    var c := s.proc[p].pc.c;
    assert Shape(s, p) && Shape(s, c);
    forall k: nat ensures Shape(t, k) && PidFits(t, k) {
      CopyFailsState(s, t, p, k);
      CopyFailsKin(s, t, p, k);
    }
    forall k: nat ensures Loop(t, k) {
      CopyFailsLoop(s, t, p, k);
    }
    forall k: nat, l: nat ensures Apart(t, k, l) {
      assert Apart(s, k, l);
    }
    forall k: nat, l: nat ensures NotLost(t, k, l) {
      assert NotLost(s, k, l);
    }
  }

  lemma SetParentState(s: System, t: System, p: nat, k: nat)
    requires Inv(s) && SetParent(s, t, p)
    ensures k < |t.proc| ==> Fits(t, k, t.proc[k]) && LockFits(t, k, t.proc[k])
  {
    var c := s.proc[p].pc.c;
    assert Shape(s, p) && Shape(s, c) && Shape(s, k) && PidFits(s, k) && Apart(s, k, p);
    if k < |t.proc| && k != p && k != c {
      assert t.proc[k] == s.proc[k];
    }
  }

  lemma SetParentKin(s: System, t: System, p: nat, k: nat)
    requires Inv(s) && SetParent(s, t, p)
    ensures k < |t.proc| ==> ParentFits(t, k, t.proc[k]) && ForkFits(t, k, t.proc[k])
    ensures PidFits(t, k)
  {
    var c := s.proc[p].pc.c;
    assert Shape(s, p) && Shape(s, c) && Shape(s, k) && PidFits(s, k) && Apart(s, k, p);
    if k < |t.proc| && k != p && k != c {
      assert t.proc[k] == s.proc[k];
    }
  }

  lemma SetParentLoop(s: System, t: System, p: nat, k: nat)
    requires Inv(s) && SetParent(s, t, p)
    ensures Loop(t, k)
  {
    var c := s.proc[p].pc.c;
    assert Shape(s, p) && Shape(s, c);
    assert Loop(s, k) && Shape(s, k);
  }

  lemma SetParentKeeps(s: System, t: System, p: nat)
    requires Inv(s) && SetParent(s, t, p)
    ensures Inv(t)
  {
    var c := s.proc[p].pc.c;
    assert Shape(s, p) && Shape(s, c);
    forall k: nat ensures Shape(t, k) && PidFits(t, k) {
      SetParentState(s, t, p, k);
      SetParentKin(s, t, p, k);
    }
    forall k: nat ensures Loop(t, k) {
      SetParentLoop(s, t, p, k);
    }
    forall k: nat, l: nat ensures Apart(t, k, l) {
      assert Apart(s, k, l);
    }
    forall k: nat, l: nat ensures NotLost(t, k, l) {
      assert NotLost(s, k, l);
    }
  }

  lemma StartState(s: System, t: System, p: nat, k: nat)
    requires Inv(s) && Start(s, t, p)
    ensures k < |t.proc| ==> Fits(t, k, t.proc[k]) && LockFits(t, k, t.proc[k])
  {
    var c := s.proc[p].pc.c;
    assert Shape(s, p) && Shape(s, c) && Shape(s, k) && PidFits(s, k) && Apart(s, k, p);
    if k < |t.proc| && k != p && k != c {
      assert t.proc[k] == s.proc[k];
    }
  }

  lemma StartKin(s: System, t: System, p: nat, k: nat)
    requires Inv(s) && Start(s, t, p)
    ensures k < |t.proc| ==> ParentFits(t, k, t.proc[k]) && ForkFits(t, k, t.proc[k])
    ensures PidFits(t, k)
  {
    var c := s.proc[p].pc.c;
    assert Shape(s, p) && Shape(s, c) && Shape(s, k) && PidFits(s, k) && Apart(s, k, p);
    if k < |t.proc| && k != p && k != c {
      assert t.proc[k] == s.proc[k];
    }
  }

  /** Only p and the child it starts change, and neither was in a loop. */
  lemma StartLoop(s: System, t: System, p: nat, k: nat)
    requires Inv(s) && Start(s, t, p)
    ensures Loop(t, k)
  {
    var c := s.proc[p].pc.c;
    assert Shape(s, p) && Shape(s, c);
    if k < |t.proc| && k != p && k != c {
      assert Loop(s, k) && Shape(s, k) && t.proc[k] == s.proc[k];
      forall d: nat | d < |t.proc|
        ensures t.proc[d].parent == s.proc[d].parent && (t.proc[d].state == Zombie <==> s.proc[d].state == Zombie)
      {
      }
    }
  }

  lemma StartKeeps(s: System, t: System, p: nat)
    requires Inv(s) && Start(s, t, p)
    ensures Inv(t)
  {
    var c := s.proc[p].pc.c;
    assert Shape(s, p) && Shape(s, c);
    forall k: nat ensures Shape(t, k) && PidFits(t, k) {
      StartState(s, t, p, k);
      StartKin(s, t, p, k);
    }
    forall k: nat ensures Loop(t, k) {
      StartLoop(s, t, p, k);
    }
    forall k: nat, l: nat ensures Apart(t, k, l) {
      assert Apart(s, k, l);
    }
    forall k: nat, l: nat ensures NotLost(t, k, l) {
      assert NotLost(s, k, l);
    }
  }

  // ---------------------------------------------------------------- every run

  predicate WaitStep(s: System, t: System, p: nat) {
    || StartWait(s, t, p) || LockWait(s, t, p) || LookPast(s, t, p) || LookAt(s, t, p) || Reap(s, t, p)
    || CopyoutFails(s, t, p)
    || NotYet(s, t, p) || EndScan(s, t, p) || LockDoze(s, t, p) || ReleaseDoze(s, t, p) || MarkDoze(s, t, p)
  }

  predicate SchedulerStep(s: System, t: System, p: nat) {
    || SchedOut(s, t, p) || SchedIn(s, t, p) || Yield(s, t, p) || SleepElsewhere(s, t, p) || WakeElsewhere(s, t, p)
    || Kill(s, t, p)
  }

  predicate ExitStep(s: System, t: System, p: nat) {
    || StartExit(s, t, p) || LockExit(s, t, p) || GiveAway(s, t, p) || PassBy(s, t, p) || EndReparent(s, t, p)
    || WakeInit(s, t, p)
    || EndWakeInit(s, t, p) || WakeParent(s, t, p) || EndWakeParent(s, t, p) || LockOwn(s, t, p) || Die(s, t, p)
    || ReleaseExit(s, t, p)
  }

  predicate ForkStep(s: System, t: System, p: nat, c: nat) {
    Alloc(s, t, p, c) || CopyFails(s, t, p) || SetParent(s, t, p) || Start(s, t, p)
  }

  predicate StepOf(s: System, t: System, p: nat, c: nat) {
    WaitStep(s, t, p) || SchedulerStep(s, t, p) || ExitStep(s, t, p) || ForkStep(s, t, p, c)
  }

  ghost predicate Next(s: System, t: System) {
    exists p: nat, c: nat :: StepOf(s, t, p, c)
  }

  lemma WaitStepKeeps(s: System, t: System, p: nat)
    requires Inv(s) && WaitStep(s, t, p)
    ensures Inv(t)
  {
    if StartWait(s, t, p) { StartWaitKeeps(s, t, p); }
    else if LockWait(s, t, p) { LockWaitKeeps(s, t, p); }
    else if LookPast(s, t, p) { LookPastKeeps(s, t, p); }
    else if LookAt(s, t, p) { LookAtKeeps(s, t, p); }
    else if Reap(s, t, p) { ReapKeeps(s, t, p); }
    else if CopyoutFails(s, t, p) { CopyoutFailsKeeps(s, t, p); }
    else if NotYet(s, t, p) { NotYetKeeps(s, t, p); }
    else if EndScan(s, t, p) { EndScanKeeps(s, t, p); }
    else if LockDoze(s, t, p) { LockDozeKeeps(s, t, p); }
    else if ReleaseDoze(s, t, p) { ReleaseDozeKeeps(s, t, p); }
    else { MarkDozeKeeps(s, t, p); }
  }

  lemma SchedulerStepKeeps(s: System, t: System, p: nat)
    requires Inv(s) && SchedulerStep(s, t, p)
    ensures Inv(t)
  {
    if SchedOut(s, t, p) { SchedOutKeeps(s, t, p); }
    else if SchedIn(s, t, p) { SchedInKeeps(s, t, p); }
    else if Yield(s, t, p) { YieldKeeps(s, t, p); }
    else if SleepElsewhere(s, t, p) { SleepElsewhereKeeps(s, t, p); }
    else if WakeElsewhere(s, t, p) { WakeElsewhereKeeps(s, t, p); }
    else { KillKeeps(s, t, p); }
  }

  lemma ExitStepKeeps(s: System, t: System, p: nat)
    requires Inv(s) && ExitStep(s, t, p)
    ensures Inv(t)
  {
    if StartExit(s, t, p) { StartExitKeeps(s, t, p); }
    else if LockExit(s, t, p) { LockExitKeeps(s, t, p); }
    else if GiveAway(s, t, p) { GiveAwayKeeps(s, t, p); }
    else if PassBy(s, t, p) { PassByKeeps(s, t, p); }
    else if EndReparent(s, t, p) { EndReparentKeeps(s, t, p); }
    else if WakeInit(s, t, p) { WakeInitKeeps(s, t, p); }
    else if EndWakeInit(s, t, p) { EndWakeInitKeeps(s, t, p); }
    else if WakeParent(s, t, p) { WakeParentKeeps(s, t, p); }
    else if EndWakeParent(s, t, p) { EndWakeParentKeeps(s, t, p); }
    else if LockOwn(s, t, p) { LockOwnKeeps(s, t, p); }
    else if Die(s, t, p) { DieKeeps(s, t, p); }
    else { ReleaseExitKeeps(s, t, p); }
  }

  lemma NextKeeps(s: System, t: System)
    requires Inv(s) && Next(s, t)
    ensures Inv(t)
  {
    var p: nat, c: nat :| StepOf(s, t, p, c);
    if WaitStep(s, t, p) { WaitStepKeeps(s, t, p); }
    else if SchedulerStep(s, t, p) { SchedulerStepKeeps(s, t, p); }
    else if ExitStep(s, t, p) { ExitStepKeeps(s, t, p); }
    else if Alloc(s, t, p, c) { AllocKeeps(s, t, p, c); }
    else if CopyFails(s, t, p) { CopyFailsKeeps(s, t, p); }
    else if SetParent(s, t, p) { SetParentKeeps(s, t, p); }
    else { StartKeeps(s, t, p); }
  }

  /** A run from boot: any steps of any processes in any order. */
  ghost predicate IsRun(n: nat, run: seq<System>) {
    && n > 0 && |run| > 0 && run[0] == Boot(n)
    && forall i: nat {:trigger run[i]} :: 0 < i < |run| ==> Next(run[i - 1], run[i])
  }

  lemma {:induction false} RunKeeps(n: nat, run: seq<System>, i: nat)
    requires IsRun(n, run) && i < |run|
    ensures Inv(run[i])
  {
    if i == 0 {
      BootInv(n);
    } else {
      RunKeeps(n, run, i - 1);
      NextKeeps(run[i - 1], run[i]);
    }
  }

  /** Whenever wait_lock is free, no process asleep in wait has an exited child. */
  lemma NoLostWakeup(n: nat, run: seq<System>, i: nat, p: nat, c: nat)
    requires IsRun(n, run) && i < |run| && var s := run[i]; p < |s.proc| && c < |s.proc|
    ensures var s := run[i];
            s.waitLock == None && AsleepInWait(s.proc[p]) && s.proc[c].parent == Some(p) ==> s.proc[c].state != Zombie
  {
    RunKeeps(n, run, i);
    assert NotLost(run[i], p, c);
  }

  /** Every parent is a process that has not exited: an exited process has no children left. */
  lemma NoOrphans(n: nat, run: seq<System>, i: nat, c: nat)
    requires IsRun(n, run) && i < |run| && c < |run[i].proc| && c != INIT && run[i].proc[c].state !in {Unused, Used}
    ensures var s := run[i];
            s.proc[c].parent.Some? && s.proc[c].parent.value < |s.proc| && Alive(s.proc[s.proc[c].parent.value])
  {
    RunKeeps(n, run, i);
    assert Shape(run[i], c);
  }

  /** Each process id is reaped at most once, and after its process is off the CPU for good. */
  lemma ReapedAtMostOnce(n: nat, run: seq<System>, i: nat)
    requires IsRun(n, run) && i < |run|
    ensures forall j: nat, k: nat :: j < k < |run[i].reaped| ==> run[i].reaped[j] != run[i].reaped[k]
  {
    RunKeeps(n, run, i);
  }

  lemma ReapedIsGone(n: nat, run: seq<System>, i: nat, p: nat, t: System)
    requires IsRun(n, run) && i < |run| && Reap(run[i], t, p)
    ensures run[i].proc[run[i].proc[p].pc.i].pc == Gone
    ensures t.reaped == run[i].reaped + [run[i].proc[run[i].proc[p].pc.i].pid]
  {
    RunKeeps(n, run, i);
    assert Shape(run[i], p) && Loop(run[i], p) && Shape(run[i], run[i].proc[p].pc.i);
  }

  /** How the parent of c can change hands: to init while q is in reparent, or c is freed by q's wait. */
  predicate HandedOn(s: System, t: System, c: nat, q: nat)
    requires c < |s.proc| && q < |s.proc| && c < |t.proc|
  {
    || t.proc[c].parent == Some(q)
    || (t.proc[c].parent == Some(INIT) && s.proc[q].pc == Reparent(c))
    || (t.proc[c] == FreeSlot() && s.proc[c].state == Zombie && s.proc[q].pc == Child(c))
  }

  lemma ReapHandsOn(s: System, t: System, p: nat, c: nat)
    requires Inv(s) && Reap(s, t, p) && c < |s.proc| && s.proc[c].parent.Some? && s.proc[c].parent.value < |s.proc|
    ensures |t.proc| == |s.proc| && HandedOn(s, t, c, s.proc[c].parent.value)
  {
    assert Shape(s, c) && Loop(s, p);
  }

  lemma WaitHandsOn(s: System, t: System, p: nat, c: nat)
    requires Inv(s) && WaitStep(s, t, p) && c < |s.proc| && s.proc[c].parent.Some? && s.proc[c].parent.value < |s.proc|
    ensures |t.proc| == |s.proc| && HandedOn(s, t, c, s.proc[c].parent.value)
  {
    if Reap(s, t, p) {
      ReapHandsOn(s, t, p, c);
    } else {
      assert |t.proc| == |s.proc| && t.proc[c].parent == s.proc[c].parent;
    }
  }

  lemma SchedulerHandsOn(s: System, t: System, p: nat, c: nat)
    requires SchedulerStep(s, t, p) && c < |s.proc| && s.proc[c].parent.Some? && s.proc[c].parent.value < |s.proc|
    ensures |t.proc| == |s.proc| && HandedOn(s, t, c, s.proc[c].parent.value)
  {
  }

  lemma ExitHandsOn(s: System, t: System, p: nat, c: nat)
    requires ExitStep(s, t, p) && c < |s.proc| && s.proc[c].parent.Some? && s.proc[c].parent.value < |s.proc|
    ensures |t.proc| == |s.proc| && HandedOn(s, t, c, s.proc[c].parent.value)
  {
  }

  lemma ForkHandsOn(s: System, t: System, p: nat, x: nat, c: nat)
    requires Inv(s) && ForkStep(s, t, p, x) && c < |s.proc|
    requires s.proc[c].parent.Some? && s.proc[c].parent.value < |s.proc|
    ensures |t.proc| == |s.proc| && HandedOn(s, t, c, s.proc[c].parent.value)
  {
    assert Shape(s, c) && Shape(s, p);
  }

  /** In every run, a process only ever leaves its parent for init, or by being reaped by that parent. */
  lemma OrphansPassToInit(n: nat, run: seq<System>, i: nat, c: nat)
    requires IsRun(n, run) && i + 1 < |run| && c < |run[i].proc| && run[i].proc[c].parent.Some?
    ensures var q := run[i].proc[c].parent.value;
            q < |run[i].proc| && c < |run[i + 1].proc| && HandedOn(run[i], run[i + 1], c, q)
  {
    var s, t := run[i], run[i + 1];
    RunKeeps(n, run, i);
    assert Next(s, t);
    assert Shape(s, c);
    var p: nat, x: nat :| StepOf(s, t, p, x);
    if WaitStep(s, t, p) { WaitHandsOn(s, t, p, c); }
    else if SchedulerStep(s, t, p) { SchedulerHandsOn(s, t, p, c); }
    else if ExitStep(s, t, p) { ExitHandsOn(s, t, p, c); }
    else { ForkHandsOn(s, t, p, x, c); }
  }
}

/** wait, exit, reparent, fork, sleep, wakeup and kill of kernel/proc.c as steps that interleave freely.
    Each step does what the code does between two acquisitions of a lock. waitx takes the same locks in the same
    order as wait, and its steps are those of wait. */
module ExitWait {
  import opened Basics

  const INIT: nat := 0

  datatype Run = Unused | Used | Sleeping | Runnable | Running | Zombie

  /** Where a process is in its kernel code. */
  datatype Pc =
    | Idle                        // no thread: a free slot, or one fork is filling in
    | User                        // anywhere outside wait, exit and fork
    | WaitLock                    // wait: about to acquire wait_lock
    | Scan(i: nat, kids: bool)    // wait: table entries below i looked at
    | Child(i: nat)               // wait: holding the lock of child i
    | Doze                        // sleep: about to acquire p->lock
    | DozeLocked                  // sleep: holding p->lock, about to release wait_lock
    | DozeMark                    // sleep: wait_lock released, about to become SLEEPING
    | DozePark                    // sleep: SLEEPING, in sched() with p->lock still held
    | Asleep                      // sleep: off the CPU
    | ExitLock                    // exit: about to acquire wait_lock
    | Reparent(i: nat)            // reparent: table entries below i done
    | ReparentWake(i: nat, j: nat) // wakeup(initproc) after entry i: entries below j done
    | Wake(j: nat)                // wakeup(p->parent): entries below j done
    | ExitOwn                     // exit: about to acquire p->lock
    | ExitMark                    // exit: about to become ZOMBIE
    | ExitRelease                 // exit: ZOMBIE, about to release wait_lock
    | ExitPark                    // exit: in sched() with p->lock still held
    | Gone                        // off the CPU for good
    | ForkParent(c: nat)          // fork: about to set the parent of c
    | ForkRun(c: nat)             // fork: about to make c RUNNABLE

  /** chan is the process whose address is slept on; any other channel is None. */
  datatype Proc = Proc(state: Run, chan: Option<nat>, parent: Option<nat>, pid: nat, killed: bool,
                       lock: Option<nat>, pc: Pc)

  datatype System = System(proc: seq<Proc>, waitLock: Option<nat>, nextpid: nat, reaped: seq<nat>)

  function Set(s: System, k: nat, q: Proc): System
    requires k < |s.proc|
  {
    s.(proc := s.proc[k := q])
  }

  function FreeSlot(): Proc {
    Proc(Unused, None, None, 0, false, None, Idle)
  }

  function Boot(n: nat): System
    requires n > 0
  {
    System([Proc(Runnable, None, None, 1, false, None, User)] + seq(n - 1, _ => FreeSlot()), None, 2, [])
  }

  predicate Preemptible(pc: Pc) {
    pc.User? || pc.WaitLock? || pc.ExitLock? || pc.ForkParent? || pc.ForkRun?
  }

  /** wakeup's loop can go past entry j: it is the caller itself, or its lock is free. */
  predicate WakeTurn(s: System, p: nat, j: nat) {
    j < |s.proc| && (j == p || s.proc[j].lock == None)
  }

  /** Entry j of wakeup(chan), called by p. */
  function Woken(s: System, p: nat, j: nat, chan: Option<nat>): System
    requires j < |s.proc|
  {
    if j != p && s.proc[j].state == Sleeping && chan != None && s.proc[j].chan == chan
    then Set(s, j, s.proc[j].(state := Runnable)) else s
  }

  // ---------------------------------------------------------------- the steps

  /** wait is called. */
  predicate StartWait(s: System, t: System, p: nat) {
    p < |s.proc| && var q := s.proc[p];
    && q.pc.User? && q.state == Running
    && t == Set(s, p, q.(pc := WaitLock))
  }

  /** acquire(&wait_lock), and the scan starts. */
  predicate LockWait(s: System, t: System, p: nat) {
    p < |s.proc| && var q := s.proc[p];
    && q.pc.WaitLock? && q.state == Running && s.waitLock == None
    && t == Set(s, p, q.(pc := Scan(0, false))).(waitLock := Some(p))
  }

  /** A table entry that is no child of p. */
  predicate LookPast(s: System, t: System, p: nat) {
    p < |s.proc| && var q := s.proc[p];
    && q.pc.Scan? && q.pc.i < |s.proc| && s.proc[q.pc.i].parent != Some(p)
    && t == Set(s, p, q.(pc := Scan(q.pc.i + 1, q.pc.kids)))
  }

  /** A child of p, looked at with its lock held. */
  predicate LookAt(s: System, t: System, p: nat) {
    p < |s.proc| && var q := s.proc[p];
    && q.pc.Scan? && q.pc.i < |s.proc| && s.proc[q.pc.i].parent == Some(p) && s.proc[q.pc.i].lock == None
    && t == (var u := Set(s, p, q.(pc := Child(q.pc.i))); Set(u, q.pc.i, u.proc[q.pc.i].(lock := Some(p))))
  }

  /** An exited child: freeproc, both locks released, its pid returned. */
  predicate Reap(s: System, t: System, p: nat) {
    p < |s.proc| && var q := s.proc[p];
    && q.pc.Child? && q.pc.i < |s.proc| && s.proc[q.pc.i].state == Zombie
    && t == Set(Set(s, p, q.(pc := User)), q.pc.i, FreeSlot())
            .(waitLock := None, reaped := s.reaped + [s.proc[q.pc.i].pid])
  }

  /** An exited child whose status cannot be copied out. */
  predicate CopyoutFails(s: System, t: System, p: nat) {
    p < |s.proc| && var q := s.proc[p];
    && q.pc.Child? && q.pc.i < |s.proc| && s.proc[q.pc.i].state == Zombie
    && t == (var t := Set(s, p, q.(pc := User)); Set(t, q.pc.i, t.proc[q.pc.i].(lock := None)).(waitLock := None))
  }

  /** A child that has not exited. */
  predicate NotYet(s: System, t: System, p: nat) {
    p < |s.proc| && var q := s.proc[p];
    && q.pc.Child? && q.pc.i < |s.proc| && s.proc[q.pc.i].state != Zombie
    && t == (var t := Set(s, p, q.(pc := Scan(q.pc.i + 1, true))); Set(t, q.pc.i, t.proc[q.pc.i].(lock := None)))
  }

  /** The end of the scan: give up, or go to sleep. */
  predicate EndScan(s: System, t: System, p: nat) {
    p < |s.proc| && var q := s.proc[p];
    && q.pc.Scan? && q.pc.i == |s.proc|
    && t == (if !q.pc.kids || q.killed then Set(s, p, q.(pc := User)).(waitLock := None) else Set(s, p, q.(pc := Doze)))
  }

  /** sleep: acquire(&p->lock). */
  predicate LockDoze(s: System, t: System, p: nat) {
    p < |s.proc| && var q := s.proc[p];
    && q.pc.Doze? && q.lock == None
    && t == Set(s, p, q.(pc := DozeLocked, lock := Some(p)))
  }

  /** sleep: release(lk). */
  predicate ReleaseDoze(s: System, t: System, p: nat) {
    p < |s.proc| && var q := s.proc[p];
    && q.pc.DozeLocked?
    && t == Set(s, p, q.(pc := DozeMark)).(waitLock := None)
  }

  /** sleep: SLEEPING on itself. */
  predicate MarkDoze(s: System, t: System, p: nat) {
    p < |s.proc| && var q := s.proc[p];
    && q.pc.DozeMark?
    && t == Set(s, p, q.(pc := DozePark, state := Sleeping, chan := Some(p)))
  }

  /** The scheduler, having switched away from p, releases p->lock. */
  predicate SchedOut(s: System, t: System, p: nat) {
    p < |s.proc| && var q := s.proc[p];
    && (q.pc.DozePark? || q.pc.ExitPark?)
    && t == Set(s, p, q.(pc := if q.pc.DozePark? then Asleep else Gone, lock := None))
  }

  /** The scheduler runs p; a process in sleep tidies up and goes for wait_lock again. */
  predicate SchedIn(s: System, t: System, p: nat) {
    p < |s.proc| && var q := s.proc[p];
    && q.state == Runnable && q.lock == None
    && t == Set(s, p, if q.pc.Asleep? then q.(state := Running, chan := None, pc := WaitLock) else q.(state := Running))
  }

  /** The clock takes the CPU away from p, which holds no spinlock. */
  predicate Yield(s: System, t: System, p: nat) {
    p < |s.proc| && var q := s.proc[p];
    && Preemptible(q.pc) && q.state == Running && q.lock == None
    && t == Set(s, p, q.(state := Runnable))
  }

  /** p sleeps on something else. */
  predicate SleepElsewhere(s: System, t: System, p: nat) {
    p < |s.proc| && var q := s.proc[p];
    && q.pc.User? && q.state == Running && q.lock == None
    && t == Set(s, p, q.(state := Sleeping))
  }

  /** Something else wakes p. */
  predicate WakeElsewhere(s: System, t: System, p: nat) {
    p < |s.proc| && var q := s.proc[p];
    && q.pc.User? && q.state == Sleeping && q.lock == None
    && t == Set(s, p, q.(state := Runnable))
  }

  /** kill: the flag, and out of any sleep. */
  predicate Kill(s: System, t: System, p: nat) {
    p < |s.proc| && var q := s.proc[p];
    && q.lock == None
    && t == Set(s, p, q.(killed := true, state := if q.state == Sleeping then Runnable else q.state))
  }

  /** exit is called. */
  predicate StartExit(s: System, t: System, p: nat) {
    p < |s.proc| && var q := s.proc[p];
    && q.pc.User? && q.state == Running && p != INIT
    && t == Set(s, p, q.(pc := ExitLock))
  }

  /** acquire(&wait_lock), and reparent starts. */
  predicate LockExit(s: System, t: System, p: nat) {
    p < |s.proc| && var q := s.proc[p];
    && q.pc.ExitLock? && q.state == Running && s.waitLock == None
    && t == Set(s, p, q.(pc := Reparent(0))).(waitLock := Some(p))
  }

  /** A child of p, given to init. */
  predicate GiveAway(s: System, t: System, p: nat) {
    p < |s.proc| && var q := s.proc[p];
    && q.pc.Reparent? && q.pc.i < |s.proc| && s.proc[q.pc.i].parent == Some(p)
    && t == (var u := Set(s, p, q.(pc := ReparentWake(q.pc.i, 0)));
             Set(u, q.pc.i, u.proc[q.pc.i].(parent := Some(INIT))))
  }

  /** A table entry of reparent that is no child of p. */
  predicate PassBy(s: System, t: System, p: nat) {
    p < |s.proc| && var q := s.proc[p];
    && q.pc.Reparent? && q.pc.i < |s.proc| && s.proc[q.pc.i].parent != Some(p)
    && t == Set(s, p, q.(pc := Reparent(q.pc.i + 1)))
  }

  predicate EndReparent(s: System, t: System, p: nat) {
    p < |s.proc| && var q := s.proc[p];
    && q.pc.Reparent? && q.pc.i == |s.proc|
    && t == Set(s, p, q.(pc := Wake(0)))
  }

  /** The next table entry of wakeup(initproc) in reparent. */
  predicate WakeInit(s: System, t: System, p: nat) {
    p < |s.proc| && var q := s.proc[p];
    && q.pc.ReparentWake? && q.pc.j < |s.proc| && WakeTurn(s, p, q.pc.j)
    && t == Woken(Set(s, p, q.(pc := ReparentWake(q.pc.i, q.pc.j + 1))), p, q.pc.j, Some(INIT))
  }

  predicate EndWakeInit(s: System, t: System, p: nat) {
    p < |s.proc| && var q := s.proc[p];
    && q.pc.ReparentWake? && q.pc.j == |s.proc|
    && t == Set(s, p, q.(pc := Reparent(q.pc.i + 1)))
  }

  /** The next table entry of wakeup(p->parent). */
  predicate WakeParent(s: System, t: System, p: nat) {
    p < |s.proc| && var q := s.proc[p];
    && q.pc.Wake? && q.pc.j < |s.proc| && WakeTurn(s, p, q.pc.j)
    && t == Woken(Set(s, p, q.(pc := Wake(q.pc.j + 1))), p, q.pc.j, q.parent)
  }

  predicate EndWakeParent(s: System, t: System, p: nat) {
    p < |s.proc| && var q := s.proc[p];
    && q.pc.Wake? && q.pc.j == |s.proc|
    && t == Set(s, p, q.(pc := ExitOwn))
  }

  /** acquire(&p->lock). */
  predicate LockOwn(s: System, t: System, p: nat) {
    p < |s.proc| && var q := s.proc[p];
    && q.pc.ExitOwn? && q.lock == None
    && t == Set(s, p, q.(pc := ExitMark, lock := Some(p)))
  }

  /** ZOMBIE. */
  predicate Die(s: System, t: System, p: nat) {
    p < |s.proc| && var q := s.proc[p];
    && q.pc.ExitMark?
    && t == Set(s, p, q.(pc := ExitRelease, state := Zombie))
  }

  /** release(&wait_lock); on to sched(). */
  predicate ReleaseExit(s: System, t: System, p: nat) {
    p < |s.proc| && var q := s.proc[p];
    && q.pc.ExitRelease?
    && t == Set(s, p, q.(pc := ExitPark)).(waitLock := None)
  }

  /** fork: allocproc takes the free slot c. */
  predicate Alloc(s: System, t: System, p: nat, c: nat) {
    p < |s.proc| && var q := s.proc[p];
    && q.pc.User? && q.state == Running && c < |s.proc| && s.proc[c].state == Unused && s.proc[c].lock == None
    && t == Set(Set(s, p, q.(pc := ForkParent(c))), c, s.proc[c].(state := Used, pid := s.nextpid))
            .(nextpid := s.nextpid + 1)
  }

  /** fork: uvmcopy fails and the slot is freed. */
  predicate CopyFails(s: System, t: System, p: nat) {
    p < |s.proc| && var q := s.proc[p];
    && q.pc.ForkParent? && q.state == Running && q.pc.c < |s.proc|
    && t == Set(Set(s, p, q.(pc := User)), q.pc.c, FreeSlot())
  }

  /** fork: np->parent = p under wait_lock. */
  predicate SetParent(s: System, t: System, p: nat) {
    p < |s.proc| && var q := s.proc[p];
    && q.pc.ForkParent? && q.state == Running && q.pc.c < |s.proc| && s.waitLock == None
    && t == (var t := Set(s, p, q.(pc := ForkRun(q.pc.c))); Set(t, q.pc.c, t.proc[q.pc.c].(parent := Some(p))))
  }

  /** fork: the child becomes RUNNABLE. */
  predicate Start(s: System, t: System, p: nat) {
    p < |s.proc| && var q := s.proc[p];
    && q.pc.ForkRun? && q.state == Running && q.pc.c < |s.proc| && s.proc[q.pc.c].lock == None
    && t == (var t := Set(s, p, q.(pc := User)); Set(t, q.pc.c, t.proc[q.pc.c].(state := Runnable, pc := User)))
  }

  // ---------------------------------------------------------------- what every step keeps

  /** The code that runs with wait_lock held. */
  predicate Critical(pc: Pc) {
    || pc.Scan? || pc.Child? || pc.Doze? || pc.DozeLocked?
    || pc.Reparent? || pc.ReparentWake? || pc.Wake? || pc.ExitOwn? || pc.ExitMark? || pc.ExitRelease?
  }

  /** The code that runs with the process's own lock held. */
  predicate OwnLock(pc: Pc) {
    pc.DozeLocked? || pc.DozeMark? || pc.DozePark? || pc.ExitMark? || pc.ExitRelease? || pc.ExitPark?
  }

  /** A process asleep in wait, or past the point where it gave up wait_lock to sleep. */
  predicate AsleepInWait(q: Proc) {
    q.pc.DozeMark? || q.pc.DozePark? || (q.pc.Asleep? && q.state == Sleeping)
  }

  predicate Exiting(pc: Pc) {
    pc.ExitLock? || pc.Reparent? || pc.ReparentWake? || pc.Wake? || pc.ExitOwn? || pc.ExitMark?
  }

  /** A process's run state, channel and lock fit its place in the code. */
  predicate Fits(s: System, k: nat, q: Proc) {
    && (s.waitLock == Some(k) <==> Critical(q.pc))
    && ((q.state == Unused || q.state == Used) <==> q.pc.Idle?)
    && (q.state == Zombie <==> (q.pc.ExitRelease? || q.pc.ExitPark? || q.pc.Gone?))
    && ((Critical(q.pc) && !q.pc.ExitRelease?) || q.pc.DozeMark? ==> q.state == Running)
    && (q.pc.DozePark? ==> q.state == Sleeping)
    && (q.pc.Asleep? ==> q.state == Sleeping || q.state == Runnable)
    && (q.state == Sleeping ==> q.pc.DozePark? || q.pc.Asleep? || q.pc.User?)
    && q.chan == (if q.pc.DozePark? || q.pc.Asleep? then Some(k) else None)
    && (OwnLock(q.pc) ==> q.lock == Some(k))
    && (q.lock == Some(k) ==> OwnLock(q.pc))
    && (q.state == Unused ==> q.parent == None)
    && (k != INIT && q.state != Unused && q.state != Used ==> q.parent.Some?)
    && (k == INIT ==> q.parent == None && !q.pc.Idle? && q.state != Zombie && !Exiting(q.pc))
  }

  /** A lock that is not the owner's own belongs to a parent looking at the process. */
  predicate LockFits(s: System, k: nat, q: Proc) {
    q.lock.Some? && q.lock.value != k ==> q.lock.value < |s.proc| && s.proc[q.lock.value].pc == Child(k)
  }

  /** Parents are processes that have not exited. */
  predicate ParentFits(s: System, k: nat, q: Proc) {
    q.parent.Some? ==> q.parent.value < |s.proc| && q.parent.value != k && var r := s.proc[q.parent.value];
                       r.state != Unused && r.state != Used && r.state != Zombie
  }

  /** A slot being filled by fork belongs to one process. */
  predicate ForkFits(s: System, k: nat, q: Proc) {
    && (q.pc.ForkParent? ==>
        q.pc.c < |s.proc| && q.pc.c != k && s.proc[q.pc.c].state == Used && s.proc[q.pc.c].parent == None)
    && (q.pc.ForkRun? ==>
        q.pc.c < |s.proc| && q.pc.c != k && s.proc[q.pc.c].state == Used && s.proc[q.pc.c].parent == Some(k))
  }

  function Making(pc: Pc): Option<nat> {
    if pc.ForkParent? || pc.ForkRun? then Some(pc.c) else None
  }

  ghost predicate NoZombieBelow(s: System, p: nat, i: nat) {
    forall c: nat {:trigger s.proc[c]} ::
      c < i && c < |s.proc| && s.proc[c].parent == Some(p) ==> s.proc[c].state != Zombie
  }

  ghost predicate NoChildBelow(s: System, p: nat, i: nat) {
    forall c: nat {:trigger s.proc[c]} :: c < i && c < |s.proc| ==> s.proc[c].parent != Some(p)
  }

  /** The parent that wakeup(p->parent) has gone past is not asleep in wait. */
  predicate ParentAwake(s: System, q: Proc) {
    q.parent.Some? && q.parent.value < |s.proc| ==> !AsleepInWait(s.proc[q.parent.value])
  }

  /** What holds while wait and exit run through the process table. */
  ghost predicate LoopFits(s: System, k: nat, q: Proc) {
    && (q.pc.Scan? ==> q.pc.i <= |s.proc| && NoZombieBelow(s, k, q.pc.i))
    && (q.pc.Child? ==>
        && q.pc.i < |s.proc| && s.proc[q.pc.i].parent == Some(k) && s.proc[q.pc.i].lock == Some(k)
        && NoZombieBelow(s, k, q.pc.i))
    && (q.pc.Doze? || q.pc.DozeLocked? ==> NoZombieBelow(s, k, |s.proc|))
    && (q.pc.Reparent? ==> q.pc.i <= |s.proc| && NoChildBelow(s, k, q.pc.i))
    && (q.pc.ReparentWake? ==> q.pc.i < |s.proc| && q.pc.j <= |s.proc| && NoChildBelow(s, k, q.pc.i + 1))
    && (q.pc.Wake? || q.pc.ExitOwn? || q.pc.ExitMark? ==> NoChildBelow(s, k, |s.proc|))
    && (q.pc.Wake? ==> q.pc.j <= |s.proc| && (q.parent.Some? && q.parent.value < q.pc.j ==> ParentAwake(s, q)))
    && (q.pc.ExitOwn? || q.pc.ExitMark? ==> ParentAwake(s, q))
  }

  /** Process p must still be woken by the holder of wait_lock: it is init, and reparent has handed it a child. */
  predicate WakePending(s: System, p: nat) {
    s.waitLock.Some? && s.waitLock.value < |s.proc| && var e := s.proc[s.waitLock.value];
    p == INIT && e.pc.ReparentWake? && e.pc.j <= INIT
  }

  predicate ExitedChild(q: Proc, p: nat) {
    q.parent == Some(p) && q.state == Zombie
  }

  /** No wakeup is lost: if p is asleep in wait and its child c has exited, p is about to be woken. */
  predicate NotLost(s: System, p: nat, c: nat) {
    p < |s.proc| && c < |s.proc| && AsleepInWait(s.proc[p]) && ExitedChild(s.proc[c], p) ==> WakePending(s, p)
  }

  predicate Shape(s: System, k: nat) {
    k < |s.proc| ==>
      var q := s.proc[k]; Fits(s, k, q) && LockFits(s, k, q) && ParentFits(s, k, q) && ForkFits(s, k, q)
  }

  ghost predicate Loop(s: System, k: nat) {
    k < |s.proc| ==> LoopFits(s, k, s.proc[k])
  }

  /** Process ids are below nextpid, and a reaped one is gone. */
  predicate PidFits(s: System, k: nat) {
    k < |s.proc| && s.proc[k].state != Unused ==> s.proc[k].pid < s.nextpid && s.proc[k].pid !in s.reaped
  }

  /** Two processes have different ids and are not making the same child. */
  predicate Apart(s: System, k: nat, l: nat) {
    k < |s.proc| && l < |s.proc| && k != l ==>
      && (s.proc[k].state != Unused && s.proc[l].state != Unused ==> s.proc[k].pid != s.proc[l].pid)
      && (Making(s.proc[k].pc).Some? ==> Making(s.proc[k].pc) != Making(s.proc[l].pc))
  }

  predicate ReapedOnce(s: System) {
    && (forall m: nat {:trigger s.reaped[m]} :: m < |s.reaped| ==> s.reaped[m] < s.nextpid)
    && (forall m: nat, n: nat {:trigger s.reaped[m], s.reaped[n]} :: m < n < |s.reaped| ==> s.reaped[m] != s.reaped[n])
  }

  ghost predicate Inv(s: System) {
    && |s.proc| > 0 && (s.waitLock.Some? ==> s.waitLock.value < |s.proc|) && ReapedOnce(s)
    && (forall k: nat {:trigger Shape(s, k)} :: Shape(s, k))
    && (forall k: nat {:trigger Loop(s, k)} :: Loop(s, k))
    && (forall k: nat {:trigger PidFits(s, k)} :: PidFits(s, k))
    && (forall k: nat, l: nat {:trigger Apart(s, k, l)} :: Apart(s, k, l))
    && (forall p: nat, c: nat {:trigger NotLost(s, p, c)} :: NotLost(s, p, c))
  }

  lemma BootInv(n: nat)
    requires n > 0
    ensures Inv(Boot(n))
    ensures forall k: nat :: k < n ==> !Boot(n).proc[k].killed && (Boot(n).proc[k].pid > 0 <==> k == INIT)
  {
  }
}

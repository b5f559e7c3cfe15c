/** Readers of file blocks that come and go while commit runs: fileread takes buffers without being an operation of
    the log. */
module Readers {
  import opened Basics
  import opened Bio

  /** A reader takes the buffer of block b, or gives it back. One that finds it taken comes later. */
  datatype Visit = Come(b: nat) | Go(b: nat)

  /** What readers do before each write of a commit: to the log, of the header, home, and of the cleared header. */
  datatype Schedule = Schedule(log: seq<seq<Visit>>, head: seq<Visit>, install: seq<seq<Visit>>, clear: seq<Visit>)

  /** The blocks whose buffers readers hold, and how many they are. */
  datatype Crowd = Crowd(blocks: set<nat>, size: nat)

  /** Who is there after a visit while `pins` other blocks are pinned; None is a reader's "no buffers" panic. */
  function Visited(held: Crowd, pins: nat, v: Visit): Option<Crowd> {
    match v
    case Come(b) =>
      if b in held.blocks then Some(held)
      else if pins + held.size < NBUF then Some(Crowd(held.blocks + {b}, held.size + 1))
      else None
    case Go(b) =>
      if b in held.blocks && held.size > 0 then Some(Crowd(held.blocks - {b}, held.size - 1)) else Some(held)
  }

  function VisitedAll(held: Crowd, pins: nat, vs: seq<Visit>, k: nat): Option<Crowd>
    requires k <= |vs|
  {
    if k == 0 then Some(held) else
      match VisitedAll(held, pins, vs, k - 1)
      case None => None
      case Some(h) => Visited(h, pins, vs[k - 1])
  }

  /** Who is there when a write of commit begins; None if somebody, commit included, finds no buffer. */
  function Opened(held: Crowd, pins: nat, vs: seq<Visit>): Option<Crowd> {
    match VisitedAll(held, pins, vs, |vs|)
    case None => None
    case Some(h) => if pins + h.size < NBUF then Some(h) else None
  }

  /** After k rounds of one of commit's loops; with `falling`, each round unpins a block. */
  function Rounds(held: Crowd, pins: nat, falling: bool, vs: seq<seq<Visit>>, k: nat): Option<Crowd>
    requires k <= |vs| && (falling ==> |vs| <= pins)
  {
    if k == 0 then Some(held) else
      match Rounds(held, pins, falling, vs, k - 1)
      case None => None
      case Some(h) => Opened(h, if falling then pins - (k - 1) else pins, vs[k - 1])
  }

  /** After a commit of n blocks. */
  function Committed(held: Crowd, n: nat, s: Schedule): Option<Crowd>
    requires |s.log| == |s.install| == n
  {
    match Rounds(held, n, false, s.log, n)
    case None => None
    case Some(h) =>
      match Opened(h, n, s.head)
      case None => None
      case Some(h) =>
        match Rounds(h, n, true, s.install, n)
        case None => None
        case Some(h) => Opened(h, 0, s.clear)
  }

  /** Nobody comes or goes. */
  function Still(n: nat): Schedule {
    Schedule(seq(n, _ => []), [], seq(n, _ => []), [])
  }

  lemma {:induction false} RoundsStill(held: Crowd, pins: nat, falling: bool, n: nat, k: nat)
    requires k <= n && (falling ==> n <= pins)
    ensures Rounds(held, pins, falling, seq(n, _ => []), k)
         == if k == 0 || pins + held.size < NBUF then Some(held) else None
  {
    if k == 0 {
    } else {
      RoundsStill(held, pins, falling, n, k - 1);
    }
  }

  /** With nobody coming or going, commit finds its buffers exactly if there is one besides the pinned and the held. */
  lemma CommittedStill(held: Crowd, n: nat)
    requires n > 0
    ensures Committed(held, n, Still(n)) == if n + held.size < NBUF then Some(held) else None
  {
    RoundsStill(held, n, false, n, n);
    RoundsStill(held, n, true, n, n);
  }

  lemma RoundsStep(held: Crowd, pins: nat, falling: bool, vs: seq<seq<Visit>>, k: nat, h: Crowd)
    requires k < |vs| && (falling ==> |vs| <= pins) && Rounds(held, pins, falling, vs, k) == Some(h)
    ensures Rounds(held, pins, falling, vs, k + 1) == Opened(h, if falling then pins - k else pins, vs[k])
  {
  }

  lemma {:induction false} VisitsFail(held: Crowd, pins: nat, vs: seq<Visit>, j: nat, k: nat)
    requires j <= k <= |vs| && VisitedAll(held, pins, vs, j) == None
    ensures VisitedAll(held, pins, vs, k) == None
  {
    if j == k {
    } else {
      VisitsFail(held, pins, vs, j, k - 1);
    }
  }

  lemma {:induction false} RoundsFail(held: Crowd, pins: nat, falling: bool, vs: seq<seq<Visit>>, j: nat, k: nat)
    requires j <= k <= |vs| && (falling ==> |vs| <= pins) && Rounds(held, pins, falling, vs, j) == None
    ensures Rounds(held, pins, falling, vs, k) == None
  {
    if j == k {
    } else {
      RoundsFail(held, pins, falling, vs, j, k - 1);
    }
  }

  // ---------------------------------------------------------------- when there is room for all

  /** How many times a reader comes. */
  function Comings(vs: seq<Visit>, k: nat): nat
    requires k <= |vs|
  {
    if k == 0 then 0 else Comings(vs, k - 1) + if vs[k - 1].Come? then 1 else 0
  }

  function AllComings(vs: seq<seq<Visit>>, k: nat): nat
    requires k <= |vs|
  {
    if k == 0 then 0 else AllComings(vs, k - 1) + Comings(vs[k - 1], |vs[k - 1]|)
  }

  lemma {:induction false} VisitsFit(held: Crowd, pins: nat, vs: seq<Visit>, k: nat)
    requires k <= |vs| && pins + held.size + Comings(vs, k) <= NBUF
    ensures var r := VisitedAll(held, pins, vs, k); r.Some? && r.value.size <= held.size + Comings(vs, k)
  {
    if k == 0 {
    } else {
      VisitsFit(held, pins, vs, k - 1);
    }
  }

  lemma {:induction false} RoundsFit(held: Crowd, pins: nat, falling: bool, vs: seq<seq<Visit>>, k: nat)
    requires k <= |vs| && (falling ==> |vs| <= pins) && pins + held.size + AllComings(vs, k) < NBUF
    ensures var r := Rounds(held, pins, falling, vs, k); r.Some? && r.value.size <= held.size + AllComings(vs, k)
  {
    if k == 0 {
    } else {
      RoundsFit(held, pins, falling, vs, k - 1);
      var h := Rounds(held, pins, falling, vs, k - 1).value;
      VisitsFit(h, if falling then pins - (k - 1) else pins, vs[k - 1], |vs[k - 1]|);
    }
  }

  /** A commit finds its buffers whenever there is one besides those of the logged blocks, of the readers it finds and
      of all that come while it runs. */
  lemma RoomForAll(held: Crowd, n: nat, s: Schedule)
    requires |s.log| == |s.install| == n
    requires n + held.size + AllComings(s.log, n) + Comings(s.head, |s.head|)
               + AllComings(s.install, n) + Comings(s.clear, |s.clear|) < NBUF
    ensures Committed(held, n, s).Some?
  {
    RoundsFit(held, n, false, s.log, n);
    var h1 := Rounds(held, n, false, s.log, n).value;
    VisitsFit(h1, n, s.head, |s.head|);
    var h2 := Opened(h1, n, s.head).value;
    RoundsFit(h2, n, true, s.install, n);
    var h3 := Rounds(h2, n, true, s.install, n).value;
    VisitsFit(h3, 0, s.clear, |s.clear|);
  }
}

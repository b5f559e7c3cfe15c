/** The driver side of kernel/virtio_disk.c, each method one stretch of code under vdisk_lock, and the device,
    whose two steps may come between any of them. */
module Virtio {
  import opened Basics
  import FsBlocks
  import opened VirtioState

  /** Descriptors below n are all in use. */
  predicate NoneFreeBelow(free: seq<bool>, n: nat) {
    forall i: nat :: i < n && i < |free| ==> !free[i]
  }

  /** From s to t exactly the descriptors idx have been allocated. */
  ghost predicate Allocated(s: Disk, t: Disk, idx: seq<nat>) {
    && Sized(s) && Sized(t) && Distinct(idx)
    && (forall k: nat {:trigger idx[k]} :: k < |idx| ==> idx[k] < NUM && s.owner[idx[k]] == Free)
    && (forall i: nat {:trigger t.owner[i]} :: i < NUM ==> t.owner[i] == if i in idx then Held else s.owner[i])
    && (forall i: nat {:trigger t.free[i]} :: i < NUM ==> t.free[i] == (s.free[i] && i !in idx))
  }

  lemma TakenMore(s: Disk, t: Disk, idx: seq<nat>, i: nat)
    requires Allocated(s, t, idx) && Inv(t) && i < NUM && t.free[i]
    ensures Allocated(s, Took(t, i), idx + [i])
  {
    assert OwnerOk(t, i);
    forall k: nat | k < |idx| ensures idx[k] != i {
      assert t.owner[idx[k]] == Held;
    }
  }

  lemma TakenLess(s: Disk, t: Disk, idx: seq<nat>)
    requires Inv(s) && Allocated(s, t, idx) && idx != []
    ensures Allocated(s, Freed(t, idx[0]), idx[1..])
  {
    assert OwnerOk(s, idx[0]);
    assert idx == [idx[0]] + idx[1..];
    assert forall i: nat {:trigger i in idx[1..]} :: i in idx[1..] <==> i in idx && i != idx[0];
  }

  lemma TakenNone(s: Disk, t: Disk)
    requires Allocated(s, t, [])
    ensures t.owner == s.owner && t.free == s.free
  {
  }

  /** With no descriptor left, there were only as many as have been taken. */
  lemma TooFew(s: Disk, t: Disk, idx: seq<nat>)
    requires Inv(t) && Allocated(s, t, idx) && |idx| < 3 && NoneFreeBelow(t.free, NUM)
    ensures |OwnedAs(s, Free)| < 3
  {
    forall i | i in OwnedAs(s, Free) ensures i in idx {
      assert OwnerOk(t, i);
    }
    AtMost(OwnedAs(s, Free), idx);
  }

  lemma {:induction false} AtMost(a: set<nat>, q: seq<nat>)
    requires forall i :: i in a ==> i in q
    ensures |a| <= |q|
    decreases |q|
  {
    if q == [] {
    } else {
      var b := a - {q[0]};
      AtMost(b, q[1..]);
      assert a <= b + {q[0]};
      assert a == b || a == b + {q[0]};
    }
  }

  /** b->blockno * (FsBlocks.BSIZE / 512) in 32 bits. */
  function Sector(blockno: nat): nat {
    blockno * (FsBlocks.BSIZE / 512) % 0x1_0000_0000
  }

  /** Different blocks below 2^31 lie on different sectors: the second begins where the first has ended. */
  lemma SectorsApart(a: nat, b: nat)
    requires a < b < 0x8000_0000
    ensures Sector(a) + FsBlocks.BSIZE / 512 <= Sector(b)
  {
    SectorExact(a);
    SectorExact(b);
  }

  /** The 32-bit product is the block's place on the disk exactly below block 2^31. */
  lemma SectorExact(a: nat)
    ensures Sector(a) * 512 == a * FsBlocks.BSIZE <==> a < 0x8000_0000
  {
  }

  lemma AllocatedHeld(s: Disk, t: Disk, idx: seq<nat>)
    requires Allocated(s, t, idx) && |idx| == 3
    ensures ThreeHeld(t, idx[0], idx[1], idx[2])
  {
    assert t.owner[idx[0]] == Held && t.owner[idx[1]] == Held && t.owner[idx[2]] == Held;
  }

  /** used_idx equals used->idx exactly when nothing is waiting. */
  lemma Unequal(s: Disk)
    requires Inv(s)
    ensures s.seen == s.usedIdx <==> s.reported == []
  {
    PostedFits(s);
    WrappedEqual(s.nhandled, s.nreported);
  }

  /** What the device may do at any time, if there is something to fetch or to report. */
  datatype DeviceStep = Fetch | Report(h: nat, status: nat)

  function Stepped(s: Disk, e: DeviceStep): Disk {
    match e
    case Fetch => if s.posted != [] then Fetched(s) else s
    case Report(h, status) => if h in s.atDevice && h < NUM && Sized(s) then Reported(s, h, status) else s
  }

  function Ran(s: Disk, es: seq<DeviceStep>, k: nat): Disk
    requires k <= |es|
  {
    if k == 0 then s else Stepped(Ran(s, es, k - 1), es[k - 1])
  }

  /** The interrupt handler from its k-th turn on, with what the device does during the turns; true is its panic. */
  function Served(s: Disk, late: seq<seq<DeviceStep>>, k: nat): (bool, Disk)
    requires k <= |late|
    decreases |late| - k, |s.reported|
  {
    if s.reported == [] || s.reported[0] !in s.chain || s.reported[0] !in s.answer then (false, s)
    else if s.answer[s.reported[0]] != 0 then (true, s)
    else if k < |late| then Served(Ran(Handled(s), late[k], |late[k]|), late, k + 1)
    else Served(Handled(s), late, k)
  }

  /** The device's count and the ring's index differ exactly if something is posted. */
  lemma Unfetched(s: Disk)
    requires Inv(s)
    ensures s.nfetched % WRAP == s.availIdx <==> s.posted == []
  {
    PostedFits(s);
    WrappedEqual(s.nfetched, s.nposted);
  }

  /** Nothing the driver has seen is taken back. */
  ghost predicate Onward(s: Disk, t: Disk) {
    && t.chain == s.chain && t.finished == s.finished
    && (forall x: nat :: x in s.reported ==> x in t.reported)
    && (forall x: nat :: x in t.finished && x in s.answer ==> x in t.answer && t.answer[x] == s.answer[x])
  }

  class VirtioDisk {
    var free: seq<bool>
    var desc: seq<Desc>
    var ops: seq<Req>
    var info: seq<Info>
    var avail: seq<nat>
    var availIdx: nat
    var used: seq<nat>
    var usedIdx: nat
    var seen: nat                  // disk.used_idx
    var busy: set<nat>             // the buffers with b->disk == 1
    var fetched: nat               // the device's own count
    var atDevice: set<nat>         // and the requests it is working on
    ghost var owner: seq<Owner>
    ghost var chain: map<nat, Chain>
    ghost var posted: seq<nat>
    ghost var reported: seq<nat>
    ghost var finished: set<nat>
    ghost var answer: map<nat, nat>
    ghost var nposted: nat
    ghost var nreported: nat
    ghost var nhandled: nat

    ghost function View(): Disk
      reads this
    {
      Disk(free, desc, ops, info, avail, availIdx, used, usedIdx, seen, busy,
           owner, chain, posted, atDevice, reported, finished, answer, nposted, fetched, nreported, nhandled)
    }

    ghost predicate Valid()
      reads this
    {
      Inv(View())
    }

    /** While vdisk_lock is free: nobody has descriptors in hand. Every stretch between two acquisitions keeps this. */
    ghost predicate Settled()
      reads this
    {
      Valid() && OwnedAs(View(), Held) == {}
    }

    /** Then free descriptors and three for each request in flight make up all NUM. */
    lemma DescriptorsTotal()
      requires Settled()
      ensures |OwnedAs(View(), Free)| + 3 * |chain| == NUM
    {
      DescriptorsConserved(View());
    }

    /** virtio_disk_init: all descriptors free, the rings zeroed. */
    constructor ()
      ensures Settled() && chain == map[] && busy == {}
    {
      free, desc := seq(NUM, _ => true), seq(NUM, _ => Desc(Null, 0, false, false, 0));
      ops, info := seq(NUM, _ => Req(false, 0)), seq(NUM, _ => Info(None, 0));
      avail, used, availIdx, usedIdx, seen, fetched := seq(NUM, _ => 0), seq(NUM, _ => 0), 0, 0, 0, 0;
      busy, owner, chain := {}, seq(NUM, _ => Free), map[];
      posted, atDevice, reported, finished, answer := [], {}, [], {}, map[];
      nposted, nreported, nhandled := 0, 0, 0;
    }

    /** alloc_desc: the first free descriptor, or -1. */
    method AllocDesc() returns (i: int)
      requires Valid()
      modifies `free, `owner
      ensures Valid()
      ensures if i < 0 then NoneFreeBelow(free, NUM) && View() == old(View())
              else i < NUM && old(free)[i] && NoneFreeBelow(old(free), i) && View() == Took(old(View()), i)
    {
      i := 0;
      while i < NUM
        invariant 0 <= i <= NUM && NoneFreeBelow(free, i) && View() == old(View())
      {
        if free[i] {
          TakeStep(View(), i);
          free := free[i := false];
          owner := owner[i := Held];
          return;
        }
        i := i + 1;
      }
      return -1;
    }

    /** free_desc, with its two panics. */
    method FreeDesc(i: nat) returns (panicked: bool)
      requires Valid() && (i < NUM && !free[i] ==> owner[i] == Held)
      modifies `free, `desc, `owner
      ensures panicked <==> i >= NUM || old(free)[i]
      ensures Valid() && View() == if panicked then old(View()) else Freed(old(View()), i)
    {
      if i >= NUM || free[i] {
        return true;
      }
      FreeStep(View(), i);
      desc := desc[i := Desc(Null, 0, false, false, 0)];
      free := free[i := true];
      owner := owner[i := Free];
      return false;
    }

    /** free_chain follows the next fields and frees exactly the three descriptors of a finished request. */
    method FreeChain(h: nat, ghost c: Chain)
      requires Valid() && ThreeHeld(View(), h, c.d1, c.d2)
      requires desc[h].more && desc[h].next == c.d1 && desc[c.d1].more && desc[c.d1].next == c.d2 && !desc[c.d2].more
      modifies `free, `desc, `owner
      ensures Valid() && View() == Freed(Freed(Freed(old(View()), h), c.d1), c.d2)
    {
      ghost var s := View();
      ghost var k := 0;
      var i := h;
      while true
        invariant 0 <= k < 3 && Valid() && i == Part3(h, c, k)
        invariant View() == if k == 0 then s else if k == 1 then Freed(s, h) else Freed(Freed(s, h), c.d1)
        decreases 3 - k
      {
        var more, next := desc[i].more, desc[i].next;
        FreeStep(View(), i);
        var panicked := FreeDesc(i);
        assert !panicked;
        if more {
          i := next;
        } else {
          break;
        }
        k := k + 1;
      }
    }

    /** alloc3_desc: three descriptors, or none. */
    method Alloc3Desc() returns (ok: bool, idx: seq<nat>)
      requires Valid()
      modifies `free, `desc, `owner
      ensures Valid() && View() == old(View()).(free := free, desc := desc, owner := owner)
      ensures if ok then |idx| == 3 && Allocated(old(View()), View(), idx)
              else free == old(free) && owner == old(owner) && |OwnedAs(View(), Free)| < 3
    {
      ghost var s := View();
      idx := [];
      while |idx| < 3
        invariant |idx| <= 3 && Valid() && View() == s.(free := free, owner := owner) && Allocated(s, View(), idx)
      {
        ghost var t := View();
        var i := AllocDesc();
        if i < 0 {
          TooFew(s, t, idx);
          PutBack(idx, s);
          return false, [];
        }
        TakenMore(s, t, idx, i);
        idx := idx + [i];
      }
      return true, idx;
    }

    /** alloc3_desc's way out. */
    method PutBack(idx: seq<nat>, ghost s: Disk)
      requires Valid() && Inv(s) && Allocated(s, View(), idx) && View() == s.(free := free, owner := owner)
      modifies `free, `desc, `owner
      ensures Valid() && View() == s.(desc := desc)
    {
      var j := 0;
      while j < |idx|
        invariant j <= |idx| && Valid() && View() == s.(free := free, desc := desc, owner := owner)
        invariant Allocated(s, View(), idx[j..])
      {
        ghost var t := View();
        assert idx[j..][0] == idx[j];
        var panicked := FreeDesc(idx[j]);
        assert !panicked;
        TakenLess(s, t, idx[j..]);
        assert idx[j..][1..] == idx[j + 1..];
        j := j + 1;
      }
      TakenNone(s, View());
    }

    /** virtio_disk_rw up to its sleep: ok is false when it must wait for descriptors. The caller holds the
        buffer's lock, so no other request is for b. */
    method Submit(b: nat, blockno: nat, write: bool) returns (ok: bool, h: nat)
      requires Valid() && Unused(View(), b)
      modifies this
      ensures Valid()
      ensures !ok ==> View() == old(View()).(desc := desc) && |OwnedAs(View(), Free)| < 3
      ensures ok ==> h < NUM && h !in old(chain) && b in busy && posted == old(posted) + [h]
      ensures ok ==> exists d1, d2 :: chain == old(chain)[h := Chain(d1, d2, b, Req(write, Sector(blockno)))]
      ensures ok && blockno < 0x8000_0000 ==> chain[h].req.sector * 512 == blockno * FsBlocks.BSIZE
      ensures OwnedAs(View(), Held) == OwnedAs(old(View()), Held)
    {
      ghost var s := View();
      SectorExact(blockno);
      var idx;
      ok, idx := Alloc3Desc();
      if !ok {
        return false, 0;
      }
      h := idx[0];
      AllocatedHeld(s, View(), idx);
      assert ChainOk(s, h);
      Format(idx[0], idx[1], idx[2], b, Req(write, Sector(blockno)));
    }

    /** The three descriptors filled in, and the request posted. */
    method Format(h: nat, d1: nat, d2: nat, b: nat, req: Req)
      requires Valid() && ThreeHeld(View(), h, d1, d2) && Unused(View(), b)
      modifies this
      ensures Valid() && View() == Post(old(View()), h, Chain(d1, d2, b, req))
    {
      ghost var c := Chain(d1, d2, b, req);
      ghost var s := View();
      FillIn(h, d1, d2, b, req);
      Announce(h, c);
      assert View() == Post(s, h, c);
      PostStep(s, h, c);
    }

    method FillIn(h: nat, d1: nat, d2: nat, b: nat, req: Req)
      requires Sized(View()) && h < NUM && d1 < NUM && d2 < NUM
      modifies `ops, `desc, `info, `busy
      ensures desc == old(desc)[h := Desc(Op(h), 16, true, false, d1)]
                               [d1 := Desc(Data(b), FsBlocks.BSIZE, true, !req.write, d2)]
                               [d2 := Desc(Status(h), 1, false, true, 0)]
      ensures ops == old(ops)[h := req] && info == old(info)[h := Info(Some(b), PENDING)] && busy == old(busy) + {b}
    {
      ops := ops[h := req];
      desc := desc[h := Desc(Op(h), 16, true, false, d1)];
      desc := desc[d1 := Desc(Data(b), FsBlocks.BSIZE, true, !req.write, d2)];
      info := info[h := info[h].(status := PENDING)];
      desc := desc[d2 := Desc(Status(h), 1, false, true, 0)];
      busy := busy + {b};
      info := info[h := info[h].(b := Some(b))];
    }

    /** The entry first, then the index that makes it visible. */
    method Announce(h: nat, ghost c: Chain)
      requires |avail| == |owner| == NUM && h < NUM && c.d1 < NUM && c.d2 < NUM
      modifies `avail, `availIdx, `owner, `chain, `posted, `nposted
      ensures avail == old(avail)[old(availIdx) % NUM := h] && availIdx == (old(availIdx) + 1) % WRAP
      ensures owner == old(owner)[h := Part(h, 0)][c.d1 := Part(h, 1)][c.d2 := Part(h, 2)]
      ensures chain == old(chain)[h := c] && posted == old(posted) + [h] && nposted == old(nposted) + 1
    {
      avail := avail[availIdx % NUM := h];
      availIdx := (availIdx + 1) % WRAP;
      owner := owner[h := Part(h, 0)][c.d1 := Part(h, 1)][c.d2 := Part(h, 2)];
      chain, posted, nposted := chain[h := c], posted + [h], nposted + 1;
    }

    /** The rest of virtio_disk_rw, once b->disk is 0. */
    method Finish(h: nat)
      requires Valid() && h in chain && chain[h].b !in busy
      modifies this
      ensures Valid() && chain == old(chain) - {h} && busy == old(busy)
      ensures h < NUM && old(chain[h]).d1 < NUM && old(chain[h]).d2 < NUM
      ensures var c := old(chain[h]); View() == Freed(Freed(Freed(Detached(old(View()), h), h), c.d1), c.d2)
      ensures OwnedAs(View(), Held) == OwnedAs(old(View()), Held)
    {
      ghost var s, c := View(), chain[h];
      assert ChainOk(s, h);
      DetachStep(s, h);
      info := info[h := info[h].(b := None)];
      owner := owner[h := Held][c.d1 := Held][c.d2 := Held];
      chain, finished := chain - {h}, finished - {h};
      assert View() == Detached(s, h);
      FreeChain(h, c);
      ReleasedHeld(s, h);
    }

    /** One turn of virtio_disk_intr's loop: the oldest reported request is done, its buffer released, unless the
        device has answered with an error, which is a panic. */
    method IntrOne() returns (panicked: bool)
      requires Valid() && seen != usedIdx
      modifies this
      ensures old(reported) != [] && old(reported)[0] in old(chain) && old(reported)[0] in old(answer)
      ensures panicked <==> old(answer)[old(reported)[0]] != 0
      ensures Valid() && View() == (if panicked then old(View()) else Handled(old(View())))
      ensures old(chain[reported[0]].b in busy)
      ensures OwnedAs(View(), Held) == OwnedAs(old(View()), Held)
    {
      HandleStep(View());
      var id := used[seen % NUM];
      if info[id].status != 0 {
        return true;
      }
      var b := info[id].b;
      busy := busy - {b.value};
      seen := (seen + 1) % WRAP;
      reported, finished, nhandled := reported[1..], finished + {id}, nhandled + 1;
      panicked := false;
    }

    /** virtio_disk_intr; late[k] is what the device does during the k-th turn. */
    method Intr(late: seq<seq<DeviceStep>>) returns (panicked: bool)
      requires Valid()
      modifies this
      ensures Valid() && chain == old(chain)
      ensures if panicked then reported != [] && reported[0] in answer && answer[reported[0]] != 0 else reported == []
      ensures forall h: nat :: h in old(reported) || h in old(finished) ==> h in reported || h in finished
      ensures forall h: nat :: h in finished ==> h in old(finished) || (h in answer && answer[h] == 0)
      ensures OwnedAs(View(), Held) == OwnedAs(old(View()), Held)
      ensures (panicked, View()) == Served(old(View()), late, 0)
    {
      panicked := false;
      var k := 0;
      Unequal(View());
      while seen != usedIdx
        invariant Valid() && chain == old(chain) && k <= |late| && (seen == usedIdx <==> reported == [])
        invariant Served(View(), late, k) == Served(old(View()), late, 0)
        invariant OwnedAs(View(), Held) == OwnedAs(old(View()), Held)
        invariant forall h: nat :: h in old(reported) || h in old(finished) ==> h in reported || h in finished
        invariant forall h: nat :: h in finished ==> h in old(finished) || (h in answer && answer[h] == 0)
        decreases |late| - k, |reported|
      {
        panicked := IntrOne();
        if panicked {
          return;
        }
        if k < |late| {
          DeviceRuns(late[k]);
          k := k + 1;
        }
        Unequal(View());
      }
    }

    /** The device takes a step if it can. */
    method MaybeStep(e: DeviceStep)
      requires Valid()
      modifies this
      ensures Valid() && Onward(old(View()), View()) && View() == Stepped(old(View()), e)
      ensures OwnedAs(View(), Held) == OwnedAs(old(View()), Held)
    {
      Unfetched(View());
      match e
      case Fetch =>
        if fetched % WRAP != availIdx {
          var h := DeviceFetch();
        }
      case Report(h, status) =>
        if h in atDevice {
          assert StageOk(View(), h);
          DeviceReport(h, status);
        }
    }

    method DeviceRuns(es: seq<DeviceStep>)
      requires Valid()
      modifies this
      ensures Valid() && Onward(old(View()), View()) && View() == Ran(old(View()), es, |es|)
      ensures OwnedAs(View(), Held) == OwnedAs(old(View()), Held)
    {
      var k := 0;
      while k < |es|
        invariant k <= |es| && Valid() && Onward(old(View()), View()) && View() == Ran(old(View()), es, k)
        invariant OwnedAs(View(), Held) == OwnedAs(old(View()), Held)
      {
        MaybeStep(es[k]);
        k := k + 1;
      }
    }

    /** The device takes the next request from the available ring. */
    method DeviceFetch() returns (h: nat)
      requires Valid() && fetched % WRAP != availIdx
      modifies this
      ensures Valid() && old(posted) != [] && h == old(posted)[0] && View() == Fetched(old(View()))
      ensures OwnedAs(View(), Held) == OwnedAs(old(View()), Held)
    {
      FetchStep(View());
      h := avail[fetched % NUM];
      fetched, posted, atDevice := fetched + 1, posted[1..], atDevice + {h};
    }

    /** The device finishes a request it has taken, in any order. */
    method DeviceReport(h: nat, status: nat)
      requires Valid() && h in atDevice
      modifies this
      ensures Valid() && h < NUM && View() == Reported(old(View()), h, status)
      ensures OwnedAs(View(), Held) == OwnedAs(old(View()), Held)
    {
      ReportStep(View(), h, status);
      ghost var t := Reported(View(), h, status);
      info := info[h := info[h].(status := status)];
      used := used[usedIdx % NUM := h];
      usedIdx := (usedIdx + 1) % WRAP;
      atDevice, reported, nreported := atDevice - {h}, reported + [h], nreported + 1;
      answer := answer[h := status];
      assert View() == t;
    }
  }
}

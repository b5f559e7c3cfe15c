/** The request queue shared by kernel/virtio_disk.c and the device (sections 2.6 and 5.2 of OASIS VIRTIO 1.1):
    what is in flight, and what every step of either side keeps. */
module VirtioState {
  import opened Basics
  import FsBlocks

  const NUM: nat := 8
  const WRAP: nat := 0x1_0000        // the ring indices are 16 bits wide
  const PENDING: nat := 0xff

  /** What a descriptor's address field points to. */
  datatype Target = Null | Op(i: nat) | Data(b: nat) | Status(i: nat)

  datatype Desc = Desc(addr: Target, len: nat, more: bool, deviceWrites: bool, next: nat)

  /** struct virtio_blk_req: write says VIRTIO_BLK_T_OUT. */
  datatype Req = Req(write: bool, sector: nat)

  datatype Info = Info(b: Option<nat>, status: nat)

  /** A request in flight: its second and third descriptor, and what it is for. */
  datatype Chain = Chain(d1: nat, d2: nat, b: nat, req: Req)

  /** What a descriptor is used for: part k of the chain that starts at h, or just allocated. */
  datatype Owner = Free | Held | Part(h: nat, k: nat)

  /** The fields of struct disk, b->disk as the set of busy buffers, and the history: the requests in flight by
      first descriptor; which of them are posted, at the device, reported used, or finished; what the device answered;
      and how many have ever been posted, fetched, reported and handled. */
  datatype Disk = Disk(
    free: seq<bool>, desc: seq<Desc>, ops: seq<Req>, info: seq<Info>,
    avail: seq<nat>, availIdx: nat, used: seq<nat>, usedIdx: nat, seen: nat, busy: set<nat>,
    owner: seq<Owner>, chain: map<nat, Chain>,
    posted: seq<nat>, atDevice: set<nat>, reported: seq<nat>, finished: set<nat>,
    answer: map<nat, nat>, nposted: nat, nfetched: nat, nreported: nat, nhandled: nat)

  predicate Sized(s: Disk) {
    |s.free| == |s.desc| == |s.ops| == |s.info| == |s.avail| == |s.used| == |s.owner| == NUM
  }

  predicate OwnerOk(s: Disk, i: nat) {
    i < NUM && Sized(s) ==>
      && (s.free[i] <==> s.owner[i] == Free)
      && (s.owner[i].Part? ==>
          s.owner[i].h in s.chain && s.owner[i].k < 3 && Part3(s.owner[i].h, s.chain[s.owner[i].h], s.owner[i].k) == i)
  }

  function Part3(h: nat, c: Chain, k: nat): nat {
    if k == 0 then h else if k == 1 then c.d1 else c.d2
  }

  /** The three descriptors of chain h are its own and are what section 5.2.6 asks for. */
  predicate ChainOk(s: Disk, h: nat) {
    h in s.chain && Sized(s) ==> var c := s.chain[h];
      && h < NUM && c.d1 < NUM && c.d2 < NUM
      && s.owner[h] == Part(h, 0) && s.owner[c.d1] == Part(h, 1) && s.owner[c.d2] == Part(h, 2)
      && s.desc[h] == Desc(Op(h), 16, true, false, c.d1)
      && s.desc[c.d1] == Desc(Data(c.b), FsBlocks.BSIZE, true, !c.req.write, c.d2)
      && s.desc[c.d2] == Desc(Status(h), 1, false, true, 0)
      && s.ops[h] == c.req && s.info[h].b == Some(c.b)
      && (c.b in s.busy <==> h !in s.finished)
      && (h in s.reported ==> h in s.answer && s.info[h].status == s.answer[h])
  }

  /** Two requests are for different buffers. */
  predicate BuffersApart(s: Disk, h: nat, h': nat) {
    h in s.chain && h' in s.chain && h != h' ==> s.chain[h].b != s.chain[h'].b
  }

  /** Every request is in exactly one of the four stages. */
  predicate StageOk(s: Disk, h: nat) {
    && (h in s.chain <==> h in s.posted || h in s.atDevice || h in s.reported || h in s.finished)
    && (h in s.posted ==> h !in s.atDevice && h !in s.reported && h !in s.finished)
    && (h in s.atDevice ==> h !in s.reported && h !in s.finished)
    && (h in s.reported ==> h !in s.finished)
  }

  /** A ring of NUM entries holds the queue q, which starts at the n-th entry ever made. */
  predicate RingHolds(ring: seq<nat>, q: seq<nat>, n: nat) {
    |ring| == NUM && forall i: nat {:trigger q[i]} :: i < |q| ==> ring[(n + i) % NUM] == q[i]
  }

  predicate Rings(s: Disk) {
    && Distinct(s.posted) && Distinct(s.reported)
    && s.nposted == s.nfetched + |s.posted| && RingHolds(s.avail, s.posted, s.nfetched)
    && s.availIdx == s.nposted % WRAP
    && s.nreported == s.nhandled + |s.reported| && RingHolds(s.used, s.reported, s.nhandled)
    && s.usedIdx == s.nreported % WRAP && s.seen == s.nhandled % WRAP
  }

  ghost predicate Busy(s: Disk) {
    forall b: nat {:trigger b in s.busy} :: b in s.busy ==> exists h: nat :: h in s.chain && s.chain[h].b == b
  }

  ghost predicate Inv(s: Disk) {
    && Sized(s) && Rings(s) && Busy(s)
    && (forall i: nat {:trigger OwnerOk(s, i)} :: OwnerOk(s, i))
    && (forall h: nat {:trigger ChainOk(s, h)} :: ChainOk(s, h))
    && (forall h: nat, h': nat {:trigger BuffersApart(s, h, h')} :: BuffersApart(s, h, h'))
    && (forall h: nat {:trigger StageOk(s, h)} :: StageOk(s, h))
  }

  // ---------------------------------------------------------------- rings

  /** A queue of distinct descriptors fits the ring. */
  lemma QueueFits(q: seq<nat>)
    requires Distinct(q) && forall i: nat :: i < |q| ==> q[i] < NUM
    ensures |q| <= NUM
  {
    DistinctFits(q, {0, 1, 2, 3, 4, 5, 6, 7});
  }

  /** Adding an entry at the end overwrites none that is still waiting. */
  lemma RingPut(ring: seq<nat>, q: seq<nat>, n: nat, h: nat)
    requires RingHolds(ring, q, n) && |q| < NUM
    ensures RingHolds(ring[(n + |q|) % NUM := h], q + [h], n)
  {
    var ring', q' := ring[(n + |q|) % NUM := h], q + [h];
    forall i: nat | i < |q'| ensures ring'[(n + i) % NUM] == q'[i] {
      if i < |q| {
        NoCollision(n + i, n + |q|);
        assert q'[i] == q[i];
      }
    }
  }

  lemma NoCollision(a: nat, b: nat)
    requires a < b < a + NUM
    ensures a % NUM != b % NUM
  {
  }

  lemma RingTake(ring: seq<nat>, q: seq<nat>, n: nat)
    requires RingHolds(ring, q, n) && q != []
    ensures ring[n % NUM] == q[0] && RingHolds(ring, q[1..], n + 1)
  {
    forall i: nat | i < |q| - 1 ensures ring[(n + 1 + i) % NUM] == q[1..][i] {
      assert q[i + 1] == q[1..][i];
    }
  }

  /** The 16-bit indices wrap without the ring noticing, and are equal exactly when the queue is empty. */
  lemma Wrapped(n: nat)
    ensures n % WRAP % NUM == n % NUM && (n % WRAP + 1) % WRAP == (n + 1) % WRAP
  {
  }

  lemma WrappedEqual(a: nat, b: nat)
    requires a <= b <= a + NUM
    ensures a % WRAP == b % WRAP <==> a == b
  {
  }

  // ---------------------------------------------------------------- steps

  /** alloc_desc's marking of descriptor i. */
  function Took(s: Disk, i: nat): Disk
    requires Sized(s) && i < NUM
  {
    s.(free := s.free[i := false], owner := s.owner[i := Held])
  }

  lemma TakeStep(s: Disk, i: nat)
    requires Inv(s) && i < NUM && s.free[i]
    ensures Inv(Took(s, i))
  {
    var t := Took(s, i);
    assert OwnerOk(s, i);
    Reowned(s, t, i);
  }

  /** free_desc's clearing of descriptor i. */
  function Freed(s: Disk, i: nat): Disk
    requires Sized(s) && i < NUM
  {
    s.(free := s.free[i := true], desc := s.desc[i := Desc(Null, 0, false, false, 0)], owner := s.owner[i := Free])
  }

  lemma FreeStep(s: Disk, i: nat)
    requires Inv(s) && i < NUM && s.owner[i] == Held
    ensures !s.free[i] && Inv(Freed(s, i))
  {
    assert OwnerOk(s, i);
    Reowned(s, Freed(s, i), i);
  }

  /** A descriptor in no chain changes hands. */
  lemma Reowned(s: Disk, t: Disk, i: nat)
    requires Inv(s) && i < NUM && !s.owner[i].Part? && Sized(t)
    requires !t.owner[i].Part? && (t.free[i] <==> t.owner[i] == Free)
    requires t == s.(free := t.free, desc := t.desc, owner := t.owner)
    requires t.free == s.free[i := t.free[i]] && t.desc == s.desc[i := t.desc[i]] && t.owner == s.owner[i := t.owner[i]]
    ensures Inv(t)
  {
    forall j: nat ensures OwnerOk(t, j) {
      assert OwnerOk(s, j);
    }
    forall h: nat ensures ChainOk(t, h) {
      assert ChainOk(s, h);
    }
    forall h: nat, h': nat ensures BuffersApart(t, h, h') {
      assert BuffersApart(s, h, h');
    }
    forall h: nat ensures StageOk(t, h) {
      assert StageOk(s, h);
    }
  }

  /** virtio_disk_rw: three descriptors formatted and the first one posted. */
  function Post(s: Disk, h: nat, c: Chain): Disk
    requires Sized(s) && h < NUM && c.d1 < NUM && c.d2 < NUM
  {
    s.(desc := s.desc[h := Desc(Op(h), 16, true, false, c.d1)]
                     [c.d1 := Desc(Data(c.b), FsBlocks.BSIZE, true, !c.req.write, c.d2)]
                     [c.d2 := Desc(Status(h), 1, false, true, 0)],
       ops := s.ops[h := c.req], info := s.info[h := Info(Some(c.b), PENDING)], busy := s.busy + {c.b},
       avail := s.avail[s.availIdx % NUM := h], availIdx := (s.availIdx + 1) % WRAP,
       owner := s.owner[h := Part(h, 0)][c.d1 := Part(h, 1)][c.d2 := Part(h, 2)],
       chain := s.chain[h := c], posted := s.posted + [h], nposted := s.nposted + 1)
  }

  predicate ThreeHeld(s: Disk, h: nat, d1: nat, d2: nat) {
    && Sized(s) && h < NUM && d1 < NUM && d2 < NUM && h != d1 && h != d2 && d1 != d2
    && s.owner[h] == Held && s.owner[d1] == Held && s.owner[d2] == Held
  }

  ghost predicate Unused(s: Disk, b: nat) {
    forall h: nat {:trigger s.chain[h]} :: h in s.chain ==> s.chain[h].b != b
  }

  lemma PostStep(s: Disk, h: nat, c: Chain)
    requires Inv(s) && ThreeHeld(s, h, c.d1, c.d2) && Unused(s, c.b)
    ensures Inv(Post(s, h, c))
  {
    var t := Post(s, h, c);
    assert ChainOk(s, h) && StageOk(s, h);
    forall j: nat ensures OwnerOk(t, j) {
      assert OwnerOk(s, j);
    }
    forall k: nat ensures ChainOk(t, k) {
      assert ChainOk(s, k) && StageOk(s, k);
    }
    forall k: nat, l: nat ensures BuffersApart(t, k, l) {
      assert BuffersApart(s, k, l);
    }
    forall k: nat ensures StageOk(t, k) {
      assert StageOk(s, k);
    }
    PostRings(s, h, c);
    forall b: nat | b in t.busy ensures exists k: nat :: k in t.chain && t.chain[k].b == b {
      if b == c.b {
        assert h in t.chain && t.chain[h].b == b;
      } else {
        var k: nat :| k in s.chain && s.chain[k].b == b;
        assert k in t.chain && t.chain[k].b == b;
      }
    }
  }

  lemma PostedFits(s: Disk)
    requires Inv(s)
    ensures |s.posted| <= NUM && |s.reported| <= NUM
  {
    forall i: nat | i < |s.posted| ensures s.posted[i] < NUM {
      assert StageOk(s, s.posted[i]) && ChainOk(s, s.posted[i]);
    }
    forall i: nat | i < |s.reported| ensures s.reported[i] < NUM {
      assert StageOk(s, s.reported[i]) && ChainOk(s, s.reported[i]);
    }
    QueueFits(s.posted);
    QueueFits(s.reported);
  }

  lemma PostRings(s: Disk, h: nat, c: Chain)
    requires Inv(s) && ThreeHeld(s, h, c.d1, c.d2)
    ensures Rings(Post(s, h, c))
  {
    assert ChainOk(s, h) && StageOk(s, h);
    forall i: nat | i < |s.posted + [h]| ensures (s.posted + [h])[i] < NUM {
      assert i < |s.posted| ==> StageOk(s, s.posted[i]) && ChainOk(s, s.posted[i]);
    }
    QueueFits(s.posted + [h]);
    RingPut(s.avail, s.posted, s.nfetched, h);
    Wrapped(s.nposted);
  }

  /** The device takes the oldest posted request. */
  function Fetched(s: Disk): Disk
    requires s.posted != []
  {
    s.(posted := s.posted[1..], atDevice := s.atDevice + {s.posted[0]}, nfetched := s.nfetched + 1)
  }

  lemma FetchStep(s: Disk)
    requires Inv(s) && s.nfetched % WRAP != s.availIdx
    ensures s.posted != [] && s.avail[s.nfetched % NUM] == s.posted[0] && Inv(Fetched(s))
  {
    PostedFits(s);
    WrappedEqual(s.nfetched, s.nposted);
    var t, x := Fetched(s), s.posted[0];
    RingTake(s.avail, s.posted, s.nfetched);
    Restaged(s, t, x, s.posted);
  }

  /** One request moves on to the next stage. */
  lemma Restaged(s: Disk, t: Disk, x: nat, q: seq<nat>)
    requires Inv(s) && Sized(t) && Rings(t) && q != [] && x == q[0] && (q == s.posted || q == s.reported) && Distinct(q)
    requires t.chain == s.chain && t.owner == s.owner && t.free == s.free && t.desc == s.desc
    requires t.ops == s.ops && t.info == s.info && t.answer == s.answer
    requires q == s.posted ==>
      t.posted == q[1..] && t.reported == s.reported && t.atDevice == s.atDevice + {x} && t.finished == s.finished
          && t.busy == s.busy
    requires q != s.posted ==>
      t.reported == q[1..] && t.posted == s.posted && t.atDevice == s.atDevice && t.finished == s.finished + {x}
                               && x in s.chain && t.busy == s.busy - {s.chain[x].b}
    ensures Inv(t)
  {
    assert StageOk(s, x) && ChainOk(s, x);
    assert forall k: nat {:trigger k in q[1..]} :: k in q[1..] <==> k in q && k != x by {
      assert q == [x] + q[1..];
    }
    forall j: nat ensures OwnerOk(t, j) {
      assert OwnerOk(s, j);
    }
    forall h: nat ensures ChainOk(t, h) {
      assert ChainOk(s, h) && BuffersApart(s, h, x) && StageOk(s, h);
    }
    forall h: nat, h': nat ensures BuffersApart(t, h, h') {
      assert BuffersApart(s, h, h');
    }
    forall h: nat ensures StageOk(t, h) {
      assert StageOk(s, h);
    }
    forall b: nat | b in t.busy ensures exists k: nat :: k in t.chain && t.chain[k].b == b {
      assert b in s.busy;
    }
  }

  /** The device reports request h as used: status 0 says done, anything else an error. */
  function Reported(s: Disk, h: nat, status: nat): Disk
    requires Sized(s) && h < NUM
  {
    s.(info := s.info[h := s.info[h].(status := status)], answer := s.answer[h := status],
        used := s.used[s.usedIdx % NUM := h], usedIdx := (s.usedIdx + 1) % WRAP,
       atDevice := s.atDevice - {h}, reported := s.reported + [h], nreported := s.nreported + 1)
  }

  lemma ReportStep(s: Disk, h: nat, status: nat)
    requires Inv(s) && h in s.atDevice
    ensures h < NUM && Inv(Reported(s, h, status))
  {
    assert StageOk(s, h) && ChainOk(s, h);
    var t := Reported(s, h, status);
    forall i: nat | i < |s.reported + [h]| ensures (s.reported + [h])[i] < NUM {
      assert i < |s.reported| ==> StageOk(s, s.reported[i]) && ChainOk(s, s.reported[i]);
    }
    QueueFits(s.reported + [h]);
    RingPut(s.used, s.reported, s.nhandled, h);
    Wrapped(s.nreported);
    forall j: nat ensures OwnerOk(t, j) {
      assert OwnerOk(s, j);
    }
    forall k: nat ensures ChainOk(t, k) {
      assert ChainOk(s, k);
    }
    forall k: nat, l: nat ensures BuffersApart(t, k, l) {
      assert BuffersApart(s, k, l);
    }
    forall k: nat ensures StageOk(t, k) {
      assert StageOk(s, k);
    }
    forall b: nat | b in t.busy ensures exists k: nat :: k in t.chain && t.chain[k].b == b {
      assert b in s.busy;
    }
  }

  /** virtio_disk_intr's handling of the oldest used entry. */
  function Handled(s: Disk): Disk
    requires s.reported != [] && s.reported[0] in s.chain
  {
    s.(busy := s.busy - {s.chain[s.reported[0]].b}, seen := (s.seen + 1) % WRAP,
       reported := s.reported[1..], finished := s.finished + {s.reported[0]}, nhandled := s.nhandled + 1)
  }

  lemma HandleStep(s: Disk)
    requires Inv(s) && s.seen != s.usedIdx
    ensures s.reported != [] && s.used[s.seen % NUM] == s.reported[0] && s.reported[0] in s.chain && s.reported[0] < NUM
    ensures var h := s.reported[0];
            h in s.answer && s.info[h] == Info(Some(s.chain[h].b), s.answer[h]) && s.chain[h].b in s.busy
    ensures Inv(Handled(s))
  {
    PostedFits(s);
    WrappedEqual(s.nhandled, s.nreported);
    var x := s.reported[0];
    assert StageOk(s, x) && ChainOk(s, x);
    RingTake(s.used, s.reported, s.nhandled);
    Wrapped(s.nhandled);
    Restaged(s, Handled(s), x, s.reported);
  }

  /** The end of virtio_disk_rw: the request is forgotten, its descriptors still to be freed. */
  function Detached(s: Disk, h: nat): Disk
    requires Sized(s) && h in s.chain && h < NUM && s.chain[h].d1 < NUM && s.chain[h].d2 < NUM
  {
    s.(info := s.info[h := s.info[h].(b := None)],
       owner := s.owner[h := Held][s.chain[h].d1 := Held][s.chain[h].d2 := Held],
       chain := s.chain - {h}, finished := s.finished - {h})
  }

  lemma DetachStep(s: Disk, h: nat)
    requires Inv(s) && h in s.finished
    ensures h in s.chain && h < NUM && s.chain[h].d1 < NUM && s.chain[h].d2 < NUM
    ensures Inv(Detached(s, h)) && ThreeHeld(Detached(s, h), h, s.chain[h].d1, s.chain[h].d2)
  {
    assert StageOk(s, h) && ChainOk(s, h);
    var t := Detached(s, h);
    forall j: nat ensures OwnerOk(t, j) {
      assert OwnerOk(s, j);
    }
    forall k: nat ensures ChainOk(t, k) {
      assert ChainOk(s, k) && StageOk(s, k);
    }
    forall k: nat, l: nat ensures BuffersApart(t, k, l) {
      assert BuffersApart(s, k, l);
    }
    forall k: nat ensures StageOk(t, k) {
      assert StageOk(s, k);
    }
    forall b: nat | b in t.busy ensures exists k: nat :: k in t.chain && t.chain[k].b == b {
      var k: nat :| k in s.chain && s.chain[k].b == b;
      assert k in t.chain && t.chain[k].b == b;
    }
  }

  // ---------------------------------------------------------------- conservation

  ghost function OwnedAs(s: Disk, o: Owner): set<nat> {
    set i: nat | i < |s.owner| && s.owner[i] == o
  }

  /** The k-th descriptors of the requests hs. */
  ghost function Members(s: Disk, hs: set<nat>, k: nat): set<nat>
    requires forall h :: h in hs ==> h in s.chain
  {
    set h | h in hs :: Part3(h, s.chain[h], k)
  }

  lemma {:induction false} MembersCount(s: Disk, hs: set<nat>, k: nat)
    requires Inv(s) && k < 3 && forall h :: h in hs ==> h in s.chain
    ensures |Members(s, hs, k)| == |hs|
    decreases |hs|
  {
    if hs == {} {
    } else {
      var h :| h in hs;
      var rest := hs - {h};
      MembersCount(s, rest, k);
      var x := Part3(h, s.chain[h], k);
      assert ChainOk(s, h);
      forall h' | h' in rest ensures Part3(h', s.chain[h'], k) != x {
        assert ChainOk(s, h');
      }
      assert Members(s, hs, k) == Members(s, rest, k) + {x};
    }
  }

  /** Which of the five kinds of use descriptor i is in. */
  lemma MemberIff(s: Disk, i: nat, k: nat)
    requires Inv(s) && k < 3
    ensures i in Members(s, s.chain.Keys, k) <==> i < NUM && s.owner[i].Part? && s.owner[i].k == k
  {
    var hs := s.chain.Keys;
    if i in Members(s, hs, k) {
      var h :| h in hs && Part3(h, s.chain[h], k) == i;
      assert ChainOk(s, h);
    }
    if i < NUM && s.owner[i].Part? && s.owner[i].k == k {
      assert OwnerOk(s, i);
      var h := s.owner[i].h;
      assert h in hs && Part3(h, s.chain[h], k) == i;
    }
  }

  lemma FiveParts(a: set<nat>, b: set<nat>, c: set<nat>, d: set<nat>, e: set<nat>)
    requires a !! b && (a + b) !! c && (a + b + c) !! d && (a + b + c + d) !! e
    ensures |a + b + c + d + e| == |a| + |b| + |c| + |d| + |e|
  {
    var ab := a + b;
    assert |ab| == |a| + |b|;
    var abc := ab + c;
    assert |abc| == |ab| + |c|;
    var abcd := abc + d;
    assert |abcd| == |abc| + |d|;
  }

  lemma AllEight(u: set<nat>)
    requires forall i: nat {:trigger i in u} :: i in u <==> i < NUM
    ensures |u| == NUM
  {
    assert u == {0, 1, 2, 3, 4, 5, 6, 7};
  }

  lemma PartsOfAll(s: Disk)
    requires Inv(s)
    ensures var hs := s.chain.Keys; var f, d := OwnedAs(s, Free), OwnedAs(s, Held);
            var m0, m1, m2 := Members(s, hs, 0), Members(s, hs, 1), Members(s, hs, 2);
            && f !! d && (f + d) !! m0 && (f + d + m0) !! m1 && (f + d + m0 + m1) !! m2
            && forall i: nat {:trigger i in f + d + m0 + m1 + m2} :: i in f + d + m0 + m1 + m2 <==> i < NUM
  {
    var hs := s.chain.Keys;
    var f, d := OwnedAs(s, Free), OwnedAs(s, Held);
    var m0, m1, m2 := Members(s, hs, 0), Members(s, hs, 1), Members(s, hs, 2);
    forall i: nat
      ensures i in m0 <==> i < NUM && s.owner[i].Part? && s.owner[i].k == 0
      ensures i in m1 <==> i < NUM && s.owner[i].Part? && s.owner[i].k == 1
      ensures i in m2 <==> i < NUM && s.owner[i].Part? && s.owner[i].k == 2
      ensures i < NUM && s.owner[i].Part? ==> s.owner[i].k < 3
      ensures i in f + d + m0 + m1 + m2 <==> i < NUM
    {
      MemberIff(s, i, 0);
      MemberIff(s, i, 1);
      MemberIff(s, i, 2);
      assert OwnerOk(s, i);
    }
  }

  /** Taking a request out and freeing its three descriptors leaves none of them in hand. */
  lemma ReleasedHeld(s: Disk, h: nat)
    requires Inv(s) && h in s.chain && h < NUM && s.chain[h].d1 < NUM && s.chain[h].d2 < NUM
    ensures var c := s.chain[h];
            OwnedAs(Freed(Freed(Freed(Detached(s, h), h), c.d1), c.d2), Held) == OwnedAs(s, Held)
  {
    assert ChainOk(s, h);
  }

  /** Free descriptors, descriptors in hand, and three for each request in flight make up all NUM. */
  lemma DescriptorsConserved(s: Disk)
    requires Inv(s)
    ensures |OwnedAs(s, Free)| + |OwnedAs(s, Held)| + 3 * |s.chain| == NUM
  {
    var hs := s.chain.Keys;
    MembersCount(s, hs, 0);
    MembersCount(s, hs, 1);
    MembersCount(s, hs, 2);
    PartsOfAll(s);
    var f, d, m0, m1, m2 := OwnedAs(s, Free), OwnedAs(s, Held), Members(s, hs, 0), Members(s, hs, 1), Members(s, hs, 2);
    FiveParts(f, d, m0, m1, m2);
    AllEight(f + d + m0 + m1 + m2);
  }
}

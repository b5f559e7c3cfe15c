/** How many distinct blocks one writei may log. */
module FsLedger {
  import opened FsBlocks
  import opened FsState
  import LogDisk

  /** Every block that differs has been logged and lies behind the log, and nothing logged is forgotten. */
  ghost predicate Covered(g: Super, d: seq<Block>, d': seq<Block>, logged: set<nat>, logged': set<nat>) {
    && logged <= logged' && |d'| == |d|
    && (forall b: nat {:trigger d'[b]} :: b < |d'| && d'[b] != d[b] ==> b in logged')
    && (forall b: nat {:trigger b in logged'} :: b in logged' && b !in logged ==> g.inodestart <= b < |d|)
  }

  /** Only bitmap blocks have been logged in between. */
  ghost predicate OnlyBitmaps(g: Super, logged: set<nat>, logged': set<nat>) {
    forall b: nat {:trigger b in logged'} :: b in logged' && b !in logged ==>
      g.bmapstart <= b <= g.bmapstart + g.size / BPB
  }

  lemma {:induction false} AtMostBetween(bs: set<nat>, lo: nat, n: nat)
    requires forall b :: b in bs ==> lo <= b < lo + n
    ensures |bs| <= n
  {
    if n == 0 {
      assert bs == {};
    } else {
      AtMostBetween(bs - {lo + n - 1}, lo, n - 1);
      Cardinality(bs, (bs - {lo + n - 1}) + {lo + n - 1});
    }
  }

  lemma BitmapsCount(g: Super, logged: set<nat>, logged': set<nat>)
    requires OnlyBitmaps(g, logged, logged')
    ensures |logged'| <= |logged| + g.size / BPB + 1
  {
    AtMostBetween(logged' - logged, g.bmapstart, g.size / BPB + 1);
    Cardinality(logged', logged + (logged' - logged));
  }

  lemma CoveredTrans(g: Super, d: seq<Block>, d': seq<Block>, d'': seq<Block>, l: set<nat>, l': set<nat>, l'': set<nat>)
    requires Covered(g, d, d', l, l') && Covered(g, d', d'', l', l'')
    ensures Covered(g, d, d'', l, l'')
  {
    forall b: nat | b < |d''| && d''[b] != d[b] ensures b in l'' {
      assert d'[b] == d''[b] || d'[b] != d''[b];
    }
  }

  /** The disk has gone from d to d' in operations that logged these blocks: each logged all it changed, and no more
      than it may. */
  ghost predicate LoggedBy(g: Super, d: seq<Block>, d': seq<Block>, ops: seq<set<nat>>, limit: nat)
    decreases |ops|
  {
    if ops == [] then d' == d
    else
      var l := ops[|ops| - 1];
      |l| <= limit && exists m :: LoggedBy(g, d, m, ops[..|ops| - 1], limit) && Covered(g, m, d', {}, l)
  }

  lemma OneMoreOperation(g: Super, d: seq<Block>, m: seq<Block>, d': seq<Block>, ops: seq<set<nat>>, l: set<nat>,
                         limit: nat)
    requires LoggedBy(g, d, m, ops, limit) && Covered(g, m, d', {}, l) && |l| <= limit
    ensures LoggedBy(g, d, d', ops + [l], limit)
  {
    assert (ops + [l])[..|ops|] == ops;
  }

  ghost function WithBitmap(g: Super, b: nat): set<nat> {
    if b == 0 then {} else {b, BBlock(g, b)}
  }

  /** What writing into block bn may log on the way from s to t: the block, its bitmap block if it is new,
      and from NDIRECT on the indirect block and its bitmap block. */
  ghost function BlockCost(s: Fs, t: Fs, i: nat, bn: nat): set<nat> {
    (if Slot(t, i, bn) == 0 then {}
     else if Slot(s, i, bn) == 0 then WithBitmap(t.g, Slot(t, i, bn))
     else {Slot(t, i, bn)})
    + if bn < NDIRECT then {} else WithBitmap(t.g, Ind(t, i))
  }

  /** Data and bitmap blocks, indirect blocks, turns of the loop so far, and how many of them allocated. */
  datatype Ledger = Ledger(core: set<nat>, extra: set<nat>, turns: nat, added: nat)

  /** A call of writei for n bytes at off to file i, with `before` logged before it; whether files may have holes. */
  datatype Job = Job(i: nat, off: nat, n: nat, before: set<nat>, holes: bool)

  ghost predicate Accounted(l: Ledger, j: Job, t: Fs, tot: nat, logged: set<nat>) {
    match l
    case Ledger(core, extra, turns, added) =>
      && logged <= j.before + core + extra
      && |core| <= turns + added
      && (extra == {} || (Ind(t, j.i) != 0 && extra == WithBitmap(t.g, Ind(t, j.i))))
      && Counted(j, tot, turns, added)
  }

  /** Every turn but the last ends at a block boundary, and a first turn inside a block finds that block there,
      unless it is a hole. */
  predicate Counted(j: Job, tot: nat, turns: nat, added: nat) {
    && (tot < j.n ==> tot == if turns == 0 then 0 else turns * BSIZE - j.off % BSIZE)
    && (turns > 0 ==> (turns - 1) * BSIZE < j.n + j.off % BSIZE)
    && added <= turns && (j.off % BSIZE != 0 && !j.holes && turns > 0 ==> added <= turns - 1)
  }

  lemma CountTurn(j: Job, tot: nat, turns: nat, added: nat, m: nat, isNew: bool)
    requires Counted(j, tot, turns, added) && tot < j.n
    requires 0 < m <= j.n - tot && m <= BSIZE - (j.off + tot) % BSIZE
    requires m == j.n - tot || m == BSIZE - (j.off + tot) % BSIZE
    requires turns == 0 && j.off % BSIZE != 0 && !j.holes ==> !isNew
    ensures Counted(j, tot + m, turns + 1, added + if isNew then 1 else 0)
  {
    if turns == 0 {
      assert (j.off + tot) % BSIZE == j.off % BSIZE;
    } else {
      assert j.off + tot == (j.off / BSIZE + turns) * BSIZE;
      assert (j.off + tot) % BSIZE == 0;
    }
  }

  /** A turn that wrote m bytes. */
  lemma Turn(l: Ledger, j: Job, s: Fs, t: Fs, tot: nat, m: nat, logged: set<nat>, logged': set<nat>)
    returns (l': Ledger)
    requires Accounted(l, j, s, tot, logged) && tot < j.n && t.g == s.g
    requires 0 < m <= j.n - tot && m <= BSIZE - (j.off + tot) % BSIZE
    requires m == j.n - tot || m == BSIZE - (j.off + tot) % BSIZE
    requires logged' <= logged + BlockCost(s, t, j.i, (j.off + tot) / BSIZE)
    requires Ind(s, j.i) != 0 ==> Ind(t, j.i) == Ind(s, j.i)
    requires j.off % BSIZE != 0 && !j.holes ==> Slot(s, j.i, j.off / BSIZE) != 0
    ensures Accounted(l', j, t, tot + m, logged')
  {
    var bn := (j.off + tot) / BSIZE;
    var b := Slot(t, j.i, bn);
    var isNew := Slot(s, j.i, bn) == 0;
    CountTurn(j, tot, l.turns, l.added, m, isNew);
    var more := if b == 0 then {} else if isNew then WithBitmap(t.g, b) else {b};
    assert |more| <= if isNew then 2 else 1;
    var extra := if bn < NDIRECT || Ind(t, j.i) == 0 then l.extra else WithBitmap(t.g, Ind(t, j.i));
    l' := Ledger(l.core + more, extra, l.turns + 1, l.added + if isNew then 1 else 0);
    assert l.extra <= extra;
    Cover(j.before, l.core, l.extra, more, extra, logged, logged', BlockCost(s, t, j.i, bn));
  }

  lemma Cover(before: set<nat>, core: set<nat>, extra: set<nat>, more: set<nat>, extra': set<nat>,
              logged: set<nat>, logged': set<nat>, cost: set<nat>)
    requires logged <= before + core + extra && logged' <= logged + cost && cost <= more + extra' && extra <= extra'
    ensures logged' <= before + (core + more) + extra' && |core + more| <= |core| + |more|
  {
  }

  /** A turn that found the disk full. */
  lemma LastTurn(l: Ledger, j: Job, s: Fs, t: Fs, tot: nat, logged: set<nat>, logged': set<nat>) returns (l': Ledger)
    requires Accounted(l, j, s, tot, logged) && t.g == s.g && Slot(t, j.i, (j.off + tot) / BSIZE) == 0
    requires logged' <= logged + BlockCost(s, t, j.i, (j.off + tot) / BSIZE)
    requires Ind(s, j.i) != 0 ==> Ind(t, j.i) == Ind(s, j.i)
    ensures Accounted(l', j, t, tot, logged')
  {
    var extra := if (j.off + tot) / BSIZE < NDIRECT || Ind(t, j.i) == 0 then l.extra else WithBitmap(t.g, Ind(t, j.i));
    l' := l.(extra := extra);
  }

  lemma Cardinality<T>(a: set<T>, b: set<T>)
    requires a <= b
    ensures |a| <= |b|
  {
    assert b == a + (b - a);
  }

  /** What one operation may log: MAXOPBLOCKS, and one more if the write may start inside a hole. */
  function OpLimit(holes: bool): nat {
    if holes then LogDisk.MAXOPBLOCKS + 1 else LogDisk.MAXOPBLOCKS
  }

  /** Three blocks' worth of bytes: at most four data blocks, three of them new (or four, with holes), one indirect
      block. */
  lemma ChunkBound(l: Ledger, j: Job, t: Fs, tot: nat, logged: set<nat>)
    requires Accounted(l, j, t, tot, logged) && j.n <= 3 * BSIZE
    ensures |logged| <= |j.before| + OpLimit(j.holes) - 1
  {
    Cardinality(logged, j.before + l.core + l.extra);
    assert |j.before + l.core + l.extra| <= |j.before| + |l.core| + |l.extra|;
    assert |l.extra| <= 2;
    assert l.turns + l.added <= if j.holes then 8 else 7;
  }
}

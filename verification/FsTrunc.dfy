/** Taking a file's blocks away one by one. */
module FsTrunc {
  import opened FsBlocks
  import opened FsFiles
  import opened FsState

  predicate OwnedBy(r: Role, i: nat) {
    (r.Data? || r.Indirect?) && r.i == i
  }

  /** The role of a block once the first d direct blocks of file i are free and, if the indirect block has
      been cut off, the first e entries of it too. */
  function Stage(r: Role, i: nat, d: nat, cut: bool, e: nat): Role {
    if !OwnedBy(r, i) then r
    else if r.Data? && r.bn < NDIRECT then (if r.bn < d then Free else r)
    else if !cut then r
    else if r.Data? && r.bn - NDIRECT < e then Free
    else Held
  }

  ghost predicate Staged(before: seq<Role>, role: seq<Role>, i: nat, d: nat, cut: bool, e: nat) {
    |role| == |before| && forall c: nat {:trigger role[c]} :: c < |role| ==> role[c] == Stage(before[c], i, d, cut, e)
  }

  /** Every other file is as in s. */
  ghost predicate OthersAs(s: Fs, t: Fs, i: nat) {
    && t.g == s.g && |t.ino| == |s.ino| && |t.disk| == |s.disk| && InodeBlocksKept(s, t)
    && (forall j: nat {:trigger t.ino[j]} :: j < |t.ino| && j != i ==> t.ino[j] == s.ino[j])
    && (forall j: nat, n: nat {:trigger Slot(t, j, n)} :: j != i ==> BlockKept(s, t, j, n))
  }

  lemma OthersTrans(s: Fs, t: Fs, u: Fs, i: nat)
    requires OthersAs(s, t, i) && OthersAs(t, u, i)
    ensures OthersAs(s, u, i)
  {
    forall j: nat | j < |u.ino| && j != i ensures u.ino[j] == s.ino[j] {
      assert t.ino[j] == s.ino[j];
    }
    forall j: nat, n: nat | j != i ensures BlockKept(s, u, j, n) {
      assert Slot(u, j, n) == Slot(t, j, n) == Slot(s, j, n);
    }
  }

  /** Direct block d of an empty file leaves it. */
  function Unlinked(s: Fs, i: nat, d: nat): Fs
    requires i < |s.ino| && d < |s.ino[i].addrs| && s.ino[i].addrs[d] < |s.role|
  {
    s.(ino := s.ino[i := s.ino[i].(addrs := s.ino[i].addrs[d := 0])], role := s.role[s.ino[i].addrs[d] := Held])
  }

  lemma UnlinkStep(s: Fs, i: nat, d: nat)
    requires Inv(s) && i < |s.ino| && s.ino[i].size == 0 && d < NDIRECT && Slot(s, i, d) != 0
    ensures d < |s.ino[i].addrs| && s.ino[i].addrs[d] == Slot(s, i, d) < |s.role| && s.role[Slot(s, i, d)] == Data(i, d)
    ensures Inv(Unlinked(s, i, d)) && OthersAs(s, Unlinked(s, i, d), i)
  {
    var b, t := Slot(s, i, d), Unlinked(s, i, d);
    assert RoleAt(s, b) == Data(i, d);
    assert forall j: nat, n: nat {:trigger Slot(t, j, n)} {:trigger Slot(s, j, n)} ::
      Slot(t, j, n) == if j == i && n == d then 0 else Slot(s, j, n);
    assert forall j: nat {:trigger Ind(t, j)} {:trigger Ind(s, j)} :: Ind(t, j) == Ind(s, j);
    assert forall c: nat {:trigger RoleAt(t, c)} ::
      c < |t.role| ==> RoleAt(t, c) == if c == b then Held else RoleAt(s, c);
    BitsKept(s, t);
    forall j: nat, n: nat | j != i ensures BlockKept(s, t, j, n) {
      assert Slot(t, j, n) == Slot(s, j, n);
    }
  }

  lemma ReleaseOthers(s: Fs, b: nat, i: nat)
    requires Inv(s) && b < |s.role| && s.role[b] == Held
    ensures Inv(Released(s, b)) && OthersAs(s, Released(s, b), i)
  {
    ReleaseStep(s, b);
    var t := Released(s, b);
    assert RoleAt(s, BBlock(s.g, b)) == Meta;
    forall j: nat, n: nat ensures BlockKept(s, t, j, n) {
      assert Slot(t, j, n) == Slot(s, j, n);
    }
  }

  /** One direct block further; a slot that is 0 has no block to free. */
  lemma DirectStaged(s: Fs, before: seq<Role>, i: nat, d: nat)
    requires Inv(s) && Staged(before, s.role, i, d, false, 0) && i < |s.ino| && d < NDIRECT
    ensures Slot(s, i, d) == 0 ==> Staged(before, s.role, i, d + 1, false, 0)
    ensures Slot(s, i, d) != 0 ==>
      Slot(s, i, d) < |s.role| && Staged(before, s.role[Slot(s, i, d) := Free], i, d + 1, false, 0)
  {
    var b := Slot(s, i, d);
    assert b != 0 ==> RoleAt(s, b) == Data(i, d);
    forall c: nat | c < |s.role| && (c != b || b == 0) ensures Stage(before[c], i, d + 1, false, 0) == s.role[c] {
      assert RoleAt(s, c) == Stage(before[c], i, d, false, 0);
      assert RoleAt(s, 0) == Meta;
    }
  }

  /** The indirect block of an empty file leaves it, and its entries with it. */
  function Cut(s: Fs, i: nat): Fs
    requires i < |s.ino| && |s.ino[i].addrs| == NDIRECT + 1
  {
    s.(ino := s.ino[i := s.ino[i].(addrs := s.ino[i].addrs[NDIRECT := 0])],
       role := seq(|s.role|, c requires 0 <= c < |s.role| => Stage(s.role[c], i, 0, true, 0)))
  }

  lemma CutSlots(s: Fs, i: nat)
    requires i < |s.ino| && |s.ino[i].addrs| == NDIRECT + 1
    ensures var t := Cut(s, i);
            && (forall j: nat, n: nat {:trigger Slot(t, j, n)} {:trigger Slot(s, j, n)} ::
                Slot(t, j, n) == if j == i && n >= NDIRECT then 0 else Slot(s, j, n))
            && (forall j: nat {:trigger Ind(t, j)} {:trigger Ind(s, j)} :: Ind(t, j) == if j == i then 0 else Ind(s, j))
            && (forall c: nat {:trigger RoleAt(t, c)} ::
                c < |t.role| ==> RoleAt(t, c) == Stage(RoleAt(s, c), i, 0, true, 0))
  {
  }

  lemma CutStep(s: Fs, i: nat)
    requires Inv(s) && i < |s.ino| && s.ino[i].size == 0
    ensures |s.ino[i].addrs| == NDIRECT + 1
    ensures Inv(Cut(s, i))
  {
    var t := Cut(s, i);
    CutSlots(s, i);
    BitsKept(s, t);
    forall j: nat, n: nat | Slot(t, j, n) != 0
      ensures Slot(t, j, n) < |t.role| && RoleAt(t, Slot(t, j, n)) == Data(j, n)
    {
      assert RoleAt(s, Slot(s, j, n)) == Data(j, n);
      assert j != i || n < NDIRECT;
    }
    forall c: nat | c < |t.role|
      ensures RoleAt(t, c).Data? ==> Slot(t, RoleAt(t, c).i, RoleAt(t, c).bn) == c
      ensures RoleAt(t, c).Indirect? ==> Ind(t, RoleAt(t, c).i) == c
    {
      assert RoleAt(t, c) == Stage(RoleAt(s, c), i, 0, true, 0);
    }
  }

  lemma CutOthers(s: Fs, i: nat)
    requires i < |s.ino| && |s.ino[i].addrs| == NDIRECT + 1
    ensures OthersAs(s, Cut(s, i), i)
  {
    var t := Cut(s, i);
    forall j: nat, n: nat | j != i ensures BlockKept(s, t, j, n) {
      assert Slot(t, j, n) == Slot(s, j, n);
    }
  }

  lemma CutStaged(s: Fs, before: seq<Role>, i: nat)
    requires Staged(before, s.role, i, NDIRECT, false, 0) && i < |s.ino| && |s.ino[i].addrs| == NDIRECT + 1
    ensures Staged(before, Cut(s, i).role, i, NDIRECT, true, 0)
  {
  }

  /** One entry further. `s` is the state before truncation. */
  lemma EntryStaged(s: Fs, role: seq<Role>, i: nat, e: nat)
    requires Inv(s) && Staged(s.role, role, i, NDIRECT, true, e) && e < NINDIRECT
    ensures var b := Slot(s, i, NDIRECT + e);
            if b == 0 then Staged(s.role, role, i, NDIRECT, true, e + 1)
            else b < |role| && role[b] == Held && Staged(s.role, role[b := Free], i, NDIRECT, true, e + 1)
  {
    var b := Slot(s, i, NDIRECT + e);
    assert b != 0 ==> RoleAt(s, b) == Data(i, NDIRECT + e);
    forall c: nat | c < |role| && (c != b || b == 0) ensures Stage(s.role[c], i, NDIRECT, true, e + 1) == role[c] {
      assert RoleAt(s, c) == s.role[c] && RoleAt(s, 0) == Meta;
      assert role[c] == Stage(s.role[c], i, NDIRECT, true, e);
    }
  }

  /** Exactly the blocks of file i have become free. */
  ghost predicate FreedExactly(before: seq<Role>, role: seq<Role>, i: nat) {
    |role| == |before| && forall c: nat {:trigger role[c]} ::
      c < |role| ==> role[c] == if OwnedBy(before[c], i) then Free else before[c]
  }

  lemma AllStaged(s: Fs, role: seq<Role>, i: nat)
    requires Inv(s) && i < |s.ino|
    requires Ind(s, i) == 0 ==> Staged(s.role, role, i, NDIRECT, false, 0)
    requires Ind(s, i) != 0 ==> Staged(s.role, role, i, NDIRECT, true, NINDIRECT)
    ensures Ind(s, i) < |role|
    ensures FreedExactly(s.role, if Ind(s, i) == 0 then role else role[Ind(s, i) := Free], i)
    ensures Ind(s, i) != 0 ==> role[Ind(s, i)] == Held
  {
    assert RoleAt(s, Ind(s, i)) == s.role[Ind(s, i)];
    var role' := if Ind(s, i) == 0 then role else role[Ind(s, i) := Free];
    forall c: nat | c < |role'| ensures role'[c] == if OwnedBy(s.role[c], i) then Free else s.role[c] {
      assert RoleAt(s, c) == s.role[c] && RoleAt(s, 0) == Meta;
      assert RoleAt(s, c).Data? ==> Slot(s, RoleAt(s, c).i, RoleAt(s, c).bn) == c;
      assert role[c] == Stage(s.role[c], i, NDIRECT, Ind(s, i) != 0, if Ind(s, i) == 0 then 0 else NINDIRECT);
    }
  }

  // ---------------------------------------------------------------- the two loops of itrunc

  /** Nothing but metadata blocks has been written. */
  ghost predicate DataKept(s: Fs, t: Fs) {
    |t.disk| == |s.disk| && forall m: nat {:trigger t.disk[m]} :: s.g.nmeta <= m < |s.disk| ==> t.disk[m] == s.disk[m]
  }

  /** Truncation of file i from state s, d direct blocks done. h is the state with the size already 0. */
  ghost predicate DirectDone(s: Fs, h: Fs, i: nat, d: nat) {
    && Inv(h) && OthersAs(s, h, i) && DataKept(s, h) && i < |h.ino| && h.ino[i].size == 0
    && Staged(s.role, h.role, i, d, false, 0) && Ind(h, i) == Ind(s, i)
  }

  lemma DirectStep(s: Fs, h: Fs, i: nat, d: nat)
    requires DirectDone(s, h, i, d) && d < NDIRECT
    ensures d < |h.ino[i].addrs| && Slot(h, i, d) == h.ino[i].addrs[d] < |h.role|
    ensures if Slot(h, i, d) == 0 then DirectDone(s, h, i, d + 1)
            else InUse(h, Slot(h, i, d)) && DirectDone(s, Released(Unlinked(h, i, d), Slot(h, i, d)), i, d + 1)
  {
    var b := Slot(h, i, d);
    DirectStaged(h, s.role, i, d);
    if b != 0 {
      UnlinkStep(h, i, d);
      var m := Unlinked(h, i, d);
      assert RoleAt(h, b) == Data(i, d);
      ReleaseOthers(m, b, i);
      OthersTrans(s, h, m, i);
      OthersTrans(s, m, Released(m, b), i);
      assert Released(m, b).role == h.role[b := Free];
    }
  }

  /** The direct blocks are gone, the indirect block is cut off, and e of its entries are done. */
  ghost predicate EntriesDone(s: Fs, h: Fs, i: nat, e: nat) {
    && Inv(h) && OthersAs(s, h, i) && DataKept(s, h)
    && Staged(s.role, h.role, i, NDIRECT, true, e)
  }

  lemma EntriesStart(s: Fs, h: Fs, i: nat)
    requires DirectDone(s, h, i, NDIRECT)
    ensures |h.ino[i].addrs| == NDIRECT + 1 && EntriesDone(s, Cut(h, i), i, 0)
  {
    CutStep(h, i);
    CutOthers(h, i);
    CutStaged(h, s.role, i);
    OthersTrans(s, h, Cut(h, i), i);
  }

  lemma EntryStep(s: Fs, h: Fs, i: nat, e: nat)
    requires Inv(s) && EntriesDone(s, h, i, e) && e < NINDIRECT
    ensures var b := Slot(s, i, NDIRECT + e);
            if b == 0 then EntriesDone(s, h, i, e + 1)
            else b < |h.role| && InUse(h, b) && EntriesDone(s, Released(h, b), i, e + 1)
  {
    var b := Slot(s, i, NDIRECT + e);
    EntryStaged(s, h.role, i, e);
    if b != 0 {
      assert RoleAt(h, b) == Held;
      ReleaseOthers(h, b, i);
      OthersTrans(s, h, Released(h, b), i);
    }
  }

  /** All of file i's blocks are free and nothing else has changed. */
  ghost predicate Truncated(s: Fs, t: Fs, i: nat) {
    Inv(t) && OthersAs(s, t, i) && FreedExactly(s.role, t.role, i)
  }

  lemma TruncEnds(s: Fs, h: Fs, i: nat)
    requires Inv(s) && i < |s.ino|
    requires if Ind(s, i) == 0 then DirectDone(s, h, i, NDIRECT) else EntriesDone(s, h, i, NINDIRECT)
    ensures Ind(s, i) < |h.role|
    ensures var t := if Ind(s, i) == 0 then h else Released(h, Ind(s, i));
            Truncated(s, t, i)
    ensures Ind(s, i) != 0 ==> InUse(h, Ind(s, i))
  {
    AllStaged(s, h.role, i);
    if Ind(s, i) != 0 {
      assert RoleAt(h, Ind(s, i)) == Held;
      ReleaseOthers(h, Ind(s, i), i);
      OthersTrans(s, h, Released(h, Ind(s, i)), i);
    }
  }

  lemma TruncStarts(s: Fs, i: nat)
    requires Inv(s) && i < |s.ino|
    ensures DirectDone(s, Resized(s, i, 0), i, 0)
  {
    var h := Resized(s, i, 0);
    ResizeStep(s, i, 0);
    forall j: nat, n: nat ensures BlockKept(s, h, j, n) {
      assert Slot(h, j, n) == Slot(s, j, n);
    }
  }

  /** The indirect block still lists what it listed before truncation. */
  lemma IndirectWords(s: Fs, h: Fs, i: nat)
    requires Inv(s) && DirectDone(s, h, i, NDIRECT) && Ind(h, i) != 0
    ensures Ind(h, i) < |h.disk|
    ensures forall e: nat :: e < NINDIRECT ==> Word(h.disk[Ind(h, i)], e) == Slot(s, i, NDIRECT + e)
  {
    assert RoleAt(s, Ind(s, i)) == Indirect(i);
    assert h.disk[Ind(s, i)] == s.disk[Ind(s, i)];
  }

  /** A file without blocks names none. */
  lemma TruncatedInode(s: Fs, t: Fs, i: nat)
    requires Truncated(s, t, i) && i < |t.ino|
    ensures t.ino[i].addrs == seq(NDIRECT + 1, _ => 0)
  {
    assert InodeOk(t.ino[i]);
    forall k: nat | k <= NDIRECT ensures t.ino[i].addrs[k] == 0 {
      var b := if k < NDIRECT then Slot(t, i, k) else Ind(t, i);
      assert b == t.ino[i].addrs[k];
      var r := if b < |t.role| then RoleAt(t, b) else Free;
    }
  }

  lemma TruncatedFiles(s: Fs, t: Fs, i: nat)
    requires Inv(s) && NoneHeld(s) && AllSyncedBut(s, |s.ino|) && Truncated(s, t, i) && i < |s.ino|
    ensures NoneHeld(t) && AllSyncedBut(t, i)
    ensures forall j: nat {:trigger Contents(t, j)} :: j < |t.ino| && j != i ==> Contents(t, j) == Contents(s, j)
  {
    forall c: nat | c < |t.role| ensures RoleAt(t, c) != Held {
      assert RoleAt(s, c) != Held;
    }
    SyncedKept(s, t, i);
    forall j: nat | j < |t.ino| && j != i ensures Contents(t, j) == Contents(s, j) {
      assert t.ino[j] == s.ino[j];
      forall k: nat ensures ByteAt(t, j, k) == ByteAt(s, j, k) {
        assert Slot(t, j, k / BSIZE) == Slot(s, j, k / BSIZE);
      }
      SameBytesSameFile(s, t, j, s.ino[j].size);
    }
  }
}

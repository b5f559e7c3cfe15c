/** What lies inside one disk block: bitmap bits, little-endian 32-bit words, file bytes. */
module FsBlocks {
  import opened Basics

  const BSIZE: nat := 1024
  const NINDIRECT: nat := 256       // words in a block
  const BPB: nat := 8192            // bits in a block
  const WORD: nat := 0x1_0000_0000

  type Byte = x: int | 0 <= x < 256

  function Zeros(): (b: seq<Byte>)
    ensures |b| == BSIZE
  {
    seq(BSIZE, _ => 0)
  }

  type Block = b: seq<Byte> | |b| == BSIZE witness Zeros()

  // ---------------------------------------------------------------- bits

  predicate BitOf(x: nat, i: nat) {
    if i == 0 then x % 2 == 1 else BitOf(x / 2, i - 1)
  }

  /** x | 1 << i. */
  function OrBit(x: nat, i: nat): nat {
    if i == 0 then x - x % 2 + 1 else 2 * OrBit(x / 2, i - 1) + x % 2
  }

  /** x & ~(1 << i). */
  function AndNotBit(x: nat, i: nat): nat {
    if i == 0 then x - x % 2 else 2 * AndNotBit(x / 2, i - 1) + x % 2
  }

  lemma {:induction false} OrBitIs(x: nat, i: nat, j: nat)
    ensures BitOf(OrBit(x, i), j) <==> j == i || BitOf(x, j)
  {
    if i > 0 && j > 0 {
      OrBitIs(x / 2, i - 1, j - 1);
    } else if i == 0 && j > 0 {
      assert OrBit(x, i) / 2 == x / 2;
    }
  }

  lemma {:induction false} AndNotBitIs(x: nat, i: nat, j: nat)
    ensures BitOf(AndNotBit(x, i), j) <==> j != i && BitOf(x, j)
  {
    if i > 0 && j > 0 {
      AndNotBitIs(x / 2, i - 1, j - 1);
    } else if i == 0 && j > 0 {
      assert AndNotBit(x, i) / 2 == x / 2;
    }
  }

  lemma {:induction false} BitOpsFit(x: nat, i: nat, n: nat)
    requires i < n && x < Power(n)
    ensures OrBit(x, i) < Power(n) && AndNotBit(x, i) < Power(n)
  {
    if i == 0 {
    } else {
      BitOpsFit(x / 2, i - 1, n - 1);
    }
  }

  predicate Bit(b: Block, i: nat)
    requires i < BPB
  {
    BitOf(b[i / 8], i % 8)
  }

  lemma BytesFit(b: Block, i: nat)
    requires i < BPB
    ensures OrBit(b[i / 8], i % 8) < 256 && AndNotBit(b[i / 8], i % 8) < 256
  {
    assert Power(8) == 256 by { assert Power(4) == 16; }
    BitOpsFit(b[i / 8], i % 8, 8);
  }

  function SetBit(b: Block, i: nat): Block
    requires i < BPB
  {
    BytesFit(b, i);
    b[i / 8 := OrBit(b[i / 8], i % 8)]
  }

  function ClearBit(b: Block, i: nat): Block
    requires i < BPB
  {
    BytesFit(b, i);
    b[i / 8 := AndNotBit(b[i / 8], i % 8)]
  }

  lemma BitAfter(b: Block, i: nat, j: nat)
    requires i < BPB && j < BPB
    ensures Bit(SetBit(b, i), j) <==> j == i || Bit(b, j)
    ensures Bit(ClearBit(b, i), j) <==> j != i && Bit(b, j)
  {
    OrBitIs(b[i / 8], i % 8, j % 8);
    AndNotBitIs(b[i / 8], i % 8, j % 8);
  }

  lemma {:induction false} ZeroBit(i: nat)
    ensures !BitOf(0, i)
  {
    if i == 0 {
    } else {
      ZeroBit(i - 1);
    }
  }

  /** mkfs's balloc: a bitmap block with exactly the first `used` bits set. */
  method FirstBits(used: nat) returns (b: Block)
    requires used < BPB
    ensures forall j: nat :: j < BPB ==> (Bit(b, j) <==> j < used)
  {
    b := Zeros();
    forall j: nat | j < BPB ensures !Bit(b, j) {
      ZeroBit(j % 8);
    }
    var i := 0;
    while i < used
      invariant i <= used && forall j: nat :: j < BPB ==> (Bit(b, j) <==> j < i)
    {
      ghost var c := b;
      b := SetBit(b, i);
      forall j: nat | j < BPB ensures Bit(b, j) <==> j < i + 1 {
        BitAfter(c, i, j);
      }
      i := i + 1;
    }
  }

  // ---------------------------------------------------------------- words

  function Word(b: Block, k: nat): nat
    requires k < NINDIRECT
  {
    Bytes(b, 4 * k, 4)
  }

  /** n bytes from position `at`, least significant first. */
  function Bytes(b: Block, at: nat, n: nat): nat
    requires at + n <= BSIZE
    decreases n
  {
    if n == 0 then 0 else b[at] + 0x100 * Bytes(b, at + 1, n - 1)
  }

  function Digit(w: nat, d: nat): Byte {
    if d == 0 then w % 0x100 else Digit(w / 0x100, d - 1)
  }

  function SetWord(b: Block, k: nat, w: nat): Block
    requires k < NINDIRECT && w < WORD
  {
    b[4 * k := Digit(w, 0)][4 * k + 1 := Digit(w, 1)][4 * k + 2 := Digit(w, 2)][4 * k + 3 := Digit(w, 3)]
  }

  lemma {:induction false} BytesOfDigits(b: Block, at: nat, n: nat, w: nat)
    requires at + n <= BSIZE && w < Power(8 * n)
    requires forall d: nat {:trigger Digit(w, d)} :: d < n ==> b[at + d] == Digit(w, d)
    ensures Bytes(b, at, n) == w
    decreases n
  {
    if n == 0 {
    } else {
      EightBits(8 * (n - 1));
      forall d: nat | d < n - 1 ensures b[at + 1 + d] == Digit(w / 0x100, d) {
        assert Digit(w, d + 1) == Digit(w / 0x100, d);
      }
      BytesOfDigits(b, at + 1, n - 1, w / 0x100);
      assert Digit(w, 0) == w % 0x100;
    }
  }

  lemma EightBits(n: nat)
    ensures Power(n + 8) == 0x100 * Power(n)
  {
    assert Power(n + 2) == 4 * Power(n);
    assert Power(n + 4) == 4 * Power(n + 2);
    assert Power(n + 6) == 4 * Power(n + 4);
  }

  lemma {:induction false} SameBytes(b: Block, c: Block, at: nat, n: nat)
    requires at + n <= BSIZE && forall d: nat {:trigger c[d]} :: at <= d < at + n ==> b[d] == c[d]
    ensures Bytes(b, at, n) == Bytes(c, at, n)
    decreases n
  {
    if n == 0 {
    } else {
      SameBytes(b, c, at + 1, n - 1);
    }
  }

  lemma WordAfter(b: Block, k: nat, w: nat, j: nat)
    requires k < NINDIRECT && w < WORD && j < NINDIRECT
    ensures Word(SetWord(b, k, w), j) == if j == k then w else Word(b, j)
  {
    if j == k {
      EightBits(0);
      EightBits(8);
      EightBits(16);
      EightBits(24);
      assert Power(0) == 1;
      BytesOfDigits(SetWord(b, k, w), 4 * k, 4, w);
    } else {
      SameBytes(SetWord(b, k, w), b, 4 * j, 4);
    }
  }

  lemma {:induction false} ZeroBytes(at: nat, n: nat)
    requires at + n <= BSIZE
    ensures Bytes(Zeros(), at, n) == 0
    decreases n
  {
    if n == 0 {
    } else {
      ZeroBytes(at + 1, n - 1);
    }
  }

  lemma ZeroWord(k: nat)
    requires k < NINDIRECT
    ensures Word(Zeros(), k) == 0
  {
    ZeroBytes(4 * k, 4);
  }

  predicate AreWords(ws: seq<nat>) {
    forall k: nat :: k < |ws| ==> ws[k] < WORD
  }

  /** The words ws stored from word k on. */
  function PutWords(b: Block, k: nat, ws: seq<nat>): Block
    requires k + |ws| <= NINDIRECT && AreWords(ws)
    decreases |ws|
  {
    if ws == [] then b else SetWord(PutWords(b, k, ws[..|ws| - 1]), k + |ws| - 1, ws[|ws| - 1])
  }

  lemma {:induction false} PutWordsAt(b: Block, k: nat, ws: seq<nat>, j: nat)
    requires k + |ws| <= NINDIRECT && AreWords(ws) && j < NINDIRECT
    ensures Word(PutWords(b, k, ws), j) == if k <= j < k + |ws| then ws[j - k] else Word(b, j)
    decreases |ws|
  {
    if ws == [] {
    } else {
      PutWordsAt(b, k, ws[..|ws| - 1], j);
      WordAfter(PutWords(b, k, ws[..|ws| - 1]), k + |ws| - 1, ws[|ws| - 1], j);
    }
  }

  // ---------------------------------------------------------------- bytes

  /** memmove of d into the block at position `at`. */
  function Overlay(b: Block, at: nat, d: seq<Byte>): Block
    requires at + |d| <= BSIZE
  {
    b[..at] + d + b[at + |d|..]
  }
}

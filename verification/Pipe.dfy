/** kernel/pipe.c: a ring of PIPESIZE bytes between 32-bit counters that wrap. */
module Pipe {

  const PIPESIZE: nat := 512
  const WRAP: nat := 0x1_0000_0000

  /** The ring and its counters, and all bytes ever accepted and ever removed. */
  datatype Ring = Ring(data: seq<char>, nread: nat, nwrite: nat, accepted: seq<char>, removed: seq<char>)

  /** What is in the ring is exactly what has been accepted and not yet removed, in order. */
  ghost predicate Inv(r: Ring) {
    && |r.data| == PIPESIZE && |r.removed| <= |r.accepted| <= |r.removed| + PIPESIZE
    && r.nread == |r.removed| % WRAP && r.nwrite == |r.accepted| % WRAP
    && r.removed == r.accepted[..|r.removed|]
    && forall k: nat {:trigger r.accepted[k]} ::
        |r.removed| <= k < |r.accepted| ==> r.data[k % PIPESIZE] == r.accepted[k]
  }

  function Held(r: Ring): seq<char>
    requires |r.removed| <= |r.accepted|
  {
    r.accepted[|r.removed|..]
  }

  /** The two comparisons of the code say full and empty, wherever the counters have wrapped to. */
  lemma FullAndEmpty(r: Ring)
    requires Inv(r)
    ensures r.nwrite == (r.nread + PIPESIZE) % WRAP <==> |r.accepted| == |r.removed| + PIPESIZE
    ensures r.nread == r.nwrite <==> |r.accepted| == |r.removed|
  {
    var a, b := |r.removed|, |r.accepted|;
    assert (a % WRAP + PIPESIZE) % WRAP == (a + PIPESIZE) % WRAP;
    SameWhenWrapped(a, b);
    SameWhenWrapped(b, a + PIPESIZE);
  }

  lemma SameWhenWrapped(a: nat, b: nat)
    requires a <= b <= a + PIPESIZE
    ensures a % WRAP == b % WRAP <==> a == b
  {
  }

  lemma WrapsEvenly(n: nat)
    ensures n % WRAP % PIPESIZE == n % PIPESIZE && (n % WRAP + 1) % WRAP == (n + 1) % WRAP
  {
  }

  /** pi->data[pi->nwrite++ % PIPESIZE] = c. */
  function Put(r: Ring, c: char): Ring
    requires |r.data| == PIPESIZE
  {
    r.(data := r.data[r.nwrite % PIPESIZE := c], nwrite := (r.nwrite + 1) % WRAP, accepted := r.accepted + [c])
  }

  lemma PutStep(r: Ring, c: char)
    requires Inv(r) && |r.accepted| < |r.removed| + PIPESIZE
    ensures Inv(Put(r, c)) && Held(Put(r, c)) == Held(r) + [c]
  {
    var n := |r.accepted|;
    WrapsEvenly(n);
    var t := Put(r, c);
    forall k: nat | |r.removed| <= k < |t.accepted| ensures t.data[k % PIPESIZE] == t.accepted[k] {
      if k < n {
        assert r.accepted[k] == t.accepted[k];
        OtherSlot(k, n);
      }
    }
  }

  lemma OtherSlot(k: nat, n: nat)
    requires k < n < k + PIPESIZE
    ensures k % PIPESIZE != n % PIPESIZE
  {
  }

  /** ch = pi->data[pi->nread++ % PIPESIZE]. */
  function Take(r: Ring): Ring
    requires |r.data| == PIPESIZE
  {
    r.(nread := (r.nread + 1) % WRAP, removed := r.removed + [r.data[r.nread % PIPESIZE]])
  }

  lemma TakeStep(r: Ring)
    requires Inv(r) && |r.removed| < |r.accepted|
    ensures Inv(Take(r)) && Held(r) == [r.data[r.nread % PIPESIZE]] + Held(Take(r))
  {
    var n := |r.removed|;
    WrapsEvenly(n);
    assert r.data[n % PIPESIZE] == r.accepted[n];
    assert r.accepted[..n + 1] == r.accepted[..n] + [r.accepted[n]];
  }

  lemma OneMore(a: seq<char>, src: seq<char>, i: nat, k: nat)
    requires i <= k < |src|
    ensures a + src[i..k] + [src[k]] == a + src[i..k + 1]
  {
    assert src[i..k + 1] == src[i..k] + [src[k]];
  }

  /** How a stretch of pipewrite or piperead under the lock ends. */
  datatype Outcome = Returns(value: int) | Sleeps

  class PipeBuffer {
    var data: seq<char>
    var nread: nat
    var nwrite: nat
    var readopen: bool
    var writeopen: bool
    ghost var accepted: seq<char>
    ghost var removed: seq<char>

    ghost function View(): Ring
      reads this
    {
      Ring(data, nread, nwrite, accepted, removed)
    }

    ghost predicate Valid()
      reads this
    {
      Inv(View())
    }

    /** pipealloc, in a page whose contents are arbitrary. */
    constructor (page: seq<char>)
      requires |page| == PIPESIZE
      ensures Valid() && accepted == [] && removed == [] && readopen && writeopen
    {
      data, nread, nwrite, readopen, writeopen := page, 0, 0, true, true;
      accepted, removed := [], [];
    }

    /** pipeclose; freed when both ends are closed. */
    method Close(writable: bool) returns (freed: bool)
      requires Valid()
      modifies `readopen, `writeopen
      ensures Valid() && freed == (!readopen && !writeopen)
      ensures if writable then !writeopen && readopen == old(readopen) else !readopen && writeopen == old(writeopen)
    {
      if writable {
        writeopen := false;
      } else {
        readopen := false;
      }
      freed := !readopen && !writeopen;
    }

    method Store(c: char)
      requires Valid() && |accepted| < |removed| + PIPESIZE
      modifies `data, `nwrite, `accepted
      ensures Valid() && accepted == old(accepted) + [c]
    {
      PutStep(View(), c);
      data := data[nwrite % PIPESIZE := c];
      nwrite := (nwrite + 1) % WRAP;
      accepted := accepted + [c];
    }

    /** pipewrite of n bytes from its i-th on, until it returns or sleeps. `src` is as much of the user's buffer as
        can be read; the process is killed once `kill` bytes have gone. Other readers and writers come in between two
        such stretches. */
    method Write(src: seq<char>, n: int, i: nat, kill: nat) returns (i': nat, out: Outcome)
      requires Valid() && i <= |src|
      modifies `data, `nwrite, `accepted
      ensures Valid() && i <= i' <= |src| && accepted == old(accepted) + src[i..i']
      ensures i' > i ==> readopen && i' <= n && i' <= kill
      ensures out == if i' >= n then Returns(i')
                     else if !readopen || i' >= kill then Returns(-1)
                     else if |accepted| == |removed| + PIPESIZE then Sleeps
                     else Returns(|src|)
      ensures out == Returns(|src|) ==> i' == |src|
    {
      i' := i;
      while i' < n
        invariant Valid() && i <= i' <= |src| && accepted == old(accepted) + src[i..i']
        invariant i' > i ==> readopen && i' <= n && i' <= kill
      {
        if !readopen || i' >= kill {
          return i', Returns(-1);
        }
        FullAndEmpty(View());
        if nwrite == (nread + PIPESIZE) % WRAP {
          return i', Sleeps;
        }
        if i' == |src| {
          break;
        }
        OneMore(old(accepted), src, i, i');
        Store(src[i']);
        i' := i' + 1;
      }
      return i', Returns(i');
    }

    /** piperead of up to n bytes. `room` is how many of them can be copied out; the byte that cannot is lost. */
    method Read(n: int, room: nat, killed: bool) returns (dst: seq<char>, out: Outcome)
      requires Valid()
      modifies `nread, `removed
      ensures Valid() && old(removed) + dst <= removed && |removed| <= |old(removed)| + |dst| + 1
      ensures out == Sleeps <==> |accepted| == |old(removed)| && writeopen && !killed
      ensures out == Returns(-1) <==> |accepted| == |old(removed)| && writeopen && killed
      ensures out == Sleeps || out == Returns(-1) ==> removed == old(removed) && dst == []
      ensures n > 0 && room > 0 ==> (out == Returns(0) <==> |accepted| == |old(removed)| && !writeopen)
      ensures out.Returns? && out.value != -1 ==> out.value == |dst| && |dst| <= room
      ensures out.Returns? && out.value != -1 && |dst| < n && |dst| < room ==> |accepted| == |removed|
      ensures out.Returns? && out.value != -1 ==>
        (removed != old(removed) + dst <==> room < n && |accepted| > |old(removed)| + room)
    {
      dst := [];
      FullAndEmpty(View());
      if nread == nwrite && writeopen {
        return [], if killed then Returns(-1) else Sleeps;
      }
      while |dst| < n
        invariant Valid() && removed == old(removed) + dst && |dst| <= room
      {
        FullAndEmpty(View());
        if nread == nwrite {
          break;
        }
        TakeStep(View());
        var ch := data[nread % PIPESIZE];
        nread := (nread + 1) % WRAP;
        removed := removed + [ch];
        if |dst| == room {
          break;
        }
        dst := dst + [ch];
      }
      return dst, Returns(|dst|);
    }
  }

  /** A pipe that holds two bytes and has no writer any more. */
  method Holding(page: seq<char>, a: char, b: char) returns (pipe: PipeBuffer)
    requires |page| == PIPESIZE
    ensures fresh(pipe) && pipe.Valid() && pipe.accepted == [a, b] && pipe.removed == [] && !pipe.writeopen
  {
    pipe := new PipeBuffer(page);
    var i, out := pipe.Write([a, b], 2, 0, 2);
    var freed := pipe.Close(true);
  }

  /** Two bytes written, one delivered, none left: a reader whose buffer has room for one byte of two loses the
      other. */
  method ByteLost(page: seq<char>, a: char, b: char) returns (first: seq<char>, second: seq<char>)
    requires |page| == PIPESIZE
    ensures first == [a] && second == []
  {
    var pipe := Holding(page, a, b);
    var out;
    first, out := pipe.Read(2, 1, false);
    assert |first| == 1 && first[0] == pipe.removed[0];
    assert pipe.removed == [a, b];
    second, out := pipe.Read(2, 2, false);
  }
}

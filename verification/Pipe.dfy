/** `pipe.c`: the 512-byte ring with counters that wrap at 2^32, one critical section of the pipe's lock at
    a time. Between a section that ends asleep and the next, any other sections may run. */
module Pipe {

  const PIPESIZE := 512
  const WORD := 0x1_0000_0000

  datatype Outcome = Returned(r: int) | Sleeps

  /** The bytes one section of pipewrite puts in, of `left`, and one of piperead takes out, for n, with this many in flight. */
  function Puts(left: nat, inflight: nat): nat
    requires inflight <= PIPESIZE
  {
    if left <= PIPESIZE - inflight then left else PIPESIZE - inflight
  }

  function Takes(n: nat, inflight: nat): nat { if n < inflight then n else inflight }

  class Pipe {
    const data: array<int>
    var nread: nat
    var nwrite: nat
    var readopen: bool
    var writeopen: bool
    /** Every byte ever put in, and every byte ever taken out, over all writers and readers. */
    ghost var written: seq<int>
    ghost var consumed: seq<int>

    /** The bytes taken out are a prefix of the bytes put in, at most 512 are in flight, the ring holds exactly
        those, and the counters are the two lengths reduced to a word. */
    ghost predicate Valid()
      reads this, data
    {
      && data.Length == PIPESIZE
      && consumed <= written && |written| - |consumed| <= PIPESIZE
      && nread == |consumed| % WORD && nwrite == |written| % WORD
      && (forall k :: |consumed| <= k < |written| ==> data[k % PIPESIZE] == written[k])
    }

    constructor ()
      ensures Valid() && fresh(data) && written == consumed == [] && readopen && writeopen
    {
      data := new int[PIPESIZE];
      nread, nwrite, readopen, writeopen, written, consumed := 0, 0, true, true, [], [];
    }

    /** Bytes put in and not yet taken out. */
    ghost function InFlight(): seq<int>
      requires Valid()
      reads this, data
    {
      written[|consumed|..]
    }

    /** One section of pipewrite, from index i of src: it fills the ring or finishes, and sleeps only when the
        ring is full, the pipe is open for reading and the writer is not killed. */
    method Write(src: seq<int>, i: nat, killed: bool) returns (i': nat, o: Outcome)
      requires Valid() && i <= |src|
      modifies this, data
      ensures Valid() && i <= i' <= |src| && written == old(written) + src[i..i'] && consumed == old(consumed)
      ensures readopen == old(readopen) && writeopen == old(writeopen)
      ensures o == Returned(|src|) ==> i' == |src|
      ensures i' < |src| ==> |InFlight()| == PIPESIZE && o == (if !readopen || killed then Returned(-1) else Sleeps)
      ensures i' == |src| ==> o == Returned(|src|)
      ensures i' == i + Puts(|src| - i, |old(InFlight())|)
    {
      i' := i;
      while i' < |src|
        invariant Valid() && i <= i' <= |src| && written == old(written) + src[i..i'] && consumed == old(consumed)
        invariant readopen == old(readopen) && writeopen == old(writeopen)
      {
        FullExactly(|consumed|, |written|);
        if nwrite == (nread + PIPESIZE) % WORD {
          if !readopen || killed { return i', Returned(-1); }
          return i', Sleeps;
        }
        Put(src[i']);
        assert src[i..i' + 1] == src[i..i'] + [src[i']];
        i' := i' + 1;
      }
      return i', Returned(|src|);
    }

    method Put(b: int)
      requires Valid() && |written| - |consumed| < PIPESIZE
      modifies this`nwrite, this`written, data
      ensures Valid() && written == old(written) + [b]
    {
      WrapMod(|written|);
      ghost var w := |written|;
      forall k | |consumed| <= k < w ensures k % PIPESIZE != w % PIPESIZE { OtherPlace(k, w); }
      data[nwrite % PIPESIZE] := b;
      nwrite := (nwrite + 1) % WORD;
      written := written + [b];
    }

    /** One section of piperead: it sleeps only on an empty pipe open for writing; otherwise it returns the
        oldest bytes in flight, as many as there are up to n. */
    method Read(n: nat, killed: bool) returns (dst: seq<int>, o: Outcome)
      requires Valid()
      modifies this`nread, this`consumed
      ensures Valid() && consumed == old(consumed) + dst && written == old(written)
      ensures |old(InFlight())| == 0 && writeopen ==> dst == [] && o == (if killed then Returned(-1) else Sleeps)
      ensures |old(InFlight())| > 0 || !writeopen ==>
        o == Returned(|dst|) && |dst| == Takes(n, |old(InFlight())|) <= n && dst <= old(InFlight()) && (|dst| < n ==> dst == old(InFlight()))
    {
      dst := [];
      EmptyExactly(|consumed|, |written|);
      if nread == nwrite && writeopen {
        if killed { return [], Returned(-1); }
        return [], Sleeps;
      }
      var i := 0;
      while i < n
        invariant i <= n && Valid() && |dst| == i && consumed == old(consumed) + dst
      {
        EmptyExactly(|consumed|, |written|);
        if nread == nwrite { break; }
        WrapMod(|consumed|);
        var b := data[nread % PIPESIZE];
        nread := (nread + 1) % WORD;
        consumed := consumed + [b];
        dst := dst + [b];
        i := i + 1;
      }
      assert forall k :: 0 <= k < |dst| ==> dst[k] == consumed[|old(consumed)| + k];
      o := Returned(i);
    }

    /** pipeclose marks one end closed; the bytes in flight stay. */
    method Close(writable: bool) returns (freed: bool)
      requires Valid()
      modifies this`readopen, this`writeopen
      ensures Valid() && writeopen == (old(writeopen) && !writable) && readopen == (old(readopen) && writable)
      ensures freed == (!readopen && !writeopen)
    {
      if writable { writeopen := false; } else { readopen := false; }
      freed := !readopen && !writeopen;
    }
  }

  /** 512 divides 2^32, so the wrapped counter finds the same place in the ring. */
  lemma WrapMod(n: nat)
    ensures n % WORD % PIPESIZE == n % PIPESIZE && (n % WORD + 1) % WORD == (n + 1) % WORD
  {}

  lemma OtherPlace(k: nat, w: nat)
    requires k < w && w - k < PIPESIZE
    ensures k % PIPESIZE != w % PIPESIZE
  {}

  lemma FullExactly(c: nat, w: nat)
    requires c <= w <= c + PIPESIZE
    ensures w % WORD == (c % WORD + PIPESIZE) % WORD <==> w == c + PIPESIZE
  {}

  lemma EmptyExactly(c: nat, w: nat)
    requires c <= w <= c + PIPESIZE
    ensures c % WORD == w % WORD <==> c == w
  {}
}

/** File contents as byte sequences: what a write does to them, and how many blocks it spans. */
module FsContent {
  import opened FsState
  import opened FsBlocks
  import LR = LogRecovery

  /** Contents with d written at offset o. */
  function Splice(s: seq<Byte>, o: nat, d: seq<Byte>): seq<Byte>
    requires o <= |s|
  {
    s[..o] + d + (if o + |d| < |s| then s[o + |d|..] else [])
  }

  /** What was written reads back; the rest is as it was. */
  lemma SpliceReads(s: seq<Byte>, o: nat, d: seq<Byte>)
    requires o <= |s|
    ensures |Splice(s, o, d)| == Max(|s|, o + |d|)
    ensures Splice(s, o, d)[o..o + |d|] == d
    ensures forall k :: 0 <= k < |s| && (k < o || o + |d| <= k) ==> Splice(s, o, d)[k] == s[k]
  {}

  lemma SpliceTwice(s: seq<Byte>, o: nat, d: seq<Byte>, e: seq<Byte>)
    requires o <= |s|
    ensures Splice(Splice(s, o, d), o + |d|, e) == Splice(s, o, d + e)
  {
    SpliceReads(s, o, d);
  }

  function Min(a: nat, b: nat): nat { if a < b then a else b }

  function Max(a: nat, b: nat): nat { if a < b then b else a }

  // ---- Bytes ----

  function SplicedByte(v: View, i: nat, off: nat, d: seq<Byte>, j: nat, k: nat): Byte
    requires j < |v.ip| && k < MAXFILE * BSIZE
  {
    if j == i && off <= k < off + |d| then d[k - off] else ByteAt(v, j, k)
  }

  /** From v to w, d was written at off into file i and no other byte of any file changed. */
  ghost predicate Spliced(v: View, w: View, i: nat, off: nat, d: seq<Byte>) {
    |w.ip| == |v.ip| && forall j, k :: 0 <= j < |v.ip| && 0 <= k < MAXFILE * BSIZE ==> ByteAt(w, j, k) == SplicedByte(v, i, off, d, j, k)
  }

  lemma SplicedNone(v: View, i: nat, off: nat)
    ensures Spliced(v, v, i, off, [])
  {}

  lemma SplicedAfterSame(v: View, w: View, x: View, i: nat, off: nat, d: seq<Byte>)
    requires SameBytes(v, w) && Spliced(w, x, i, off, d)
    ensures Spliced(v, x, i, off, d)
  {}

  lemma SplicedThenSame(v: View, w: View, x: View, i: nat, off: nat, d: seq<Byte>)
    requires Spliced(v, w, i, off, d) && SameBytes(w, x)
    ensures Spliced(v, x, i, off, d)
  {}

  lemma SplicedJoin(v: View, w: View, x: View, i: nat, off: nat, d: seq<Byte>, e: seq<Byte>)
    requires Spliced(v, w, i, off, d) && Spliced(w, x, i, off + |d|, e)
    ensures Spliced(v, x, i, off, d + e)
  {}

  /** memmove into the block of file block off / BSIZE. */
  function Patched(blk: Blk, o: nat, d: seq<Byte>): Blk
    requires o + |d| <= BSIZE
  {
    blk[..o] + d + blk[o + |d|..]
  }

  lemma PatchedAt(blk: Blk, o: nat, d: seq<Byte>, k: nat)
    requires o + |d| <= BSIZE && k < BSIZE
    ensures Patched(blk, o, d)[k] == (if o <= k < o + |d| then d[k - o] else blk[k])
  {}

  lemma SameBlock(off: nat, n: nat, k: nat)
    requires off % BSIZE + n <= BSIZE && k / BSIZE == off / BSIZE
    ensures off <= k < off + n <==> off % BSIZE <= k % BSIZE < off % BSIZE + n
    ensures k - off == k % BSIZE - off % BSIZE
  {}

  lemma OtherBlock(off: nat, n: nat, k: nat)
    requires off % BSIZE + n <= BSIZE && k / BSIZE != off / BSIZE
    ensures !(off <= k < off + n)
  {}

  lemma StoredByte(v: View, i: nat, off: nat, d: seq<Byte>, j: nat, k: nat)
    requires i < |v.ip| && j < |v.ip| && k < MAXFILE * BSIZE && off < MAXFILE * BSIZE && off % BSIZE + |d| <= BSIZE
    requires 0 < Addr(v, i, SlotOf(off / BSIZE)) < |v.blocks|
    ensures Overwritten(v, i, off / BSIZE, Patched(v.blocks[Addr(v, i, SlotOf(off / BSIZE))], off % BSIZE, d), j, k)
         == SplicedByte(v, i, off, d, j, k)
  {
    var blk := v.blocks[Addr(v, i, SlotOf(off / BSIZE))];
    if j == i && k / BSIZE == off / BSIZE {
      PatchedAt(blk, off % BSIZE, d, k % BSIZE);
      SameBlock(off, |d|, k);
    } else if j == i {
      OtherBlock(off, |d|, k);
    }
  }

  /** Patching the data block writes d at off and nothing else. */
  lemma StoredSpliced(v: View, i: nat, off: nat, d: seq<Byte>)
    requires Ownership(v, {}) && i < |v.ip| && off < MAXFILE * BSIZE && off % BSIZE + |d| <= BSIZE
    requires 0 < Addr(v, i, SlotOf(off / BSIZE)) < |v.blocks|
    ensures var a := Addr(v, i, SlotOf(off / BSIZE));
      var w := Stored(v, a, Patched(v.blocks[a], off % BSIZE, d));
      && Ownership(w, {}) && Spliced(v, w, i, off, d)
      && (forall j, t :: 0 <= j < |v.ip| && 0 <= t < SLOTS ==> Addr(w, j, t) == Addr(v, j, t))
  {
    hide Ownership, Overwritten, SplicedByte;
    var a := Addr(v, i, SlotOf(off / BSIZE));
    var blk := Patched(v.blocks[a], off % BSIZE, d);
    StoredOk(v, {}, i, off / BSIZE, blk);
    forall j, k | 0 <= j < |v.ip| && 0 <= k < MAXFILE * BSIZE
      ensures ByteAt(Stored(v, a, blk), j, k) == SplicedByte(v, i, off, d, j, k) {
      StoredByte(v, i, off, d, j, k);
    }
  }

  // ---- From bytes to contents ----

  /** Writing the bytes and growing the size splices the file's contents. */
  lemma SplicedContent(v: View, w: View, i: nat, off: nat, d: seq<Byte>)
    requires Spliced(v, w, i, off, d) && i < |v.ip| && off <= v.ip[i].size <= MAXFILE * BSIZE
    requires w.ip[i].size == Max(v.ip[i].size, off + |d|) <= MAXFILE * BSIZE
    ensures Content(w, i) == Splice(Content(v, i), off, d)
  {}

  // ---- Blocks spanned ----

  /** File blocks that the bytes [off, off + n) lie in. */
  function Span(off: nat, n: nat): nat { if n == 0 then 0 else BlocksFor(off + n) - off / BSIZE }

  /** Blocks of the span that may have to be allocated: an unaligned first block is below the size. */
  function NewBlocks(off: nat, n: nat): nat { Span(off, n) - (if off % BSIZE != 0 && n > 0 then 1 else 0) }

  /** The bytes one pass of the loop moves. */
  function Piece(off: nat, tot: nat, n: nat): nat
    requires tot <= n
  {
    Min(n - tot, BSIZE - (off + tot) % BSIZE)
  }

  /** Between passes the position is the start, the end, or a block boundary. */
  predicate AtBoundary(off: nat, tot: nat, n: nat) {
    tot == 0 || tot == n || (off + tot) % BSIZE == 0
  }

  lemma SpanStep(off: nat, tot: nat, n: nat)
    requires tot < n && AtBoundary(off, tot, n)
    ensures Span(off, tot + Piece(off, tot, n)) == Span(off, tot) + 1
    ensures AtBoundary(off, tot + Piece(off, tot, n), n)
    ensures 0 < Piece(off, tot, n) <= n - tot && (off + tot) % BSIZE + Piece(off, tot, n) <= BSIZE
    ensures (off + tot) / BSIZE == off / BSIZE + Span(off, tot)
    ensures (off + tot) / BSIZE <= BlocksFor(off + tot) && BlocksFor(off + tot + Piece(off, tot, n)) == (off + tot) / BSIZE + 1
  {}

  /** Blocks one writei may log: the data blocks, a bitmap block for each block it may allocate, the
      indirect block with its bitmap block, and the inode. */
  function Budget(off: nat, n: nat): nat { Span(off, n) + NewBlocks(off, n) + 3 }

  /** The largest write filewrite puts in one transaction. */
  const CHUNK := ((LR.MAXOPBLOCKS - 1 - 1 - 2) / 2) * 512

  /** The chunk is the largest size that fits at every offset. */
  lemma ChunkIsLargest(n: nat)
    ensures (forall off: nat :: Budget(off, n) <= LR.MAXOPBLOCKS) <==> n <= CHUNK
  {
    if n > CHUNK { assert Budget(0, n) > LR.MAXOPBLOCKS; }
  }

  /** A chunk fits the log space that begin_op reserves for one operation. */
  lemma BudgetFits(off: nat, n: nat)
    requires n <= CHUNK
    ensures Budget(off, n) <= LR.MAXOPBLOCKS
  {}
}

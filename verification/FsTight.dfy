/** The log space that a chunk of filewrite is cut to is not cut too small: some writes need all of it. */
module FsTight {
  import opened FsState
  import opened FsContent
  import opened FsGrow
  import opened FsSpace
  import opened FsInode
  import opened Counting
  import LR = LogRecovery

  /** An append over four blocks, the last past the direct ones, to a file whose end is inside a block and that has no
      indirect block yet, on a disk with at least four free blocks, each with its bit in another bitmap block. */
  ghost predicate TightAt(v: View, i: nat, off: nat, n: nat) {
    && i < |v.ip| && LaidOut(v.sb, i) && FreeApart(v) && |FreeSet(v)| >= 4
    && off == v.ip[i].size && off % BSIZE != 0 && n <= CHUNK && off + n <= MAXFILE * BSIZE
    && Span(off, n) == 4 && off / BSIZE + 3 >= NDIRECT && Addr(v, i, NDIRECT) == 0
    && (forall k :: 1 <= k < 4 ==> Addr(v, i, SpanSlot(off, k)) == 0)
  }

  /** Such a write needs no more than four blocks. */
  lemma NeedsFour(v: View, i: nat, off: nat, n: nat)
    requires TightAt(v, i, off, n) && AllFilled(v)
    ensures |Needed(v, i, off, n)| <= |FreeSet(v)|
  {
    var four := {NDIRECT, SpanSlot(off, 1), SpanSlot(off, 2), SpanSlot(off, 3)};
    assert Filled(v, i, v.ip[i].size);
    AllocatedInside(v, i, v.ip[i].size, off);
    forall t | t in Needed(v, i, off, n) ensures t in four {
      if t != NDIRECT {
        assert t == SlotOf(BnOf(t)) == SpanSlot(off, BnOf(t) - off / BSIZE);
        assert BnOf(t) - off / BSIZE != 0;
      }
    }
    CardSubset(Needed(v, i, off, n), four);
  }

  lemma TightStraddles(v: View, w: View, i: nat, off: nat, n: nat, src: seq<Byte>)
    requires TightAt(v, i, off, n) && Extends(v, w, i, off, n) && Ownership(w, {}) && AllFilled(w) && |src| == n
    requires Wrote(v, w, i, off, src)
    ensures Straddles(v, w, i, off, n)
  {
    hide Ownership, NewWithin, Needed, FreeSet, FreeApart;
    assert w.ip[i].size == off + n && n > 0;
    assert Filled(w, i, w.ip[i].size);
    forall k | 0 <= k < 4 ensures Addr(w, i, SpanSlot(off, k)) != 0 {
      assert off / BSIZE + k < BlocksFor(off + n);
    }
  }

  /** Such a write completes and logs exactly as many blocks as begin_op reserves for an operation. */
  method TightWrite(fs: FileSystem, i: nat, src: seq<Byte>, off: nat, n: nat) returns (r: int, ok: bool)
    requires fs.Valid() && TightAt(fs.St(), i, off, n) && |src| == n
    modifies fs
    ensures ok && r == n && |fs.logged| == LR.MAXOPBLOCKS
  {
    hide Ownership, AllFilled, Wrote, Extends, LoggedBy, DataOf, Needed, FreeSet, Full, WriteLog, Straddles, FreeApart;
    ghost var v := fs.St();
    NeedsFour(v, i, off, n);
    fs.BeginOp();
    r, ok := fs.Writei(i, src, off, n);
    TightStraddles(v, fs.St(), i, off, n, src);
    WriteLogTight(v, fs.St(), i, off, n);
    assert {} + WriteLog(v, fs.St(), i, off, n) == WriteLog(v, fs.St(), i, off, n);
  }

  // ---- A disk of that kind ----

  /** 16384 blocks and as many inodes, laid out as mkfs does: boot and super block, 30 log blocks, the inodes, the
      bitmap, the data. */
  const DISK := 16384

  const DATA := 2086

  function TightSuper(): Super { Super(DISK, 32, 2081, DATA) }

  /** The last block of each 4096 is free. */
  predicate InUse(b: nat) { b % BPB != BPB - 1 }

  /** Inode 0 has the first twelve data blocks; every other data block in use belongs to the inode of that number. */
  predicate Single(j: nat) { DATA + NDIRECT <= j < DISK && InUse(j) }

  function Direct(): Addrs {
    [DATA, DATA + 1, DATA + 2, DATA + 3, DATA + 4, DATA + 5, DATA + 6, DATA + 7, DATA + 8, DATA + 9, DATA + 10, DATA + 11, 0]
  }

  function TightInode(j: nat): Inode {
    if j == 0 then Inode(11 * BSIZE + 1, Direct())
    else Inode(0, [if Single(j) then j else 0, 0, 0, 0, 0, 0, 0, 0, 0, 0, 0, 0, 0])
  }

  function TightBitmap(): (bm: seq<bool>)
    ensures |bm| == DISK && forall b :: 0 <= b < DISK ==> bm[b] == InUse(b)
  {
    seq(DISK, b requires 0 <= b < DISK => InUse(b))
  }

  function TightInodes(): (ip: seq<Inode>)
    ensures |ip| == DISK && forall j :: 0 <= j < DISK ==> ip[j] == TightInode(j)
  {
    seq(DISK, j requires 0 <= j < DISK => TightInode(j))
  }

  function ZeroBlocks(): (bs: seq<Blk>)
    ensures |bs| == DISK
  {
    seq(DISK, (j: int) => Zeros())
  }

  function TightDisk(): View { View(TightSuper(), TightBitmap(), ZeroBlocks(), TightInodes()) }

  lemma TightAddr(j: nat, s: nat)
    requires j < DISK && s < SLOTS
    ensures j < |TightDisk().ip|
    ensures Addr(TightDisk(), j, s) == if j == 0 then (if s < NDIRECT then DATA + s else 0) else if s == 0 && Single(j) then j else 0
  {
    assert TightInodes()[j] == TightInode(j);
  }

  lemma TightOwnership()
    ensures Ownership(TightDisk(), {}) && AllFilled(TightDisk())
  {
    hide TightBitmap, TightInodes, ZeroBlocks, TightInode;
    var v := TightDisk();
    forall i, s | 0 <= i < |v.ip| && 0 <= s < SLOTS ensures AddrOk(v, {}, i, s) { TightAddr(i, s); }
    forall i, s, j, t | 0 <= i < |v.ip| && 0 <= s < SLOTS && 0 <= j < |v.ip| && 0 <= t < SLOTS ensures ApartAt(v, i, s, j, t) {
      TightAddr(i, s);
      TightAddr(j, t);
    }
    forall b | v.sb.datastart <= b < v.sb.size && v.bitmap[b] ensures Owned(v, b) {
      var i, s := if b < DATA + NDIRECT then 0 else b, if b < DATA + NDIRECT then b - DATA else 0;
      TightAddr(i, s);
      assert OwnedBy(v, b, i, s);
    }
    forall i | 0 <= i < |v.ip| ensures Filled(v, i, v.ip[i].size) { TightFilled(i); }
  }

  lemma TightFilled(i: nat)
    requires i < DISK
    ensures i < |TightDisk().ip| && Filled(TightDisk(), i, TightDisk().ip[i].size)
  {
    assert TightInodes()[i] == TightInode(i);
    forall bn | 0 <= bn < BlocksFor(TightInode(i).size) ensures Addr(TightDisk(), i, SlotOf(bn)) != 0 { TightAddr(i, bn); }
  }

  lemma TightFree()
    ensures FreeApart(TightDisk()) && |FreeSet(TightDisk())| >= 4
  {
    hide TightInodes, ZeroBlocks;
    var four: seq<int> := [4095, 8191, 12287, 16383];
    var t := CardDistinct(four);
    forall b | b in t ensures b in FreeSet(TightDisk()) {}
    CardSubset(t, FreeSet(TightDisk()));
  }

  /** There is a run of a chunk that logs MAXOPBLOCKS blocks: three blocks appended to a file of eleven blocks and a
      byte. */
  method TightRun() returns (fs: FileSystem, r: int, ok: bool)
    ensures fresh(fs) && ok && r == CHUNK && |fs.logged| == LR.MAXOPBLOCKS
  {
    hide Ownership, AllFilled, FreeApart, FreeSet, TightBitmap, TightInodes, ZeroBlocks;
    TightOwnership();
    TightFree();
    fs := new FileSystem(TightSuper(), TightBitmap(), ZeroBlocks(), TightInodes());
    assert fs.St() == TightDisk();
    assert TightInodes()[0] == TightInode(0);
    var off := 11 * BSIZE + 1;
    forall k | 1 <= k < 4 ensures Addr(TightDisk(), 0, SpanSlot(off, k)) == 0 { TightAddr(0, SpanSlot(off, k)); }
    TightAddr(0, NDIRECT);
    r, ok := TightWrite(fs, 0, seq(CHUNK, (k: int) => 0 as Byte), off, CHUNK);
  }
}

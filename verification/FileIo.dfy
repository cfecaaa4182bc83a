/** `file.c`: reads and writes through an open file, filewrite's splitting of a write into log
    transactions included. */
module FileIo {
  import opened FsState
  import opened FsContent
  import opened FsInode
  import opened FsGrow
  import opened FsSpace
  import LR = LogRecovery

  const INT_MAX_PLUS_1 := 0x8000_0000

  /** struct file for an inode. */
  class OpenFile {
    const ino: nat
    const readable: bool
    const writable: bool
    var off: nat

    constructor (ino: nat, readable: bool, writable: bool)
      ensures this.ino == ino && this.readable == readable && this.writable == writable && off == 0
    {
      this.ino, this.readable, this.writable, off := ino, readable, writable, 0;
    }
  }

  /** The count as readi sees it, an unsigned word. */
  function AsUint(n: int): nat
    requires -INT_MAX_PLUS_1 <= n < INT_MAX_PLUS_1
  {
    if n < 0 then n + UINT_MAX_PLUS_1 else n
  }

  /** fileread returns the contents from the file's offset and moves the offset past them. */
  method FileRead(fs: FileSystem, f: OpenFile, n: int) returns (dst: seq<Byte>, r: int)
    requires fs.Valid() && f.ino < |fs.ip| && f.off < UINT_MAX_PLUS_1 && -INT_MAX_PLUS_1 <= n < INT_MAX_PLUS_1
    modifies fs, f`off
    ensures fs.Valid() && fs.St() == old(fs.St())
    ensures r == -1 <==> !f.readable || old(f.off) > fs.ip[f.ino].size || old(f.off) + AsUint(n) >= UINT_MAX_PLUS_1
    ensures r == -1 ==> f.off == old(f.off)
    ensures r != -1 ==> 0 <= r == Min(AsUint(n), fs.ip[f.ino].size - old(f.off)) && f.off == old(f.off) + r
    ensures r != -1 ==> dst == Content(fs.St(), f.ino)[old(f.off)..f.off]
  {
    hide Ownership, AllFilled, Content;
    if !f.readable { return [], -1; }
    ContentLength(fs.St(), f.ino);
    dst, r := fs.Readi(f.ino, f.off, AsUint(n));
    if r > 0 { f.off := f.off + r; }
  }

  /** Writes that reach their end: nothing to write, or a place that the largest file holds. */
  predicate Fits(size: nat, off: nat, n: int) {
    n == 0 || (n > 0 && off <= size && off + n <= MAXFILE * BSIZE)
  }

  /** w bytes of addr have been written at off, in whole chunks unless complete. */
  ghost predicate Written(v: View, x: View, i: nat, off: nat, addr: seq<Byte>, n: int, w: nat) {
    && |x.ip| == |v.ip| && i < |v.ip| && v.ip[i].size <= MAXFILE * BSIZE && x.ip[i].size <= MAXFILE * BSIZE && w <= |addr|
    && (w % CHUNK == 0 || w == n)
    && (w == 0 ==> x == v)
    && (w > 0 ==> off + w <= x.ip[i].size)
    && (w > 0 ==> off <= v.ip[i].size && Content(x, i) == Splice(Content(v, i), off, addr[..w]))
    && (forall j :: 0 <= j < |v.ip| && j != i ==> SameFile(v, x, j))
  }

  lemma WrittenNone(v: View, i: nat, off: nat, addr: seq<Byte>, n: int)
    requires i < |v.ip| && v.ip[i].size <= MAXFILE * BSIZE
    ensures Written(v, v, i, off, addr, n, 0)
  {}

  lemma ChunkStep(n: int, w: nat)
    requires w % CHUNK == 0 && w < n
    ensures (w + Min(n - w, CHUNK)) % CHUNK == 0 || w + Min(n - w, CHUNK) == n
  {}

  lemma SameFileTrans(v: View, x: View, y: View, j: nat)
    requires SameFile(v, x, j) && SameFile(x, y, j)
    ensures SameFile(v, y, j)
  {}

  lemma WrittenStep(v: View, x: View, y: View, i: nat, off: nat, addr: seq<Byte>, n: int, w: nat, m: nat)
    requires Written(v, x, i, off, addr, n, w) && w < n <= |addr| && m == Min(n - w, CHUNK)
    requires Wrote(x, y, i, off + w, addr[w..w + m])
    ensures Written(v, y, i, off, addr, n, w + m)
  {
    hide Content, Splice, SameFile;
    ChunkStep(n, w);
    ContentSize(v, i);
    if w > 0 {
      SpliceTwice(Content(v, i), off, addr[..w], addr[w..w + m]);
    }
    assert addr[..w] + addr[w..w + m] == addr[..w + m];
    forall j | 0 <= j < |v.ip| && j != i ensures SameFile(v, y, j) { SameFileTrans(v, x, y, j); }
  }

  lemma ContentSize(v: View, i: nat)
    requires i < |v.ip| && v.ip[i].size <= MAXFILE * BSIZE
    ensures |Content(v, i)| == v.ip[i].size
  {}

  /** A transaction: the blocks logged, and the most that any call of log_write found logged before it. */
  datatype Op = Op(logged: set<nat>, peak: nat)

  /** No transaction logs more blocks than begin_op reserved, and every call of log_write finds fewer logged. */
  ghost predicate Within(ops: seq<Op>) {
    forall t :: 0 <= t < |ops| ==> |ops[t].logged| <= LR.MAXOPBLOCKS && ops[t].peak < LR.MAXOPBLOCKS
  }

  lemma WithinNext(ops: seq<Op>, op: Op)
    requires Within(ops) && |op.logged| <= LR.MAXOPBLOCKS && op.peak < LR.MAXOPBLOCKS
    ensures Within(ops + [op])
  {}

  lemma OpBound(x: View, y: View, i: nat, off: nat, m: nat, logged: set<nat>, peak: nat)
    requires Extends(x, y, i, off, m) && m <= CHUNK && i < |x.ip| && i < |y.ip|
    requires logged == {} + WriteLog(x, y, i, off, m)
    requires peak <= Max(0, |{} + LoggedBy(x, y, i) + DataOf(y, i, off, m)|)
    ensures |logged| <= LR.MAXOPBLOCKS && peak < LR.MAXOPBLOCKS
  {
    hide Extends, WriteLog, Budget, LoggedBy, DataOf;
    WriteLogBound(x, y, i, off, m);
    GrowthBound(x, y, i, off, m);
    BudgetFits(off, m);
    assert {} + WriteLog(x, y, i, off, m) == WriteLog(x, y, i, off, m);
    assert {} + LoggedBy(x, y, i) + DataOf(y, i, off, m) == LoggedBy(x, y, i) + DataOf(y, i, off, m);
  }

  /** One chunk of filewrite: begin_op, writei, end_op. */
  method WriteChunk(fs: FileSystem, i: nat, src: seq<Byte>, off: nat, m: nat) returns (r: int, ok: bool, ghost op: Op)
    requires fs.Valid() && i < |fs.ip| && |src| == m <= CHUNK && off < UINT_MAX_PLUS_1
    modifies fs
    ensures if ok then fs.Valid() else Full(fs.St())
    ensures ok ==> (r == -1 <==> Refused(old(fs.ip[i].size), off, m))
    ensures ok && r == -1 ==> fs.St() == old(fs.St())
    ensures ok && r != -1 ==> r == m && Wrote(old(fs.St()), fs.St(), i, off, src) && i < |fs.ip|
    ensures ok && r != -1 ==> |op.logged| <= LR.MAXOPBLOCKS && op.peak < LR.MAXOPBLOCKS
  {
    hide Ownership, AllFilled, Wrote, Extends, WriteLog, LoggedBy, DataOf, Needed, FreeSet, Full;
    ghost var x := fs.St();
    fs.BeginOp();
    r, ok := fs.Writei(i, src, off, m);
    op := Op(fs.logged, fs.peak);
    if ok && r != -1 { OpBound(x, fs.St(), i, off, m, fs.logged, fs.peak); }
  }

  /** The end of a filewrite: w bytes are written, all n exactly when they fit, and where it stopped short the next
      chunk would pass the largest file. */
  ghost predicate Finished(v: View, x: View, i: nat, off: nat, addr: seq<Byte>, n: int, w: nat) {
    && Written(v, x, i, off, addr, n, w)
    && (w == n <==> Fits(v.ip[i].size, off, n))
    && (0 < w < n ==> off + w + Min(n - w, CHUNK) > MAXFILE * BSIZE)
  }

  /** A chunk is refused only when the whole write does not fit. */
  lemma StopsHere(v: View, x: View, ino: nat, off: nat, addr: seq<Byte>, n: nat, i: nat)
    requires Written(v, x, ino, off, addr, n, i) && i < n < INT_MAX_PLUS_1 && Refused(x.ip[ino].size, off + i, Min(n - i, CHUNK))
    requires off < UINT_MAX_PLUS_1
    ensures Finished(v, x, ino, off, addr, n, i)
  {
    hide Content, Splice, SameFile;
  }

  lemma EndsHere(v: View, x: View, ino: nat, off: nat, addr: seq<Byte>, n: int, i: nat)
    requires Written(v, x, ino, off, addr, n, i) && i >= n && (i == n || i == 0)
    ensures Finished(v, x, ino, off, addr, n, i)
  {
    hide Content, Splice, SameFile;
  }

  /** The next chunk of a filewrite of which i bytes have been written. */
  method WriteNext(fs: FileSystem, f: OpenFile, addr: seq<Byte>, n: nat, i: nat, ghost v: View, ghost off: nat)
    returns (r: int, ok: bool, ghost op: Op)
    requires fs.Valid() && f.ino < |fs.ip| && i < n <= |addr| && n < INT_MAX_PLUS_1 && f.off == off + i < UINT_MAX_PLUS_1
    requires Written(v, fs.St(), f.ino, off, addr, n, i)
    modifies fs, f`off
    ensures if ok then fs.Valid() && f.ino < |fs.ip| else Full(fs.St())
    ensures ok && r < 0 ==> f.off == off + i && Finished(v, fs.St(), f.ino, off, addr, n, i)
    ensures ok && r >= 0 ==> 0 < r <= n - i && f.off == off + i + r <= MAXFILE * BSIZE && Written(v, fs.St(), f.ino, off, addr, n, i + r)
    ensures ok && r >= 0 ==> |op.logged| <= LR.MAXOPBLOCKS && op.peak < LR.MAXOPBLOCKS
  {
    hide Ownership, AllFilled, Wrote, Written, Full, Finished;
    ghost var x := fs.St();
    var m := Min(n - i, CHUNK);
    WrittenUse(v, x, f.ino, off, addr, n, i);
    r, ok, op := WriteChunk(fs, f.ino, addr[i..i + m], f.off, m);
    if ok {
      if r >= 0 {
        WrittenStep(v, x, fs.St(), f.ino, off, addr, n, i, m);
        f.off := f.off + r;
      } else {
        StopsHere(v, x, f.ino, off, addr, n, i);
      }
    }
  }

  /** filewrite's loop, chunk by chunk until done or refused. */
  method WriteChunks(fs: FileSystem, f: OpenFile, addr: seq<Byte>, n: int) returns (w: nat, ok: bool, ghost ops: seq<Op>)
    requires fs.Valid() && f.ino < |fs.ip| && f.off < UINT_MAX_PLUS_1 && n < INT_MAX_PLUS_1 && n <= |addr|
    modifies fs, f`off
    ensures ok || Full(fs.St())
    ensures Within(ops)
    ensures ok ==> fs.Valid() && Finished(old(fs.St()), fs.St(), f.ino, old(f.off), addr, n, w) && f.off == old(f.off) + w
  {
    assert Within([]);
    hide Ownership, AllFilled, Written, Full, Within, Finished;
    ghost var v, off := fs.St(), f.off;
    ContentLength(v, f.ino);
    WrittenNone(v, f.ino, off, addr, n);
    w, ops, ok := 0, [], true;
    while w < n
      invariant (w <= n || w == 0) && ok && fs.Valid() && f.ino < |fs.ip| && f.off == off + w < UINT_MAX_PLUS_1
      invariant Written(v, fs.St(), f.ino, off, addr, n, w)
      invariant Within(ops)
    {
      var r;
      ghost var op;
      r, ok, op := WriteNext(fs, f, addr, n, w, v, off);
      if !ok || r < 0 { return; }
      WithinNext(ops, op);
      ops := ops + [op];
      w := w + r;
    }
    EndsHere(v, fs.St(), f.ino, off, addr, n, w);
  }

  /** filewrite: n is returned exactly when the write fits, and -1 otherwise; either way a prefix of the
      data, whole chunks of it, is in the file and the offset is behind it. Each chunk is a transaction
      that logs no more blocks than begin_op reserved, and each of its calls of log_write finds fewer logged.
      Not ok is balloc's panic, on a full disk only. */
  method FileWrite(fs: FileSystem, f: OpenFile, addr: seq<Byte>, n: int)
    returns (r: int, ok: bool, ghost w: nat, ghost ops: seq<Op>)
    requires fs.Valid() && f.ino < |fs.ip| && f.off < UINT_MAX_PLUS_1 && n < INT_MAX_PLUS_1 && n <= |addr|
    modifies fs, f`off
    ensures ok || Full(fs.St())
    ensures Within(ops)
    ensures ok ==> fs.Valid() && f.off == old(f.off) + w && r == (if w == n && f.writable then n else -1)
    ensures ok && f.writable ==> Finished(old(fs.St()), fs.St(), f.ino, old(f.off), addr, n, w)
    ensures !f.writable ==> ok && w == 0 && fs.St() == old(fs.St())
  {
    hide Ownership, AllFilled, Full, Finished;
    if !f.writable { return -1, true, 0, []; }
    var done;
    done, ok, ops := WriteChunks(fs, f, addr, n);
    w := done;
    r := if done == n then n else -1;
  }

  lemma WrittenUse(v: View, x: View, i: nat, off: nat, addr: seq<Byte>, n: int, w: nat)
    requires Written(v, x, i, off, addr, n, w)
    ensures i < |x.ip| == |v.ip| && x.ip[i].size <= MAXFILE * BSIZE && (w % CHUNK == 0 || w == n) && w <= |addr|
    ensures w == 0 ==> x == v
    ensures w > 0 ==> off <= v.ip[i].size && off + w <= x.ip[i].size
  {}
}

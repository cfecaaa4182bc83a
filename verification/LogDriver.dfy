/** `log.c` as it runs: loops over the buffer cache that issue exactly the disk writes
    LogRecovery reasons about. A panic for want of buffers stops the machine between two writes. */
module LogDriver {
  import opened DiskModel
  import opened LogRecovery
  import opened BufferCache
  import opened Counting
  import Ring

  ghost function Dirty(bufs: seq<Buf>): set<int> {
    set i | 0 <= i < |bufs| && bufs[i].dirty :: bufs[i].blockno
  }

  predicate NoneLocked(bufs: seq<Buf>) {
    forall i :: 0 <= i < |bufs| ==> !bufs[i].locked
  }

  // ---- Whether a buffer can be had ----

  /** Nobody has a reference to any buffer. */
  predicate Idle(bufs: seq<Buf>) {
    forall i :: 0 <= i < |bufs| ==> bufs[i].refcnt == 0
  }

  predicate HasFree(bufs: seq<Buf>) {
    exists i :: 0 <= i < |bufs| && Free(bufs[i])
  }

  predicate DirtyAreClaimed(bufs: seq<Buf>) {
    forall i :: 0 <= i < |bufs| && bufs[i].dirty ==> Claimed(bufs[i])
  }

  function BlockOf(bufs: seq<Buf>): int -> int { (i: int) => if 0 <= i < |bufs| then bufs[i].blockno else 0 }

  /** No more blocks are dirty than there are buffers, and fewer when one is clean. */
  lemma DirtyBound(bufs: seq<Buf>)
    ensures |Dirty(bufs)| <= |bufs|
    ensures (exists i :: 0 <= i < |bufs| && !bufs[i].dirty) ==> |Dirty(bufs)| < |bufs|
  {
    var range := CardRange(|bufs|);
    var all := set i | i in range && bufs[i].dirty;
    var image := CardImage(all, BlockOf(bufs));
    forall x | x in Dirty(bufs) ensures x in image {
      var i :| 0 <= i < |bufs| && bufs[i].dirty && bufs[i].blockno == x;
      assert i in all && BlockOf(bufs)(i) == x;
    }
    CardSubset(Dirty(bufs), image);
    CardSubset(all, range);
    if i :| 0 <= i < |bufs| && !bufs[i].dirty { CardSubset(all, range - {i}); }
  }

  lemma AllDirty(bufs: seq<Buf>)
    requires Unique(bufs) && DirtyAreClaimed(bufs) && forall i :: 0 <= i < |bufs| ==> bufs[i].dirty
    ensures |Dirty(bufs)| >= |bufs|
  {
    var s := seq(|bufs|, i requires 0 <= i < |bufs| => bufs[i].blockno as int);
    var t := CardDistinct(s);
    forall x | x in t ensures x in Dirty(bufs) { var i :| 0 <= i < |s| && s[i] == x; }
    CardSubset(t, Dirty(bufs));
  }

  /** Every buffer is pinned exactly when as many blocks are dirty as there are buffers. */
  lemma PinnedOut(bufs: seq<Buf>)
    requires Unique(bufs) && DirtyAreClaimed(bufs)
    ensures |Dirty(bufs)| <= |bufs|
    ensures |Dirty(bufs)| == |bufs| <==> forall i :: 0 <= i < |bufs| ==> bufs[i].dirty
  {
    hide Dirty, Unique, DirtyAreClaimed;
    DirtyBound(bufs);
    if forall i :: 0 <= i < |bufs| ==> bufs[i].dirty { AllDirty(bufs); }
  }

  /** With nobody holding a reference, a buffer is free exactly when fewer blocks than buffers are dirty. */
  lemma FreeExactly(bufs: seq<Buf>)
    requires Unique(bufs) && DirtyAreClaimed(bufs) && Idle(bufs)
    ensures HasFree(bufs) <==> |Dirty(bufs)| < |bufs|
  {
    PinnedOut(bufs);
  }

  lemma DirtyIsCached(bufs: seq<Buf>, b: nat)
    requires DirtyAreClaimed(bufs) && b in Dirty(bufs)
    ensures exists i :: 0 <= i < |bufs| && Caches(bufs[i], b)
  {
    var i :| 0 <= i < |bufs| && bufs[i].dirty && bufs[i].blockno == b;
    assert Caches(bufs[i], b);
  }

  lemma CoherentDirty(bufs: seq<Buf>, d: Image)
    requires AllCoherent(bufs, d)
    ensures DirtyAreClaimed(bufs)
  {
    forall i | 0 <= i < |bufs| && bufs[i].dirty ensures Claimed(bufs[i]) { assert Coherent(bufs[i], d); }
  }

  /** With every buffer pinned, a block that is not dirty has no buffer and can get none. */
  lemma PinnedOutBlocks(bufs: seq<Buf>, b: nat)
    requires Unique(bufs) && DirtyAreClaimed(bufs) && |Dirty(bufs)| == |bufs| && b !in Dirty(bufs)
    ensures forall i :: 0 <= i < |bufs| ==> !Caches(bufs[i], b) && !Free(bufs[i])
  {
    PinnedOut(bufs);
    forall i | 0 <= i < |bufs| ensures !Caches(bufs[i], b) && !Free(bufs[i]) {
      assert bufs[i].dirty && bufs[i].blockno in Dirty(bufs);
    }
  }

  /** Same block, same B_VALID, same contents. */
  predicate SameData(x: Buf, y: Buf) {
    x.dev == y.dev && x.blockno == y.blockno && x.valid == y.valid && x.data == y.data
  }

  predicate SameDataExcept(a: seq<Buf>, b: seq<Buf>, k: int) {
    |a| == |b| && forall i :: 0 <= i < |a| && i != k ==> SameData(a[i], b[i])
  }

  /** Writing x through buffer k, to disk as well, changes what one block holds. */
  lemma ViewAfterWrite(a: seq<Buf>, b: seq<Buf>, d: Image, k: nat, x: Block, c: nat)
    requires Unique(a) && Unique(b) && SameDataExcept(a, b, k) && k < |a| && c < |d|
    requires Claimed(a[k]) && a[k].valid && a[k].blockno < |d| && b[k].data == x
    requires a[k].dev == b[k].dev && a[k].blockno == b[k].blockno && b[k].valid
    ensures View(b, d[a[k].blockno := x], c) == if c == a[k].blockno then x else View(a, d, c)
  {
    var d' := d[a[k].blockno := x];
    if c == a[k].blockno {
      ViewAt(b, d', k);
    } else if i :| 0 <= i < |a| && Caches(a[i], c) && a[i].valid {
      assert SameData(a[i], b[i]);
      ViewAt(a, d, i);
      ViewAt(b, d', i);
    } else {
      forall i | 0 <= i < |b| ensures !(Caches(b[i], c) && b[i].valid) {
        if i != k { assert SameData(a[i], b[i]); }
      }
    }
  }

  lemma DirtyAfterWrite(a: seq<Buf>, b: seq<Buf>, k: nat)
    requires |a| == |b| && k < |a| && Unique(a) && Claimed(a[k]) && !b[k].dirty
    requires forall i :: 0 <= i < |a| && a[i].dirty ==> Claimed(a[i])
    requires forall i :: 0 <= i < |a| && i != k ==> b[i].dirty == a[i].dirty && b[i].blockno == a[i].blockno
    ensures Dirty(b) == Dirty(a) - {a[k].blockno}
  {
    forall c ensures c in Dirty(b) <==> c in Dirty(a) && c != a[k].blockno {
      if c in Dirty(b) {
        var i :| 0 <= i < |b| && b[i].dirty && b[i].blockno == c;
        assert Claimed(a[i]) && Claimed(a[k]);
      }
      if c in Dirty(a) && c != a[k].blockno {
        var i :| 0 <= i < |a| && a[i].dirty && a[i].blockno == c;
        assert b[i].dirty && b[i].blockno == c;
      }
    }
  }

  /** bread either finds the dirty buffer of its block or recycles a clean one. */
  lemma DirtyAfterBread(a: seq<Buf>, b: seq<Buf>, k: nat, c: nat)
    requires |a| == |b| && k < |a|
    requires forall i :: 0 <= i < |a| && i != k ==> b[i] == a[i]
    requires b[k].blockno == c && (b[k].dirty <==> Caches(a[k], c) && a[k].dirty)
    requires !Caches(a[k], c) ==> Free(a[k])
    ensures Dirty(b) == Dirty(a)
  {
    forall x ensures x in Dirty(b) <==> x in Dirty(a) {
      if x in Dirty(b) {
        var i :| 0 <= i < |b| && b[i].dirty && b[i].blockno == x;
        assert a[i].dirty && a[i].blockno == x;
      }
      if x in Dirty(a) {
        var i :| 0 <= i < |a| && a[i].dirty && a[i].blockno == x;
        assert b[i].dirty && b[i].blockno == x;
      }
    }
  }

  /** The body of the loops in write_log and install_trans: two breads (log block first),
      memmove, bwrite, two brelses. */
  method CopyBlock(bc: Cache, src: nat, dst: nat, logIsSource: bool) returns (ok: bool)
    requires bc.Valid() && NoneLocked(bc.buf)
    requires src < |bc.disk| && dst < |bc.disk| && src != dst
    modifies bc
    ensures bc.Valid()
    ensures !ok ==> bc.disk == old(bc.disk) && bc.trace == old(bc.trace)
    ensures ok ==>
      && NoneLocked(bc.buf)
      && bc.disk == old(bc.disk[dst := View(bc.buf, bc.disk, src)])
      && bc.trace == old(bc.trace + [Write(dst, View(bc.buf, bc.disk, src))])
      && Dirty(bc.buf) == old(Dirty(bc.buf)) - {dst}
      && View(bc.buf, bc.disk, dst) == old(View(bc.buf, bc.disk, src))
      && forall b :: 0 <= b < |bc.disk| && b != dst ==> View(bc.buf, bc.disk, b) == old(View(bc.buf, bc.disk, b))
    ensures old(Idle(bc.buf) && |Dirty(bc.buf)| < NBUF && (if logIsSource then dst else src) in Dirty(bc.buf)) ==> ok && Idle(bc.buf)
    ensures old(Idle(bc.buf) && Dirty(bc.buf) == {}) ==> ok && Idle(bc.buf)
    ensures old(|Dirty(bc.buf)| == NBUF && (if logIsSource then src else dst) !in Dirty(bc.buf)) ==> !ok
  {
    hide Ring.IsRing, Dirty, View, Unique, AllCoherent, Idle;
    var first, second := if logIsSource then src else dst, if logIsSource then dst else src;
    ghost var a := bc.buf;
    var i, j;
    i, j, ok := ReadPair(bc, first, second);
    if !ok { return false; }
    var from, to := if logIsSource then i else j, if logIsSource then j else i;
    ok := Transfer(bc, from, to, src, dst);
    if Idle(a) { IdleAgain(bc.buf); }
  }

  lemma IdleAgain(bufs: seq<Buf>)
    requires forall k :: 0 <= k < |bufs| ==> bufs[k].refcnt == 0
    ensures Idle(bufs)
  {}

  /** Only buffers i and j have a reference, one each. */
  predicate OnlyRefs(bufs: seq<Buf>, i: int, j: int) {
    forall k :: 0 <= k < |bufs| ==> bufs[k].refcnt == if k == i || k == j then 1 else 0
  }

  /** A bread of b finds a buffer: its own, or one to recycle. */
  predicate Available(bufs: seq<Buf>, b: nat) {
    exists k :: 0 <= k < |bufs| && (Caches(bufs[k], b) || Free(bufs[k]))
  }

  lemma AvailableIdle(bufs: seq<Buf>, d: Image, b: nat)
    requires Unique(bufs) && AllCoherent(bufs, d) && |bufs| == NBUF
    ensures Idle(bufs) && |Dirty(bufs)| < NBUF ==> Available(bufs, b)
    ensures b in Dirty(bufs) ==> Available(bufs, b)
    ensures |Dirty(bufs)| == NBUF && b !in Dirty(bufs) ==> !Available(bufs, b)
  {
    CoherentDirty(bufs, d);
    if Idle(bufs) { FreeExactly(bufs); }
    if b in Dirty(bufs) { DirtyIsCached(bufs, b); }
    else if |Dirty(bufs)| == NBUF { PinnedOutBlocks(bufs, b); }
  }

  /** With nothing dirty, one reference still leaves a buffer. */
  lemma AvailableClean(bufs: seq<Buf>, i: nat, b: nat)
    requires |bufs| == NBUF
    ensures Dirty(bufs) == {} && (forall k :: 0 <= k < |bufs| && k != i ==> bufs[k].refcnt == 0) ==> Available(bufs, b)
  {
    if Dirty(bufs) == {} && forall k :: 0 <= k < |bufs| && k != i ==> bufs[k].refcnt == 0 {
      var k := if i == 0 then 1 else 0;
      var x: int := bufs[k].blockno;
      assert bufs[k].dirty ==> x in Dirty(bufs);
      assert Free(bufs[k]);
    }
  }

  /** bread, with what it does to the buffers as a whole. */
  method Get(bc: Cache, b: nat) returns (i: int)
    requires bc.Valid() && b < |bc.disk| && !bc.Busy(b)
    modifies bc`buf
    ensures bc.Valid() && Dirty(bc.buf) == old(Dirty(bc.buf))
    ensures forall c :: 0 <= c < |bc.disk| ==> View(bc.buf, bc.disk, c) == old(View(bc.buf, bc.disk, c))
    ensures i == -1 <==> !Available(old(bc.buf), b)
    ensures i == -1 ==> bc.buf == old(bc.buf)
    ensures i != -1 ==> ReadIn(bc.buf, bc.disk, i, b) && bc.buf[i].data == old(View(bc.buf, bc.disk, b))
    ensures i != -1 ==> bc.buf == old(bc.buf)[i := bc.buf[i]]
    ensures i != -1 ==> (Caches(old(bc.buf)[i], b) || Free(old(bc.buf)[i])) && bc.buf[i].refcnt > 0
    ensures i != -1 && old(bc.buf)[i].refcnt == 0 ==> bc.buf[i].refcnt == 1
  {
    hide Ring.IsRing;
    i := bc.Bread(b);
    if i != -1 {
      DirtyAfterBread(old(bc.buf), bc.buf, i, b);
      assert bc.buf == old(bc.buf)[i := bc.buf[i]];
      UpToDate(old(bc.buf), bc.disk, b, i);
    }
  }

  /** An unlocked block's latest contents are those on disk unless it is dirty. */
  lemma UpToDate(bufs: seq<Buf>, d: Image, b: nat, i: nat)
    requires Unique(bufs) && AllCoherent(bufs, d) && b < |d| && i < |bufs|
    requires forall k :: 0 <= k < |bufs| && Caches(bufs[k], b) ==> !bufs[k].locked
    requires Caches(bufs[i], b) || forall k :: 0 <= k < |bufs| ==> !Caches(bufs[k], b)
    ensures (Caches(bufs[i], b) && bufs[i].dirty) || View(bufs, d, b) == d[b]
  {
    if k :| 0 <= k < |bufs| && Caches(bufs[k], b) && bufs[k].valid {
      assert Coherent(bufs[k], d);
      ViewAt(bufs, d, k);
    }
  }

  /** The two breads of the loop body; not ok when either finds no buffer. */
  method ReadPair(bc: Cache, first: nat, second: nat) returns (i: int, j: int, ok: bool)
    requires bc.Valid() && NoneLocked(bc.buf)
    requires first < |bc.disk| && second < |bc.disk| && first != second
    modifies bc`buf
    ensures bc.Valid() && Dirty(bc.buf) == old(Dirty(bc.buf))
    ensures forall b :: 0 <= b < |bc.disk| ==> View(bc.buf, bc.disk, b) == old(View(bc.buf, bc.disk, b))
    ensures ok ==> 0 <= i < NBUF && 0 <= j < NBUF && i != j && ReadIn(bc.buf, bc.disk, i, first) && ReadIn(bc.buf, bc.disk, j, second)
    ensures ok ==> bc.buf[i].data == old(View(bc.buf, bc.disk, first)) && bc.buf[j].data == old(View(bc.buf, bc.disk, second))
    ensures ok ==> forall k :: 0 <= k < NBUF && k != i && k != j ==> !bc.buf[k].locked
    ensures ok && old(Idle(bc.buf)) ==> OnlyRefs(bc.buf, i, j)
    ensures old(Idle(bc.buf) && |Dirty(bc.buf)| < NBUF && second in Dirty(bc.buf)) ==> ok
    ensures old(Idle(bc.buf) && Dirty(bc.buf) == {}) ==> ok
    ensures old(|Dirty(bc.buf)| == NBUF && first !in Dirty(bc.buf)) ==> !ok
  {
    hide Ring.IsRing, Dirty, View, Unique, AllCoherent, Available;
    AvailableIdle(bc.buf, bc.disk, first);
    j := -1;
    i := Get(bc, first);
    if i == -1 { return i, j, false; }
    AvailableIdle(bc.buf, bc.disk, second);
    AvailableClean(bc.buf, i, second);
    j := Get(bc, second);
    ok := j != -1;
  }

  /** Buffer k holds block b, valid and locked, up to date with the disk or dirty. */
  predicate ReadIn(bufs: seq<Buf>, d: Image, k: int, b: nat) {
    0 <= k < |bufs| && b < |d| && Caches(bufs[k], b) && bufs[k].valid && bufs[k].locked && (bufs[k].dirty || bufs[k].data == d[b])
  }

  /** memmove, bwrite, brelse of the source, brelse of the destination. */
  method Transfer(bc: Cache, from: nat, to: nat, ghost src: nat, ghost dst: nat) returns (ok: bool)
    requires bc.Valid() && from < NBUF && to < NBUF && from != to
    requires Caches(bc.buf[from], src) && bc.buf[from].valid && bc.buf[from].locked
    requires Caches(bc.buf[to], dst) && bc.buf[to].valid && bc.buf[to].locked
    requires bc.buf[from].dirty || bc.buf[from].data == bc.disk[src]
    requires forall k :: 0 <= k < NBUF && k != from && k != to ==> !bc.buf[k].locked
    modifies bc
    ensures ok && bc.Valid() && NoneLocked(bc.buf)
    ensures forall k :: 0 <= k < NBUF ==> bc.buf[k].refcnt == old(bc.buf)[k].refcnt - (if k == from || k == to then 1 else 0)
    ensures bc.disk == old(bc.disk[dst := bc.buf[from].data])
    ensures bc.trace == old(bc.trace + [Write(dst, bc.buf[from].data)])
    ensures Dirty(bc.buf) == old(Dirty(bc.buf)) - {dst}
    ensures View(bc.buf, bc.disk, dst) == old(bc.buf[from].data)
    ensures forall b :: 0 <= b < |bc.disk| && b != dst ==> View(bc.buf, bc.disk, b) == old(View(bc.buf, bc.disk, b))
  {
    hide Ring.IsRing, View, Dirty;
    ghost var a, d := bc.buf, bc.disk;
    var x := bc.buf[from].data;
    bc.Store(to, x);
    bc.Bwrite(to);
    bc.Brelse(from);
    bc.Brelse(to);
    DirtyAfterWrite(a, bc.buf, to);
    forall b | 0 <= b < |d| ensures View(bc.buf, bc.disk, b) == if b == dst then x else View(a, d, b) {
      ViewAfterWrite(a, bc.buf, d, to, x, b);
    }
    ok := true;
  }

  /** A block that is neither dirty nor locked reads as it is on disk. */
  lemma CleanView(bufs: seq<Buf>, d: Image, b: nat)
    requires AllCoherent(bufs, d) && NoneLocked(bufs) && b < |d| && b !in Dirty(bufs)
    ensures View(bufs, d, b) == d[b]
  {
    forall i | 0 <= i < |bufs| && Caches(bufs[i], b) && bufs[i].valid ensures bufs[i].data == d[b] {
      assert Coherent(bufs[i], d);
    }
  }

  /** The header block write_head builds, entry by entry, over the old one. */
  method FillHeader(hb: Block, lh: seq<int>) returns (r: Block)
    requires |lh| <= LOGSIZE
    ensures r == EncodeHead(hb, lh)
  {
    r := hb[0 := |lh|];
    var i := 0;
    while i < |lh|
      invariant 0 <= i <= |lh|
      invariant r == [|lh|] + lh[..i] + hb[1 + i..]
    {
      r := r[1 + i := lh[i]];
      i := i + 1;
    }
  }

  /** The list read_head builds, entry by entry, from the header block. */
  method ParseHeader(hb: Block) returns (lh: seq<int>)
    requires 0 <= hb[0] <= LOGSIZE
    ensures lh == HeadBlocks(hb)
  {
    lh := [];
    var i := 0;
    while i < hb[0]
      invariant 0 <= i <= hb[0]
      invariant lh == hb[1..1 + i]
    {
      lh := lh + [hb[1 + i]];
      i := i + 1;
    }
  }

  /** One header write through its buffer. */
  method PutHead(bc: Cache, start: nat, lh: seq<int>) returns (ok: bool)
    requires bc.Valid() && NoneLocked(bc.buf) && start < |bc.disk| && start !in Dirty(bc.buf) && |lh| <= LOGSIZE
    modifies bc
    ensures bc.Valid() && |bc.disk| == |old(bc.disk)|
    ensures !ok ==> bc.disk == old(bc.disk) && bc.trace == old(bc.trace)
    ensures ok ==>
      && NoneLocked(bc.buf) && Dirty(bc.buf) == old(Dirty(bc.buf))
      && bc.disk == old(bc.disk)[start := EncodeHead(old(bc.disk)[start], lh)]
      && bc.trace == old(bc.trace) + [Write(start, EncodeHead(old(bc.disk)[start], lh))]
      && forall b :: 0 <= b < |bc.disk| && b != start ==> View(bc.buf, bc.disk, b) == old(View(bc.buf, bc.disk, b))
    ensures old(Idle(bc.buf) && |Dirty(bc.buf)| < NBUF) ==> ok && Idle(bc.buf)
  {
    hide Ring.IsRing, Dirty, View, Unique, AllCoherent, Available;
    CleanView(bc.buf, bc.disk, start);
    AvailableIdle(bc.buf, bc.disk, start);
    ghost var a := bc.buf;
    var i := Get(bc, start);
    if i == -1 { return false; }
    var r := FillHeader(bc.buf[i].data, lh);
    Overwrite(bc, i, r);
    ok := true;
  }

  /** A locked buffer given new contents, written and released. */
  method Overwrite(bc: Cache, i: nat, x: Block)
    requires bc.Valid() && i < NBUF && Claimed(bc.buf[i]) && bc.buf[i].valid && bc.buf[i].locked
    requires forall k :: 0 <= k < NBUF && k != i ==> !bc.buf[k].locked
    modifies bc
    ensures bc.Valid() && NoneLocked(bc.buf) && Dirty(bc.buf) == old(Dirty(bc.buf)) - {old(bc.buf)[i].blockno}
    ensures bc.disk == old(bc.disk)[old(bc.buf)[i].blockno := x]
    ensures bc.trace == old(bc.trace) + [Write(old(bc.buf)[i].blockno, x)]
    ensures forall b :: 0 <= b < |bc.disk| && b != old(bc.buf)[i].blockno ==> View(bc.buf, bc.disk, b) == old(View(bc.buf, bc.disk, b))
    ensures bc.buf[i].refcnt == old(bc.buf)[i].refcnt - 1
    ensures forall k :: 0 <= k < NBUF && k != i ==> bc.buf[k] == old(bc.buf)[k]
  {
    hide Ring.IsRing;
    ghost var a, d := bc.buf, bc.disk;
    bc.Store(i, x);
    bc.Bwrite(i);
    bc.Brelse(i);
    DirtyAfterWrite(a, bc.buf, i);
    forall b | 0 <= b < |d| ensures View(bc.buf, bc.disk, b) == if b == a[i].blockno then x else View(a, d, b) {
      ViewAfterWrite(a, bc.buf, d, i, x, b);
    }
  }

  /** The contents write_log will copy: the latest view of each logged block. */
  ghost function Contents(bufs: seq<Buf>, d: Image, lh: seq<int>): (c: seq<Block>)
    requires forall t :: 0 <= t < |lh| ==> 0 <= lh[t] < |d|
    ensures |c| == |lh|
  {
    seq(|lh|, t requires 0 <= t < |lh| => View(bufs, d, lh[t]))
  }

  /** The log area holds the first n of the contents c. */
  ghost predicate InLog(l: Layout, bufs: seq<Buf>, d: Image, c: seq<Block>, n: nat) {
    n <= |c| && l.start + n < |d| && forall t {:trigger c[t]} :: 0 <= t < n ==> View(bufs, d, l.start + 1 + t) == c[t]
  }

  /** Only blocks of the log differ, its header aside, in what a reader sees. */
  ghost predicate HomesKept(l: Layout, a: seq<Buf>, m: Image, b: seq<Buf>, d: Image) {
    |d| == |m| && forall x :: 0 <= x < |d| && !(l.start < x < l.start + l.size) ==> View(b, d, x) == View(a, m, x)
  }

  lemma HomeKept(l: Layout, a: seq<Buf>, m: Image, b: seq<Buf>, d: Image, x: nat)
    requires HomesKept(l, a, m, b, d) && x < |d| && (l.Home(x) || x == l.start)
    ensures |m| == |d| && View(b, d, x) == View(a, m, x)
  {
    hide View;
  }

  lemma HomesSame(l: Layout, a: seq<Buf>, m: Image)
    ensures HomesKept(l, a, m, a, m)
  {}

  lemma HomesNext(l: Layout, a: seq<Buf>, m: Image, a': seq<Buf>, m': Image, b: seq<Buf>, d: Image, dst: nat)
    requires HomesKept(l, a, m, a', m') && |d| == |m'| && l.start < dst < l.start + l.size
    requires forall x :: 0 <= x < |d| && x != dst ==> View(b, d, x) == View(a', m', x)
    ensures HomesKept(l, a, m, b, d)
  {
    hide View;
  }

  lemma InLogAt(l: Layout, bufs: seq<Buf>, d: Image, c: seq<Block>, n: nat, k: nat)
    requires InLog(l, bufs, d, c, n) && k < n
    ensures n <= |c| && l.start + 1 + k < |d| && View(bufs, d, l.start + 1 + k) == c[k]
  {}

  lemma InLogKept(l: Layout, a: seq<Buf>, m: Image, b: seq<Buf>, d: Image, c: seq<Block>, n: nat)
    requires InLog(l, a, m, c, n) && |d| == |m|
    requires forall x :: l.start < x <= l.start + n ==> View(b, d, x) == View(a, m, x)
    ensures InLog(l, b, d, c, n)
  {
    hide View;
  }

  lemma InLogNext(l: Layout, a: seq<Buf>, m: Image, b: seq<Buf>, d: Image, c: seq<Block>, n: nat)
    requires InLog(l, a, m, c, n) && |d| == |m| && n < |c| && l.start + n + 1 < |d|
    requires forall x :: l.start < x <= l.start + n ==> View(b, d, x) == View(a, m, x)
    requires View(b, d, l.start + n + 1) == c[n]
    ensures InLog(l, b, d, c, n + 1)
  {
    hide View;
  }

  /** The first k logged blocks. */
  ghost function Firsts(lh: seq<int>, k: nat): set<int>
    requires k <= |lh|
  {
    set t | 0 <= t < k :: lh[t]
  }

  class Log {
    const l: Layout
    const bc: Cache
    var lh: seq<int>
    var outstanding: nat

    constructor (l: Layout, bc: Cache)
      ensures this.l == l && this.bc == bc && lh == [] && outstanding == 0
    {
      this.l, this.bc, lh, outstanding := l, bc, [], 0;
    }

    /** Between operations: nothing locked, and exactly the logged blocks are dirty. */
    ghost predicate Valid()
      reads this, bc
    {
      && bc.Valid() && NoneLocked(bc.buf)
      && WellFormed(l, bc.disk)
      && GoodHead(l, lh)
      && Dirty(bc.buf) == Firsts(lh, |lh|)
    }

    /** log_write: scan for the block, append it if it is new, pin its buffer. Not ok is one of its panics, tested
        before the scan: a transaction that is too big, or none. */
    method LogWrite(i: nat) returns (ok: bool)
      requires bc.Valid() && i < NBUF && Claimed(bc.buf[i]) && bc.buf[i].locked && bc.buf[i].valid
      requires GoodHead(l, lh) && l.Home(bc.buf[i].blockno)
      modifies this`lh, bc`buf
      ensures ok == (|old(lh)| < LOGSIZE && |old(lh)| < l.size - 1 && outstanding >= 1)
      ensures bc.Valid() && GoodHead(l, lh)
      ensures !ok ==> lh == old(lh) && bc.buf == old(bc.buf)
      ensures ok ==> lh == if old(bc.buf[i].blockno in lh) then old(lh) else old(lh + [bc.buf[i].blockno])
      ensures ok ==> bc.buf == old(bc.buf)[i := old(bc.buf)[i].(dirty := true)]
    {
      hide Ring.IsRing;
      if |lh| >= LOGSIZE || |lh| >= l.size - 1 { return false; }
      if outstanding < 1 { return false; }
      var b := bc.buf[i].blockno;
      var k := 0;
      while k < |lh|
        invariant 0 <= k <= |lh|
        invariant b !in lh[..k]
      {
        if lh[k] == b { break; }
        k := k + 1;
      }
      if k == |lh| {
        assert lh[..k] == lh;
        lh := lh + [b];
      } else {
        lh := lh[k := b];
      }
      bc.Pin(i);
      return true;
    }

    /** What a commit or a recovery has done so far: the first k of the writes ws, no more. */
    ghost predicate Issued(d: Image, t: seq<Write>, ws: seq<Write>, k: nat)
      reads bc
    {
      k <= |ws| && InRange(d, ws[..k]) && bc.disk == Apply(d, ws[..k]) && bc.trace == t + ws[..k]
    }

    lemma IssuedNone(ws: seq<Write>)
      ensures Issued(bc.disk, bc.trace, ws, 0)
    {
      assert ws[..0] == [];
    }

    /** CopyBlock as write number k of the writes ws. */
    method CopyNext(src: nat, dst: nat, logIsSource: bool, ghost d: Image, ghost t: seq<Write>, ghost ws: seq<Write>, ghost k: nat)
      returns (ok: bool)
      requires bc.Valid() && NoneLocked(bc.buf)
      requires src < |bc.disk| && dst < |bc.disk| == |d| && src != dst
      requires k < |ws| && ws[k] == Write(dst, View(bc.buf, bc.disk, src)) && Issued(d, t, ws, k)
      modifies bc
      ensures bc.Valid() && |bc.disk| == |d|
      ensures Issued(d, t, ws, if ok then k + 1 else k)
      ensures ok ==>
        && NoneLocked(bc.buf)
        && Dirty(bc.buf) == old(Dirty(bc.buf)) - {dst}
        && View(bc.buf, bc.disk, dst) == ws[k].data
        && forall b :: 0 <= b < |bc.disk| && b != dst ==> View(bc.buf, bc.disk, b) == old(View(bc.buf, bc.disk, b))
      ensures old(Idle(bc.buf) && |Dirty(bc.buf)| < NBUF && (if logIsSource then dst else src) in Dirty(bc.buf)) ==> ok && Idle(bc.buf)
      ensures old(Idle(bc.buf) && Dirty(bc.buf) == {}) ==> ok && Idle(bc.buf)
      ensures old(|Dirty(bc.buf)| == NBUF && (if logIsSource then src else dst) !in Dirty(bc.buf)) ==> !ok
    {
      hide Ring.IsRing, Dirty, View, Unique, AllCoherent, Idle, Apply;
      ok := CopyBlock(bc, src, dst, logIsSource);
      ApplyNext(d, ws, k);
      assert ws[..k + 1] == ws[..k] + [ws[k]];
    }

    lemma IssuedUse(d: Image, t: seq<Write>, ws: seq<Write>, k: nat)
      requires Issued(d, t, ws, k)
      ensures k <= |ws| && InRange(d, ws[..k]) && bc.disk == Apply(d, ws[..k]) && bc.trace == t + ws[..k] && |bc.disk| == |d|
    {}

    /** Two runs of writes, one after the other: n of ws took disk d to m, and j of rest went on from there. */
    lemma IssuedJoin(d: Image, m: Image, t: seq<Write>, t': seq<Write>, ws: seq<Write>, rest: seq<Write>, n: nat, j: nat)
      requires n + j <= |ws| && j <= |rest| && ws[..n + j] == ws[..n] + rest[..j]
      requires InRange(d, ws[..n]) && m == Apply(d, ws[..n]) && t' == t + ws[..n] && Issued(m, t', rest, j)
      ensures Issued(d, t, ws, n + j)
    {
      Join(d, m, ws, rest, n, j, t);
    }

    lemma IssuedSame(d: Image, t: seq<Write>, ws: seq<Write>, ws': seq<Write>, k: nat)
      requires Issued(d, t, ws, k) && k <= |ws'| && ws'[..k] == ws[..k]
      ensures Issued(d, t, ws', k)
    {}

    /** PutHead as write number k of the writes ws. */
    method PutHeadNext(ghost d: Image, ghost t: seq<Write>, ghost ws: seq<Write>, ghost k: nat) returns (ok: bool)
      requires bc.Valid() && NoneLocked(bc.buf) && l.start < |bc.disk| == |d| && l.start !in Dirty(bc.buf) && |lh| <= LOGSIZE
      requires k < |ws| && ws[k] == Write(l.start, EncodeHead(bc.disk[l.start], lh)) && Issued(d, t, ws, k)
      modifies bc
      ensures bc.Valid() && |bc.disk| == |d|
      ensures Issued(d, t, ws, if ok then k + 1 else k)
      ensures ok ==>
        && NoneLocked(bc.buf) && Dirty(bc.buf) == old(Dirty(bc.buf)) && bc.disk[l.start] == ws[k].data
        && forall b :: 0 <= b < |bc.disk| && b != l.start ==> View(bc.buf, bc.disk, b) == old(View(bc.buf, bc.disk, b))
      ensures old(Idle(bc.buf) && |Dirty(bc.buf)| < NBUF) ==> ok && Idle(bc.buf)
    {
      hide Ring.IsRing, Dirty, View, Unique, AllCoherent, Idle, Apply, EncodeHead;
      ok := PutHead(bc, l.start, lh);
      ApplyNext(d, ws, k);
      assert ws[..k + 1] == ws[..k] + [ws[k]];
    }

    /** One turn of write_log: logged block number k, whose contents c[k] are still in the cache, goes to the log. */
    method LogNext(k: nat, ghost c: seq<Block>, ghost a: seq<Buf>, ghost d: Image, ghost t: seq<Write>) returns (ok: bool)
      requires bc.Valid() && NoneLocked(bc.buf) && GoodHead(l, lh) && l.Valid() && |bc.disk| == |d| == l.disksize
      requires k < |lh| == |c| && c[k] == View(a, d, lh[k])
      requires Issued(d, t, LogWrites(l, c), k) && InLog(l, bc.buf, bc.disk, c, k) && HomesKept(l, a, d, bc.buf, bc.disk)
      requires Dirty(bc.buf) == Firsts(lh, |lh|)
      modifies bc
      ensures bc.Valid() && |bc.disk| == |d|
      ensures Issued(d, t, LogWrites(l, c), if ok then k + 1 else k)
      ensures ok ==>
        && NoneLocked(bc.buf) && Dirty(bc.buf) == old(Dirty(bc.buf))
        && InLog(l, bc.buf, bc.disk, c, k + 1) && HomesKept(l, a, d, bc.buf, bc.disk)
      ensures old(Idle(bc.buf) && |Dirty(bc.buf)| < NBUF) ==> ok && Idle(bc.buf)
      ensures old(|Dirty(bc.buf)| == NBUF) ==> !ok
    {
      hide Ring.IsRing, View, Unique, AllCoherent, Dirty, Issued, Idle, HomesKept, InLog;
      LoggedIsHome(l, lh, k);
      HomeKept(l, a, d, bc.buf, bc.disk, lh[k]);
      ghost var a', m := bc.buf, bc.disk;
      ok := CopyNext(lh[k], l.start + k + 1, false, d, t, LogWrites(l, c), k);
      if !ok { return; }
      InLogNext(l, a', m, bc.buf, bc.disk, c, k);
      HomesNext(l, a, d, a', m, bc.buf, bc.disk, l.start + k + 1);
    }

    /** write_log: copy every logged block from the cache to the log, one write each. */
    method WriteLog() returns (ok: bool, ghost k: nat)
      requires Valid() && Head(l, bc.disk) == []
      modifies bc
      ensures bc.Valid() && k <= |lh| && (ok ==> k == |lh|)
      ensures |bc.disk| == |old(bc.disk)|
      ensures Issued(old(bc.disk), old(bc.trace), LogWrites(l, old(Contents(bc.buf, bc.disk, lh))), k)
      ensures ok ==> NoneLocked(bc.buf) && Dirty(bc.buf) == old(Dirty(bc.buf))
      ensures ok ==> HomesKept(l, old(bc.buf), old(bc.disk), bc.buf, bc.disk)
      ensures ok ==> InLog(l, bc.buf, bc.disk, old(Contents(bc.buf, bc.disk, lh)), |lh|)
      ensures old(Idle(bc.buf) && |Dirty(bc.buf)| < NBUF) ==> ok && Idle(bc.buf)
      ensures old(|Dirty(bc.buf)| == NBUF) && lh != [] ==> !ok
    {
      hide Ring.IsRing, View, Unique, AllCoherent, Dirty, Issued, Idle, GoodHead, HomesKept, LogWrites;
      HeadBounds(l, lh);
      HomesSame(l, bc.buf, bc.disk);
      ghost var c, d := Contents(bc.buf, bc.disk, lh), bc.disk;
      ghost var ws := LogWrites(l, c);
      IssuedNone(ws);
      ghost var easy, full := Idle(bc.buf) && |Dirty(bc.buf)| < NBUF, |Dirty(bc.buf)| == NBUF;
      var tail := 0;
      k := 0;
      while tail < |lh|
        invariant 0 <= tail <= |lh| && k == tail
        invariant bc.Valid() && NoneLocked(bc.buf) && |bc.disk| == |d|
        invariant Dirty(bc.buf) == old(Dirty(bc.buf))
        invariant (easy ==> Idle(bc.buf)) && (full ==> tail == 0)
        invariant Issued(d, old(bc.trace), ws, tail)
        invariant HomesKept(l, old(bc.buf), d, bc.buf, bc.disk)
        invariant InLog(l, bc.buf, bc.disk, c, tail)
      {
        ok := LogNext(tail, c, old(bc.buf), d, old(bc.trace));
        if !ok { return; }
        tail := tail + 1;
        k := k + 1;
      }
      ok := true;
    }

    /** One turn of install_trans: log block k, which holds c[k], goes home. */
    method InstallNext(k: nat, ghost c: seq<Block>, ghost d: Image, ghost t: seq<Write>) returns (ok: bool)
      requires bc.Valid() && NoneLocked(bc.buf) && GoodHead(l, lh) && l.Valid() && |bc.disk| == |d| == l.disksize
      requires k < |lh| == |c| && Issued(d, t, InstallWrites(lh, c), k) && InLog(l, bc.buf, bc.disk, c, |lh|)
      modifies bc
      ensures bc.Valid() && |bc.disk| == |d|
      ensures Issued(d, t, InstallWrites(lh, c), if ok then k + 1 else k)
      ensures ok ==> NoneLocked(bc.buf) && Dirty(bc.buf) == old(Dirty(bc.buf)) - {lh[k]} && InLog(l, bc.buf, bc.disk, c, |lh|)
      ensures old(Idle(bc.buf) && |Dirty(bc.buf)| < NBUF && lh[k] in Dirty(bc.buf)) ==> ok && Idle(bc.buf)
      ensures old(Idle(bc.buf) && Dirty(bc.buf) == {}) ==> ok && Idle(bc.buf)
    {
      hide Ring.IsRing, View, Unique, AllCoherent, Dirty, Issued, Idle, InLog;
      LoggedIsHome(l, lh, k);
      InLogAt(l, bc.buf, bc.disk, c, |lh|, k);
      ghost var a, m := bc.buf, bc.disk;
      ok := CopyNext(l.start + k + 1, lh[k], true, d, t, InstallWrites(lh, c), k);
      if !ok { return; }
      InLogKept(l, a, m, bc.buf, bc.disk, c, |lh|);
    }

    /** install_trans: copy every log block to its home, one write each. */
    method InstallTrans(ghost c: seq<Block>) returns (ok: bool, ghost k: nat)
      requires bc.Valid() && NoneLocked(bc.buf) && GoodHead(l, lh) && l.Valid() && |bc.disk| == l.disksize
      requires |c| == |lh| && InLog(l, bc.buf, bc.disk, c, |lh|)
      modifies bc
      ensures bc.Valid() && k <= |lh| && (ok ==> k == |lh|) && |bc.disk| == |old(bc.disk)|
      ensures Issued(old(bc.disk), old(bc.trace), InstallWrites(lh, c), k)
      ensures ok ==> NoneLocked(bc.buf) && Dirty(bc.buf) == old(Dirty(bc.buf)) - Firsts(lh, |lh|)
      ensures old(Idle(bc.buf) && |Dirty(bc.buf)| < NBUF) && Firsts(lh, |lh|) <= old(Dirty(bc.buf)) ==> ok && Idle(bc.buf)
      ensures old(Idle(bc.buf) && Dirty(bc.buf) == {}) ==> ok && Idle(bc.buf)
    {
      hide Ring.IsRing, View, Unique, AllCoherent, Dirty, Issued, Idle, GoodHead, InLog, InstallWrites, Firsts;
      HeadBounds(l, lh);
      FirstsNone(lh, Dirty(bc.buf));
      ghost var easy := Idle(bc.buf) && |Dirty(bc.buf)| < NBUF && Firsts(lh, |lh|) <= Dirty(bc.buf);
      ghost var clean := Idle(bc.buf) && Dirty(bc.buf) == {};
      ghost var d, ws := bc.disk, InstallWrites(lh, c);
      IssuedNone(ws);
      var tail := 0;
      k := 0;
      while tail < |lh|
        invariant 0 <= tail <= |lh| && k == tail
        invariant bc.Valid() && NoneLocked(bc.buf) && |bc.disk| == |d|
        invariant Dirty(bc.buf) == old(Dirty(bc.buf)) - Firsts(lh, tail)
        invariant easy || clean ==> Idle(bc.buf)
        invariant Issued(d, old(bc.trace), ws, tail)
        invariant InLog(l, bc.buf, bc.disk, c, |lh|)
      {
        NextDirty(lh, old(Dirty(bc.buf)), tail);
        ok := InstallNext(tail, c, d, old(bc.trace));
        if !ok { return; }
        tail := tail + 1;
        k := k + 1;
      }
      ok := true;
    }

    /** commit: exactly the writes of CommitWrites in order, all of them unless the machine
        stops, in which case the disk holds all the old contents or all the new ones. */
    method Commit() returns (ok: bool, ghost k: nat)
      requires Valid() && Head(l, bc.disk) == []
      modifies this`lh, bc
      ensures bc.Valid()
      ensures old(lh) == [] ==> ok && Valid() && lh == [] && k == 0 && bc.disk == old(bc.disk) && bc.trace == old(bc.trace)
      ensures old(lh) != [] ==> var c := old(Contents(bc.buf, bc.disk, lh));
        && var ws := CommitWrites(l, old(bc.disk)[l.start], old(lh), c);
        && Issued(old(bc.disk), old(bc.trace), ws, k)
        && WellFormed(l, bc.disk)
        && (ok ==> k == |ws| && Valid() && lh == [] && Head(l, bc.disk) == [])
        && (k <= |c| ==> SameLogical(l, old(bc.disk), bc.disk))
        && (k > |c| ==> forall b :: l.Home(b) ==> Logical(l, bc.disk, b) == Updated(l, old(bc.disk), old(lh), c, b))
      ensures old(Idle(bc.buf)) ==> (ok <==> |old(lh)| < NBUF) && (ok ==> Idle(bc.buf))
    {
      hide Ring.IsRing, View, Unique, AllCoherent, Dirty, Apply, Idle;
      if |lh| == 0 { return true, 0; }
      ghost var logged := CardDistinct(lh);
      assert Dirty(bc.buf) == logged;
      ghost var d, n, c := bc.disk, |lh|, Contents(bc.buf, bc.disk, lh);
      ghost var ws := CommitWrites(l, d[l.start], lh, c);
      ok, k := CommitBody(c);
      CommitPrefix(l, d, old(lh), c, k);
    }

    method CommitBody(ghost c: seq<Block>) returns (ok: bool, ghost k: nat)
      requires Valid() && Head(l, bc.disk) == [] && c == Contents(bc.buf, bc.disk, lh)
      modifies this`lh, bc
      ensures bc.Valid()
      ensures var ws := CommitWrites(l, old(bc.disk)[l.start], old(lh), c);
        && Issued(old(bc.disk), old(bc.trace), ws, k)
        && (ok ==> k == |ws| && NoneLocked(bc.buf) && Dirty(bc.buf) == {} && lh == [])
      ensures old(Idle(bc.buf) && |Dirty(bc.buf)| < NBUF) ==> ok && Idle(bc.buf)
      ensures old(|Dirty(bc.buf)| == NBUF && lh != []) ==> !ok
    {
      hide Ring.IsRing, View, Unique, AllCoherent, Dirty, Issued, EncodeHead, CommitWrites, InstallWrites, Idle, InLog, Apply, InRange;
      ghost var d, n := bc.disk, |lh|;
      HeadBounds(l, lh);
      ghost var ws := CommitWrites(l, d[l.start], lh, c);
      ok, k := LogAndCommit(c);
      if !ok { return; }
      IssuedUse(d, old(bc.trace), ws, n + 1);
      ghost var j;
      ghost var rest := InstallWrites(lh, c) + [Write(l.start, EncodeHead(bc.disk[l.start], []))];
      ghost var m, t := bc.disk, bc.trace;
      ok, j := InstallAndClear(c);
      IssuedUse(m, t, rest, j);
      CommitSplit(l, d[l.start], old(lh), c, j);
      IssuedJoin(d, m, old(bc.trace), t, ws, rest, n + 1, j);
      k := n + 1 + j;
    }

    /** The first half of commit: write_log, then write_head, the commit point. */
    method LogAndCommit(ghost c: seq<Block>) returns (ok: bool, ghost k: nat)
      requires Valid() && Head(l, bc.disk) == [] && c == Contents(bc.buf, bc.disk, lh)
      modifies bc
      ensures bc.Valid()
      ensures Issued(old(bc.disk), old(bc.trace), CommitWrites(l, old(bc.disk)[l.start], lh, c), k)
      ensures ok ==>
        && k == |lh| + 1 && NoneLocked(bc.buf) && Dirty(bc.buf) == old(Dirty(bc.buf))
        && bc.disk[l.start] == EncodeHead(old(bc.disk)[l.start], lh)
        && InLog(l, bc.buf, bc.disk, c, |lh|)
      ensures old(Idle(bc.buf) && |Dirty(bc.buf)| < NBUF) ==> ok && Idle(bc.buf)
      ensures old(|Dirty(bc.buf)| == NBUF) && lh != [] ==> !ok
    {
      hide Ring.IsRing, View, Unique, AllCoherent, Dirty, Issued, Idle, CommitWrites, EncodeHead, InLog, HomesKept;
      ghost var d, n, hb := bc.disk, |lh|, bc.disk[l.start];
      ghost var ws := CommitWrites(l, hb, lh, c);
      CommitSlices(l, hb, lh, c);
      HeadBounds(l, lh);
      ok, k := WriteLog();
      IssuedSame(d, old(bc.trace), LogWrites(l, c), ws, k);
      if !ok { return; }
      HeaderKept(d, old(bc.trace), c, n);
      ghost var a, m := bc.buf, bc.disk;
      ok := PutHeadNext(d, old(bc.trace), ws, n);
      if !ok { return; }
      InLogKept(l, a, m, bc.buf, bc.disk, c, n);
      k := n + 1;
    }

    /** write_log does not touch the header block. */
    lemma HeaderKept(d: Image, t: seq<Write>, c: seq<Block>, n: nat)
      requires WellFormed(l, d) && Head(l, d) == [] && n <= |c| <= l.size - 1 && Issued(d, t, LogWrites(l, c), n)
      ensures |bc.disk| == |d| && bc.disk[l.start] == d[l.start]
    {
      LogPrefix(l, d, c, n);
    }

    /** The second half of commit, and the whole of a recovery once the header is read:
        install_trans, then lh.n = 0 and write_head. */
    method InstallAndClear(ghost c: seq<Block>) returns (ok: bool, ghost k: nat)
      requires bc.Valid() && NoneLocked(bc.buf) && GoodHead(l, lh) && l.Valid() && |bc.disk| == l.disksize
      requires Dirty(bc.buf) <= Firsts(lh, |lh|)
      requires |c| == |lh| && InLog(l, bc.buf, bc.disk, c, |lh|)
      modifies this`lh, bc
      ensures bc.Valid()
      ensures Issued(old(bc.disk), old(bc.trace),
        InstallWrites(old(lh), c) + [Write(l.start, EncodeHead(old(bc.disk)[l.start], []))], k)
      ensures ok ==> k == |c| + 1 && lh == [] && NoneLocked(bc.buf) && Dirty(bc.buf) == {}
      ensures old(Idle(bc.buf) && |Dirty(bc.buf)| < NBUF && Dirty(bc.buf) == Firsts(lh, |lh|)) ==> ok && Idle(bc.buf)
      ensures old(Idle(bc.buf) && Dirty(bc.buf) == {}) ==> ok && Idle(bc.buf)
    {
      hide Ring.IsRing, View, Unique, AllCoherent, Dirty, Issued, Idle, InstallWrites, EncodeHead, InLog;
      ghost var d, n := bc.disk, |lh|;
      ghost var iw := InstallWrites(lh, c);
      ghost var ws := iw + [Write(l.start, EncodeHead(d[l.start], []))];
      ok, k := InstallTrans(c);
      assert ws[..k] == iw[..k];
      IssuedSame(d, old(bc.trace), iw, ws, k);
      if !ok { return; }
      InstallKept(d, old(bc.trace), c);
      lh := [];
      ok := PutHeadNext(d, old(bc.trace), ws, n);
      if !ok { return; }
      k := n + 1;
    }

    lemma InstallKept(d: Image, t: seq<Write>, c: seq<Block>)
      requires GoodHead(l, lh) && l.Valid() && |d| == l.disksize && |c| == |lh| && Issued(d, t, InstallWrites(lh, c), |lh|)
      ensures |bc.disk| == |d| && bc.disk[l.start] == d[l.start]
    {
      InstallKeepsHead(l, d, lh, c);
    }

    /** recover_from_log: read_head, install_trans, clear: exactly the writes of RecoverWrites;
        when it completes, as it does with nobody holding a buffer, the disk is the recovered disk. */
    method RecoverFromLog() returns (ok: bool, ghost k: nat)
      requires bc.Valid() && NoneLocked(bc.buf) && Dirty(bc.buf) == {} && WellFormed(l, bc.disk)
      modifies this`lh, bc
      ensures bc.Valid()
      ensures Issued(old(bc.disk), old(bc.trace), RecoverWrites(l, old(bc.disk)), k)
      ensures WellFormed(l, bc.disk) && SameLogical(l, old(bc.disk), bc.disk)
      ensures ok ==> Valid() && lh == [] && bc.disk == Recover(l, old(bc.disk))
      ensures old(Idle(bc.buf)) ==> ok && Idle(bc.buf)
    {
      hide Ring.IsRing, View, Unique, Dirty, Apply, Available;
      ghost var d := bc.disk;
      ghost var ws := RecoverWrites(l, d);
      k := 0;
      RecoverPrefix(l, d, k);
      CleanView(bc.buf, bc.disk, l.start);
      AvailableIdle(bc.buf, bc.disk, l.start);
      var i := Get(bc, l.start);
      if i == -1 { return false, 0; }
      lh := ParseHeader(bc.buf[i].data);
      ghost var b1 := bc.buf;
      bc.Brelse(i);
      SameDirty(b1, bc.buf);
      ghost var c := LogContents(l, d);
      forall t | 0 <= t < |lh| ensures View(bc.buf, bc.disk, l.start + 1 + t) == c[t] {
        CleanView(bc.buf, bc.disk, l.start + 1 + t);
      }
      ok, k := InstallAndClear(c);
      RecoverPrefix(l, d, k);
      assert ok ==> ws[..k] == ws;
    }
  }

  lemma HeadBounds(l: Layout, lh: seq<int>)
    requires GoodHead(l, lh)
    ensures |lh| <= l.size - 1 && Distinct(lh)
    ensures forall t :: 0 <= t < |lh| ==> 0 <= lh[t] < l.disksize
  {}

  lemma FirstsNone(lh: seq<int>, dirty: set<int>)
    ensures dirty - Firsts(lh, 0) == dirty
    ensures dirty == {} ==> dirty - Firsts(lh, |lh|) == {}
  {}

  /** What is still pinned when the first k logged blocks have been installed. */
  lemma NextDirty(lh: seq<int>, dirty: set<int>, k: nat)
    requires Distinct(lh) && k < |lh|
    ensures |dirty - Firsts(lh, k)| <= |dirty|
    ensures dirty - Firsts(lh, k) - {lh[k]} == dirty - Firsts(lh, k + 1)
    ensures Firsts(lh, |lh|) <= dirty ==> lh[k] in dirty - Firsts(lh, k)
    ensures dirty == {} ==> dirty - Firsts(lh, k) == {}
  {
    CardSubset(dirty - Firsts(lh, k), dirty);
    assert Firsts(lh, k + 1) == Firsts(lh, k) + {lh[k]};
    assert lh[k] in Firsts(lh, |lh|);
  }

  /** A logged block is a home block, and a block of the log is never logged. */
  lemma LoggedIsHome(l: Layout, lh: seq<int>, k: nat)
    requires GoodHead(l, lh) && k < |lh|
    ensures l.Home(lh[k]) && lh[k] in Firsts(lh, |lh|)
    ensures l.start + k + 1 !in Firsts(lh, |lh|)
  {}

  /** Two runs of writes, one after the other, issue their concatenation. */
  lemma Join(d: Image, m: Image, ws: seq<Write>, rest: seq<Write>, n: nat, j: nat, t: seq<Write>)
    requires n + j <= |ws| && j <= |rest| && ws[..n + j] == ws[..n] + rest[..j]
    requires InRange(d, ws[..n]) && m == Apply(d, ws[..n]) && InRange(m, rest[..j])
    ensures InRange(d, ws[..n + j]) && Apply(m, rest[..j]) == Apply(d, ws[..n + j])
    ensures t + ws[..n] + rest[..j] == t + ws[..n + j]
  {
    ApplyAppend(d, ws[..n], rest[..j]);
  }

  lemma SameDirty(a: seq<Buf>, b: seq<Buf>)
    requires |a| == |b| && forall i :: 0 <= i < |a| ==> a[i].dirty == b[i].dirty && a[i].blockno == b[i].blockno
    ensures Dirty(a) == Dirty(b)
  {
    forall x ensures x in Dirty(b) <==> x in Dirty(a) {
      if x in Dirty(b) {
        var i :| 0 <= i < |b| && b[i].dirty && b[i].blockno == x;
        assert a[i].dirty && a[i].blockno == x;
      }
      if x in Dirty(a) {
        var i :| 0 <= i < |a| && a[i].dirty && a[i].blockno == x;
        assert b[i].dirty && b[i].blockno == x;
      }
    }
  }

  /** Past the commit point the writes of a commit are an install and a clear. */
  lemma CommitSplit(l: Layout, hb: Block, lh: seq<int>, c: seq<Block>, j: nat)
    requires |c| == |lh| <= LOGSIZE && (forall i :: 0 <= i < |lh| ==> 0 <= lh[i]) && j <= |lh| + 1
    ensures var ws, n := CommitWrites(l, hb, lh, c), |lh|;
      var rest := InstallWrites(lh, c) + [Write(l.start, EncodeHead(EncodeHead(hb, lh), []))];
      ws[..n + 1 + j] == ws[..n + 1] + rest[..j] && |ws| == n + 1 + |rest|
  {}

  /** The writes of a commit, up to the commit point. */
  lemma CommitSlices(l: Layout, hb: Block, lh: seq<int>, c: seq<Block>)
    requires |c| == |lh| <= LOGSIZE && forall i :: 0 <= i < |lh| ==> 0 <= lh[i]
    ensures var ws, n := CommitWrites(l, hb, lh, c), |lh|;
      && (forall k :: 0 <= k <= n ==> ws[..k] == LogWrites(l, c)[..k])
      && ws[n] == Write(l.start, EncodeHead(hb, lh))
  {}

  lemma InstallKeepsHead(l: Layout, d: Image, lh: seq<int>, c: seq<Block>)
    requires GoodHead(l, lh) && l.Valid() && |d| == l.disksize && |c| == |lh|
    requires InRange(d, InstallWrites(lh, c)[..|lh|])
    ensures Apply(d, InstallWrites(lh, c)[..|lh|])[l.start] == d[l.start]
  {
    forall i | 0 <= i < |lh| ensures lh[i] != l.start { assert l.Home(lh[i]); }
  }
}

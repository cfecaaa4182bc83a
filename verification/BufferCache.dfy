/** The buffer cache (`bio.c`): NBUF buffers on one circular LRU list, reference counts,
    B_VALID and B_DIRTY, over a disk reached only through iderw. */
module BufferCache {
  import opened DiskModel
  import opened Ring

  const NBUF := 30
  const ROOTDEV := 1

  /** Buffers start zeroed, with dev 0; a buffer is claimed once bget has given it to ROOTDEV. */
  datatype Buf = Buf(dev: nat, blockno: nat, valid: bool, dirty: bool, refcnt: nat, locked: bool, data: Block)

  predicate Claimed(x: Buf) { x.dev == ROOTDEV }

  predicate Caches(x: Buf, b: nat) { Claimed(x) && x.blockno == b }

  predicate Free(x: Buf) { x.refcnt == 0 && !x.dirty }

  /** No two claimed buffers hold the same block. */
  predicate Unique(bufs: seq<Buf>) {
    forall i, j :: 0 <= i < |bufs| && 0 <= j < |bufs| && i != j && Claimed(bufs[i]) && Claimed(bufs[j]) ==>
      bufs[i].blockno != bufs[j].blockno
  }

  /** An unlocked, valid, clean buffer agrees with the disk. */
  predicate Coherent(x: Buf, d: Image) {
    && (!Claimed(x) ==> !x.valid && !x.dirty && x.refcnt == 0)
    && (Claimed(x) ==> x.blockno < |d|)
    && (x.dirty ==> x.valid)
    && (x.locked ==> x.refcnt > 0)
    && (Claimed(x) && x.valid && !x.dirty && !x.locked ==> x.data == d[x.blockno])
  }

  predicate AllCoherent(bufs: seq<Buf>, d: Image) {
    forall i :: 0 <= i < |bufs| ==> Coherent(bufs[i], d)
  }

  /** The latest contents of block b: those of its valid buffer, else those on disk. */
  ghost function View(bufs: seq<Buf>, d: Image, b: nat): Block
    requires b < |d|
  {
    if exists i :: 0 <= i < |bufs| && Caches(bufs[i], b) && bufs[i].valid then
      var i :| 0 <= i < |bufs| && Caches(bufs[i], b) && bufs[i].valid;
      bufs[i].data
    else d[b]
  }

  lemma ViewAt(bufs: seq<Buf>, d: Image, i: nat)
    requires Unique(bufs) && i < |bufs| && Claimed(bufs[i]) && bufs[i].valid && bufs[i].blockno < |d|
    ensures View(bufs, d, bufs[i].blockno) == bufs[i].data
  {
    assert Caches(bufs[i], bufs[i].blockno);
    var b := bufs[i].blockno;
    forall j | 0 <= j < |bufs| && Caches(bufs[j], b) ensures j == i {
      assert Claimed(bufs[i]) && Claimed(bufs[j]);
    }
  }

  /** Replacing one buffer leaves the view of every block neither version caches. */
  lemma ViewElsewhere(bufs: seq<Buf>, d: Image, i: nat, x: Buf, b: nat)
    requires i < |bufs| && b < |d| && Unique(bufs) && Unique(bufs[i := x])
    requires !(Caches(bufs[i], b) && bufs[i].valid) && !(Caches(x, b) && x.valid)
    ensures View(bufs[i := x], d, b) == View(bufs, d, b)
  {
    var bufs' := bufs[i := x];
    if j :| 0 <= j < |bufs| && Caches(bufs[j], b) && bufs[j].valid {
      assert bufs'[j] == bufs[j];
      ViewAt(bufs, d, j);
      ViewAt(bufs', d, j);
    } else {
      forall j | 0 <= j < |bufs| ensures !(Caches(bufs'[j], b) && bufs'[j].valid) {}
    }
  }

  class Cache {
    var buf: seq<Buf>
    // next and prev have one entry per buffer, and entry NBUF for bcache.head
    var next: seq<int>
    var prev: seq<int>
    var disk: Image
    ghost var order: seq<int>      // the list once around, from bcache.head
    ghost var trace: seq<Write>    // every write that has reached the disk

    ghost predicate Linked()
      reads this
    {
      && |buf| == NBUF && |next| == NBUF + 1
      && IsRing(next, prev, order)
      && order != [] && order[0] == NBUF
      && forall j :: 0 <= j <= NBUF ==> j in order
    }

    ghost predicate Valid()
      reads this
    {
      Linked() && Unique(buf) && AllCoherent(buf, disk)
    }

    /** Some process holds the sleep lock of the buffer for this block. */
    predicate Busy(b: nat)
      reads this
    {
      exists i :: 0 <= i < |buf| && Caches(buf[i], b) && buf[i].locked
    }

    /** binit: link the buffers one by one at the front. */
    constructor (d: Image, zero: Block)
      ensures Valid() && disk == d && trace == []
      ensures forall i :: 0 <= i < NBUF ==> Free(buf[i]) && !Claimed(buf[i])
    {
      buf := seq(NBUF, _ => Buf(0, 0, false, false, 0, false, zero));
      disk, trace := d, [];
      var n, p := seq(NBUF + 1, _ => NBUF), seq(NBUF + 1, _ => NBUF);
      ghost var o := [NBUF];
      var b := 0;
      while b < NBUF
        invariant 0 <= b <= NBUF && |n| == NBUF + 1
        invariant IsRing(n, p, o) && o != [] && o[0] == NBUF
        invariant forall j :: j in o <==> 0 <= j < b || j == NBUF
      {
        LinkFront(n, p, o, b);
        assert o == [NBUF] + o[1..];
        var f := n[NBUF];
        n, p := n[b := f], p[b := NBUF];
        p, n := p[f := b], n[NBUF := b];
        ghost var o' := [NBUF, b] + o[1..];
        assert forall j :: j in o' <==> j in o || j == b;
        o := o';
        b := b + 1;
      }
      next, prev, order := n, p, o;
    }

    /** Scan forward from the front for a buffer that already holds the block. */
    method FindCached(dev: nat, blockno: nat) returns (i: int)
      requires Linked()
      ensures -1 <= i < NBUF
      ensures i >= 0 ==> buf[i].dev == dev && buf[i].blockno == blockno
      ensures i == -1 ==> forall j :: 0 <= j < NBUF ==> !(buf[j].dev == dev && buf[j].blockno == blockno)
    {
      var b := next[NBUF];
      ghost var k := Succ(0, |order|);
      while b != NBUF
        invariant 0 <= k < |order| && b == order[k]
        invariant forall t :: 0 < t < (if k == 0 then |order| else k) ==> !(buf[order[t]].dev == dev && buf[order[t]].blockno == blockno)
        decreases if k == 0 then 0 else |order| - k
      {
        if buf[b].dev == dev && buf[b].blockno == blockno { return b; }
        b := next[b];
        k := Succ(k, |order|);
      }
      forall j | 0 <= j < NBUF ensures !(buf[j].dev == dev && buf[j].blockno == blockno) {
        assert j in order;
        var t :| 0 <= t < |order| && order[t] == j;
      }
      i := -1;
    }

    /** Scan backward from the tail for a buffer that may be recycled: the least recently used. */
    method FindFree() returns (i: int, ghost k: nat)
      requires Linked()
      ensures -1 <= i < NBUF
      ensures i >= 0 ==> k < |order| && order[k] == i && Free(buf[i])
      ensures i >= 0 ==> forall t :: k < t < |order| ==> !Free(buf[order[t]])
      ensures i == -1 ==> forall j :: 0 <= j < NBUF ==> !Free(buf[j])
    {
      var b := prev[NBUF];
      k := |order| - 1;
      while b != NBUF
        invariant 0 <= k < |order| && b == order[k]
        invariant forall t :: k < t < |order| ==> !Free(buf[order[t]])
        decreases k
      {
        if Free(buf[b]) { i := b; return; }
        b := prev[b];
        k := k - 1;
      }
      forall j | 0 <= j < NBUF ensures !Free(buf[j]) {
        assert j in order;
        var t :| 0 <= t < |order| && order[t] == j;
      }
      i := -1;
    }

    /** What bget does to the buffer it returns: one more reference, and the sleep lock. */
    static function Taken(x: Buf): Buf { x.(refcnt := x.refcnt + 1, locked := true) }

    /** Return a locked buffer for the block: the one that already holds it, else the least
        recently used free one, recycled. None free is the "no buffers" panic: -1, nothing changed. */
    method Bget(blockno: nat) returns (i: int, ghost k: nat)
      requires Valid() && blockno < |disk| && !Busy(blockno)
      modifies this`buf
      ensures Valid() && -1 <= i < NBUF
      ensures i >= 0 && Caches(old(buf)[i], blockno) ==> buf == old(buf)[i := Taken(old(buf)[i])]
      ensures i >= 0 && !Caches(old(buf)[i], blockno) ==>
        && (forall j :: 0 <= j < NBUF ==> !Caches(old(buf)[j], blockno))
        && Free(old(buf)[i]) && k < |order| && order[k] == i
        && (forall t :: k < t < |order| ==> !Free(old(buf)[order[t]]))
        && buf == old(buf)[i := Buf(ROOTDEV, blockno, false, false, 1, true, old(buf)[i].data)]
      ensures i == -1 ==> buf == old(buf) && forall j :: 0 <= j < NBUF ==> !Caches(buf[j], blockno) && !Free(buf[j])
    {
      k := 0;
      i := FindCached(ROOTDEV, blockno);
      if i >= 0 {
        assert Caches(buf[i], blockno);
        buf := buf[i := buf[i].(refcnt := buf[i].refcnt + 1)];
        buf := buf[i := buf[i].(locked := true)];
        return;
      }
      i, k := FindFree();
      if i >= 0 {
        buf := buf[i := Buf(ROOTDEV, blockno, false, false, 1, false, buf[i].data)];
        buf := buf[i := buf[i].(locked := true)];
      }
    }

    /** iderw on a buffer without B_DIRTY: read the block and set B_VALID. */
    method ReadIn(i: nat)
      requires Valid() && i < NBUF && Claimed(buf[i]) && buf[i].locked && !buf[i].valid
      modifies this`buf
      ensures Valid()
      ensures buf == old(buf)[i := old(buf)[i].(valid := true, data := disk[old(buf)[i].blockno])]
    {
      buf := buf[i := buf[i].(data := disk[buf[i].blockno], valid := true)];
    }

    /** A locked buffer with the latest contents of the block; no block's contents change,
        no write is issued, and every dirty buffer is where it was. */
    method Bread(blockno: nat) returns (i: int)
      requires Valid() && blockno < |disk| && !Busy(blockno)
      modifies this`buf
      ensures Valid() && -1 <= i < NBUF
      ensures i == -1 ==> buf == old(buf) && forall j :: 0 <= j < NBUF ==> !Caches(buf[j], blockno) && !Free(buf[j])
      ensures i >= 0 ==>
        && Caches(buf[i], blockno) && buf[i].valid && buf[i].locked
        && buf[i].data == old(View(buf, disk, blockno))
        && (buf[i].dirty <==> Caches(old(buf)[i], blockno) && old(buf)[i].dirty)
        && (!Caches(old(buf)[i], blockno) ==> Free(old(buf)[i]) && buf[i].refcnt == 1)
        && (Caches(old(buf)[i], blockno) ==> buf[i].refcnt == old(buf)[i].refcnt + 1)
        && forall j :: 0 <= j < NBUF && j != i ==> buf[j] == old(buf)[j]
      ensures forall b :: 0 <= b < |disk| ==> View(buf, disk, b) == old(View(buf, disk, b))
    {
      ghost var k;
      i, k := Bget(blockno);
      if i >= 0 {
        if !buf[i].valid { ReadIn(i); }
        BreadView(old(buf), buf, disk, i, blockno);
      }
    }

    /** The holder of a buffer changes its contents (memmove into b->data). */
    method Store(i: nat, x: Block)
      requires Valid() && i < NBUF && Claimed(buf[i]) && buf[i].locked && buf[i].valid
      modifies this`buf
      ensures Valid() && buf == old(buf)[i := old(buf)[i].(data := x)]
    {
      buf := buf[i := buf[i].(data := x)];
    }

    /** log_write's part: B_DIRTY keeps the buffer from being recycled. */
    method Pin(i: nat)
      requires Valid() && i < NBUF && Claimed(buf[i]) && buf[i].locked && buf[i].valid
      modifies this`buf
      ensures Valid() && buf == old(buf)[i := old(buf)[i].(dirty := true)]
    {
      buf := buf[i := buf[i].(dirty := true)];
    }

    /** Write a locked buffer to disk, at once: one block, one write. */
    method Bwrite(i: nat)
      requires Valid() && i < NBUF && Claimed(buf[i]) && buf[i].locked && buf[i].valid
      modifies this`buf, this`disk, this`trace
      ensures Valid()
      ensures buf == old(buf)[i := old(buf)[i].(dirty := false)]
      ensures disk == old(disk)[old(buf)[i].blockno := old(buf)[i].data]
      ensures trace == old(trace) + [Write(old(buf)[i].blockno, old(buf)[i].data)]
    {
      buf := buf[i := buf[i].(dirty := true)];
      // iderw: B_DIRTY is set, so write, clear it and leave B_VALID set
      buf := buf[i := buf[i].(dirty := false)];
      disk := disk[buf[i].blockno := buf[i].data];
      trace := trace + [Write(buf[i].blockno, buf[i].data)];
    }

    /** Release a locked buffer that agrees with the disk or is dirty. The last reference
        moves it to the front of the list: the most recently used place. */
    method Brelse(i: nat)
      requires Valid() && i < NBUF && Claimed(buf[i]) && buf[i].locked
      requires buf[i].valid && !buf[i].dirty ==> buf[i].data == disk[buf[i].blockno]
      modifies this`buf, this`next, this`prev, this`order
      ensures Valid() && disk == old(disk)
      ensures buf == old(buf)[i := old(buf)[i].(locked := false, refcnt := old(buf)[i].refcnt - 1)]
      ensures buf[i].refcnt > 0 ==> order == old(order)
      ensures buf[i].refcnt == 0 ==>
        exists k :: 0 < k < |old(order)| && old(order)[k] == i && order == [NBUF, i] + Without(old(order), k)[1..]
    {
      buf := buf[i := buf[i].(locked := false)];
      buf := buf[i := buf[i].(refcnt := buf[i].refcnt - 1)];
      if buf[i].refcnt == 0 { Relink(i); }
    }

    method Relink(i: nat)
      requires Linked() && i < NBUF
      modifies this`next, this`prev, this`order
      ensures Linked()
      ensures exists k :: 0 < k < |old(order)| && old(order)[k] == i && order == [NBUF, i] + Without(old(order), k)[1..]
    {
      hide IsRing;
      assert i in order;
      ghost var k :| 0 <= k < |order| && order[k] == i;
      MoveToFront(next, prev, order, k);
      prev := prev[next[i] := prev[i]];
      next := next[prev[i] := next[i]];
      var f := next[NBUF];
      next, prev := next[i := f], prev[i := NBUF];
      prev, next := prev[f := i], next[NBUF := i];
      order := [NBUF, i] + Without(order, k)[1..];
    }
  }

  /** Unlinking the k-th element and linking it in again behind the head. */
  lemma MoveToFront(next: seq<int>, prev: seq<int>, order: seq<int>, k: nat)
    requires IsRing(next, prev, order) && 0 < k < |order|
    ensures var i, h := order[k], order[0];
      && |prev| == |next| && 0 <= i < |next| && 0 <= h < |next| && 0 <= next[i] < |next| && 0 <= prev[i] < |next|
      && var n, p := next[prev[i] := next[i]], prev[next[i] := prev[i]];
      && 0 <= n[h] < |next| && p[i] == prev[i]
      && IsRing(n[i := n[h]][h := i], p[i := h][n[h] := i], [h, i] + Without(order, k)[1..])
      && forall j :: j in [h, i] + Without(order, k)[1..] <==> j in order
  {
    var i, h, o := order[k], order[0], Without(order, k);
    Unlink(next, prev, order, k);
    WithoutMembers(order, k);
    var n, p := next[prev[i] := next[i]], prev[next[i] := prev[i]];
    LinkFront(n, p, o, i);
    assert o == [h] + o[1..];
  }

  /** Between the claim and the read, bread changes nobody's contents. */
  lemma BreadView(was: seq<Buf>, now: seq<Buf>, d: Image, i: nat, blockno: nat)
    requires i < |was| && |now| == |was| && Unique(was) && Unique(now) && blockno < |d|
    requires AllCoherent(was, d) && AllCoherent(now, d)
    requires now == was[i := now[i]] && Caches(now[i], blockno) && now[i].valid
    requires Caches(was[i], blockno) && was[i].valid ==> now[i].data == was[i].data
    requires !(Caches(was[i], blockno) && was[i].valid) ==> now[i].data == d[blockno]
    requires !Caches(was[i], blockno) ==> Free(was[i]) && forall j :: 0 <= j < |was| ==> !Caches(was[j], blockno)
    ensures now[i].data == View(was, d, blockno)
    ensures forall b :: 0 <= b < |d| ==> View(now, d, b) == View(was, d, b)
  {
    ViewAt(now, d, i);
    if Caches(was[i], blockno) && was[i].valid {
      ViewAt(was, d, i);
    } else {
      forall j | 0 <= j < |was| ensures !(Caches(was[j], blockno) && was[j].valid) {}
    }
    forall b | 0 <= b < |d| && b != blockno ensures View(now, d, b) == View(was, d, b) {
      if Caches(was[i], b) && was[i].valid {
        ViewAt(was, d, i);
        forall j | 0 <= j < |was| ensures !(Caches(now[j], b) && now[j].valid) {}
      } else {
        ViewElsewhere(was, d, i, now[i], b);
      }
    }
  }
}

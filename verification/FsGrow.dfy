/** How an inode gains blocks: which slots a write fills, and exactly which blocks it has to log for that. */
module FsGrow {
  import opened FsState
  import opened FsBlocks
  import opened FsContent
  import opened Counting
  import LR = LogRecovery

  /** Every block is in use. */
  ghost predicate Full(v: View) {
    forall c :: 0 <= c < |v.bitmap| ==> v.bitmap[c]
  }

  /** Slot t of inode i got its block between v and w. */
  predicate IsNew(v: View, w: View, i: nat, t: nat) {
    i < |v.ip| && i < |w.ip| && t < SLOTS && Addr(v, i, t) == 0 && Addr(w, i, t) != 0
  }

  /** The free blocks. */
  ghost function FreeSet(v: View): set<int> { set b | 0 <= b < |v.bitmap| && !v.bitmap[b] }

  /** From v to w inode i may have gained blocks that were free; no other address changed. */
  ghost predicate Grown(v: View, w: View, i: nat) {
    && w.sb == v.sb && |w.blocks| == |v.blocks| && |w.bitmap| == |v.bitmap| && i < |v.ip| == |w.ip|
    && w.ip == v.ip[i := w.ip[i]]
    && (forall t :: 0 <= t < SLOTS && Addr(v, i, t) != 0 ==> Addr(w, i, t) == Addr(v, i, t))
    && (forall j, t :: 0 <= j < |v.ip| && j != i && 0 <= t < SLOTS ==> Addr(w, j, t) == Addr(v, j, t))
    && (forall b :: 0 <= b < |v.bitmap| && v.bitmap[b] ==> w.bitmap[b])
    && (forall t :: 0 <= t < SLOTS && IsNew(v, w, i, t) ==> Addr(w, i, t) < |v.bitmap| && !v.bitmap[Addr(w, i, t)])
  }

  lemma GrownLength(v: View, w: View, i: nat)
    requires Grown(v, w, i)
    ensures i < |w.ip| == |v.ip| && w.ip == v.ip[i := w.ip[i]]
  {}

  lemma GrownTrans(v: View, w: View, x: View, i: nat)
    requires Grown(v, w, i) && Grown(w, x, i)
    ensures Grown(v, x, i)
  {
    forall t | 0 <= t < SLOTS && IsNew(v, x, i, t) ensures Addr(x, i, t) < |v.bitmap| && !v.bitmap[Addr(x, i, t)] {
      if Addr(w, i, t) != 0 { assert IsNew(v, w, i, t); } else { assert IsNew(w, x, i, t); }
    }
  }

  /** Neither data written nor a new size changes what grew. */
  lemma GrownSame(v: View, w: View, x: View, i: nat)
    requires Grown(v, w, i) && |x.ip| == |w.ip| && x.ip == w.ip[i := x.ip[i]] && x.sb == w.sb && x.bitmap == w.bitmap && |x.blocks| == |w.blocks|
    requires forall j, t :: 0 <= j < |w.ip| && 0 <= t < SLOTS ==> Addr(x, j, t) == Addr(w, j, t)
    ensures Grown(v, x, i) && LoggedBy(v, x, i) == LoggedBy(v, w, i)
    ensures forall t :: 0 <= t < SLOTS ==> IsNew(v, x, i, t) == IsNew(v, w, i, t)
  {
    forall t | 0 <= t < SLOTS && IsNew(v, x, i, t) ensures Addr(x, i, t) < |v.bitmap| && !v.bitmap[Addr(x, i, t)] {
      assert IsNew(v, w, i, t);
    }
    SameLogs(v, w, v, x, i);
  }

  lemma GrownRefl(v: View, i: nat)
    requires i < |v.ip|
    ensures SameBytes(v, v) && Grown(v, v, i) && LoggedBy(v, v, i) == {}
  {}

  // ---- One slot filled ----

  /** From v to w only slot s of inode i changed, from empty to the free block addr; no size changed. */
  ghost predicate Filling(v: View, w: View, i: nat, s: nat, addr: nat) {
    && w.sb == v.sb && |w.ip| == |v.ip| && |w.blocks| == |v.blocks|
    && i < |v.ip| && w.ip == v.ip[i := w.ip[i]] && w.ip[i].size == v.ip[i].size
    && addr < |v.bitmap| && !v.bitmap[addr] && w.bitmap == v.bitmap[addr := true]
    && (forall j, t :: 0 <= j < |v.ip| && 0 <= t < SLOTS ==> Addr(w, j, t) == (if j == i && t == s then addr else Addr(v, j, t)))
  }

  ghost predicate SameAddrs(v: View, w: View) {
    |w.ip| == |v.ip| && forall j, t :: 0 <= j < |v.ip| && 0 <= t < SLOTS ==> Addr(w, j, t) == Addr(v, j, t)
  }

  lemma AllocMaps(v: View, orph: set<nat>, b: nat)
    requires Ownership(v, orph) && b < v.sb.size && !v.bitmap[b]
    ensures SameAddrs(v, Allocated(v, b))
  {
    forall j, t | 0 <= j < |v.ip| && 0 <= t < SLOTS ensures Addr(Allocated(v, b), j, t) == Addr(v, j, t) {
      AllocAddr(v, orph, b, j, t);
    }
  }

  lemma FillingThen(v: View, w: View, x: View, i: nat, s: nat, addr: nat)
    requires SameAddrs(v, w) && w.ip == v.ip && w.sb == v.sb && |w.blocks| == |v.blocks| && MapsTo(w, x, i, s, addr)
    requires addr < |v.bitmap| && !v.bitmap[addr] && w.bitmap == v.bitmap[addr := true]
    requires i < |w.ip| && x.ip == w.ip[i := x.ip[i]] && x.ip[i].size == w.ip[i].size
    ensures Filling(v, x, i, s, addr)
  {}

  lemma FillingGrown(v: View, w: View, i: nat, s: nat, addr: nat)
    requires Filling(v, w, i, s, addr) && s < SLOTS && Addr(v, i, s) == 0 && addr != 0
    ensures Grown(v, w, i) && Addr(w, i, s) == addr && w.ip[i].size == v.ip[i].size
    ensures s != NDIRECT ==> Addr(w, i, NDIRECT) == Addr(v, i, NDIRECT)
    ensures forall t :: 0 <= t < SLOTS && IsNew(v, w, i, t) ==> t == s
    ensures LoggedBy(v, w, i) == LogsOf(v, w, i, s)
  {
    assert forall t :: 0 <= t < SLOTS && t != s ==> LogsOf(v, w, i, t) == {};
  }

  /** Only slot s, and for an entry the indirect block's, may have been filled. */
  ghost predicate OnlyNew(v: View, w: View, i: nat, s: nat) {
    forall t :: 0 <= t < SLOTS && IsNew(v, w, i, t) ==> t == s || (t == NDIRECT < s)
  }

  lemma OnlyNewTrans(v: View, w: View, x: View, i: nat, s: nat)
    requires Grown(v, w, i) && Grown(w, x, i) && OnlyNew(v, w, i, s) && OnlyNew(w, x, i, s)
    ensures OnlyNew(v, x, i, s)
  {
    forall t | 0 <= t < SLOTS && IsNew(v, x, i, t) ensures t == s || (t == NDIRECT < s) {
      if Addr(w, i, t) != 0 { assert IsNew(v, w, i, t); } else { assert IsNew(w, x, i, t); }
    }
  }

  // ---- What is logged ----

  function MapOf(sb: Super, b: nat): nat { sb.bmapstart + b / BPB }

  /** Filling slot t logs the new block, its bitmap block, and for an entry the indirect block it is in. */
  function LogsOf(v: View, w: View, i: nat, t: nat): set<nat> {
    if !IsNew(v, w, i, t) then {}
    else {Addr(w, i, t), MapOf(w.sb, Addr(w, i, t))} + (if t > NDIRECT then {Addr(w, i, NDIRECT)} else {})
  }

  /** All that the growth from v to w logs. */
  ghost function LoggedBy(v: View, w: View, i: nat): set<nat> {
    set t: nat, b: nat | t < SLOTS && b in LogsOf(v, w, i, t) :: b
  }

  lemma SameLogs(v: View, w: View, v': View, w': View, i: nat)
    requires i < |v.ip| && i < |w.ip| && i < |v'.ip| && i < |w'.ip| && w'.sb == w.sb
    requires forall t :: 0 <= t < SLOTS ==> Addr(v', i, t) == Addr(v, i, t) && Addr(w', i, t) == Addr(w, i, t)
    ensures LoggedBy(v', w', i) == LoggedBy(v, w, i)
  {
    assert forall t :: 0 <= t < SLOTS ==> LogsOf(v', w', i, t) == LogsOf(v, w, i, t);
  }

  lemma EntryNeedsIndirect(v: View, i: nat, t: nat)
    requires i < |v.ip| && NDIRECT < t < SLOTS && Addr(v, i, t) != 0
    ensures Addr(v, i, NDIRECT) != 0
  {}

  lemma LogsSplit(v: View, w: View, x: View, i: nat, t: nat)
    requires Grown(v, w, i) && Grown(w, x, i) && t < SLOTS
    ensures LogsOf(v, x, i, t) == LogsOf(v, w, i, t) + LogsOf(w, x, i, t)
  {
    if Addr(w, i, t) != 0 {
      assert Addr(x, i, t) == Addr(w, i, t);
      if t > NDIRECT { EntryNeedsIndirect(w, i, t); }
    }
  }

  /** Growing twice logs what each growth logs. */
  lemma LoggedTrans(v: View, w: View, x: View, i: nat)
    requires Grown(v, w, i) && Grown(w, x, i)
    ensures LoggedBy(v, x, i) == LoggedBy(v, w, i) + LoggedBy(w, x, i)
  {
    hide Grown, LogsOf;
    forall t: nat | t < SLOTS ensures LogsOf(v, x, i, t) == LogsOf(v, w, i, t) + LogsOf(w, x, i, t) { LogsSplit(v, w, x, i, t); }
  }

  // ---- What changed is logged ----

  /** Every bit that differs has its bitmap block in l. */
  ghost predicate BitsIn(sb: Super, p: seq<bool>, q: seq<bool>, l: set<nat>) {
    |q| == |p| && forall b: nat :: b < |p| && q[b] != p[b] ==> MapOf(sb, b) in l
  }

  /** Every block that differs between v and w, bitmap blocks included, is in l. */
  ghost predicate Covered(v: View, w: View, l: set<nat>) {
    && w.sb == v.sb && BitsIn(v.sb, v.bitmap, w.bitmap, l)
    && |w.blocks| == |v.blocks| && forall b: nat :: b < |v.blocks| && w.blocks[b] != v.blocks[b] ==> b in l
  }

  lemma CoveredNone(v: View, l: set<nat>)
    ensures Covered(v, v, l)
  {}

  lemma CoveredTrans(v: View, w: View, x: View, l: set<nat>, l': set<nat>)
    requires Covered(v, w, l) && Covered(w, x, l') && l <= l'
    ensures Covered(v, x, l')
  {}

  lemma CoveredMore(v: View, w: View, l: set<nat>, l': set<nat>)
    requires Covered(v, w, l) && l <= l'
    ensures Covered(v, w, l')
  {}

  lemma BitsTrans(sb: Super, p: seq<bool>, q: seq<bool>, r: seq<bool>, l: set<nat>, l': set<nat>)
    requires BitsIn(sb, p, q, l) && BitsIn(sb, q, r, l') && l <= l'
    ensures BitsIn(sb, p, r, l')
  {}

  lemma AllocCovered(v: View, b: nat, l: set<nat>)
    requires b < |v.bitmap| && b < |v.blocks| && MapOf(v.sb, b) in l && b in l
    ensures Covered(v, Allocated(v, b), l)
  {}

  /** One block written; inodes do not matter here. */
  lemma StoreCovered(v: View, w: View, a: nat, blk: Blk, l: set<nat>)
    requires a < |v.blocks| && a in l && w.sb == v.sb && w.bitmap == v.bitmap && w.blocks == v.blocks[a := blk]
    ensures Covered(v, w, l)
  {}

  lemma InodesOnly(v: View, w: View, x: View, l: set<nat>)
    requires Covered(v, w, l) && x.sb == w.sb && x.bitmap == w.bitmap && x.blocks == w.blocks
    ensures Covered(v, x, l)
  {}

  // ---- The log set of a write ----

  /** The data block of file block first + k of the span. */
  function DataAt(w: View, i: nat, off: nat, n: nat, k: int): nat {
    if 0 <= k < Span(off, n) && off + n <= MAXFILE * BSIZE && i < |w.ip| then Addr(w, i, SlotOf(off / BSIZE + k)) else 0
  }

  ghost function DataOf(w: View, i: nat, off: nat, n: nat): set<nat> {
    set k: int | 0 <= k < Span(off, n) :: DataAt(w, i, off, n, k)
  }

  function InodeBlock(sb: Super, i: nat): nat { sb.inodestart + i / IPB }

  /** Exactly the blocks writei logs: the data blocks, what the growth needs, and the inode when the size changes. */
  ghost function WriteLog(v: View, w: View, i: nat, off: nat, n: nat): set<nat>
    requires i < |v.ip| && i < |w.ip|
  {
    DataOf(w, i, off, n) + LoggedBy(v, w, i) + (if w.ip[i].size > v.ip[i].size then {InodeBlock(w.sb, i)} else {})
  }

  /** The file block of a slot other than the indirect block's. */
  function BnOf(t: nat): int { if t < NDIRECT then t else t - 1 }

  predicate InSpan(t: nat, off: nat, n: nat) { off / BSIZE <= BnOf(t) < off / BSIZE + Span(off, n) }

  /** A write needs the slots of its span, and the indirect block's when the span reaches past the direct ones. */
  predicate Needs(t: nat, off: nat, n: nat) {
    if t == NDIRECT then off / BSIZE + Span(off, n) > NDIRECT else InSpan(t, off, n)
  }

  /** Only slots that the write needs have been filled. */
  ghost predicate NewWithin(v: View, w: View, i: nat, off: nat, n: nat) {
    forall t :: 0 <= t < SLOTS && IsNew(v, w, i, t) ==> Needs(t, off, n)
  }

  lemma NewWithinStep(v: View, w: View, x: View, i: nat, off: nat, tot: nat, n: nat)
    requires Grown(v, w, i) && Grown(w, x, i) && NewWithin(v, w, i, off, tot) && OnlyNew(w, x, i, SlotOf(off / BSIZE + Span(off, tot)))
    requires Span(off, n) == Span(off, tot) + 1
    ensures NewWithin(v, x, i, off, n)
  {
    forall t | 0 <= t < SLOTS && IsNew(v, x, i, t) ensures Needs(t, off, n) {
      if Addr(w, i, t) != 0 { assert IsNew(v, w, i, t); } else { assert IsNew(w, x, i, t); }
    }
  }

  /** One more block of data is logged. */
  lemma DataStep(w: View, x: View, i: nat, off: nat, tot: nat, n: nat)
    requires Grown(w, x, i) && off + n <= MAXFILE * BSIZE && tot <= n && Filled(w, i, Max(off + tot, w.ip[i].size))
    requires Span(off, n) == Span(off, tot) + 1 && off / BSIZE + Span(off, tot) < MAXFILE
    ensures DataOf(x, i, off, n) == DataOf(w, i, off, tot) + {Addr(x, i, SlotOf(off / BSIZE + Span(off, tot)))}
  {
    forall k | 0 <= k < Span(off, tot) ensures DataAt(x, i, off, n, k) == DataAt(w, i, off, tot, k) {
      assert off / BSIZE + k < BlocksFor(off + tot);
      assert Addr(w, i, SlotOf(off / BSIZE + k)) != 0;
    }
    var last := Span(off, tot);
    assert DataAt(x, i, off, n, last) == Addr(x, i, SlotOf(off / BSIZE + last));
  }

  /** The first block of the span that may be new. */
  function FirstNew(off: nat): nat { off / BSIZE + (if off % BSIZE != 0 then 1 else 0) }

  /** A write from v to w, as far as its blocks go. */
  ghost predicate Extends(v: View, w: View, i: nat, off: nat, n: nat) {
    && Grown(v, w, i) && NewWithin(v, w, i, off, n)
    && off <= v.ip[i].size && off + n <= MAXFILE * BSIZE && Filled(v, i, v.ip[i].size)
  }

  lemma NewSlotIn(v: View, w: View, i: nat, off: nat, n: nat, t: nat)
    requires Extends(v, w, i, off, n) && IsNew(v, w, i, t)
    ensures t == NDIRECT || (FirstNew(off) <= BnOf(t) < FirstNew(off) + NewBlocks(off, n) && t == SlotOf(BnOf(t)))
  {
    if off % BSIZE != 0 { AllocatedInside(v, i, v.ip[i].size, off); }
  }

  /** A block that the size reaches into is allocated. */
  lemma AllocatedInside(w: View, i: nat, size: nat, off: nat)
    requires i < |w.ip| && Filled(w, i, size) && off % BSIZE != 0 && off <= size
    ensures off < MAXFILE * BSIZE && Addr(w, i, SlotOf(off / BSIZE)) != 0
  {}

  function NewSlot(off: nat): int -> int { (k: int) => if 0 <= FirstNew(off) + k then SlotOf(FirstNew(off) + k) else 0 }

  /** No more slots are filled than NewBlocks and the indirect block's. */
  lemma NewSlotsBound(v: View, w: View, i: nat, off: nat, n: nat) returns (slots: set<int>)
    requires Extends(v, w, i, off, n)
    ensures forall t: nat :: IsNew(v, w, i, t) ==> t in slots
    ensures |slots| <= NewBlocks(off, n) + 1
  {
    hide Extends, IsNew, NewBlocks;
    var range := CardRange(NewBlocks(off, n));
    var image := CardImage(range, NewSlot(off));
    slots := image + {NDIRECT};
    CardAdd(image, NDIRECT);
    forall t: nat | IsNew(v, w, i, t) ensures t in slots {
      NewSlotIn(v, w, i, off, n, t);
      if t != NDIRECT {
        var k := BnOf(t) - FirstNew(off);
        assert k in range && NewSlot(off)(k) == t;
      }
    }
  }

  function MapBlock(w: View, i: nat): int -> int {
    (t: int) => if 0 <= t < SLOTS && i < |w.ip| then MapOf(w.sb, Addr(w, i, t)) else 0
  }

  function DataBlock(w: View, i: nat, off: nat, n: nat): int -> int { (k: int) => DataAt(w, i, off, n, k) }

  /** Everything the growth logs is a data block, a bitmap block of a filled slot, or the indirect block. */
  lemma LoggedWhere(v: View, w: View, i: nat, off: nat, n: nat, b: nat)
    requires Extends(v, w, i, off, n) && b in LoggedBy(v, w, i)
    ensures b in DataOf(w, i, off, n) || b == Addr(w, i, NDIRECT) || exists t: nat :: IsNew(v, w, i, t) && b == MapBlock(w, i)(t)
  {
    var t: nat :| t < SLOTS && b in LogsOf(v, w, i, t);
    NewSlotIn(v, w, i, off, n, t);
    if b == MapOf(w.sb, Addr(w, i, t)) { assert b == MapBlock(w, i)(t); }
    else if t != NDIRECT && b == Addr(w, i, t) {
      var k := BnOf(t) - off / BSIZE;
      assert b == DataAt(w, i, off, n, k);
    }
  }

  /** The data blocks of a write and what the growth needs, that is, all it logs before the inode. */
  lemma GrowthBound(v: View, w: View, i: nat, off: nat, n: nat)
    requires Extends(v, w, i, off, n)
    ensures i < |v.ip| && i < |w.ip| && |LoggedBy(v, w, i) + DataOf(w, i, off, n)| <= Budget(off, n) - 1
  {
    hide Extends, NewBlocks, Span, IsNew, LoggedBy, DataAt;
    ExtendsLength(v, w, i, off, n);
    var slots := NewSlotsBound(v, w, i, off, n);
    var maps := CardImage(slots, MapBlock(w, i));
    var range := CardRange(Span(off, n));
    var data := CardImage(range, DataBlock(w, i, off, n));
    CardUnion(data, maps);
    CardAdd(data + maps, Addr(w, i, NDIRECT));
    var all := data + maps + {Addr(w, i, NDIRECT)};
    forall b | b in LoggedBy(v, w, i) + DataOf(w, i, off, n) ensures b in all {
      if b in DataOf(w, i, off, n) {
        var k :| 0 <= k < Span(off, n) && b == DataAt(w, i, off, n, k);
        assert k in range && DataBlock(w, i, off, n)(k) == b;
      } else {
        LoggedWhere(v, w, i, off, n, b);
      }
    }
    CardSubset(LoggedBy(v, w, i) + DataOf(w, i, off, n), all);
  }

  /** A write logs at most Budget blocks. */
  lemma WriteLogBound(v: View, w: View, i: nat, off: nat, n: nat)
    requires Extends(v, w, i, off, n)
    ensures i < |v.ip| && i < |w.ip| && |WriteLog(v, w, i, off, n)| <= Budget(off, n)
  {
    hide Extends, LoggedBy, DataOf, Budget;
    GrowthBound(v, w, i, off, n);
    var grown := LoggedBy(v, w, i) + DataOf(w, i, off, n);
    CardAdd(grown, InodeBlock(w.sb, i));
    assert WriteLog(v, w, i, off, n) == grown || WriteLog(v, w, i, off, n) == grown + {InodeBlock(w.sb, i)};
  }

  lemma ExtendsLength(v: View, w: View, i: nat, off: nat, n: nat)
    requires Extends(v, w, i, off, n)
    ensures i < |v.ip| == |w.ip|
  {}

  // ---- The bound is reached ----

  /** No two free blocks have their bits in the same bitmap block. */
  ghost predicate FreeApart(v: View) {
    forall a, b :: 0 <= a < b < |v.bitmap| && !v.bitmap[a] && !v.bitmap[b] ==> a / BPB != b / BPB
  }

  /** Inodes, then the bitmap, then data, as mkfs lays the disk out. */
  predicate LaidOut(sb: Super, i: nat) {
    InodeBlock(sb, i) < sb.bmapstart && sb.bmapstart + sb.size / BPB < sb.datastart
  }

  lemma BlocksApart(w: View, i: nat, s: nat, t: nat)
    requires Ownership(w, {}) && i < |w.ip| && s < SLOTS && t < SLOTS && s != t && Addr(w, i, s) != 0
    ensures Addr(w, i, s) != Addr(w, i, t) && w.sb.datastart <= Addr(w, i, s) < w.sb.size
  {
    assert ApartAt(w, i, s, i, t) && AddrOk(w, {}, i, s);
  }

  lemma MapsApart(v: View, w: View, i: nat, s: nat, t: nat)
    requires Ownership(w, {}) && Grown(v, w, i) && FreeApart(v) && IsNew(v, w, i, s) && IsNew(v, w, i, t) && s != t
    ensures MapOf(w.sb, Addr(w, i, s)) != MapOf(w.sb, Addr(w, i, t))
  {
    BlocksApart(w, i, s, t);
    var a, b := Addr(w, i, s), Addr(w, i, t);
    assert !v.bitmap[a] && !v.bitmap[b];
    assert if a < b then a / BPB != b / BPB else b / BPB != a / BPB;
  }

  lemma MapInRange(w: View, i: nat, t: nat)
    requires Ownership(w, {}) && i < |w.ip| && t < SLOTS && Addr(w, i, t) != 0 && LaidOut(w.sb, i)
    ensures InodeBlock(w.sb, i) < MapOf(w.sb, Addr(w, i, t)) < w.sb.datastart
  {
    assert AddrOk(w, {}, i, t);
    assert Addr(w, i, t) / BPB <= w.sb.size / BPB;
  }

  /** The slot of block k of the span. */
  function SpanSlot(off: nat, k: nat): nat { SlotOf(off / BSIZE + k) }

  /** Four blocks are written, three of them and the indirect block new. */
  ghost predicate Straddles(v: View, w: View, i: nat, off: nat, n: nat) {
    && Extends(v, w, i, off, n) && Ownership(w, {}) && LaidOut(w.sb, i)
    && off % BSIZE != 0 && Span(off, n) == 4 && off / BSIZE + 3 >= NDIRECT && w.ip[i].size > v.ip[i].size
    && Addr(v, i, NDIRECT) == 0
    && (forall k :: 0 <= k < 4 ==> Addr(w, i, SpanSlot(off, k)) != 0)
    && (forall k :: 1 <= k < 4 ==> Addr(v, i, SpanSlot(off, k)) == 0)
  }

  /** The slots such a write fills. */
  function FilledSlot(off: nat, k: nat): nat { if k == 0 then NDIRECT else SpanSlot(off, k) }

  lemma FilledSlotNew(v: View, w: View, i: nat, off: nat, n: nat, k: nat)
    requires Straddles(v, w, i, off, n) && k < 4
    ensures IsNew(v, w, i, FilledSlot(off, k))
    ensures Addr(w, i, FilledSlot(off, k)) in WriteLog(v, w, i, off, n)
    ensures MapOf(w.sb, Addr(w, i, FilledSlot(off, k))) in WriteLog(v, w, i, off, n)
  {
    var t := FilledSlot(off, k);
    if k == 0 { EntryNeedsIndirect(w, i, SpanSlot(off, 3)); }
    assert Addr(w, i, t) in LogsOf(v, w, i, t) && MapOf(w.sb, Addr(w, i, t)) in LogsOf(v, w, i, t);
  }

  /** Ten different blocks: the first data block, the four new ones, their bitmap blocks and the inode. */
  ghost function TenBlocks(w: View, i: nat, off: nat): seq<int>
    requires i < |w.ip| && off / BSIZE + 3 < MAXFILE
  {
    [Addr(w, i, SpanSlot(off, 0))]
    + seq(4, k requires 0 <= k < 4 => Addr(w, i, FilledSlot(off, k)))
    + seq(4, k requires 0 <= k < 4 => MapOf(w.sb, Addr(w, i, FilledSlot(off, k))))
    + [InodeBlock(w.sb, i)]
  }

  lemma TenAt(w: View, i: nat, off: nat, j: nat)
    requires i < |w.ip| && off / BSIZE + 3 < MAXFILE && j < 10
    ensures |TenBlocks(w, i, off)| == 10
    ensures TenBlocks(w, i, off)[j] ==
      if j == 0 then Addr(w, i, SpanSlot(off, 0)) else if j < 5 then Addr(w, i, FilledSlot(off, j - 1))
      else if j < 9 then MapOf(w.sb, Addr(w, i, FilledSlot(off, j - 5))) else InodeBlock(w.sb, i)
  {}

  function TenSlot(off: nat, j: nat): nat
    requires j < 9
  {
    if j == 0 then SpanSlot(off, 0) else if j < 5 then FilledSlot(off, j - 1) else FilledSlot(off, j - 5)
  }

  lemma TenApart(v: View, w: View, i: nat, off: nat, n: nat, j: nat, k: nat)
    requires Straddles(v, w, i, off, n) && FreeApart(v) && j < k < 10
    ensures off / BSIZE + 3 < MAXFILE && TenBlocks(w, i, off)[j] != TenBlocks(w, i, off)[k]
  {
    TenAt(w, i, off, j);
    TenAt(w, i, off, k);
    forall m: nat | m < 4 ensures IsNew(v, w, i, FilledSlot(off, m)) { FilledSlotNew(v, w, i, off, n, m); }
    var s := TenSlot(off, j);
    MapInRange(w, i, s);
    if k < 5 {
      BlocksApart(w, i, s, TenSlot(off, k));
    } else if k < 9 && j >= 5 {
      MapsApart(v, w, i, s, TenSlot(off, k));
    } else if j < 5 {
      BlocksApart(w, i, s, if s == 0 then 1 else 0);
      if k < 9 { MapInRange(w, i, TenSlot(off, k)); }
    }
  }

  lemma TenLogged(v: View, w: View, i: nat, off: nat, n: nat, j: nat)
    requires Straddles(v, w, i, off, n) && j < 10
    ensures off / BSIZE + 3 < MAXFILE && TenBlocks(w, i, off)[j] in WriteLog(v, w, i, off, n)
  {
    TenAt(w, i, off, j);
    if j == 0 {
      assert DataAt(w, i, off, n, 0) == Addr(w, i, SpanSlot(off, 0));
    } else if j < 9 {
      FilledSlotNew(v, w, i, off, n, if j < 5 then j - 1 else j - 5);
    }
  }

  /** The bound of a chunk is reached: an unaligned write over four blocks, past the direct ones, on a disk whose free
      blocks have their bits in different bitmap blocks, logs exactly MAXOPBLOCKS blocks. */
  lemma WriteLogTight(v: View, w: View, i: nat, off: nat, n: nat)
    requires Straddles(v, w, i, off, n) && FreeApart(v)
    ensures i < |v.ip| && i < |w.ip| && |WriteLog(v, w, i, off, n)| == LR.MAXOPBLOCKS
  {
    hide Extends, FreeApart, Ownership, WriteLog;
    WriteLogBound(v, w, i, off, n);
    TenLogged(v, w, i, off, n, 0);
    TenAt(w, i, off, 0);
    var q := TenBlocks(w, i, off);
    forall j, k | 0 <= j < k < |q| ensures q[j] != q[k] { TenApart(v, w, i, off, n, j, k); }
    var t := CardDistinct(q);
    forall x | x in t ensures x in WriteLog(v, w, i, off, n) {
      var j :| 0 <= j < |q| && q[j] == x;
      TenLogged(v, w, i, off, n, j);
    }
    CardSubset(t, WriteLog(v, w, i, off, n));
  }
}

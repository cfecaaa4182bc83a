/** When a write runs out of disk: the free blocks it needs against those there are. */
module FsSpace {
  import opened FsState
  import opened FsContent
  import opened FsGrow
  import opened Counting

  /** The empty slots of inode i that a write of n bytes at off has to fill. */
  ghost function Needed(v: View, i: nat, off: nat, n: nat): set<int>
    requires i < |v.ip|
  {
    set t | 0 <= t < SLOTS && Addr(v, i, t) == 0 && Needs(t, off, n)
  }

  function SlotAddr(w: View, i: nat): int -> int { (t: int) => if 0 <= t < SLOTS && i < |w.ip| then Addr(w, i, t) else 0 }

  /** Allocation for slot s found no free block. */
  ghost predicate Stuck(v: View, w: View, i: nat, s: nat) {
    && Ownership(w, {}) && Grown(v, w, i) && Full(w) && s < SLOTS && OnlyNew(v, w, i, s) && Addr(w, i, s) == 0
  }

  /** A write has filled some of the slots it needs, not slot t, and there is no free block left. */
  ghost predicate Short(v: View, w: View, i: nat, off: nat, n: nat, t: nat) {
    && Ownership(w, {}) && Grown(v, w, i) && Full(w) && NewWithin(v, w, i, off, n)
    && t < SLOTS && Needs(t, off, n) && Addr(w, i, t) == 0
  }

  lemma StuckIsShort(v: View, w: View, x: View, i: nat, off: nat, tot: nat, m: nat, n: nat)
    requires Grown(v, w, i) && NewWithin(v, w, i, off, tot) && Stuck(w, x, i, SlotOf(off / BSIZE + Span(off, tot)))
    requires Span(off, m) == Span(off, tot) + 1 && m <= n
    ensures Short(v, x, i, off, n, SlotOf(off / BSIZE + Span(off, tot)))
  {
    hide Ownership, Full;
    GrownTrans(v, w, x, i);
    forall t | 0 <= t < SLOTS && IsNew(v, x, i, t) ensures Needs(t, off, n) {
      if Addr(w, i, t) != 0 { assert IsNew(v, w, i, t); } else { assert IsNew(w, x, i, t); }
    }
  }

  /** Every block that is no longer free is in a slot that was filled. */
  lemma TakenIsNew(v: View, w: View, i: nat, b: nat) returns (t: nat)
    requires Ownership(v, {}) && Ownership(w, {}) && Grown(v, w, i) && b in FreeSet(v) && w.bitmap[b]
    ensures IsNew(v, w, i, t) && Addr(w, i, t) == b
  {
    assert b >= v.sb.datastart && Owned(w, b);
    var j, s :| OwnedBy(w, b, j, s);
    assert AddrOk(v, {}, j, s);
    t := s;
  }

  /** A write that runs short had fewer free blocks than it needed. */
  lemma ShortDisk(v: View, w: View, i: nat, off: nat, n: nat, t: nat)
    requires Ownership(v, {}) && Short(v, w, i, off, n, t)
    ensures i < |v.ip| && |FreeSet(v)| < |Needed(v, i, off, n)|
  {
    hide Ownership, Grown;
    GrownLength(v, w, i);
    assert Addr(v, i, t) == 0 by { GrownKeeps(v, w, i, t); }
    var some := Needed(v, i, off, n) - {t};
    var image := CardImage(some, SlotAddr(w, i));
    forall b | b in FreeSet(v) ensures b in image {
      GrownBits(v, w, i);
      var s := TakenIsNew(v, w, i, b);
      assert s in some && SlotAddr(w, i)(s) == b;
    }
    CardSubset(FreeSet(v), image);
    assert t in Needed(v, i, off, n);
  }

  lemma GrownKeeps(v: View, w: View, i: nat, t: nat)
    requires Grown(v, w, i) && t < SLOTS && Addr(w, i, t) == 0
    ensures i < |v.ip| && Addr(v, i, t) == 0
  {}

  lemma GrownBits(v: View, w: View, i: nat)
    requires Grown(v, w, i)
    ensures |w.bitmap| == |v.bitmap|
    ensures forall t :: 0 <= t < SLOTS && IsNew(v, w, i, t) ==> Addr(w, i, t) in FreeSet(v)
  {}

  /** A write that completes had a free block for every slot it needed. */
  lemma EnoughDisk(v: View, w: View, i: nat, off: nat, n: nat)
    requires Ownership(w, {}) && Grown(v, w, i) && Filled(w, i, off + n)
    ensures i < |v.ip| && |Needed(v, i, off, n)| <= |FreeSet(v)|
  {
    hide Ownership, Grown;
    GrownLength(v, w, i);
    GrownBits(v, w, i);
    var need := Needed(v, i, off, n);
    forall t: nat | t in need ensures IsNew(v, w, i, t) { NeededIsNew(v, w, i, off, n, t); }
    forall s, t | s in need && t in need && SlotAddr(w, i)(s) == SlotAddr(w, i)(t) ensures s == t {
      if s != t { BlocksApart(w, i, s, t); }
    }
    var image := CardInjection(need, SlotAddr(w, i));
    CardSubset(image, FreeSet(v));
  }

  lemma NeededIsNew(v: View, w: View, i: nat, off: nat, n: nat, t: nat)
    requires i < |v.ip| && i < |w.ip| && Filled(w, i, off + n) && t in Needed(v, i, off, n)
    ensures IsNew(v, w, i, t)
  {
    if t == NDIRECT {
      assert Addr(w, i, SlotOf(BlocksFor(off + n) - 1)) != 0;
      EntryNeedsIndirect(w, i, SlotOf(BlocksFor(off + n) - 1));
    } else {
      assert t == SlotOf(BnOf(t)) && Addr(w, i, SlotOf(BnOf(t))) != 0;
    }
  }
}

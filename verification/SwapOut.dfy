/** Swap-out (`swap_to_file` and the kfree of `free_page`): a resident page moves to a free slot
    of the swap file, and the frame it leaves goes back to the allocator. */
module SwapOut {
  import opened Ring
  import opened SwapState
  import opened SwapOps

  /** Entry i is the one get_offset picks: the first that is not taken. */
  predicate FirstFree(offsets: seq<int>, i: nat) {
    i < |offsets| && offsets[i] != TAKEN_OFFSET && forall j :: 0 <= j < i ==> offsets[j] == TAKEN_OFFSET
  }

  /** The swap file has no holes: the offset picked is at most the file's size, so the write is
      within the file or extends it by exactly one page; and it stays within the largest file,
      MAXFILE blocks of BSIZE bytes. */
  lemma NoHoles(pages: seq<Meta>, offsets: seq<int>, n: nat, i: nat)
    requires SlotsOk(pages, offsets, n) && FirstFree(offsets, i)
    ensures Slot(offsets[i], n + 1) && offsets[i] <= n * PGSIZE
    ensures offsets[i] + PGSIZE <= (12 + 128) * 512
    ensures offsets[i] == n * PGSIZE <==> i == n
  {
    if i < n {
      assert Slot(offsets[i], n);
    } else {
      assert offsets[n] == n * PGSIZE;
    }
  }

  /** A page-sized write to the swap file at a page boundary. */
  function PutPage(file: seq<Page>, o: int, x: Page): (r: seq<Page>)
    requires Slot(o, |file| + 1)
    ensures |r| == if o == |file| * PGSIZE then |file| + 1 else |file|
    ensures o / PGSIZE < |r| && r[o / PGSIZE] == x
    ensures forall k :: 0 <= k < |file| && k != o / PGSIZE ==> r[k] == file[k]
  {
    if o / PGSIZE == |file| then file + [x] else file[o / PGSIZE := x]
  }

  /** The page is resident and may be written to slot entry i. */
  ghost predicate CanGoOut(s: View, ind: nat, i: nat) {
    Ok(s) && ind < |s.pages| && Resident(s.pages[ind]) && FirstFree(s.offsets, i)
  }

  /** Swap-out, except for the ring. */
  function CoreOut(s: View, ind: nat, i: nat): View
    requires ind < |s.pages| && s.pages[ind].va in s.pgdir && i < |s.offsets| && Slot(s.offsets[i], |s.file| + 1)
    requires s.pgdir[s.pages[ind].va].frame in s.frames
  {
    var m, o := s.pages[ind], s.offsets[i];
    var pte := s.pgdir[m.va];
    s.(pages := s.pages[ind := m.(offset := o, onPhys := false)],
       pgdir := s.pgdir[m.va := pte.(present := false, paged := true)],
       offsets := s.offsets[i := TAKEN_OFFSET],
       file := PutPage(s.file, o, s.frames[pte.frame]))
  }

  lemma OutPre(s: View, ind: nat, i: nat)
    requires CanGoOut(s, ind, i)
    ensures s.pages[ind].va in s.pgdir && i < |s.offsets| && Slot(s.offsets[i], |s.file| + 1)
    ensures s.pgdir[s.pages[ind].va].frame in s.frames && MetaOkAt(s, ind)
    ensures i < |s.file| ==> Slot(s.offsets[i], |s.file|)
    ensures !SlotUsed(s.pages, s.offsets[i])
  {
    assert MetaOkAt(s, ind);
    NoHoles(s.pages, s.offsets, |s.file|, i);
  }

  lemma OutMeta(s: View, ind: nat, i: nat)
    requires CanGoOut(s, ind, i)
    requires s.pages[ind].va in s.pgdir && Slot(s.offsets[i], |s.file| + 1) && s.pgdir[s.pages[ind].va].frame in s.frames
    ensures MetaOk(CoreOut(s, ind, i)) && SameContents(s, CoreOut(s, ind, i))
  {
    OutPre(s, ind, i);
    var t, o := CoreOut(s, ind, i), s.offsets[i];
    forall j | 0 <= j < |s.pages| ensures MetaOkAt(t, j) {
      assert MetaOkAt(s, j);
      if j != ind { assert ApartAt(s, j, ind); }
    }
    forall j | 0 <= j < MAX_TOTAL_PAGES ensures SameAt(s, t, j) {
      assert MetaOkAt(s, j) && MetaOkAt(t, j);
      if j != ind {
        assert ApartAt(s, j, ind);
        if Swapped(s.pages[j]) { assert s.pages[j].offset != o; SlotIndex(s.pages[j].offset, o); }
      }
    }
  }

  /** Different slots are different pages of the file. */
  lemma SlotIndex(a: int, b: int)
    requires a >= 0 && b >= 0 && a % PGSIZE == 0 && b % PGSIZE == 0 && a != b
    ensures a / PGSIZE != b / PGSIZE
  {}

  lemma OutApart(s: View, ind: nat, i: nat)
    requires CanGoOut(s, ind, i)
    requires s.pages[ind].va in s.pgdir && Slot(s.offsets[i], |s.file| + 1) && s.pgdir[s.pages[ind].va].frame in s.frames
    ensures Apart(CoreOut(s, ind, i)) && Tracked(CoreOut(s, ind, i))
  {
    OutPre(s, ind, i);
    var t, o := CoreOut(s, ind, i), s.offsets[i];
    forall j, k | 0 <= j < |s.pages| && 0 <= k < |s.pages| && j != k ensures ApartAt(t, j, k) {
      assert ApartAt(s, j, k) && MetaOkAt(s, j) && MetaOkAt(s, k);
    }
    forall v | v in t.pgdir && (t.pgdir[v].present || t.pgdir[v].paged) ensures HasMeta(t.pages, v) {
      if v == s.pages[ind].va {
        assert t.pages[ind].taken && t.pages[ind].va == v;
      } else {
        var j :| 0 <= j < |s.pages| && s.pages[j].taken && s.pages[j].va == v;
        assert t.pages[j].taken && t.pages[j].va == v;
      }
    }
  }

  lemma OutSlots(s: View, ind: nat, i: nat)
    requires CanGoOut(s, ind, i)
    requires s.pages[ind].va in s.pgdir && Slot(s.offsets[i], |s.file| + 1) && s.pgdir[s.pages[ind].va].frame in s.frames
    ensures var t := CoreOut(s, ind, i); SlotsOk(t.pages, t.offsets, |t.file|)
  {
    OutPre(s, ind, i);
    NoHoles(s.pages, s.offsets, |s.file|, i);
    var t, o := CoreOut(s, ind, i), s.offsets[i];
    forall e, j | 0 <= e < MAX_SWAP_FILE_SZ && 0 <= j < |t.pages| && Swapped(t.pages[j]) ensures t.offsets[e] != t.pages[j].offset {
      assert MetaOkAt(s, j);
    }
    forall k | 0 <= k < MAX_SWAP_FILE_SZ ensures SlotUsed(t.pages, k * PGSIZE) || k * PGSIZE in t.offsets {
      if k * PGSIZE == o {
        assert Swapped(t.pages[ind]) && t.pages[ind].offset == k * PGSIZE;
      } else if SlotUsed(s.pages, k * PGSIZE) {
        var j :| 0 <= j < |s.pages| && Swapped(s.pages[j]) && s.pages[j].offset == k * PGSIZE;
        assert Swapped(t.pages[j]) && t.pages[j].offset == k * PGSIZE;
      } else {
        var e :| 0 <= e < |s.offsets| && s.offsets[e] == k * PGSIZE;
        assert t.offsets[e] == k * PGSIZE;
      }
    }
  }

  predicate OutDefined(s: View, ind: nat, i: nat, k: nat) {
    && ind < |s.pages| && s.pages[ind].va in s.pgdir && i < |s.offsets| && Slot(s.offsets[i], |s.file| + 1)
    && s.pgdir[s.pages[ind].va].frame in s.frames
    && LinksInRange(s.pages, ind) && k < |s.order|
  }

  /** swap_to_file on entry ind, the k-th of the ring, through slot entry i. */
  function SwappedOut(s: View, ind: nat, i: nat, k: nat): View
    requires OutDefined(s, ind, i, k)
  {
    var c := CoreOut(s, ind, i);
    var q := Unlinked(c.pages, ind);
    c.(pages := if s.headp == ind then q[ind := q[ind].(nextp := -1, prevp := -1)] else q,
       headp := if s.headp != ind then s.headp else if q[ind].nextp == ind then -1 else q[ind].nextp,
       order := Without(s.order, k), phys := s.phys - 1)
  }

  lemma RingRange(s: View, k: nat)
    requires RingOk(s.pages, s.order, s.headp) && k < |s.order|
    ensures LinksInRange(s.pages, s.order[k])
  {}

  lemma OutRing(s: View, ind: nat, i: nat, k: nat)
    requires CanGoOut(s, ind, i) && k < |s.order| && s.order[k] == ind
    requires s.pages[ind].va in s.pgdir && Slot(s.offsets[i], |s.file| + 1) && s.pgdir[s.pages[ind].va].frame in s.frames
    requires LinksInRange(s.pages, ind)
    ensures var t := SwappedOut(s, ind, i, k); RingOk(t.pages, t.order, t.headp)
    ensures SameCores(CoreOut(s, ind, i).pages, SwappedOut(s, ind, i, k).pages)
  {
    hide IsRing, MetaOk, Apart, Tracked, SlotsOk;
    var c := CoreOut(s, ind, i);
    assert Nexts(c.pages) == Nexts(s.pages) && Prevs(c.pages) == Prevs(s.pages);
    RingDrop(s.pages, s.order, s.headp, k, c.pages);
    UnlinkedLinks(c.pages, ind);
    var q := Unlinked(c.pages, ind);
    SingleLink(c.pages, ind);
    if s.headp == ind {
      RingFacts(Nexts(s.pages), Prevs(s.pages), s.order, k);
      RingIgnores(Nexts(q), Prevs(q), Without(s.order, k), ind, -1, -1);
      var q' := q[ind := q[ind].(nextp := -1, prevp := -1)];
      assert Nexts(q') == Nexts(q)[ind := -1] && Prevs(q') == Prevs(q)[ind := -1];
    }
  }

  /** Unlinking does not change the entry's own next pointer, except to itself. */
  lemma SingleLink(pages: seq<Meta>, ind: int)
    requires LinksInRange(pages, ind)
    ensures Unlinked(pages, ind)[ind].nextp == pages[ind].nextp
  {}

  /** Swap-out keeps the state well formed and every page's contents. */
  lemma OutOk(s: View, ind: nat, i: nat, k: nat)
    requires CanGoOut(s, ind, i) && k < |s.order| && s.order[k] == ind
    ensures OutDefined(s, ind, i, k)
    ensures Ok(SwappedOut(s, ind, i, k)) && Space(SwappedOut(s, ind, i, k)) == Space(s)
    ensures Owned(SwappedOut(s, ind, i, k)) == Owned(s) - {s.pgdir[s.pages[ind].va].frame}
  {
    hide MetaOk, Apart, Tracked, SlotsOk, RingOk, SameContents;
    OutPre(s, ind, i);
    RingRange(s, k);
    OutMeta(s, ind, i);
    OutApart(s, ind, i);
    OutSlots(s, ind, i);
    OutRing(s, ind, i, k);
    var c, t := CoreOut(s, ind, i), SwappedOut(s, ind, i, k);
    CoreOnly(c, t.pages);
    SameSpace(s, c);
    SameSpace(c, c.(pages := t.pages));
    RingFieldsOnly(c.(pages := t.pages), t);
    OutOwned(s, ind, i);
  }

  /** headp, order and phys say nothing about metadata, slots or contents. */
  lemma RingFieldsOnly(c: View, t: View)
    requires MetaOk(c) && t == c.(headp := t.headp, order := t.order, phys := t.phys)
    ensures MetaOk(t) && Space(t) == Space(c) && Owned(t) == Owned(c)
    ensures Apart(c) ==> Apart(t)
    ensures Tracked(c) ==> Tracked(t)
  {
    forall i | 0 <= i < |c.pages| ensures MetaOkAt(t, i) { assert MetaOkAt(c, i); }
    if Apart(c) {
      forall i, j | 0 <= i < |c.pages| && 0 <= j < |c.pages| && i != j ensures ApartAt(t, i, j) { assert ApartAt(c, i, j); }
    }
    forall i | 0 <= i < MAX_TOTAL_PAGES ensures SameAt(c, t, i) { assert MetaOkAt(c, i) && MetaOkAt(t, i); }
    SameSpace(c, t);
  }

  lemma OutOwned(s: View, ind: nat, i: nat)
    requires CanGoOut(s, ind, i)
    requires s.pages[ind].va in s.pgdir && Slot(s.offsets[i], |s.file| + 1) && s.pgdir[s.pages[ind].va].frame in s.frames
    requires MetaOk(CoreOut(s, ind, i))
    ensures Owned(CoreOut(s, ind, i)) == Owned(s) - {s.pgdir[s.pages[ind].va].frame}
  {
    hide Apart, Tracked, SlotsOk, RingOk;
    var t, g := CoreOut(s, ind, i), s.pgdir[s.pages[ind].va].frame;
    forall f ensures f in Owned(t) <==> f in Owned(s) && f != g {
      if f in Owned(s) && f != g { OutKeepsFrame(s, ind, i, f); }
      if f in Owned(t) { OutHadFrame(s, ind, i, f); }
    }
  }

  lemma OutKeepsFrame(s: View, ind: nat, i: nat, f: nat)
    requires CanGoOut(s, ind, i)
    requires s.pages[ind].va in s.pgdir && Slot(s.offsets[i], |s.file| + 1) && s.pgdir[s.pages[ind].va].frame in s.frames
    requires MetaOk(CoreOut(s, ind, i)) && f in Owned(s) && f != s.pgdir[s.pages[ind].va].frame
    ensures f in Owned(CoreOut(s, ind, i))
  {
    var t := CoreOut(s, ind, i);
    var j :| 0 <= j < |s.pages| && MetaOkAt(s, j) && Resident(s.pages[j]) && f == s.pgdir[s.pages[j].va].frame;
    assert ApartAt(s, j, ind) && MetaOkAt(t, j);
  }

  lemma OutHadFrame(s: View, ind: nat, i: nat, f: nat)
    requires CanGoOut(s, ind, i)
    requires s.pages[ind].va in s.pgdir && Slot(s.offsets[i], |s.file| + 1) && s.pgdir[s.pages[ind].va].frame in s.frames
    requires MetaOk(CoreOut(s, ind, i)) && f in Owned(CoreOut(s, ind, i))
    ensures f in Owned(s) && f != s.pgdir[s.pages[ind].va].frame
  {
    var t := CoreOut(s, ind, i);
    var j :| 0 <= j < |t.pages| && MetaOkAt(t, j) && Resident(t.pages[j]) && f == t.pgdir[t.pages[j].va].frame;
    assert ApartAt(s, j, ind) && MetaOkAt(s, j) && MetaOkAt(s, ind);
  }

  // ---- kfree ----

  /** kfree fills the frame with junk and gives it back. */
  function FrameFreed(s: View, f: nat, junk: Page): View {
    s.(frames := s.frames[f := junk], free := s.free + {f})
  }

  lemma FrameFreedOk(s: View, f: nat, junk: Page)
    requires Ok(s) && f !in Owned(s)
    ensures Ok(FrameFreed(s, f, junk)) && Space(FrameFreed(s, f, junk)) == Space(s) && Owned(FrameFreed(s, f, junk)) == Owned(s)
  {
    var t := FrameFreed(s, f, junk);
    forall i | 0 <= i < |s.pages| ensures MetaOkAt(t, i) {
      assert MetaOkAt(s, i);
      if Resident(s.pages[i]) { assert s.pgdir[s.pages[i].va].frame in Owned(s); }
    }
    forall i, j | 0 <= i < |s.pages| && 0 <= j < |s.pages| && i != j ensures ApartAt(t, i, j) { assert ApartAt(s, i, j); }
    forall i | 0 <= i < MAX_TOTAL_PAGES ensures SameAt(s, t, i) {
      assert MetaOkAt(s, i) && MetaOkAt(t, i);
      if Resident(s.pages[i]) { assert s.pgdir[s.pages[i].va].frame in Owned(s); }
    }
    SameSpace(s, t);
    assert Owned(t) == Owned(s);
  }
}

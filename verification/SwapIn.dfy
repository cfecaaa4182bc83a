/** Swap-in (`handle_pgflt` and `swap_from_file`): a swapped page comes back into a fresh frame,
    its slot becomes free again, and it joins the ring at the tail. */
module SwapIn {
  import opened Ring
  import opened SwapState
  import opened SwapOps
  import opened SwapOut

  /** Entry e is the one free_offset fills: the first that is taken. */
  predicate FirstTaken(offsets: seq<int>, e: nat) {
    e < |offsets| && offsets[e] == TAKEN_OFFSET && forall j :: 0 <= j < e ==> offsets[j] != TAKEN_OFFSET
  }

  /** The page is swapped out, frame f is to be had, and e will take back its slot. */
  ghost predicate CanComeIn(s: View, ind: nat, f: nat, e: nat) {
    Ok(s) && ind < |s.pages| && Swapped(s.pages[ind]) && f in s.free && f in s.frames && FirstTaken(s.offsets, e)
  }

  /** Swap-in, except for the ring. */
  function CoreIn(s: View, ind: nat, f: nat, e: nat): View
    requires ind < |s.pages| && Slot(s.pages[ind].offset, |s.file|) && e < |s.offsets|
  {
    var m := s.pages[ind];
    s.(pages := s.pages[ind := m.(offset := -1, onPhys := true)],
       pgdir := s.pgdir[m.va := Pte(true, false, false, f)],
       frames := s.frames[f := s.file[m.offset / PGSIZE]], free := s.free - {f},
       offsets := s.offsets[e := m.offset])
  }

  lemma InPre(s: View, ind: nat, f: nat, e: nat)
    requires CanComeIn(s, ind, f, e)
    ensures MetaOkAt(s, ind) && Slot(s.pages[ind].offset, |s.file|) && e < |s.offsets| && e < |s.file|
    ensures s.pages[ind].va in s.pgdir && f !in Owned(s)
  {
    assert MetaOkAt(s, ind);
  }

  lemma InMeta(s: View, ind: nat, f: nat, e: nat)
    requires CanComeIn(s, ind, f, e) && Slot(s.pages[ind].offset, |s.file|)
    ensures MetaOk(CoreIn(s, ind, f, e)) && SameContents(s, CoreIn(s, ind, f, e))
  {
    InPre(s, ind, f, e);
    var t := CoreIn(s, ind, f, e);
    forall j | 0 <= j < |s.pages| ensures MetaOkAt(t, j) {
      assert MetaOkAt(s, j);
      if j != ind { assert ApartAt(s, j, ind); }
    }
    forall j | 0 <= j < MAX_TOTAL_PAGES ensures SameAt(s, t, j) {
      assert MetaOkAt(s, j) && MetaOkAt(t, j);
      if j != ind { assert ApartAt(s, j, ind); }
    }
  }

  lemma InApart(s: View, ind: nat, f: nat, e: nat)
    requires CanComeIn(s, ind, f, e) && Slot(s.pages[ind].offset, |s.file|)
    ensures Apart(CoreIn(s, ind, f, e)) && Tracked(CoreIn(s, ind, f, e))
  {
    InPre(s, ind, f, e);
    var t := CoreIn(s, ind, f, e);
    forall j, k | 0 <= j < |s.pages| && 0 <= k < |s.pages| && j != k ensures ApartAt(t, j, k) {
      assert ApartAt(s, j, k) && MetaOkAt(s, j) && MetaOkAt(s, k);
    }
    forall v | v in t.pgdir && (t.pgdir[v].present || t.pgdir[v].paged) ensures HasMeta(t.pages, v) {
      if v == s.pages[ind].va {
        assert t.pages[ind].taken && t.pages[ind].va == v;
      } else {
        var j :| 0 <= j < |s.pages| && s.pages[j].taken && s.pages[j].va == v;
        assert t.pages[j].taken && t.pages[j].va == v;
      }
    }
  }

  /** Giving a swapped page's slot back to the table. */
  lemma SlotReturned(s: View, pages': seq<Meta>, ind: nat, e: nat)
    requires Ok(s) && ind < |s.pages| && Swapped(s.pages[ind]) && FirstTaken(s.offsets, e)
    requires |pages'| == |s.pages| && !Swapped(pages'[ind])
    requires forall j :: 0 <= j < |pages'| && j != ind ==> pages'[j] == s.pages[j]
    ensures SlotsOk(pages', s.offsets[e := s.pages[ind].offset], |s.file|)
  {
    var o := s.pages[ind].offset;
    var offsets := s.offsets[e := o];
    assert MetaOkAt(s, ind);
    assert e < |s.file|;
    forall i, j | 0 <= i < MAX_SWAP_FILE_SZ && 0 <= j < |pages'| && Swapped(pages'[j]) ensures offsets[i] != pages'[j].offset {
      assert ApartAt(s, j, ind);
    }
    forall k | 0 <= k < MAX_SWAP_FILE_SZ ensures SlotUsed(pages', k * PGSIZE) || k * PGSIZE in offsets {
      if k * PGSIZE == o {
        assert offsets[e] == k * PGSIZE;
      } else if SlotUsed(s.pages, k * PGSIZE) {
        var j :| 0 <= j < |s.pages| && Swapped(s.pages[j]) && s.pages[j].offset == k * PGSIZE;
        assert pages'[j] == s.pages[j];
      } else {
        var i :| 0 <= i < |s.offsets| && s.offsets[i] == k * PGSIZE;
        assert offsets[i] == k * PGSIZE;
      }
    }
  }

  /** swap_from_file for entry ind, into frame f, its slot going to entry e. */
  function SwappedIn(s: View, ind: nat, f: nat, e: nat): View
    requires ind < |s.pages| && Slot(s.pages[ind].offset, |s.file|) && e < |s.offsets|
    requires LinksInRange(s.pages, s.headp) && ind != s.headp
  {
    var c := CoreIn(s, ind, f, e);
    c.(pages := LinkedLast(c.pages, ind, s.headp), order := s.order + [ind], phys := s.phys + 1)
  }

  lemma InRing(s: View, ind: nat, f: nat, e: nat)
    requires CanComeIn(s, ind, f, e) && s.order != [] && Slot(s.pages[ind].offset, |s.file|)
    ensures LinksInRange(s.pages, s.headp) && ind != s.headp
    ensures var t := SwappedIn(s, ind, f, e);
      RingOk(t.pages, t.order, t.headp) && SameCores(CoreIn(s, ind, f, e).pages, t.pages)
  {
    hide IsRing, MetaOk, Apart, Tracked, SlotsOk;
    var c := CoreIn(s, ind, f, e);
    assert Nexts(c.pages) == Nexts(s.pages) && Prevs(c.pages) == Prevs(s.pages);
    RingAdd(s.pages, s.order, s.headp, ind, c.pages);
    LinkedLinks(c.pages, ind, s.headp);
  }

  lemma InOwned(s: View, ind: nat, f: nat, e: nat)
    requires CanComeIn(s, ind, f, e) && Slot(s.pages[ind].offset, |s.file|) && MetaOk(CoreIn(s, ind, f, e))
    ensures Owned(CoreIn(s, ind, f, e)) == Owned(s) + {f}
  {
    var t := CoreIn(s, ind, f, e);
    forall g ensures g in Owned(t) <==> g in Owned(s) || g == f {
      if g in Owned(s) {
        var j :| 0 <= j < |s.pages| && MetaOkAt(s, j) && Resident(s.pages[j]) && g == s.pgdir[s.pages[j].va].frame;
        assert ApartAt(s, j, ind) && MetaOkAt(t, j) && MetaOkAt(s, ind);
      }
      if g == f { assert MetaOkAt(t, ind) && Resident(t.pages[ind]); }
      if g in Owned(t) {
        var j :| 0 <= j < |t.pages| && MetaOkAt(t, j) && Resident(t.pages[j]) && g == t.pgdir[t.pages[j].va].frame;
        if j != ind { assert ApartAt(s, j, ind) && MetaOkAt(s, j) && MetaOkAt(s, ind); }
      }
    }
  }

  /** Swap-in keeps the state well formed and every page's contents. */
  lemma InOk(s: View, ind: nat, f: nat, e: nat)
    requires CanComeIn(s, ind, f, e) && s.order != []
    ensures Slot(s.pages[ind].offset, |s.file|) && LinksInRange(s.pages, s.headp) && ind != s.headp
    ensures Ok(SwappedIn(s, ind, f, e)) && Space(SwappedIn(s, ind, f, e)) == Space(s)
    ensures Owned(SwappedIn(s, ind, f, e)) == Owned(s) + {f}
  {
    hide MetaOk, Apart, Tracked, SlotsOk, RingOk, SameContents;
    InPre(s, ind, f, e);
    InMeta(s, ind, f, e);
    InApart(s, ind, f, e);
    var c := CoreIn(s, ind, f, e);
    SlotReturned(s, c.pages, ind, e);
    InRing(s, ind, f, e);
    var t := SwappedIn(s, ind, f, e);
    CoreOnly(c, t.pages);
    SameSpace(s, c);
    SameSpace(c, c.(pages := t.pages));
    RingFieldsOnly(c.(pages := t.pages), t);
    InOwned(s, ind, f, e);
  }
}

/** Pages entering and leaving the tracked set (`add_page`, `remove_page`, with the mapping done
    around them by `allocuvm` and `deallocuvm`). */
module SwapTrack {
  import opened Ring
  import opened SwapState
  import opened SwapOps
  import opened SwapOut
  import opened SwapIn

  predicate Unmapped(pgdir: map<nat, Pte>, v: nat) {
    v in pgdir ==> !pgdir[v].present && !pgdir[v].paged
  }

  // ---- Adding ----

  ghost predicate CanAdd(s: View, ind: nat, v: nat, f: nat) {
    Ok(s) && ind < |s.pages| && !s.pages[ind].taken && Unmapped(s.pgdir, v) && f in s.free && f in s.frames
  }

  /** A zeroed frame mapped at v and recorded in entry ind, except for the ring. */
  function CoreAdd(s: View, ind: nat, v: nat, f: nat, zero: Page): View
    requires ind < |s.pages|
  {
    s.(pages := s.pages[ind := s.pages[ind].(pte := PteRef(s.dir, v), va := v, taken := true, onPhys := true)],
       pgdir := s.pgdir[v := Pte(true, false, false, f)],
       frames := s.frames[f := zero], free := s.free - {f})
  }

  /** An unmapped page is not tracked. */
  lemma UnmappedUntracked(s: View, v: nat, j: nat)
    requires MetaOk(s) && Unmapped(s.pgdir, v) && j < |s.pages| && s.pages[j].taken
    ensures s.pages[j].va != v
  {
    assert MetaOkAt(s, j);
  }

  lemma AddMeta(s: View, ind: nat, v: nat, f: nat, zero: Page)
    requires CanAdd(s, ind, v, f)
    ensures MetaOk(CoreAdd(s, ind, v, f, zero)) && Apart(CoreAdd(s, ind, v, f, zero))
  {
    var t := CoreAdd(s, ind, v, f, zero);
    forall j | 0 <= j < |s.pages| ensures MetaOkAt(t, j) {
      assert MetaOkAt(s, j);
      if s.pages[j].taken { UnmappedUntracked(s, v, j); }
    }
    forall j, k | 0 <= j < |s.pages| && 0 <= k < |s.pages| && j != k ensures ApartAt(t, j, k) {
      assert ApartAt(s, j, k) && MetaOkAt(s, j) && MetaOkAt(s, k);
      if s.pages[j].taken { UnmappedUntracked(s, v, j); }
      if s.pages[k].taken { UnmappedUntracked(s, v, k); }
    }
  }

  lemma AddTracked(s: View, ind: nat, v: nat, f: nat, zero: Page)
    requires CanAdd(s, ind, v, f)
    ensures var t := CoreAdd(s, ind, v, f, zero); Tracked(t) && SlotsOk(t.pages, t.offsets, |t.file|)
  {
    var t := CoreAdd(s, ind, v, f, zero);
    forall w | w in t.pgdir && (t.pgdir[w].present || t.pgdir[w].paged) ensures HasMeta(t.pages, w) {
      if w == v {
        assert t.pages[ind].taken && t.pages[ind].va == w;
      } else {
        var j :| 0 <= j < |s.pages| && s.pages[j].taken && s.pages[j].va == w;
        assert t.pages[j] == s.pages[j];
      }
    }
    forall k | 0 <= k < MAX_SWAP_FILE_SZ && SlotUsed(s.pages, k * PGSIZE) ensures SlotUsed(t.pages, k * PGSIZE) {
      var j :| 0 <= j < |s.pages| && Swapped(s.pages[j]) && s.pages[j].offset == k * PGSIZE;
      assert t.pages[j] == s.pages[j];
    }
  }

  lemma AddSpace(s: View, ind: nat, v: nat, f: nat, zero: Page)
    requires CanAdd(s, ind, v, f) && MetaOk(CoreAdd(s, ind, v, f, zero))
    ensures Space(CoreAdd(s, ind, v, f, zero)) == Space(s) + {(v, zero)}
  {
    var t := CoreAdd(s, ind, v, f, zero);
    forall j | 0 <= j < |s.pages| && s.pages[j].taken ensures MetaOkAt(t, j) && MetaOkAt(s, j) && ContentAt(t, j) == ContentAt(s, j) {
      assert MetaOkAt(s, j) && MetaOkAt(t, j);
      UnmappedUntracked(s, v, j);
    }
    assert MetaOkAt(t, ind) && ContentAt(t, ind) == zero;
    forall x ensures x in Space(t) <==> x in Space(s) || x == (v, zero) {
      if x in Space(s) {
        var i :| 0 <= i < |s.pages| && s.pages[i].taken && x == (s.pages[i].va, ContentAt(s, i));
        assert t.pages[i].taken && x == (t.pages[i].va, ContentAt(t, i));
      }
      if x == (v, zero) { assert t.pages[ind].taken && x == (t.pages[ind].va, ContentAt(t, ind)); }
      if x in Space(t) {
        var i :| 0 <= i < |t.pages| && t.pages[i].taken && x == (t.pages[i].va, ContentAt(t, i));
        if i != ind { assert s.pages[i].taken && x == (s.pages[i].va, ContentAt(s, i)); }
      }
    }
  }

  lemma AddOwned(s: View, ind: nat, v: nat, f: nat, zero: Page)
    requires CanAdd(s, ind, v, f) && MetaOk(CoreAdd(s, ind, v, f, zero))
    ensures Owned(CoreAdd(s, ind, v, f, zero)) == Owned(s) + {f}
  {
    var t := CoreAdd(s, ind, v, f, zero);
    forall g ensures g in Owned(t) <==> g in Owned(s) || g == f {
      if g in Owned(s) {
        var j :| 0 <= j < |s.pages| && MetaOkAt(s, j) && Resident(s.pages[j]) && g == s.pgdir[s.pages[j].va].frame;
        UnmappedUntracked(s, v, j);
        assert MetaOkAt(t, j);
      }
      if g == f { assert MetaOkAt(t, ind) && Resident(t.pages[ind]); }
      if g in Owned(t) {
        var j :| 0 <= j < |t.pages| && MetaOkAt(t, j) && Resident(t.pages[j]) && g == t.pgdir[t.pages[j].va].frame;
        if j != ind { assert MetaOkAt(s, j); UnmappedUntracked(s, v, j); }
      }
    }
  }

  /** add_page: the first entry of an empty ring links to itself, later ones go to the tail. */
  function Added(s: View, ind: nat, v: nat, f: nat, zero: Page): View
    requires ind < |s.pages| && (s.headp != -1 ==> LinksInRange(s.pages, s.headp) && ind != s.headp)
  {
    var c := CoreAdd(s, ind, v, f, zero);
    if s.headp == -1 then
      c.(pages := c.pages[ind := c.pages[ind].(nextp := ind, prevp := ind)], headp := ind, order := [ind], phys := s.phys + 1)
    else
      c.(pages := LinkedLast(c.pages, ind, s.headp), order := s.order + [ind], phys := s.phys + 1)
  }

  lemma AddRing(s: View, ind: nat, v: nat, f: nat, zero: Page)
    requires CanAdd(s, ind, v, f)
    ensures s.headp != -1 ==> LinksInRange(s.pages, s.headp) && ind != s.headp
    ensures var t := Added(s, ind, v, f, zero);
      && RingOk(t.pages, t.order, t.headp) && t.phys == |t.order|
      && SameCores(CoreAdd(s, ind, v, f, zero).pages, t.pages)
  {
    if s.order == [] { AddRingFirst(s, ind, v, f, zero); } else { AddRingLast(s, ind, v, f, zero); }
  }

  lemma AddRingFirst(s: View, ind: nat, v: nat, f: nat, zero: Page)
    requires CanAdd(s, ind, v, f) && s.order == []
    ensures s.headp == -1
    ensures var t := Added(s, ind, v, f, zero);
      && RingOk(t.pages, t.order, t.headp) && t.phys == |t.order|
      && SameCores(CoreAdd(s, ind, v, f, zero).pages, t.pages)
  {
    hide MetaOk, Apart, Tracked, SlotsOk;
    var c := CoreAdd(s, ind, v, f, zero);
    LinkFirst(Nexts(c.pages), Prevs(c.pages), ind);
    var q := c.pages[ind := c.pages[ind].(nextp := ind, prevp := ind)];
    assert Nexts(q) == Nexts(c.pages)[ind := ind] && Prevs(q) == Prevs(c.pages)[ind := ind];
  }

  lemma RingUse(pages: seq<Meta>, order: seq<int>, headp: int, i: nat)
    requires RingOk(pages, order, headp) && order != []
    ensures headp == order[0] != -1 && 0 <= headp < |pages| && LinksInRange(pages, headp)
    ensures i < |pages| && !Resident(pages[i]) ==> i !in order && i != headp
  {
    assert order[0] in order;
    RingHead(Nexts(pages), Prevs(pages), order);
  }

  lemma SameLinksInRange(pages: seq<Meta>, pages': seq<Meta>, h: int)
    requires LinksInRange(pages, h) && Nexts(pages') == Nexts(pages) && Prevs(pages') == Prevs(pages)
    ensures LinksInRange(pages', h)
  {
    assert Nexts(pages')[h] == Nexts(pages)[h] && Prevs(pages')[h] == Prevs(pages)[h];
  }

  lemma AddRingLast(s: View, ind: nat, v: nat, f: nat, zero: Page)
    requires CanAdd(s, ind, v, f) && s.order != []
    ensures s.headp != -1 && LinksInRange(s.pages, s.headp) && ind != s.headp
    ensures var t := Added(s, ind, v, f, zero);
      && RingOk(t.pages, t.order, t.headp) && t.phys == |t.order|
      && SameCores(CoreAdd(s, ind, v, f, zero).pages, t.pages)
  {
    hide MetaOk, Apart, Tracked, SlotsOk, RingOk, SameCores, LinkedLast;
    var c := CoreAdd(s, ind, v, f, zero);
    assert Nexts(c.pages) == Nexts(s.pages) && Prevs(c.pages) == Prevs(s.pages);
    RingUse(s.pages, s.order, s.headp, ind);
    SameLinksInRange(s.pages, c.pages, s.headp);
    RingAdd(s.pages, s.order, s.headp, ind, c.pages);
    LinkedLinks(c.pages, ind, s.headp);
  }

  /** Adding a page adds exactly that page to the address space. */
  lemma AddOk(s: View, ind: nat, v: nat, f: nat, zero: Page)
    requires CanAdd(s, ind, v, f)
    ensures s.headp != -1 ==> LinksInRange(s.pages, s.headp) && ind != s.headp
    ensures var t := Added(s, ind, v, f, zero);
      Ok(t) && Space(t) == Space(s) + {(v, zero)} && Owned(t) == Owned(s) + {f}
  {
    hide MetaOk, Apart, Tracked, SlotsOk, RingOk, SameContents;
    AddMeta(s, ind, v, f, zero);
    AddTracked(s, ind, v, f, zero);
    AddRing(s, ind, v, f, zero);
    var c, t := CoreAdd(s, ind, v, f, zero), Added(s, ind, v, f, zero);
    CoreOnly(c, t.pages);
    SameSpace(c, c.(pages := t.pages));
    RingFieldsOnly(c.(pages := t.pages), t);
    AddSpace(s, ind, v, f, zero);
    AddOwned(s, ind, v, f, zero);
  }

  // ---- Removing ----

  /** Entry ind cleared and its page-table entry zeroed, except for slot, frame and ring. */
  function CoreRemove(s: View, ind: nat): View
    requires ind < |s.pages|
  {
    var m := s.pages[ind];
    s.(pages := s.pages[ind := m.(pte := PteRef(0, 0), taken := false, onPhys := false, offset := -1)],
       pgdir := s.pgdir[m.va := Pte(false, false, false, 0)])
  }

  /** The address space without page v. */
  ghost function Minus(sp: set<(nat, Page)>, v: nat): set<(nat, Page)> {
    set x | x in sp && x.0 != v
  }

  lemma RemoveMeta(s: View, ind: nat)
    requires MetaOk(s) && Apart(s) && Tracked(s) && ind < |s.pages| && s.pages[ind].taken
    ensures var t := CoreRemove(s, ind); MetaOk(t) && Apart(t) && Tracked(t)
  {
    var t := CoreRemove(s, ind);
    forall j | 0 <= j < |s.pages| ensures MetaOkAt(t, j) {
      assert MetaOkAt(s, j);
      if j != ind { assert ApartAt(s, j, ind); }
    }
    forall j, k | 0 <= j < |s.pages| && 0 <= k < |s.pages| && j != k ensures ApartAt(t, j, k) {
      assert ApartAt(s, j, k) && MetaOkAt(s, j) && MetaOkAt(s, k);
      if j != ind { assert ApartAt(s, j, ind); }
      if k != ind { assert ApartAt(s, k, ind); }
    }
    forall v | v in t.pgdir && (t.pgdir[v].present || t.pgdir[v].paged) ensures HasMeta(t.pages, v) {
      var j :| 0 <= j < |s.pages| && s.pages[j].taken && s.pages[j].va == v;
      assert j != ind && t.pages[j] == s.pages[j];
    }
  }

  lemma RemoveSpace(s: View, ind: nat)
    requires MetaOk(s) && Apart(s) && ind < |s.pages| && s.pages[ind].taken && MetaOk(CoreRemove(s, ind))
    ensures Space(CoreRemove(s, ind)) == Minus(Space(s), s.pages[ind].va)
  {
    var t := CoreRemove(s, ind);
    forall j | 0 <= j < |s.pages| && j != ind && s.pages[j].taken
      ensures MetaOkAt(t, j) && MetaOkAt(s, j) && ContentAt(t, j) == ContentAt(s, j) && s.pages[j].va != s.pages[ind].va
    {
      assert MetaOkAt(s, j) && MetaOkAt(t, j) && ApartAt(s, j, ind);
    }
    forall x ensures x in Space(t) <==> x in Space(s) && x.0 != s.pages[ind].va {
      if x in Space(s) && x.0 != s.pages[ind].va {
        var i :| 0 <= i < |s.pages| && s.pages[i].taken && x == (s.pages[i].va, ContentAt(s, i));
        assert t.pages[i].taken && x == (t.pages[i].va, ContentAt(t, i));
      }
      if x in Space(t) {
        var i :| 0 <= i < |t.pages| && t.pages[i].taken && x == (t.pages[i].va, ContentAt(t, i));
        assert s.pages[i].taken && x == (s.pages[i].va, ContentAt(s, i));
      }
    }
  }

  lemma RemoveOwned(s: View, ind: nat)
    requires MetaOk(s) && Apart(s) && ind < |s.pages| && s.pages[ind].taken && MetaOk(CoreRemove(s, ind)) && s.pages[ind].va in s.pgdir
    ensures Owned(CoreRemove(s, ind)) == if s.pages[ind].onPhys then Owned(s) - {s.pgdir[s.pages[ind].va].frame} else Owned(s)
  {
    var t, g := CoreRemove(s, ind), s.pgdir[s.pages[ind].va].frame;
    forall f ensures f in Owned(t) <==> f in Owned(s) && !(s.pages[ind].onPhys && f == g) {
      if f in Owned(s) && !(s.pages[ind].onPhys && f == g) {
        var j :| 0 <= j < |s.pages| && MetaOkAt(s, j) && Resident(s.pages[j]) && f == s.pgdir[s.pages[j].va].frame;
        assert ApartAt(s, j, ind) && MetaOkAt(t, j);
      }
      if f in Owned(t) {
        var j :| 0 <= j < |t.pages| && MetaOkAt(t, j) && Resident(t.pages[j]) && f == t.pgdir[t.pages[j].va].frame;
        assert ApartAt(s, j, ind) && MetaOkAt(s, j) && MetaOkAt(s, ind);
      }
    }
  }

  /** Removing a resident page, the k-th of the ring: frame freed, entry unlinked. */
  function RemovedResident(s: View, ind: nat, k: nat, junk: Page): View
    requires ind < |s.pages| && s.pages[ind].va in s.pgdir && LinksInRange(s.pages, ind) && k < |s.order|
  {
    var c := CoreRemove(s, ind);
    var q := Unlinked(c.pages, ind);
    var t := c.(pages := q, order := Without(s.order, k), phys := s.phys - 1,
       headp := if s.headp != ind then s.headp else if q[ind].nextp == ind then -1 else q[ind].nextp);
    FrameFreed(t, s.pgdir[s.pages[ind].va].frame, junk)
  }

  lemma RemoveResidentOk(s: View, ind: nat, k: nat, junk: Page)
    requires Ok(s) && ind < |s.pages| && Resident(s.pages[ind]) && k < |s.order| && s.order[k] == ind
    ensures s.pages[ind].va in s.pgdir && LinksInRange(s.pages, ind)
    ensures var t := RemovedResident(s, ind, k, junk);
      && Ok(t) && Space(t) == Minus(Space(s), s.pages[ind].va)
      && Owned(t) == Owned(s) - {s.pgdir[s.pages[ind].va].frame}
  {
    hide MetaOk, Apart, Tracked, SlotsOk, RingOk, SameContents;
    RemovePre(s, ind);
    RingRange(s, k);
    RemoveMeta(s, ind);
    RemoveRing(s, ind, k);
    RemoveSlots(s, ind);
    var c := CoreRemove(s, ind);
    var q := Unlinked(c.pages, ind);
    var t := c.(pages := q, order := Without(s.order, k), phys := s.phys - 1,
       headp := if s.headp != ind then s.headp else if q[ind].nextp == ind then -1 else q[ind].nextp);
    CoreOnly(c, q);
    SameSpace(c, c.(pages := q));
    RingFieldsOnly(c.(pages := q), t);
    RemoveSpace(s, ind);
    RemoveOwned(s, ind);
    FrameFreedOk(t, s.pgdir[s.pages[ind].va].frame, junk);
  }

  lemma RemovePre(s: View, ind: nat)
    requires MetaOk(s) && ind < |s.pages| && s.pages[ind].taken
    ensures MetaOkAt(s, ind) && s.pages[ind].va in s.pgdir
  {
    assert MetaOkAt(s, ind);
  }

  lemma RemoveRing(s: View, ind: nat, k: nat)
    requires RingOk(s.pages, s.order, s.headp) && ind < |s.pages| && k < |s.order| && s.order[k] == ind && LinksInRange(s.pages, ind)
    ensures var c := CoreRemove(s, ind);
      && LinksInRange(c.pages, ind)
      && var q := Unlinked(c.pages, ind);
      && SameCores(c.pages, q)
      && RingOk(q, Without(s.order, k), if s.headp != ind then s.headp else if q[ind].nextp == ind then -1 else q[ind].nextp)
  {
    var c := CoreRemove(s, ind);
    assert Nexts(c.pages) == Nexts(s.pages) && Prevs(c.pages) == Prevs(s.pages);
    RingDrop(s.pages, s.order, s.headp, k, c.pages);
    UnlinkedLinks(c.pages, ind);
    SingleLink(c.pages, ind);
  }

  /** A resident page has no slot to give back. */
  lemma RemoveSlots(s: View, ind: nat)
    requires SlotsOk(s.pages, s.offsets, |s.file|) && ind < |s.pages| && Resident(s.pages[ind])
    ensures SlotsOk(CoreRemove(s, ind).pages, s.offsets, |s.file|)
  {
    var t := CoreRemove(s, ind);
    forall k | 0 <= k < MAX_SWAP_FILE_SZ && SlotUsed(s.pages, k * PGSIZE) ensures SlotUsed(t.pages, k * PGSIZE) {
      var j :| 0 <= j < |s.pages| && Swapped(s.pages[j]) && s.pages[j].offset == k * PGSIZE;
      assert t.pages[j] == s.pages[j];
    }
  }

  /** Removing a swapped page: its slot goes back to entry e, the ring is untouched. */
  function RemovedSwapped(s: View, ind: nat, e: nat): View
    requires ind < |s.pages| && e < |s.offsets|
  {
    CoreRemove(s, ind).(offsets := s.offsets[e := s.pages[ind].offset])
  }

  lemma RemoveSwappedOk(s: View, ind: nat, e: nat)
    requires Ok(s) && ind < |s.pages| && Swapped(s.pages[ind]) && FirstTaken(s.offsets, e)
    ensures var t := RemovedSwapped(s, ind, e);
      Ok(t) && Space(t) == Minus(Space(s), s.pages[ind].va) && Owned(t) == Owned(s)
  {
    hide MetaOk, Apart, Tracked, SlotsOk, IsRing, SameContents;
    RemovePre(s, ind);
    RemoveMeta(s, ind);
    var c, t := CoreRemove(s, ind), RemovedSwapped(s, ind, e);
    SlotReturned(s, c.pages, ind, e);
    RemoveSpace(s, ind);
    RemoveOwned(s, ind);
    OffsetsOnly(c, t);
    assert Nexts(c.pages) == Nexts(s.pages) && Prevs(c.pages) == Prevs(s.pages);
  }

  lemma OffsetsOnly(c: View, t: View)
    requires MetaOk(c) && Apart(c) && Tracked(c) && t == c.(offsets := t.offsets)
    ensures MetaOk(t) && Apart(t) && Tracked(t) && Space(t) == Space(c) && Owned(t) == Owned(c)
  {
    forall i | 0 <= i < |c.pages| ensures MetaOkAt(t, i) { assert MetaOkAt(c, i); }
    forall i, j | 0 <= i < |c.pages| && 0 <= j < |c.pages| && i != j ensures ApartAt(t, i, j) { assert ApartAt(c, i, j); }
    forall i | 0 <= i < MAX_TOTAL_PAGES ensures SameAt(c, t, i) { assert MetaOkAt(c, i) && MetaOkAt(t, i); }
    SameSpace(c, t);
  }
}

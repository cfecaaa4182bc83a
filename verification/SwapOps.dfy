/** What swap-out, swap-in, adding and removing a page do to the paging state, and that each
    keeps it well formed with every page's contents where they belong. */
module SwapOps {
  import opened Counting
  import opened Ring
  import opened SwapState

  /** Everything but the ring pointers. */
  predicate SameCore(m: Meta, n: Meta) {
    m.pte == n.pte && m.va == n.va && m.offset == n.offset && m.onPhys == n.onPhys && m.taken == n.taken
  }

  predicate SameCores(a: seq<Meta>, b: seq<Meta>) {
    |a| == |b| && forall i :: 0 <= i < |a| ==> SameCore(a[i], b[i])
  }

  /** Relinking the ring affects nothing but the ring. */
  lemma CoreOnly(s: View, pages: seq<Meta>)
    requires MetaOk(s) && Apart(s) && Tracked(s) && SlotsOk(s.pages, s.offsets, |s.file|) && SameCores(s.pages, pages)
    ensures var t := s.(pages := pages);
      MetaOk(t) && Apart(t) && Tracked(t) && SlotsOk(pages, s.offsets, |s.file|) && SameContents(s, t) && Owned(t) == Owned(s)
  {
    var t := s.(pages := pages);
    forall i | 0 <= i < |pages| ensures MetaOkAt(t, i) { assert MetaOkAt(s, i) && SameCore(s.pages[i], pages[i]); }
    forall i, j | 0 <= i < |pages| && 0 <= j < |pages| && i != j ensures ApartAt(t, i, j) {
      assert ApartAt(s, i, j) && SameCore(s.pages[i], pages[i]) && SameCore(s.pages[j], pages[j]);
    }
    forall i | 0 <= i < MAX_TOTAL_PAGES ensures SameAt(s, t, i) { assert MetaOkAt(s, i) && SameCore(s.pages[i], pages[i]); }
    CoreTracked(s, pages);
    CoreSlots(s, pages);
    CoreOwned(s, t);
  }

  lemma CoreTracked(s: View, pages: seq<Meta>)
    requires Tracked(s) && SameCores(s.pages, pages)
    ensures Tracked(s.(pages := pages))
  {
    forall v | v in s.pgdir && (s.pgdir[v].present || s.pgdir[v].paged) ensures HasMeta(pages, v) {
      var i :| 0 <= i < |s.pages| && s.pages[i].taken && s.pages[i].va == v;
      assert SameCore(s.pages[i], pages[i]);
    }
  }

  lemma CoreSlots(s: View, pages: seq<Meta>)
    requires SlotsOk(s.pages, s.offsets, |s.file|) && SameCores(s.pages, pages)
    ensures SlotsOk(pages, s.offsets, |s.file|)
  {
    forall k | 0 <= k < MAX_SWAP_FILE_SZ && SlotUsed(s.pages, k * PGSIZE) ensures SlotUsed(pages, k * PGSIZE) {
      var j :| 0 <= j < |s.pages| && Swapped(s.pages[j]) && s.pages[j].offset == k * PGSIZE;
      assert SameCore(s.pages[j], pages[j]);
    }
    forall i, j | 0 <= i < MAX_SWAP_FILE_SZ && 0 <= j < |pages| && Swapped(pages[j]) ensures s.offsets[i] != pages[j].offset {
      assert SameCore(s.pages[j], pages[j]);
    }
  }

  lemma CoreOwned(s: View, t: View)
    requires MetaOk(s) && MetaOk(t) && t == s.(pages := t.pages) && SameCores(s.pages, t.pages)
    ensures Owned(t) == Owned(s)
  {
    forall f ensures f in Owned(s) <==> f in Owned(t) {
      if f in Owned(s) {
        var i :| 0 <= i < |s.pages| && MetaOkAt(s, i) && Resident(s.pages[i]) && f == s.pgdir[s.pages[i].va].frame;
        assert SameCore(s.pages[i], t.pages[i]) && MetaOkAt(t, i);
      }
      if f in Owned(t) {
        var i :| 0 <= i < |t.pages| && MetaOkAt(t, i) && Resident(t.pages[i]) && f == t.pgdir[t.pages[i].va].frame;
        assert SameCore(s.pages[i], t.pages[i]) && MetaOkAt(s, i);
      }
    }
  }

  // ---- Ring surgery on the metadata ----

  predicate LinksInRange(pages: seq<Meta>, ind: int) {
    0 <= ind < |pages| && 0 <= pages[ind].nextp < |pages| && 0 <= pages[ind].prevp < |pages|
  }

  /** The two assignments that take `ind` out of the ring. */
  function Unlinked(pages: seq<Meta>, ind: int): (r: seq<Meta>)
    requires LinksInRange(pages, ind)
  {
    var n, p := pages[ind].nextp, pages[ind].prevp;
    var a := pages[n := pages[n].(prevp := p)];
    a[p := a[p].(nextp := n)]
  }

  lemma UnlinkedLinks(pages: seq<Meta>, ind: int)
    requires LinksInRange(pages, ind)
    ensures var n, p := pages[ind].nextp, pages[ind].prevp;
      && Nexts(Unlinked(pages, ind)) == Nexts(pages)[p := n]
      && Prevs(Unlinked(pages, ind)) == Prevs(pages)[n := p]
    ensures SameCores(pages, Unlinked(pages, ind))
  {}

  /** The four assignments that put `ind` at the tail, before `headp`. */
  function LinkedLast(pages: seq<Meta>, ind: int, headp: int): (r: seq<Meta>)
    requires 0 <= ind < |pages| && LinksInRange(pages, headp) && ind != headp
  {
    var a := pages[ind := pages[ind].(nextp := headp, prevp := pages[headp].prevp)];
    var b := a[headp := a[headp].(prevp := ind)];
    b[b[ind].prevp := b[b[ind].prevp].(nextp := ind)]
  }

  lemma LinkedLinks(pages: seq<Meta>, ind: int, headp: int)
    requires 0 <= ind < |pages| && LinksInRange(pages, headp) && ind != headp && pages[headp].prevp != ind
    ensures var t := pages[headp].prevp;
      && Nexts(LinkedLast(pages, ind, headp)) == Nexts(pages)[ind := headp][t := ind]
      && Prevs(LinkedLast(pages, ind, headp)) == Prevs(pages)[ind := t][headp := ind]
    ensures SameCores(pages, LinkedLast(pages, ind, headp))
  {}

  /** Links of entries outside the ring do not matter. */
  lemma RingIgnores(next: seq<int>, prev: seq<int>, order: seq<int>, x: nat, a: int, b: int)
    requires IsRing(next, prev, order) && x < |next| && x !in order
    ensures IsRing(next[x := a], prev[x := b], order)
  {}

  /** Dropping entry k of the ring, where its metadata has just stopped being resident. */
  lemma RingDrop(pages: seq<Meta>, order: seq<int>, headp: int, k: nat, pages': seq<Meta>)
    requires RingOk(pages, order, headp) && k < |order|
    requires |pages'| == |pages| && LinksInRange(pages', order[k])
    requires Nexts(pages') == Nexts(pages) && Prevs(pages') == Prevs(pages) && !Resident(pages'[order[k]])
    requires forall i :: 0 <= i < |pages| && i != order[k] ==> Resident(pages'[i]) == Resident(pages[i])
    ensures RingOk(Unlinked(pages', order[k]), Without(order, k),
      if headp != order[k] then headp else if pages'[order[k]].nextp == order[k] then -1 else pages'[order[k]].nextp)
  {
    hide IsRing;
    var ind := order[k];
    UnlinkedLinks(pages', ind);
    Unlink(Nexts(pages), Prevs(pages), order, k);
    RingFacts(Nexts(pages), Prevs(pages), order, k);
    var o, q := Without(order, k), Unlinked(pages', ind);
    forall i ensures i in o <==> 0 <= i < |q| && Resident(q[i]) {
      if 0 <= i < |q| { assert SameCore(pages'[i], q[i]); }
    }
  }

  lemma RingFacts(next: seq<int>, prev: seq<int>, order: seq<int>, k: nat)
    requires IsRing(next, prev, order) && k < |order|
    ensures Distinct(Without(order, k))
    ensures forall x :: x in Without(order, k) <==> x in order && x != order[k]
    ensures order[0] == order[k] <==> k == 0
    ensures next[order[k]] == order[k] <==> |order| == 1
    ensures k == 0 && |order| > 1 ==> next[order[0]] == order[1] && Without(order, 0)[0] == order[1]
    ensures k > 0 ==> Without(order, k)[0] == order[0]
  {
    WithoutMembers(order, k);
  }

  /** Adding an entry at the tail, where its metadata has just become resident. */
  lemma RingAdd(pages: seq<Meta>, order: seq<int>, headp: int, ind: nat, pages': seq<Meta>)
    requires RingOk(pages, order, headp) && order != [] && ind < |pages| && ind !in order
    requires |pages'| == |pages| && Nexts(pages') == Nexts(pages) && Prevs(pages') == Prevs(pages) && Resident(pages'[ind])
    requires forall i :: 0 <= i < |pages| && i != ind ==> Resident(pages'[i]) == Resident(pages[i])
    ensures LinksInRange(pages', headp) && ind != headp && pages'[headp].prevp != ind
    ensures RingOk(LinkedLast(pages', ind, headp), order + [ind], headp)
  {
    hide IsRing;
    RingHead(Nexts(pages), Prevs(pages), order);
    LinkedLinks(pages', ind, headp);
    LinkTail(Nexts(pages), Prevs(pages), order, ind);
    var q := LinkedLast(pages', ind, headp);
    forall i ensures i in order + [ind] <==> 0 <= i < |q| && Resident(q[i]) {
      if 0 <= i < |q| { assert SameCore(pages'[i], q[i]); }
    }
  }

  lemma RingHead(next: seq<int>, prev: seq<int>, order: seq<int>)
    requires IsRing(next, prev, order) && order != []
    ensures 0 <= order[0] < |next| && next[order[0]] in order && prev[order[0]] in order
    ensures 0 <= next[order[0]] < |next| && 0 <= prev[order[0]] < |next|
  {}
}

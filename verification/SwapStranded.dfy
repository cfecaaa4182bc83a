/** A run that leaves a process with no page resident. Growing under memory pressure evicts every page the process had;
    when the growth then fails, the new pages are dropped again, and nothing is left on the ring. From then on every
    page fault finds headp == -1 and indexes the metadata with it. */
module SwapStranded {
  import opened SwapState
  import opened SwapTrack
  import opened SwapQueue
  import opened SwapProc

  /** A mapped page is in the address space. */
  lemma MappedInSpace(s: View, v: nat) returns (x: (nat, Page))
    requires Ok(s) && MetaOk(s) && !Unmapped(s.pgdir, v)
    ensures x in Space(s) && x.0 == v
  {
    assert HasMeta(s.pages, v);
    var i :| 0 <= i < |s.pages| && s.pages[i].taken && s.pages[i].va == v;
    assert MetaOkAt(s, i);
    x := (v, ContentAt(s, i));
  }

  /** With an empty ring every page of the address space is paged out, and no frame is in use. */
  lemma AllOut(s: View)
    requires Ok(s) && MetaOk(s) && s.order == []
    ensures Owned(s) == {} && s.headp == -1
    ensures forall x :: x in Space(s) ==> x.0 in s.pgdir && s.pgdir[x.0].paged && !s.pgdir[x.0].present
  {
    forall i | 0 <= i < |s.pages| ensures !Resident(s.pages[i]) { assert i !in s.order; }
    forall x | x in Space(s) ensures x.0 in s.pgdir && s.pgdir[x.0].paged && !s.pgdir[x.0].present {
      var i :| 0 <= i < |s.pages| && s.pages[i].taken && x == (s.pages[i].va, ContentAt(s, i));
      assert MetaOkAt(s, i);
    }
  }

  lemma {:induction false} ZeroPagesHas(lo: nat, hi: nat, zero: Page, v: nat)
    requires lo <= v < hi
    ensures (v, zero) in ZeroPages(lo, hi, zero)
    decreases hi
  {
    if v < hi - 1 { ZeroPagesHas(lo, hi - 1, zero, v); }
  }

  function Never(v: nat): bool { false }

  function OnlyAt(p: nat): nat -> bool { v => v == p }

  /** For every process with 16 pages, all resident: if it grows by 17 or more and other processors have all the
      frames when the 17th is to be had, sbrk fails, its memory is what it was, and none of it is resident. */
  method Strand(p: Proc, oldsz: nat, newsz: nat, zero: Page, junk: Page) returns (r: nat)
    requires p.Valid() && p.physPages == MAX_PHYS_PAGES == |Used(p.pages)|
    requires newsz < KERNBASE && PageUp(newsz) > PageUp(oldsz) + MAX_PHYS_PAGES
    requires forall v :: PageUp(oldsz) <= v < PageUp(newsz) ==> Unmapped(p.pgdir, v)
    modifies p, p.mem
    ensures r == 0 && p.Valid() && p.order == [] && p.headp == -1
    ensures Space(p.St()) == old(Space(p.St())) && Footprint(old(p.St()), p.St()) && p.mem.free > old(p.mem.free)
    ensures forall x :: x in Space(p.St()) ==> x.0 in p.pgdir && p.pgdir[x.0].paged && !p.pgdir[x.0].present
  {
    hide Ok, MetaOk, Space, Owned, Footprint, Used, Unmapped, PageUp;
    ghost var s := p.St();
    OkMeta(s);
    if newsz < oldsz { PageUpGrows(newsz, oldsz); }
    var busy := OnlyAt(PageUp(oldsz) + MAX_PHYS_PAGES);
    assert busy(PageUp(oldsz) + MAX_PHYS_PAGES);
    var full;
    ghost var a;
    r, full, a := p.AllocUvm(oldsz, newsz, zero, junk, busy);
    OkMeta(p.St());
    AllOut(p.St());
    AllBack(s, p.St());
  }

  /** The frames of a process that gave them all up are free. */
  lemma AllBack(s: View, t: View)
    requires Ok(s) && MetaOk(t) && Footprint(s, t) && Owned(t) == {} && s.phys >= 1
    ensures t.free > s.free
  {
    assert s.order[0] in s.order && MetaOkAt(s, s.order[0]);
    assert s.pgdir[s.pages[s.order[0]].va].frame in Owned(s);
  }

  /** There is such a process: a new one that grew to 16 pages. */
  method SixteenPages(dir: nat, mem: PhysMem, zero: Page, junk: Page) returns (p: Proc)
    requires mem.free <= mem.frames.Keys && |mem.free| >= MAX_PHYS_PAGES
    modifies mem
    ensures fresh(p) && p.mem == mem && p.Valid() && p.physPages == MAX_PHYS_PAGES == |Used(p.pages)|
    ensures Space(p.St()) == ZeroPages(0, MAX_PHYS_PAGES, zero)
    ensures forall v :: MAX_PHYS_PAGES <= v ==> Unmapped(p.pgdir, v)
  {
    assert PageUp(0) == 0 && PageUp(MAX_PHYS_PAGES * PGSIZE) == MAX_PHYS_PAGES;
    hide Ok, MetaOk, Space, Owned, ZeroPages, Unmapped, Used, PageUp, Footprint;
    p := new Proc(dir, mem);
    forall v: nat ensures Unmapped(p.pgdir, v) { EmptyUnmapped(p.pgdir, v); }
    var r, full;
    ghost var a;
    r, full, a := p.AllocUvm(0, MAX_PHYS_PAGES * PGSIZE, zero, junk, Never);
    OkMeta(p.St());
    BeyondUnmapped(p.St(), zero);
  }

  lemma EmptyUnmapped(pgdir: map<nat, Pte>, v: nat)
    requires pgdir == map[]
    ensures Unmapped(pgdir, v)
  {}

  lemma BeyondUnmapped(t: View, zero: Page)
    requires Ok(t) && MetaOk(t) && Space(t) == ZeroPages(0, MAX_PHYS_PAGES, zero)
    ensures forall v :: MAX_PHYS_PAGES <= v ==> Unmapped(t.pgdir, v)
  {
    hide Ok, MetaOk, Space, ZeroPages, Unmapped;
    forall v: nat | MAX_PHYS_PAGES <= v ensures Unmapped(t.pgdir, v) {
      if !Unmapped(t.pgdir, v) {
        var x := MappedInSpace(t, v);
        ZeroPagesIn(0, MAX_PHYS_PAGES, zero, x);
      }
    }
  }

  /** The whole run, from a new process to a fault on any of its pages that finds frames but no ring to join. */
  method StrandedFault(dir: nat, mem: PhysMem, zero: Page, junk: Page, v: nat) returns (p: Proc, r: Fault)
    requires mem.free <= mem.frames.Keys && |mem.free| >= MAX_PHYS_PAGES && v < MAX_PHYS_PAGES
    modifies mem
    ensures fresh(p) && r == BadRing
  {
    hide Ok, MetaOk, Space, Owned, ZeroPages, Unmapped, Used, Footprint;
    p := SixteenPages(dir, mem, zero, junk);
    var sz := Strand(p, MAX_PHYS_PAGES * PGSIZE, 40 * PGSIZE, zero, junk);
    ZeroPagesHas(0, MAX_PHYS_PAGES, zero, v);
    OkMeta(p.St());
    assert (v, zero) in Space(p.St()) && mem.free != {};
    ghost var q, e, c, k;
    r, q, e, c, k := p.HandlePgflt(v, junk, false);
  }
}

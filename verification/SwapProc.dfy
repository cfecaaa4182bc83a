/** The paging code of `swap.c` and `vm.c` as it runs (SCFIFO, the default policy): array scans,
    in-place updates of metadata, slots, page table and frames. */
module SwapProc {
  import opened Ring
  import opened SwapState
  import opened SwapOps
  import opened SwapOut
  import opened SwapIn
  import opened SwapTrack
  import opened SwapQueue

  /** Physical memory and the frames kalloc has to give. */
  class PhysMem {
    var frames: map<nat, Page>
    var free: set<nat>

    /** Any free frame, or -1 when there is none, or when other processors hold them all at that moment (`busy`). */
    method Kalloc(busy: bool) returns (f: int)
      requires free <= frames.Keys
      modifies this`free
      ensures f == -1 <==> old(free) == {} || busy
      ensures f == -1 ==> free == old(free)
      ensures f != -1 ==> f >= 0 && f in old(free) && free == old(free) - {f}
    {
      if free == {} || busy { return -1; }
      EmptyOrNot(free);
      var x :| x in free;
      free := free - {x};
      f := x;
    }

    method Kfree(f: nat, junk: Page)
      modifies this
      ensures frames == old(frames)[f := junk] && free == old(free) + {f}
    {
      frames := frames[f := junk];
      free := free + {f};
    }
  }

  lemma EmptyOrNot(s: set<nat>)
    ensures s == {} || exists x :: x in s
  {
    if forall x :: x !in s { assert s == {}; }
  }

  // ---- Accessed bits ----

  /** The page table with PTE_A cleared on the pages of these entries. */
  function ClearA(pgdir: map<nat, Pte>, pages: seq<Meta>, idx: seq<int>): map<nat, Pte>
    decreases |idx|
  {
    if idx == [] then pgdir else
    var p := ClearA(pgdir, pages, idx[..|idx| - 1]);
    var i := idx[|idx| - 1];
    if 0 <= i < |pages| && pages[i].va in p then p[pages[i].va := p[pages[i].va].(accessed := false)] else p
  }

  lemma ClearNone(pgdir: map<nat, Pte>, pages: seq<Meta>)
    ensures ClearA(pgdir, pages, []) == pgdir
  {}

  /** Page tables that differ in accessed bits only. */
  predicate SameButA(p: map<nat, Pte>, q: map<nat, Pte>) {
    p.Keys == q.Keys && forall v :: v in p ==> q[v] == p[v].(accessed := q[v].accessed)
  }

  lemma {:induction false} ClearASame(pgdir: map<nat, Pte>, pages: seq<Meta>, idx: seq<int>)
    ensures SameButA(pgdir, ClearA(pgdir, pages, idx))
    decreases |idx|
  {
    if idx != [] { ClearASame(pgdir, pages, idx[..|idx| - 1]); }
  }

  /** PTE_A is cleared exactly on the entries listed. */
  lemma {:induction false} ClearAExactly(pgdir: map<nat, Pte>, pages: seq<Meta>, idx: seq<int>, v: nat)
    requires v in pgdir
    ensures v in ClearA(pgdir, pages, idx)
    ensures ClearA(pgdir, pages, idx)[v].accessed <==>
      pgdir[v].accessed && forall j :: 0 <= j < |idx| && 0 <= idx[j] < |pages| ==> pages[idx[j]].va != v
    decreases |idx|
  {
    ClearASame(pgdir, pages, idx);
    if idx != [] {
      ClearAExactly(pgdir, pages, idx[..|idx| - 1], v);
      ClearASame(pgdir, pages, idx[..|idx| - 1]);
    }
  }

  /** The hardware setting PTE_A, or the policy clearing it, changes nothing else. */
  lemma AccessedOnly(s: View, p: map<nat, Pte>)
    requires Ok(s) && SameButA(s.pgdir, p)
    ensures var t := s.(pgdir := p); Ok(t) && Space(t) == Space(s) && Owned(t) == Owned(s)
  {
    var t := s.(pgdir := p);
    forall i | 0 <= i < |s.pages| ensures MetaOkAt(t, i) { assert MetaOkAt(s, i); }
    forall i, j | 0 <= i < |s.pages| && 0 <= j < |s.pages| && i != j ensures ApartAt(t, i, j) { assert ApartAt(s, i, j); }
    forall i | 0 <= i < MAX_TOTAL_PAGES ensures SameAt(s, t, i) { assert MetaOkAt(s, i) && MetaOkAt(t, i); }
    SameSpace(s, t);
    OwnedSame(s, t);
  }

  lemma OwnedSame(s: View, t: View)
    requires MetaOk(s) && MetaOk(t) && t == s.(pgdir := t.pgdir) && SameButA(s.pgdir, t.pgdir)
    ensures Owned(t) == Owned(s)
  {
    forall f ensures f in Owned(s) <==> f in Owned(t) {
      if f in Owned(s) {
        var i :| 0 <= i < |s.pages| && MetaOkAt(s, i) && Resident(s.pages[i]) && f == s.pgdir[s.pages[i].va].frame;
        assert MetaOkAt(t, i);
      }
      if f in Owned(t) {
        var i :| 0 <= i < |t.pages| && MetaOkAt(t, i) && Resident(t.pages[i]) && f == t.pgdir[t.pages[i].va].frame;
        assert MetaOkAt(s, i);
      }
    }
  }

  /** The second-chance scan passed the first c entries of the ring and chose `ind`. */
  predicate Chosen(pgdir: map<nat, Pte>, pages: seq<Meta>, order: seq<int>, c: nat, ind: int) {
    && c <= |order| && order != []
    && (forall j :: 0 <= j < c ==> UsedRecently(pgdir, pages, order[j]))
    && (c < |order| ==> ind == order[c] && !UsedRecently(pgdir, pages, order[c]))
    && (c == |order| ==> ind == order[0])
  }

  predicate UsedRecently(pgdir: map<nat, Pte>, pages: seq<Meta>, i: int) {
    0 <= i < |pages| && pages[i].va in pgdir && pgdir[pages[i].va].accessed
  }

  class Proc {
    const dir: nat
    const mem: PhysMem
    var pgdir: map<nat, Pte>
    var pages: seq<Meta>
    var offsets: seq<int>
    var headp: int
    var physPages: int
    var file: seq<Page>
    var fileSize: int
    var killed: bool
    ghost var order: seq<int>

    /** init_page_meta, on an empty address space and an empty swap file. */
    constructor (dir: nat, mem: PhysMem)
      ensures this.dir == dir && this.mem == mem
      ensures MetaOk(St()) && Ok(St()) && Space(St()) == {} && Owned(St()) == {} && fileSize == 0 && file == [] && !killed
      ensures pgdir == map[] && physPages == 0 && Used(pages) == {}
    {
      this.dir, this.mem := dir, mem;
      pgdir, headp, physPages, order := map[], -1, 0, [];
      file, fileSize, killed := [], 0, false;
      var ps: seq<Meta> := [];
      var i := 0;
      while i < MAX_TOTAL_PAGES
        invariant 0 <= i <= MAX_TOTAL_PAGES && |ps| == i
        invariant forall j :: 0 <= j < i ==> ps[j] == Meta(PteRef(0, 0), 0, -1, false, false, -1, -1)
      {
        ps := ps + [Meta(PteRef(0, 0), 0, -1, false, false, -1, -1)];
        i := i + 1;
      }
      pages := ps;
      var os: seq<int> := [];
      i := 0;
      while i < MAX_SWAP_FILE_SZ
        invariant 0 <= i <= MAX_SWAP_FILE_SZ && |os| == i
        invariant forall j :: 0 <= j < i ==> os[j] == j * PGSIZE
      {
        os := os + [i * PGSIZE];
        i := i + 1;
      }
      offsets := os;
      new;
      FreshOk(St());
    }

    ghost function St(): View
      reads this, mem
    {
      View(dir, pgdir, pages, offsets, headp, order, physPages, file, mem.frames, mem.free)
    }

    ghost predicate Valid()
      reads this, mem
    {
      Ok(St()) && mem.free <= mem.frames.Keys && fileSize == |file| * PGSIZE
    }

    /** get_offset: take the first free entry; its panic is unreachable when an eviction is due. */
    method GetOffset() returns (o: int, ghost i: nat)
      requires |offsets| == MAX_SWAP_FILE_SZ && exists j :: 0 <= j < MAX_SWAP_FILE_SZ && offsets[j] != TAKEN_OFFSET
      modifies this`offsets
      ensures FirstFree(old(offsets), i) && o == old(offsets)[i] && offsets == old(offsets)[i := TAKEN_OFFSET]
    {
      var k := 0;
      while offsets[k] == TAKEN_OFFSET
        invariant 0 <= k < MAX_SWAP_FILE_SZ
        invariant forall j :: 0 <= j < k ==> offsets[j] == TAKEN_OFFSET
        invariant offsets == old(offsets)
        decreases MAX_SWAP_FILE_SZ - k
      {
        k := k + 1;
      }
      i := k;
      o := offsets[k];
      offsets := offsets[k := TAKEN_OFFSET];
    }

    /** free_offset: put a slot into the first taken entry; again without its panic. */
    method FreeOffset(o: int) returns (ghost e: nat)
      requires |offsets| == MAX_SWAP_FILE_SZ && exists j :: 0 <= j < MAX_SWAP_FILE_SZ && offsets[j] == TAKEN_OFFSET
      modifies this`offsets
      ensures FirstTaken(old(offsets), e) && offsets == old(offsets)[e := o]
    {
      var k := 0;
      while offsets[k] != TAKEN_OFFSET
        invariant 0 <= k < MAX_SWAP_FILE_SZ
        invariant forall j :: 0 <= j < k ==> offsets[j] != TAKEN_OFFSET
        invariant offsets == old(offsets)
        decreases MAX_SWAP_FILE_SZ - k
      {
        k := k + 1;
      }
      e := k;
      offsets := offsets[k := o];
    }

    /** find_page_ind: the entry of a tracked page, -1 if there is none. */
    method FindPageInd(ref: PteRef) returns (ind: int)
      requires |pages| == MAX_TOTAL_PAGES
      ensures -1 <= ind < MAX_TOTAL_PAGES
      ensures ind >= 0 ==> pages[ind].pte == ref && pages[ind].taken
      ensures ind == -1 ==> forall j :: 0 <= j < MAX_TOTAL_PAGES ==> !(pages[j].pte == ref && pages[j].taken)
    {
      var i := 0;
      while i < MAX_TOTAL_PAGES
        invariant 0 <= i <= MAX_TOTAL_PAGES
        invariant forall j :: 0 <= j < i ==> !(pages[j].pte == ref && pages[j].taken)
      {
        if pages[i].pte == ref && pages[i].taken { return i; }
        i := i + 1;
      }
      ind := -1;
    }

    /** find_free_slot: the first unused entry, -1 if all 32 are in use. */
    method FindFreeSlot() returns (ind: int)
      requires |pages| == MAX_TOTAL_PAGES
      ensures -1 <= ind < MAX_TOTAL_PAGES
      ensures ind >= 0 ==> !pages[ind].taken && forall j :: 0 <= j < ind ==> pages[j].taken
      ensures ind == -1 ==> forall j :: 0 <= j < MAX_TOTAL_PAGES ==> pages[j].taken
    {
      var i := 0;
      while i < MAX_TOTAL_PAGES
        invariant 0 <= i <= MAX_TOTAL_PAGES
        invariant forall j :: 0 <= j < i ==> pages[j].taken
      {
        if !pages[i].taken { return i; }
        i := i + 1;
      }
      ind := -1;
    }

    /** get_page_to_swap: from headp, pass over entries with PTE_A set, clearing it; choose the
        first without it, or headp after a whole lap. */
    method GetPageToSwap() returns (ind: int, ghost c: nat)
      requires Ok(St()) && order != []
      modifies this`pgdir
      ensures Chosen(old(pgdir), pages, order, c, ind)
      ensures pgdir == ClearA(old(pgdir), pages, order[..c])
    {
      hide MetaOk, Apart, Tracked, SlotsOk, IsRing, ClearA, RingOk;
      ScanFacts(St(), 0);
      assert ClearA(pgdir, pages, order[..0]) == pgdir by { ClearNone(pgdir, pages); assert order[..0] == []; }
      var headInd, currInd := headp, headp;
      c := 0;
      while true
        invariant Ok(old(St())) && 0 <= c < |order| && currInd == order[c]
        invariant pgdir == ClearA(old(pgdir), pages, order[..c])
        invariant forall j :: 0 <= j < c ==> UsedRecently(old(pgdir), pages, order[j])
        decreases |order| - c
      {
        ScanFacts(old(St()), c);
        ghost var p := pgdir;
        var v := pages[currInd].pte.vpn;
        if pgdir[v].accessed {
          pgdir := pgdir[v := pgdir[v].(accessed := false)];
          currInd := pages[currInd].nextp;
          c := c + 1;
        } else {
          return currInd, c;
        }
        if currInd == headInd { return headInd, c; }
      }
    }

    /** A page-sized filewrite at `o`: rejected past the end of the file, as writei does. */
    method WriteSwap(o: int, x: Page) returns (r: int)
      requires o >= 0 && o % PGSIZE == 0
      modifies this`file
      ensures o > |old(file)| * PGSIZE ==> r == -1 && file == old(file)
      ensures o <= |old(file)| * PGSIZE ==> r == PGSIZE && Slot(o, |old(file)| + 1) && file == PutPage(old(file), o, x)
    {
      if o > |file| * PGSIZE { return -1; }
      if o / PGSIZE == |file| { file := file + [x]; } else { file := file[o / PGSIZE := x]; }
      r := PGSIZE;
    }

    /** The ring surgery of swap_to_file. An entry that was not the head keeps stale links. */
    static method LeaveRing(pages0: seq<Meta>, headp0: int, ind: nat) returns (pages: seq<Meta>, headp: int)
      requires LinksInRange(pages0, ind)
      ensures var q := Unlinked(pages0, ind);
        && pages == (if headp0 == ind then q[ind := q[ind].(nextp := -1, prevp := -1)] else q)
        && headp == if headp0 != ind then headp0 else if q[ind].nextp == ind then -1 else q[ind].nextp
    {
      pages, headp := pages0, headp0;
      var n := pages[ind].nextp;
      pages := pages[n := pages[n].(prevp := pages[ind].prevp)];
      var p := pages[ind].prevp;
      pages := pages[p := pages[p].(nextp := pages[ind].nextp)];
      if headp == ind {
        headp := if ind == pages[ind].nextp then -1 else pages[ind].nextp;
        pages := pages[ind := pages[ind].(nextp := -1)];
        pages := pages[ind := pages[ind].(prevp := -1)];
      }
    }

    /** swap_to_file: the page moves to a free slot, leaves the ring, and is marked PTE_PG. */
    method SwapToFile(ref: PteRef, ghost k: nat) returns (ghost i: nat)
      requires Valid() && physPages >= MAX_PHYS_PAGES
      requires k < |order| && pages[order[k]].pte == ref
      modifies this`pgdir, this`pages, this`offsets, this`headp, this`physPages, this`file, this`fileSize, this`order
      ensures CanGoOut(old(St()), old(order)[k], i) && OutDefined(old(St()), old(order)[k], i, k)
      ensures fileSize == |file| * PGSIZE
      ensures St() == SwappedOut(old(St()), old(order)[k], i, k)
    {
      hide Ok, Unlinked, PutPage, Without, SwappedOut;
      ghost var s, target := St(), order[k];
      TargetFacts(s, k);
      FreeSlotExists(s);
      var ind := FindPageInd(ref);
      SameEntry(s, k, ind);
      var offset;
      offset, i := GetOffset();
      OutUse(s, target, i, k);
      var va := ref.vpn;
      var r := WriteSwap(offset, mem.frames[pgdir[va].frame]);
      pages := pages[ind := pages[ind].(pte := ref, offset := offset, onPhys := false)];
      if offset + PGSIZE > fileSize { fileSize := offset + PGSIZE; }
      pgdir := pgdir[va := pgdir[va].(present := false, paged := true)];
      physPages := physPages - 1;
      pages, headp := LeaveRing(pages, headp, ind);
      order := Without(order, k);
    }

    /** The first half of free_page: the page that get_page_to_swap chooses goes to the swap file and leaves frame f. */
    method SwapVictim() returns (f: nat, ghost c: nat, ghost k: nat)
      requires Valid() && physPages >= MAX_PHYS_PAGES
      modifies this`pgdir, this`pages, this`offsets, this`headp, this`physPages, this`file, this`fileSize, this`order
      ensures Ok(St()) && MetaOk(St()) && old(MetaOk(St())) && fileSize == |file| * PGSIZE && physPages == old(physPages) - 1
      ensures Space(St()) == old(Space(St())) && f in old(Owned(St())) && Owned(St()) == old(Owned(St())) - {f}
      ensures EvictKeeps(old(pgdir), pgdir)
      ensures Used(pages) == old(Used(pages)) && Evicts(old(Queue(St())), old(pgdir), Queue(St()), pgdir, c, k)
    {
      hide Ok, SwappedOut, ClearA, MetaOk, Space, Owned, Chosen, Evicts, Queue, Used;
      ghost var s := St();
      OkMeta(s);
      assert order != [] by { RingNotEmpty(s); }
      var ind;
      ind, c := GetPageToSwap();
      k := ChosenAt(s, c, ind);
      ClearASame(s.pgdir, pages, order[..c]);
      AccessedOnly(s, pgdir);
      ghost var s1 := St();
      OkMeta(s1);
      TargetFacts(s1, k);
      var swapPage := pages[ind].pte;
      ghost var i := SwapToFile(swapPage, k);
      OutOk(s1, ind, i, k);
      OutFields(s1, ind, i, k);
      OkMeta(St());
      f := pgdir[swapPage.vpn].frame;
      VictimOwned(s1, ind);
      QueueOut(s1, ind, i, k);
      QueueFields(s, s1);
      EvictsAs(s, St(), c, k);
    }

    /** free_page: evict one page chosen by the policy and give its frame back. The user's
        memory is unchanged, and neither is anybody else's. */
    method FreePage(junk: Page) returns (ghost c: nat, ghost k: nat)
      requires Valid() && physPages >= MAX_PHYS_PAGES
      modifies this`pgdir, this`pages, this`offsets, this`headp, this`physPages, this`file, this`fileSize, this`order, mem
      ensures Valid() && physPages == old(physPages) - 1
      ensures Space(St()) == old(Space(St())) && Footprint(old(St()), St())
      ensures EvictKeeps(old(pgdir), pgdir)
      ensures mem.free > old(mem.free)
      ensures Used(pages) == old(Used(pages)) && Evicts(old(Queue(St())), old(pgdir), Queue(St()), pgdir, c, k)
    {
      hide Ok, MetaOk, Space, Owned, Footprint, Evicts, Queue, Used, EvictKeeps;
      ghost var s := St();
      OkMeta(s);
      var f;
      f, c, k := SwapVictim();
      ghost var t := St();
      OwnedNotInFree(s, f);
      FrameFreedOk(t, f, junk);
      mem.Kfree(f, junk);
      assert St() == FrameFreed(t, f, junk);
      OkMeta(St());
      EvictFootprint(s, t, f, junk);
      QueueFields(t, St());
    }

    /** The ring surgery of swap_from_file and add_page: in at the tail, before headp. */
    static method JoinRing(pages0: seq<Meta>, headp: int, ind: nat) returns (pages: seq<Meta>)
      requires ind < |pages0| && LinksInRange(pages0, headp) && ind != headp
      ensures pages == LinkedLast(pages0, ind, headp)
    {
      pages := pages0[ind := pages0[ind].(nextp := headp)];
      pages := pages[ind := pages[ind].(prevp := pages[headp].prevp)];
      pages := pages[headp := pages[headp].(prevp := ind)];
      var t := pages[ind].prevp;
      pages := pages[t := pages[t].(nextp := ind)];
    }

    /** swap_from_file: `s` is the state before the faulting page was mapped to frame f. The page's
        contents are read into f, its slot is returned, and it joins the ring. */
    method SwapFromFile(ref: PteRef, ghost s: View, ghost ind0: nat, f: nat) returns (ghost e: nat)
      requires Ok(s) && ind0 < |s.pages| && Swapped(s.pages[ind0]) && s.pages[ind0].pte == ref && s.order != []
      requires f in s.free && s.free <= s.frames.Keys && ref.vpn == s.pages[ind0].va && s.dir == dir
      requires St() == s.(pgdir := s.pgdir[ref.vpn := Pte(true, false, false, f)], free := s.free - {f})
      modifies this`pgdir, this`pages, this`offsets, this`headp, this`physPages, this`file, this`fileSize, this`order, mem
      ensures CanComeIn(s, ind0, f, e) && InDefined(s, ind0, e)
      ensures St() == SwappedIn(s, ind0, f, e) && file == s.file && fileSize == old(fileSize)
    {
      hide Ok, LinkedLast;
      InFacts(s, ind0);
      var ind := FindPageInd(ref);
      SameIndex(s, ind0, ind);
      var offset := pages[ind].offset;
      pages := pages[ind := pages[ind].(offset := -1)];
      mem.frames := mem.frames[f := file[offset / PGSIZE]];
      e := FreeOffset(offset);
      pgdir := pgdir[ref.vpn := pgdir[ref.vpn].(present := true, paged := false)];
      pages := pages[ind := pages[ind].(onPhys := true)];
      assert pages == CoreIn(s, ind0, f, e).pages && pgdir == CoreIn(s, ind0, f, e).pgdir;
      pages := JoinRing(pages, headp, ind);
      physPages := physPages + 1;
      order := order + [ind];
    }

    /** handle_pgflt at virtual page v, whose page table exists. A paged-out page for which there is a frame comes
        in exactly when some page is on the ring, and goes to its tail; with 16 pages resident second chance has
        evicted one first, leaving queue q and page table p. */
    method HandlePgflt(v: nat, junk: Page, busy: bool)
      returns (r: Fault, ghost q: seq<int>, ghost p: map<nat, Pte>, ghost c: nat, ghost k: nat)
      requires Valid() && v in pgdir
      modifies this`pgdir, this`pages, this`offsets, this`headp, this`physPages, this`file, this`fileSize, this`order, this`killed, mem
      ensures r == PanicPresent <==> old(pgdir)[v].present
      ensures r == SegFault <==> !old(pgdir)[v].present && !old(pgdir)[v].paged
      ensures killed <==> old(killed) || r == SegFault
      ensures old(pgdir)[v].paged && !old(pgdir)[v].present ==>
        && (r == NoMemory <==> busy || (old(physPages) != MAX_PHYS_PAGES && old(mem.free) == {}))
        && (r != NoMemory ==> if old(order) != [] then r == Served else r == BadRing)
      ensures old(physPages) != MAX_PHYS_PAGES || r in {PanicPresent, SegFault} ==> q == old(Queue(St())) && p == old(pgdir)
      ensures old(physPages) == MAX_PHYS_PAGES && r !in {PanicPresent, SegFault} ==>
        Evicts(old(Queue(St())), old(pgdir), q, p, c, k)
      ensures r == Served ==>
        && Queue(St()) == q + [v] && v in pgdir && pgdir == p[v := pgdir[v]]
        && pgdir[v].present && !pgdir[v].paged && !pgdir[v].accessed
      ensures r in {PanicPresent, SegFault, NoMemory} ==> Queue(St()) == q && pgdir == p
      ensures r != BadRing ==> Valid() && Space(St()) == old(Space(St())) && Footprint(old(St()), St())
    {
      hide Ok, SwappedIn, Footprint, MetaOk, Space, Owned, Evicts, Queue, Used;
      ghost var s0 := St();
      OkMeta(s0);
      FootprintSelf(s0);
      q, p, c, k := Queue(s0), pgdir, 0, 0;
      if pgdir[v].present { return PanicPresent, q, p, c, k; }
      if !pgdir[v].paged {
        killed := true;
        return SegFault, q, p, c, k;
      }
      if physPages == MAX_PHYS_PAGES {
        RingNotEmpty(St());
        c, k := FreePage(junk);
      }
      ghost var s := St();
      q, p := Queue(s), pgdir;
      OkMeta(s);
      RingSize(s);
      var f := mem.Kalloc(busy);
      if f == -1 {
        assert St() == s;
        return NoMemory, q, p, c, k;
      }
      pgdir := pgdir[v := Pte(true, false, false, f)];
      if headp == -1 { return BadRing, q, p, c, k; }
      ghost var ind := PagedEntry(s, v);
      ghost var e := SwapFromFile(PteRef(dir, v), s, ind, f);
      InOk(s, ind, f, e);
      InFootprint(s, ind, f, e);
      QueueIn(s, ind, f, e);
      OkMeta(St());
      FootprintTrans(s0, s, St());
      r := Served;
    }

    /** add_page: `s` is the state before v was mapped to the zeroed frame f. With all entries in
        use it fails, having already counted the page; the caller then kills the process. */
    method AddPage(v: nat, ghost s: View, ghost f: nat, ghost zero: Page) returns (ok: bool, ghost ind0: nat)
      requires Ok(s) && Unmapped(s.pgdir, v) && f in s.free && f in s.frames && s.dir == dir
      requires St() == s.(pgdir := s.pgdir[v := Pte(true, false, false, f)], frames := s.frames[f := zero], free := s.free - {f})
      modifies this`pages, this`headp, this`physPages, this`order
      ensures ok <==> exists j :: 0 <= j < MAX_TOTAL_PAGES && !s.pages[j].taken
      ensures ok ==> CanAdd(s, ind0, v, f) && AddDefined(s, ind0) && St() == Added(s, ind0, v, f, zero)
      ensures !ok ==> pages == old(pages) && physPages == old(physPages) + 1
    {
      hide Ok, LinkedLast;
      OkSizes(s);
      physPages := physPages + 1;
      var ind := FindFreeSlot();
      if ind == -1 { return false, 0; }
      ind0 := ind;
      AddRing(s, ind, v, f, zero);
      RingSize(s);
      pages := pages[ind := pages[ind].(pte := PteRef(dir, v), taken := true, onPhys := true, va := v)];
      ok := true;
      if headp == -1 {
        headp := ind;
        pages := pages[headp := pages[headp].(prevp := ind, nextp := ind)];
        order := [ind];
      } else {
        pages := JoinRing(pages, headp, ind);
        order := order + [ind];
      }
    }

    /** One round of allocuvm's loop: evict if at the limit, map a zeroed frame at v, track it. */
    method AllocPage(v: nat, zero: Page, junk: Page, busy: bool)
      returns (r: Alloc, ghost q: seq<int>, ghost p: map<nat, Pte>, ghost c: nat, ghost k: nat)
      requires Valid() && Unmapped(pgdir, v)
      modifies this`pgdir, this`pages, this`offsets, this`headp, this`physPages, this`file, this`fileSize, this`order, mem
      ensures r == Fresh ==> Valid() && Space(St()) == old(Space(St())) + {(v, zero)} && Footprint(old(St()), St())
      ensures r == Fresh ==> forall w :: w != v && Unmapped(old(pgdir), w) ==> Unmapped(pgdir, w)
      ensures r == NoFrame ==> Valid() && Space(St()) == old(Space(St())) && Footprint(old(St()), St())
      ensures r == NoFrame <==> busy || (old(physPages) < MAX_PHYS_PAGES && old(mem.free) == {})
      ensures r == NoEntry ==> old(|Used(pages)|) == MAX_TOTAL_PAGES
      ensures r == Fresh ==> |Used(pages)| == old(|Used(pages)|) + 1
      ensures old(physPages) < MAX_PHYS_PAGES ==> q == old(Queue(St())) && p == old(pgdir)
      ensures old(physPages) >= MAX_PHYS_PAGES ==> Evicts(old(Queue(St())), old(pgdir), q, p, c, k)
      ensures r == NoFrame ==> Queue(St()) == q && pgdir == p
      ensures r == Fresh ==> Queue(St()) == q + [v] && v in pgdir && !pgdir[v].accessed && pgdir == p[v := pgdir[v]]
      ensures r == Fresh ==> physPages == if old(physPages) < MAX_PHYS_PAGES then old(physPages) + 1 else old(physPages)
      ensures r == Fresh && old(physPages) < MAX_PHYS_PAGES ==> |mem.free| == old(|mem.free|) - 1
    {
      hide Ok, Added, Footprint, MetaOk, Space, Owned, Evicts, Queue, Used, Without;
      ghost var s0 := St();
      OkMeta(s0);
      FootprintSelf(s0);
      c, k := 0, 0;
      if physPages >= MAX_PHYS_PAGES { c, k := FreePage(junk); }
      ghost var s := St();
      q, p := Queue(s), pgdir;
      OkMeta(s);
      var f := mem.Kalloc(busy);
      if f == -1 {
        assert St() == s;
        return NoFrame, q, p, c, k;
      }
      var ok := MapPage(v, zero, f, s);
      if !ok { return NoEntry, q, p, c, k; }
      FootprintTrans(s0, s, St());
      r := Fresh;
    }

    /** The second half of the round: frame f, just allocated in state s, is zeroed, mapped at v and tracked. */
    method MapPage(v: nat, zero: Page, f: nat, ghost s: View) returns (ok: bool)
      requires Ok(s) && MetaOk(s) && Unmapped(s.pgdir, v) && f in s.free && s.free <= s.frames.Keys && s.dir == dir
      requires St() == s.(free := s.free - {f}) && fileSize == |file| * PGSIZE
      modifies this`pgdir, this`pages, this`headp, this`physPages, this`order, mem`frames
      ensures !ok ==> |Used(s.pages)| == MAX_TOTAL_PAGES
      ensures ok ==> Valid() && MetaOk(St()) && Space(St()) == Space(s) + {(v, zero)} && Footprint(s, St())
      ensures ok ==> Queue(St()) == Queue(s) + [v] && |Used(pages)| == |Used(s.pages)| + 1 && physPages == s.phys + 1
      ensures ok ==> pgdir == s.pgdir[v := Pte(true, false, false, f)]
    {
      hide Ok, Added, Footprint, MetaOk, Space, Owned, Queue, Used;
      mem.frames := mem.frames[f := zero];
      pgdir := pgdir[v := Pte(true, false, false, f)];
      var pageInd := FindPageIndFresh(PteRef(dir, v), s, v);
      ghost var ind;
      ok, ind := AddPage(v, s, f, zero);
      if !ok {
        OkSizes(s);
        UsedAll(s.pages);
        return;
      }
      QueueAdded(s, ind, v, f, zero);
      AddOk(s, ind, v, f, zero);
      AddFootprint(s, ind, v, f, zero);
      OkMeta(St());
    }

    /** allocuvm looks for an old entry before adding one; there never is one, so its panic is dead. */
    method FindPageIndFresh(ref: PteRef, ghost s: View, ghost v: nat) returns (ind: int)
      requires Ok(s) && Unmapped(s.pgdir, v) && pages == s.pages && ref == PteRef(s.dir, v)
      ensures ind == -1
    {
      OkMeta(s);
      ind := FindPageInd(ref);
      if ind >= 0 { UntrackedRef(s, v, ind); }
    }

    /** The ring surgery of remove_page. */
    static method DropFromRing(pages0: seq<Meta>, headp0: int, ind: nat) returns (pages: seq<Meta>, headp: int)
      requires LinksInRange(pages0, ind)
      ensures pages == Unlinked(pages0, ind)
      ensures headp == if headp0 != ind then headp0 else if pages[ind].nextp == ind then -1 else pages[ind].nextp
    {
      pages, headp := pages0, headp0;
      var p := pages[ind].prevp;
      pages := pages[p := pages[p].(nextp := pages[ind].nextp)];
      var n := pages[ind].nextp;
      pages := pages[n := pages[n].(prevp := pages[ind].prevp)];
      if headp == ind {
        headp := if pages[ind].nextp == ind then -1 else pages[ind].nextp;
      }
    }

    /** remove_page for a page on the ring, the k-th; `s` is the state before its frame was freed. */
    method RemoveResidentPage(ref: PteRef, ghost s: View, ghost k: nat) returns (ok: bool)
      requires Ok(s) && k < |s.order| && 0 <= s.order[k] < |s.pages| && s.pages[s.order[k]].pte == ref
      requires pages == s.pages && order == s.order && headp == s.headp && physPages == s.phys
      modifies this`pages, this`headp, this`physPages, this`order
      ensures ok && LinksInRange(s.pages, s.order[k])
      ensures pages == Unlinked(CoreRemove(s, s.order[k]).pages, s.order[k])
      ensures |pages| == |s.pages|
      ensures headp == if s.headp != s.order[k] then s.headp else if pages[s.order[k]].nextp == s.order[k] then -1 else pages[s.order[k]].nextp
      ensures physPages == s.phys - 1 && order == Without(s.order, k)
    {
      hide Ok, Unlinked;
      TargetFacts(s, k);
      var ind := FindPageInd(ref);
      SameEntry(s, k, ind);
      EntryFacts(s, ind);
      if pages[ind].onPhys { physPages := physPages - 1; }
      pages := pages[ind := pages[ind].(taken := false, pte := PteRef(0, 0), onPhys := false, offset := -1)];
      UnlinkedLinks(pages, ind);
      pages, headp := DropFromRing(pages, headp, ind);
      order := Without(order, k);
      ok := true;
    }

    /** remove_page for a swapped page: its slot is given back. */
    method RemoveSwappedPage(ref: PteRef, ghost ind0: nat) returns (ok: bool, ghost e: nat)
      requires Ok(St()) && ind0 < |pages| && Swapped(pages[ind0]) && pages[ind0].pte == ref
      modifies this`pages, this`offsets
      ensures ok && FirstTaken(old(offsets), e)
      ensures pages == CoreRemove(old(St()), ind0).pages && offsets == old(offsets)[e := old(pages)[ind0].offset]
    {
      hide Ok;
      ghost var s := St();
      OkSizes(s);
      var ind := FindPageInd(ref);
      SameIndex(s, ind0, ind);
      EntryFacts(s, ind);
      var o := pages[ind].offset;
      pages := pages[ind := pages[ind].(taken := false, pte := PteRef(0, 0), onPhys := false)];
      assert o != -1;
      e := FreeOffset(o);
      pages := pages[ind := pages[ind].(offset := -1)];
      ok := true;
    }

    /** One round of deallocuvm's loop on an existing page-table entry: a present page loses its
        frame, a paged-out one its slot, and either way its entries in both tables. */
    method DeallocPage(v: nat, junk: Page)
      requires Valid() && v in pgdir
      modifies this`pgdir, this`pages, this`offsets, this`headp, this`physPages, this`file, this`fileSize, this`order, mem
      ensures Valid() && Space(St()) == Minus(old(Space(St())), v) && Footprint(old(St()), St())
      ensures pgdir.Keys == old(pgdir.Keys) && Unmapped(pgdir, v)
      ensures forall w :: w in pgdir && w != v ==> pgdir[w] == old(pgdir)[w]
      ensures Queue(St()) == Beyond(old(Queue(St())), v, v + 1)
    {
      hide Ok, Footprint, MetaOk, Space, Owned, Unlinked, Minus, Queue, Beyond;
      ghost var s := St();
      OkMeta(s);
      FootprintSelf(s);
      if pgdir[v].present {
        ghost var k := PresentEntry(s, v);
        var f := pgdir[v].frame;
        RemoveResidentOk(s, order[k], k, junk);
        ResidentFootprint(s, order[k], k, junk);
        mem.Kfree(f, junk);
        var ok := RemoveResidentPage(PteRef(dir, v), s, k);
        pgdir := pgdir[v := Pte(false, false, false, 0)];
        assert St() == RemovedResident(s, s.order[k], k, junk);
        QueueRemoved(s, s.order[k], k, junk);
        OkMeta(St());
      } else if pgdir[v].paged {
        ghost var ind := PagedEntry(s, v);
        ghost var e;
        var ok;
        ok, e := RemoveSwappedPage(PteRef(dir, v), ind);
        RemoveSwappedOk(s, ind, e);
        pgdir := pgdir[v := Pte(false, false, false, 0)];
        assert St() == RemovedSwapped(s, ind, e);
        OkMeta(St());
        SameFootprint(s, St());
        QueueSlotGone(s, ind, e);
        NotQueued(s, v);
      } else {
        NotThere(s, v);
        NotQueued(s, v);
      }
    }

    /** deallocuvm: from oldsz down to newsz bytes. Exactly the pages past newsz disappear. */
    method DeallocUvm(oldsz: nat, newsz: nat, junk: Page) returns (r: nat)
      requires Valid()
      modifies this`pgdir, this`pages, this`offsets, this`headp, this`physPages, this`file, this`fileSize, this`order, mem
      ensures Valid() && Footprint(old(St()), St())
      ensures r == if newsz >= oldsz then oldsz else newsz
      ensures newsz >= oldsz ==> Space(St()) == old(Space(St()))
      ensures newsz < oldsz ==> Space(St()) == Outside(old(Space(St())), PageUp(newsz), PageUp(oldsz))
      ensures pgdir.Keys == old(pgdir.Keys)
      ensures forall v :: v in pgdir ==> if PageUp(newsz) <= v < PageUp(oldsz) then Unmapped(pgdir, v) else pgdir[v] == old(pgdir)[v]
      ensures Queue(St()) == if newsz >= oldsz then old(Queue(St())) else Beyond(old(Queue(St())), PageUp(newsz), PageUp(oldsz))
    {
      hide Ok, Footprint, MetaOk, Space, Owned, Minus, Outside, Queue, Beyond;
      ghost var s := St();
      OkMeta(s);
      FootprintSelf(s);
      if newsz >= oldsz { return oldsz; }
      var a := PageUp(newsz);
      OutsideNone(Space(s), a);
      BeyondSame(Queue(s), a, a);
      while a * PGSIZE < oldsz
        invariant PageUp(newsz) <= a <= PageUp(oldsz)
        invariant Valid() && MetaOk(St()) && Footprint(s, St())
        invariant Space(St()) == Outside(Space(s), PageUp(newsz), a)
        invariant Queue(St()) == Beyond(Queue(s), PageUp(newsz), a)
        invariant pgdir.Keys == s.pgdir.Keys
        invariant forall v :: v in pgdir ==> if PageUp(newsz) <= v < a then Unmapped(pgdir, v) else pgdir[v] == s.pgdir[v]
      {
        ghost var t := St();
        if a in pgdir {
          DeallocPage(a, junk);
        } else {
          NotThere(t, a);
          NotQueued(t, a);
        }
        BeyondNext(Queue(s), PageUp(newsz), a);
        OkMeta(St());
        FootprintSelf(t);
        FootprintTrans(s, t, St());
        OutsideNext(Space(s), PageUp(newsz), a);
        a := a + 1;
      }
      r := newsz;
    }

    /** One round: `s` is the state at the start of the loop. */
    method GrowOne(v: nat, zero: Page, junk: Page, busy: bool, ghost s: View, ghost lo: nat, ghost hi: nat, ghost n0: nat, ghost x0: nat)
      returns (got: Alloc, ghost n: nat, ghost x: nat)
      requires Valid() && lo <= v < hi && Growing(s, St(), lo, hi, v, zero, n0, x0)
      modifies this`pgdir, this`pages, this`offsets, this`headp, this`physPages, this`file, this`fileSize, this`order, mem
      ensures got == NoEntry ==> !busy && |Used(s.pages)| + (v - lo) == MAX_TOTAL_PAGES
      ensures got == Fresh ==> !busy && Valid() && Growing(s, St(), lo, hi, v + 1, zero, n, x)
      ensures got == NoFrame ==> Valid() && Starved(s, St(), lo, hi, v, zero, n, x, busy)
    {
      hide Ok, Footprint, MetaOk, Space, Owned, ZeroPages, Unmapped, Queue, Evicts, Pressed, Used, GrownBy, Limited;
      ghost var t := St();
      ghost var q, p, c, k;
      got, q, p, c, k := AllocPage(v, zero, junk, busy);
      n, x := n0, x0;
      GrownFacts(s, t, lo, hi, v, n, x);
      if got == NoEntry { return; }
      OkMeta(St());
      FootprintTrans(s, t, St());
      if s.phys == MAX_PHYS_PAGES { n, x := PressRound(t, St(), q, p, c, k, v, lo, hi, n, x, got == Fresh); }
      if got == NoFrame { return; }
      GrownNext(s, t, St(), lo, hi, v, n0, x0, n, x);
      ZeroNext(lo, v, zero);
    }

    /** The loop of allocuvm, up to page a. While 16 pages are resident each round evicts one, and of the 16 that were
        resident at the start n are left. */
    method Grow(oldsz: nat, newsz: nat, zero: Page, junk: Page, busy: nat -> bool)
      returns (a: nat, got: Alloc, ghost n: nat, ghost x: nat)
      requires Valid() && oldsz <= newsz
      requires forall v :: PageUp(oldsz) <= v < PageUp(newsz) ==> Unmapped(pgdir, v)
      modifies this`pgdir, this`pages, this`offsets, this`headp, this`physPages, this`file, this`fileSize, this`order, mem
      ensures PageUp(oldsz) <= a <= PageUp(newsz) && (got == Fresh <==> a == PageUp(newsz))
      ensures forall v :: PageUp(oldsz) <= v < a ==> !busy(v)
      ensures got == NoEntry ==> !busy(a) && old(|Used(pages)|) + (a - PageUp(oldsz)) == MAX_TOTAL_PAGES
      ensures got == Fresh ==> Valid() && Growing(old(St()), St(), PageUp(oldsz), PageUp(newsz), a, zero, n, x)
      ensures got == NoFrame ==> Valid() && Starved(old(St()), St(), PageUp(oldsz), PageUp(newsz), a, zero, n, x, busy(a))
    {
      hide Ok, Used, Growing, Starved, PageUp;
      PageUpGrows(oldsz, newsz);
      PageUpBelow(newsz, PageUp(oldsz));
      ghost var s, lo, hi := St(), PageUp(oldsz), PageUp(newsz);
      a, got := PageUp(oldsz), Fresh;
      n, x := |order|, 0;
      GrowingNone(s, lo, hi, zero);
      while a * PGSIZE < newsz
        invariant lo <= a <= hi && (a * PGSIZE < newsz <==> a < hi) && got == Fresh && forall v :: lo <= v < a ==> !busy(v)
        invariant Valid() && Growing(s, St(), lo, hi, a, zero, n, x)
      {
        got, n, x := GrowOne(a, zero, junk, busy(a), s, lo, hi, n, x);
        if got != Fresh { return; }
        a := a + 1;
        PageUpBelow(newsz, a);
      }
    }

    /** allocuvm: from oldsz up to newsz bytes. On success exactly the new zeroed pages appear; out of frames at page
        `a`, the memory is as it was; out of entries, the process is killed. If 16 pages were resident and 16 more had
        been added when the frames ran out, no page is left resident. */
    method AllocUvm(oldsz: nat, newsz: nat, zero: Page, junk: Page, busy: nat -> bool) returns (r: nat, full: bool, ghost a: nat)
      requires Valid()
      requires forall v :: PageUp(oldsz) <= v < PageUp(newsz) ==> Unmapped(pgdir, v)
      modifies this`pgdir, this`pages, this`offsets, this`headp, this`physPages, this`file, this`fileSize, this`order, this`killed, mem
      ensures killed <==> old(killed) || full
      ensures full ==> r == oldsz <= newsz < KERNBASE && !busy(a) && old(|Used(pages)|) + (a - PageUp(oldsz)) == MAX_TOTAL_PAGES
      ensures !full ==> Valid() && Footprint(old(St()), St())
      ensures newsz >= KERNBASE ==> !full && r == 0 && Space(St()) == old(Space(St()))
      ensures newsz < KERNBASE && newsz < oldsz ==> !full && r == oldsz && Space(St()) == old(Space(St()))
      ensures oldsz <= newsz < KERNBASE ==>
        PageUp(oldsz) <= a <= PageUp(newsz) && (a == PageUp(newsz) || full || r == 0) && forall v :: PageUp(oldsz) <= v < a ==> !busy(v)
      ensures !full && oldsz <= newsz < KERNBASE && a == PageUp(newsz) ==>
        && r == newsz && Space(St()) == old(Space(St())) + ZeroPages(PageUp(oldsz), PageUp(newsz), zero)
        && |Used(pages)| == old(|Used(pages)|) + (a - PageUp(oldsz))
        && (old(physPages) <= MAX_PHYS_PAGES ==> physPages == Limited(old(physPages) + (a - PageUp(oldsz))))
      ensures !full && oldsz <= newsz < KERNBASE && a < PageUp(newsz) ==>
        && r == 0 && Space(St()) == old(Space(St()))
        && (!busy(a) && old(physPages) <= MAX_PHYS_PAGES ==>
              old(physPages) + (a - PageUp(oldsz)) < MAX_PHYS_PAGES && old(|mem.free|) == a - PageUp(oldsz))
        && (old(physPages) == MAX_PHYS_PAGES && a == PageUp(oldsz) + MAX_PHYS_PAGES ==> order == [])
    {
      hide Ok, Footprint, MetaOk, Space, Owned, Minus, Outside, ZeroPages, Unmapped, Queue, Pressed, Used;
      ghost var s := St();
      OkMeta(s);
      FootprintSelf(s);
      a, full := PageUp(oldsz), false;
      if newsz >= KERNBASE { return 0, false, a; }
      if newsz < oldsz { return oldsz, false, a; }
      var stop, got;
      ghost var n, x;
      stop, got, n, x := Grow(oldsz, newsz, zero, junk, busy);
      a := stop;
      if got == NoEntry {
        killed := true;
        return oldsz, true, a;
      }
      if got == NoFrame {
        ghost var u := St();
        OkMeta(u);
        var y := DeallocUvm(newsz, oldsz, junk);
        OkMeta(St());
        FootprintTrans(s, u, St());
        NewOutside(s, PageUp(oldsz), PageUp(newsz));
        OutsideUndo(Space(s), PageUp(oldsz), a, PageUp(newsz), zero);
        if s.phys == MAX_PHYS_PAGES && a == PageUp(oldsz) + MAX_PHYS_PAGES {
          PressedOut(u, St(), PageUp(oldsz), PageUp(newsz), n, x);
        }
        return 0, false, a;
      }
      r := newsz;
    }

    /** The program stores into a page of its own that is present; the hardware sets PTE_A. */
    method UserStore(v: nat, x: Page)
      requires Valid() && v in pgdir && pgdir[v].present
      modifies this`pgdir, mem`frames
      ensures Valid() && Space(St()) == Minus(old(Space(St())), v) + {(v, x)} && Footprint(old(St()), St())
      ensures pgdir == old(pgdir)[v := old(pgdir)[v].(accessed := true)]
    {
      hide Ok, Footprint, MetaOk, Space, Owned, Minus;
      ghost var s := St();
      OkMeta(s);
      ghost var k := PresentEntry(s, v);
      StoreOk(s, order[k], v, x);
      mem.frames := mem.frames[pgdir[v].frame := x];
      pgdir := pgdir[v := pgdir[v].(accessed := true)];
      OkMeta(St());
    }
  }

  const KERNBASE := 0x8000_0000

  function Limited(pages: int): int { if pages < MAX_PHYS_PAGES then pages else MAX_PHYS_PAGES }

  lemma StartPressed(s: View, lo: nat, hi: nat)
    requires Ok(s) && forall v :: lo <= v < hi ==> Unmapped(s.pgdir, v)
    ensures s.phys == |s.order| && Pressed(Queue(s), s.pgdir, lo, hi, |s.order|, 0)
  {
    forall v | lo <= v < hi && v in s.pgdir ensures !s.pgdir[v].present { assert Unmapped(s.pgdir, v); }
    PressStart(s, lo, hi);
  }

  /** Entries, resident pages, frames and queue when the pages from lo to a have been added. */
  ghost predicate GrownBy(s: View, t: View, lo: nat, hi: nat, a: nat, n: nat, x: nat) {
    && |Used(t.pages)| == |Used(s.pages)| + (a - lo)
    && (s.phys <= MAX_PHYS_PAGES ==> t.phys == Limited(s.phys + (a - lo)))
    && (s.phys + (a - lo) <= MAX_PHYS_PAGES ==> |t.free| == |s.free| - (a - lo))
    && (s.phys == MAX_PHYS_PAGES ==>
          Pressed(Queue(t), t.pgdir, lo, hi, n, x) && (n > 0 ==> n - x == MAX_PHYS_PAGES - (a - lo)))
  }

  lemma GrownNone(s: View, lo: nat, hi: nat)
    requires s.phys == |s.order| && Pressed(Queue(s), s.pgdir, lo, hi, |s.order|, 0)
    ensures GrownBy(s, s, lo, hi, lo, |s.order|, 0)
  {}

  /** Pages lo to a have been added, zeroed, to state s, and none after them. */
  ghost predicate Growing(s: View, t: View, lo: nat, hi: nat, a: nat, zero: Page, n: nat, x: nat) {
    && MetaOk(s) && MetaOk(t) && Footprint(s, t) && Space(t) == Space(s) + ZeroPages(lo, a, zero)
    && (forall v :: a <= v < hi ==> Unmapped(t.pgdir, v))
    && GrownBy(s, t, lo, hi, a, n, x)
  }

  /** The same, when there was no frame for page a: other processors had them all, or with room for more pages
      all the frames there were are in use. At the limit a page has been evicted for it. */
  ghost predicate Starved(s: View, t: View, lo: nat, hi: nat, a: nat, zero: Page, n: nat, x: nat, busy: bool) {
    && MetaOk(s) && MetaOk(t) && Footprint(s, t) && Space(t) == Space(s) + ZeroPages(lo, a, zero)
    && (!busy && s.phys <= MAX_PHYS_PAGES ==> s.phys + (a - lo) < MAX_PHYS_PAGES && |s.free| == a - lo)
    && (s.phys == MAX_PHYS_PAGES ==>
          Pressed(Queue(t), t.pgdir, lo, hi, n, x) && (n > 0 ==> n - x == MAX_PHYS_PAGES - (a - lo) - 1))
  }

  lemma GrowingNone(s: View, lo: nat, hi: nat, zero: Page)
    requires Ok(s) && forall v :: lo <= v < hi ==> Unmapped(s.pgdir, v)
    ensures Growing(s, s, lo, hi, lo, zero, |s.order|, 0)
  {
    hide Pressed, Queue, Used, Unmapped, Space, Ok, MetaOk, GrownBy;
    OkMeta(s);
    FootprintSelf(s);
    ZeroNone(lo, zero);
    StartPressed(s, lo, hi);
    GrownNone(s, lo, hi);
  }

  lemma GrownFacts(s: View, t: View, lo: nat, hi: nat, a: nat, n: nat, x: nat)
    requires GrownBy(s, t, lo, hi, a, n, x) && lo <= a
    ensures |Used(t.pages)| == |Used(s.pages)| + (a - lo)
    ensures s.phys <= MAX_PHYS_PAGES ==> t.phys == Limited(s.phys + (a - lo))
    ensures s.phys <= MAX_PHYS_PAGES && t.phys < MAX_PHYS_PAGES && t.free == {} ==>
      s.phys + (a - lo) < MAX_PHYS_PAGES && |s.free| == a - lo
    ensures s.phys == MAX_PHYS_PAGES ==>
      t.phys == MAX_PHYS_PAGES && Pressed(Queue(t), t.pgdir, lo, hi, n, x) && (n > 0 ==> n - x == MAX_PHYS_PAGES - (a - lo))
  {
    hide Pressed, Queue, Used;
  }

  lemma GrownNext(s: View, t: View, u: View, lo: nat, hi: nat, a: nat, n: nat, x: nat, n': nat, x': nat)
    requires GrownBy(s, t, lo, hi, a, n, x) && lo <= a
    requires |Used(u.pages)| == |Used(t.pages)| + 1
    requires u.phys == if t.phys < MAX_PHYS_PAGES then t.phys + 1 else t.phys
    requires t.phys < MAX_PHYS_PAGES ==> |u.free| == |t.free| - 1
    requires s.phys == MAX_PHYS_PAGES ==>
      Pressed(Queue(u), u.pgdir, lo, hi, n', x') && (n' > 0 ==> n' - x' == MAX_PHYS_PAGES - (a - lo) - 1)
    ensures GrownBy(s, u, lo, hi, a + 1, n', x')
  {
    hide Pressed, Queue, Used;
  }

  /** One round of allocuvm at the limit: an eviction, and page v at the tail if it got a frame. */
  lemma PressRound(t: View, u: View, q: seq<int>, p: map<nat, Pte>, c: nat, k: nat, v: nat, lo: nat, hi: nat, n: nat, x: nat, fresh': bool)
    returns (n': nat, x': nat)
    requires Pressed(Queue(t), t.pgdir, lo, hi, n, x) && Evicts(Queue(t), t.pgdir, q, p, c, k) && lo <= v < hi
    requires if fresh' then Queue(u) == q + [v] && v in u.pgdir && !u.pgdir[v].accessed && u.pgdir == p[v := u.pgdir[v]] else Queue(u) == q && u.pgdir == p
    ensures Pressed(Queue(u), u.pgdir, lo, hi, n', x') && (n' > 0 ==> n > 0 && n' - x' == n - x - 1)
  {
    hide Queue, Evicts, Pressed;
    n', x' := PressEvict(Queue(t), t.pgdir, q, p, c, k, lo, hi, n, x);
    if fresh' { PressAdd(q, p, u.pgdir, v, lo, hi, n', x'); }
  }

  /** When only pages of the range are resident, dropping the range empties the ring. */
  lemma PressedOut(s: View, t: View, lo: nat, hi: nat, n: nat, x: nat)
    requires Ok(s) && Ok(t) && Pressed(Queue(s), s.pgdir, lo, hi, n, x)
    requires n > 0 ==> n - x == -1
    requires t.pgdir.Keys == s.pgdir.Keys
    requires forall v :: v in t.pgdir ==> if lo <= v < hi then Unmapped(t.pgdir, v) else t.pgdir[v] == s.pgdir[v]
    ensures t.order == []
  {
    hide Ok;
    forall v | v in t.pgdir ensures !t.pgdir[v].present {
      if t.pgdir[v].present { PresentQueue(s, v); }
    }
    NonePresent(t);
  }

  lemma OutsideNone(sp: set<(nat, Page)>, lo: nat)
    ensures Outside(sp, lo, lo) == sp
  {}

  lemma OutsideNext(sp: set<(nat, Page)>, lo: nat, a: nat)
    requires lo <= a
    ensures Outside(sp, lo, a + 1) == Minus(Outside(sp, lo, a), a)
  {}

  lemma ZeroNone(lo: nat, zero: Page)
    ensures ZeroPages(lo, lo, zero) == {}
  {}

  lemma ZeroNext(lo: nat, a: nat, zero: Page)
    requires lo <= a
    ensures ZeroPages(lo, a + 1, zero) == ZeroPages(lo, a, zero) + {(a, zero)}
  {}

  /** None of a range of unmapped pages is in the address space. */
  lemma NewOutside(s: View, lo: nat, hi: nat)
    requires MetaOk(s) && forall v :: lo <= v < hi ==> Unmapped(s.pgdir, v)
    ensures forall x :: x in Space(s) ==> !(lo <= x.0 < hi)
  {
    forall x | x in Space(s) ensures !(lo <= x.0 < hi) {
      if lo <= x.0 < hi { UnmappedOutside(s, x.0, x); }
    }
  }

  lemma StoreMeta(s: View, ind: nat, x: Page)
    requires Ok(s) && ind < |s.pages| && Resident(s.pages[ind]) && s.pages[ind].va in s.pgdir
    ensures var t := s.(frames := s.frames[s.pgdir[s.pages[ind].va].frame := x]);
      && Ok(t) && Owned(t) == Owned(s)
      && MetaOkAt(t, ind) && ContentAt(t, ind) == x
      && forall j :: 0 <= j < |s.pages| && j != ind && s.pages[j].taken ==> StoredElsewhere(s, t, ind, j)
  {
    var t := s.(frames := s.frames[s.pgdir[s.pages[ind].va].frame := x]);
    forall j | 0 <= j < |s.pages| ensures MetaOkAt(t, j) { assert MetaOkAt(s, j); }
    forall i, j | 0 <= i < |s.pages| && 0 <= j < |s.pages| && i != j ensures ApartAt(t, i, j) { assert ApartAt(s, i, j); }
    forall j | 0 <= j < |s.pages| && j != ind && s.pages[j].taken ensures StoredElsewhere(s, t, ind, j) {
      assert MetaOkAt(s, j) && MetaOkAt(t, j) && ApartAt(s, j, ind);
    }
  }

  /** Page j is another page and holds what it held. */
  predicate StoredElsewhere(s: View, t: View, ind: nat, j: nat)
    requires ind < |s.pages| && j < |s.pages| && |t.pages| == |s.pages|
  {
    && s.pages[j].va != s.pages[ind].va && s.pages[j].taken && t.pages[j].taken
    && MetaOkAt(s, j) && MetaOkAt(t, j) && ContentAt(t, j) == ContentAt(s, j)
  }

  /** Storing through the page table changes that page and no other. */
  lemma StoreOk(s: View, ind: nat, v: nat, x: Page)
    requires Ok(s) && ind < |s.pages| && Resident(s.pages[ind]) && s.pages[ind].va == v && v in s.pgdir
    ensures var t := s.(frames := s.frames[s.pgdir[v].frame := x], pgdir := s.pgdir[v := s.pgdir[v].(accessed := true)]);
      && Ok(t) && Space(t) == Minus(Space(s), v) + {(v, x)} && Footprint(s, t)
      && (s.free <= s.frames.Keys ==> t.free <= t.frames.Keys)
  {
    var p := s.pgdir[v := s.pgdir[v].(accessed := true)];
    AccessedOnly(s, p);
    var a := s.(pgdir := p);
    StoreMeta(a, ind, x);
    var t := a.(frames := s.frames[s.pgdir[v].frame := x]);
    assert MetaOkAt(s, ind) && s.pgdir[v].frame in Owned(s);
    StoreSpace(a, t, ind, x);
  }

  lemma StoreSpace(s: View, t: View, ind: nat, x: Page)
    requires MetaOk(s) && MetaOk(t) && t.pages == s.pages && ind < |s.pages| && s.pages[ind].taken
    requires MetaOkAt(t, ind) && ContentAt(t, ind) == x
    requires forall j :: 0 <= j < |s.pages| && j != ind && s.pages[j].taken ==> StoredElsewhere(s, t, ind, j)
    ensures Space(t) == Minus(Space(s), s.pages[ind].va) + {(s.pages[ind].va, x)}
  {
    var v := s.pages[ind].va;
    forall y ensures y in Space(t) <==> (y in Space(s) && y.0 != v) || y == (v, x) {
      if y in Space(s) && y.0 != v {
        var j :| 0 <= j < |s.pages| && s.pages[j].taken && y == (s.pages[j].va, ContentAt(s, j));
        assert StoredElsewhere(s, t, ind, j);
      }
      if y == (v, x) { assert t.pages[ind].taken && y == (t.pages[ind].va, ContentAt(t, ind)); }
      if y in Space(t) {
        var j :| 0 <= j < |t.pages| && t.pages[j].taken && y == (t.pages[j].va, ContentAt(t, j));
        if j != ind { assert StoredElsewhere(s, t, ind, j); }
      }
    }
  }

  /** A present entry of the page table is on the ring. */
  lemma PresentEntry(s: View, v: nat) returns (k: nat)
    requires Ok(s) && v in s.pgdir && s.pgdir[v].present
    ensures k < |s.order| && 0 <= s.order[k] < |s.pages| && Resident(s.pages[s.order[k]])
    ensures s.pages[s.order[k]].pte == PteRef(s.dir, v) && s.pages[s.order[k]].va == v
  {
    assert HasMeta(s.pages, v);
    var ind :| 0 <= ind < |s.pages| && s.pages[ind].taken && s.pages[ind].va == v;
    assert MetaOkAt(s, ind);
    assert ind in s.order;
    k :| 0 <= k < |s.order| && s.order[k] == ind;
  }

  lemma ResidentFootprint(s: View, ind: nat, k: nat, junk: Page)
    requires Ok(s) && ind < |s.pages| && s.pages[ind].va in s.pgdir && LinksInRange(s.pages, ind) && k < |s.order| && Resident(s.pages[ind])
    requires Ok(RemovedResident(s, ind, k, junk))
    requires Owned(RemovedResident(s, ind, k, junk)) == Owned(s) - {s.pgdir[s.pages[ind].va].frame}
    ensures Footprint(s, RemovedResident(s, ind, k, junk))
    ensures s.free <= s.frames.Keys ==> RemovedResident(s, ind, k, junk).free <= RemovedResident(s, ind, k, junk).frames.Keys
  {
    assert MetaOkAt(s, ind);
    assert s.pgdir[s.pages[ind].va].frame in Owned(s);
  }

  /** The queue after remove_page: the others in their order. */
  lemma QueueRemoved(s: View, ind: nat, k: nat, junk: Page)
    requires Ok(s) && ind < |s.pages| && s.pages[ind].va in s.pgdir && LinksInRange(s.pages, ind) && k < |s.order| && s.order[k] == ind
    ensures Queue(RemovedResident(s, ind, k, junk)) == Beyond(Queue(s), s.pages[ind].va, s.pages[ind].va + 1)
  {
    hide Unlinked, IsRing, MetaOk, Tracked, SlotsOk;
    var c, t := CoreRemove(s, ind), RemovedResident(s, ind, k, junk);
    UnlinkedLinks(c.pages, ind);
    forall j | 0 <= j < |s.pages| ensures t.pages[j].va == s.pages[j].va { assert SameCore(c.pages[j], Unlinked(c.pages, ind)[j]); }
    assert |t.pages| == |s.pages|;
    assert Queue(t) == Without(Queue(s), k);
    forall j | 0 <= j < |s.order| && j != k ensures Queue(s)[j] != s.pages[ind].va { QueueApart(s, j, k); }
    BeyondOne(Queue(s), k);
  }

  lemma QueueApart(s: View, j: nat, k: nat)
    requires Ok(s) && j < |s.order| && k < |s.order| && j != k
    ensures Queue(s)[j] != Queue(s)[k]
  {
    assert s.order[j] in s.order && s.order[k] in s.order;
    assert s.order[j] != s.order[k];
    assert ApartAt(s, s.order[j], s.order[k]);
  }

  lemma QueueSlotGone(s: View, ind: nat, e: nat)
    requires Ok(s) && ind < |s.pages| && Swapped(s.pages[ind]) && s.pages[ind].va in s.pgdir && e < |s.offsets|
    ensures Queue(RemovedSwapped(s, ind, e)) == Queue(s)
  {
    hide MetaOk, Apart, Tracked, SlotsOk, RingOk;
  }

  lemma NotQueued(s: View, v: nat)
    requires Ok(s) && (v in s.pgdir ==> !s.pgdir[v].present)
    ensures Beyond(Queue(s), v, v + 1) == Queue(s)
  {
    hide Ok, Queue, Beyond;
    PresentQueue(s, v);
    BeyondSame(Queue(s), v, v + 1);
  }

  lemma SameFootprint(s: View, t: View)
    requires MetaOk(s) && MetaOk(t) && Owned(t) == Owned(s) && t.frames == s.frames && t.free == s.free && t.dir == s.dir
    ensures Footprint(s, t)
  {}

  /** A page that is neither present nor paged out is in no table. */
  lemma NotThere(s: View, v: nat)
    requires Ok(s) && Unmapped(s.pgdir, v)
    ensures Minus(Space(s), v) == Space(s)
  {
    forall x | x in Space(s) ensures x.0 != v { UnmappedOutside(s, v, x); }
  }

  lemma EntryFacts(s: View, ind: nat)
    requires Ok(s) && ind < |s.pages| && s.pages[ind].taken
    ensures s.pages[ind].onPhys ==> s.pages[ind].offset == -1
    ensures !s.pages[ind].onPhys ==> s.pages[ind].offset >= 0 && |s.offsets| == MAX_SWAP_FILE_SZ
    ensures !s.pages[ind].onPhys ==>
      exists j :: 0 <= j < MAX_SWAP_FILE_SZ && s.offsets[j] == TAKEN_OFFSET
  {
    assert MetaOkAt(s, ind);
    if !s.pages[ind].onPhys { TakenEntryExists(s.pages, s.offsets, |s.file|, ind); }
  }

  // ---- Ranges of pages ----

  /** PGROUNDUP, in pages. */
  function PageUp(bytes: nat): nat { (bytes + PGSIZE - 1) / PGSIZE }

  lemma PageUpBelow(bytes: nat, a: nat)
    ensures a * PGSIZE < bytes <==> a < PageUp(bytes)
  {}

  lemma PageUpGrows(a: nat, b: nat)
    requires a <= b
    ensures PageUp(a) <= PageUp(b)
  {}

  /** Zeroed pages lo, lo + 1, ..., hi - 1. */
  ghost function ZeroPages(lo: nat, hi: nat, zero: Page): set<(nat, Page)>
    decreases hi
  {
    if hi <= lo then {} else ZeroPages(lo, hi - 1, zero) + {(hi - 1, zero)}
  }

  /** The address space outside pages lo..hi. */
  ghost function Outside(sp: set<(nat, Page)>, lo: nat, hi: nat): set<(nat, Page)> {
    set x | x in sp && !(lo <= x.0 < hi)
  }

  lemma {:induction false} ZeroPagesIn(lo: nat, hi: nat, zero: Page, x: (nat, Page))
    ensures x in ZeroPages(lo, hi, zero) ==> lo <= x.0 < hi
    decreases hi
  {
    if lo < hi { ZeroPagesIn(lo, hi - 1, zero, x); }
  }

  /** Undoing a growth: nothing of the new range was there before. */
  lemma OutsideUndo(sp: set<(nat, Page)>, lo: nat, mid: nat, hi: nat, zero: Page)
    requires mid <= hi && forall x :: x in sp ==> !(lo <= x.0 < hi)
    ensures Outside(sp + ZeroPages(lo, mid, zero), lo, hi) == sp
  {
    forall x ensures x in Outside(sp + ZeroPages(lo, mid, zero), lo, hi) <==> x in sp {
      ZeroPagesIn(lo, mid, zero, x);
    }
  }

  /** Unmapped pages are not in the address space. */
  lemma UnmappedOutside(s: View, v: nat, x: (nat, Page))
    requires MetaOk(s) && Unmapped(s.pgdir, v) && x in Space(s)
    ensures x.0 != v
  {
    var i :| 0 <= i < |s.pages| && s.pages[i].taken && x == (s.pages[i].va, ContentAt(s, i));
    UnmappedUntracked(s, v, i);
  }

  datatype Alloc = Fresh | NoFrame | NoEntry

  predicate AddDefined(s: View, ind: nat) {
    ind < |s.pages| && (s.headp != -1 ==> LinksInRange(s.pages, s.headp) && ind != s.headp)
  }

  lemma OkSizes(s: View)
    requires Ok(s)
    ensures |s.pages| == MAX_TOTAL_PAGES && |s.offsets| == MAX_SWAP_FILE_SZ
  {}

  lemma UntrackedRef(s: View, v: nat, ind: nat)
    requires MetaOk(s) && Unmapped(s.pgdir, v) && ind < |s.pages|
    ensures !(s.pages[ind].taken && s.pages[ind].pte == PteRef(s.dir, v))
  {
    assert MetaOkAt(s, ind);
  }

  lemma QueueAdded(s: View, ind: nat, v: nat, f: nat, zero: Page)
    requires CanAdd(s, ind, v, f) && AddDefined(s, ind)
    ensures var t := Added(s, ind, v, f, zero); Queue(t) == Queue(s) + [v] && |Used(t.pages)| == |Used(s.pages)| + 1
  {
    hide LinkedLast, MetaOk, Apart, Tracked, SlotsOk, IsRing, Used;
    var c, t := CoreAdd(s, ind, v, f, zero).pages, Added(s, ind, v, f, zero);
    AddRing(s, ind, v, f, zero);
    forall j | 0 <= j < |c| ensures t.pages[j].va == c[j].va && t.pages[j].taken == c[j].taken { assert SameCore(c[j], t.pages[j]); }
    forall k | 0 <= k < |s.order| ensures Queue(t)[k] == Queue(s)[k] { assert s.order[k] in s.order; }
    UsedAdd(s.pages, t.pages, ind);
  }

  lemma AddFootprint(s: View, ind: nat, v: nat, f: nat, zero: Page)
    requires CanAdd(s, ind, v, f) && AddDefined(s, ind) && s.free <= s.frames.Keys
    requires Ok(Added(s, ind, v, f, zero)) && Owned(Added(s, ind, v, f, zero)) == Owned(s) + {f}
    ensures Footprint(s, Added(s, ind, v, f, zero))
    ensures var t := Added(s, ind, v, f, zero);
      && t.free <= t.frames.Keys && t.file == s.file && t.phys == s.phys + 1 && t.free == s.free - {f}
      && t.pgdir == s.pgdir[v := Pte(true, false, false, f)]
  {
    hide LinkedLast, Apart, Tracked, SlotsOk, RingOk, MetaOkAt, Owned;
  }

  /** What a page fault comes to; BadRing is the unguarded use of headp == -1 as an index. */
  datatype Fault = PanicPresent | SegFault | NoMemory | BadRing | Served

  lemma OkMeta(s: View)
    requires Ok(s)
    ensures MetaOk(s)
  {}

  lemma RingSize(s: View)
    requires Ok(s)
    ensures s.phys == |s.order| && (s.headp == -1 <==> s.order == [])
  {
    if s.order != [] { assert s.order[0] in s.order; }
  }

  predicate InDefined(s: View, ind: nat, e: nat) {
    && ind < |s.pages| && Slot(s.pages[ind].offset, |s.file|) && e < |s.offsets|
    && LinksInRange(s.pages, s.headp) && ind != s.headp
  }

  lemma InFacts(s: View, ind: nat)
    requires Ok(s) && ind < |s.pages| && Swapped(s.pages[ind]) && s.order != []
    ensures |s.pages| == MAX_TOTAL_PAGES && |s.offsets| == MAX_SWAP_FILE_SZ
    ensures Slot(s.pages[ind].offset, |s.file|) && s.pages[ind].va in s.pgdir
    ensures LinksInRange(s.pages, s.headp) && ind != s.headp
    ensures exists j :: 0 <= j < MAX_SWAP_FILE_SZ && s.offsets[j] == TAKEN_OFFSET
  {
    assert MetaOkAt(s, ind);
    RingRange(s, 0);
    assert s.order[0] in s.order;
    TakenEntryExists(s.pages, s.offsets, |s.file|, ind);
  }

  lemma SameIndex(s: View, ind0: nat, ind: int)
    requires Ok(s) && ind0 < |s.pages| == MAX_TOTAL_PAGES && s.pages[ind0].taken && -1 <= ind < MAX_TOTAL_PAGES
    requires ind >= 0 ==> s.pages[ind].pte == s.pages[ind0].pte && s.pages[ind].taken
    requires ind == -1 ==> forall j :: 0 <= j < MAX_TOTAL_PAGES ==> !(s.pages[j].pte == s.pages[ind0].pte && s.pages[j].taken)
    ensures ind == ind0
  {
    if ind >= 0 { OneEntry(s, ind, ind0); }
  }

  /** A paged-out entry of the page table has its metadata. */
  lemma PagedEntry(s: View, v: nat) returns (ind: nat)
    requires Ok(s) && v in s.pgdir && s.pgdir[v].paged && !s.pgdir[v].present
    ensures ind < |s.pages| && Swapped(s.pages[ind]) && s.pages[ind].pte == PteRef(s.dir, v) && s.pages[ind].va == v
  {
    assert HasMeta(s.pages, v);
    ind :| 0 <= ind < |s.pages| && s.pages[ind].taken && s.pages[ind].va == v;
    assert MetaOkAt(s, ind);
  }

  lemma InFootprint(s: View, ind: nat, f: nat, e: nat)
    requires CanComeIn(s, ind, f, e) && InDefined(s, ind, e) && s.free <= s.frames.Keys
    requires Ok(SwappedIn(s, ind, f, e)) && Owned(SwappedIn(s, ind, f, e)) == Owned(s) + {f}
    ensures Footprint(s, SwappedIn(s, ind, f, e))
    ensures var t := SwappedIn(s, ind, f, e);
      t.free <= t.frames.Keys && t.pgdir == s.pgdir[s.pages[ind].va := Pte(true, false, false, f)] && t.file == s.file
  {
    hide LinkedLast, Apart, Tracked, SlotsOk, RingOk, MetaOkAt, Owned;
  }

  /** The page that comes in is the last of the queue. */
  lemma QueueIn(s: View, ind: nat, f: nat, e: nat)
    requires CanComeIn(s, ind, f, e) && InDefined(s, ind, e) && s.order != []
    ensures var t := SwappedIn(s, ind, f, e); Queue(t) == Queue(s) + [s.pages[ind].va] && Used(t.pages) == Used(s.pages)
  {
    hide LinkedLast, MetaOk, Apart, Tracked, SlotsOk, IsRing;
    var c, t := CoreIn(s, ind, f, e).pages, SwappedIn(s, ind, f, e);
    InRing(s, ind, f, e);
    forall j | 0 <= j < |c| ensures t.pages[j].va == s.pages[j].va && t.pages[j].taken == s.pages[j].taken { assert SameCore(c[j], t.pages[j]); }
    forall k | 0 <= k < |s.order| ensures Queue(t)[k] == Queue(s)[k] { assert s.order[k] in s.order; }
  }

  lemma RingNotEmpty(s: View)
    requires Ok(s) && s.phys >= 1
    ensures s.order != []
  {}

  lemma OutFields(s: View, ind: nat, i: nat, k: nat)
    requires Ok(s) && OutDefined(s, ind, i, k) && Resident(s.pages[ind])
    ensures var t, v := SwappedOut(s, ind, i, k), s.pages[ind].va;
      && t.pgdir == s.pgdir[v := s.pgdir[v].(present := false, paged := true)]
      && t.frames == s.frames && t.free == s.free && t.phys == s.phys - 1 && t.dir == s.dir
      && |t.pages| == |s.pages| && forall j :: 0 <= j < |s.pages| ==> t.pages[j].taken == s.pages[j].taken
  {
    hide Unlinked, Ok;
    var c, t := CoreOut(s, ind, i), SwappedOut(s, ind, i, k);
    UnlinkedLinks(c.pages, ind);
    forall j | 0 <= j < |s.pages| ensures t.pages[j].taken == s.pages[j].taken {
      assert SameCore(c.pages[j], Unlinked(c.pages, ind)[j]);
    }
  }

  lemma VictimOwned(s: View, ind: nat)
    requires MetaOk(s) && ind < |s.pages| && Resident(s.pages[ind]) && s.pages[ind].va in s.pgdir
    ensures s.pgdir[s.pages[ind].va].frame in Owned(s)
  {
    assert MetaOkAt(s, ind);
  }

  /** An eviction drops no entry of the page table, maps no page, and leaves what was paged out there. */
  ghost predicate EvictKeeps(p: map<nat, Pte>, q: map<nat, Pte>) {
    && (forall v :: Unmapped(p, v) ==> Unmapped(q, v))
    && (forall v :: v in p ==> v in q && (p[v].paged && !p[v].present ==> q[v].paged && !q[v].present))
  }

  lemma OwnedNotInFree(s: View, f: nat)
    requires MetaOk(s) && f in Owned(s)
    ensures f !in s.free
  {}

  /** The entry second chance chooses is the k-th of the ring. */
  lemma ChosenAt(s: View, c: nat, ind: int) returns (k: nat)
    requires Chosen(s.pgdir, s.pages, s.order, c, ind)
    ensures c <= |s.order| && k == (if c < |s.order| then c else 0) && k < |s.order| && ind == s.order[k]
  {
    k := if c < |s.order| then c else 0;
  }

  lemma QueueOut(s: View, ind: nat, i: nat, k: nat)
    requires Ok(s) && OutDefined(s, ind, i, k) && Resident(s.pages[ind]) && s.order[k] == ind
    ensures Queue(SwappedOut(s, ind, i, k)) == Without(Queue(s), k)
    ensures Used(SwappedOut(s, ind, i, k).pages) == Used(s.pages)
  {
    hide Unlinked, Ok;
    var c, t := CoreOut(s, ind, i), SwappedOut(s, ind, i, k);
    UnlinkedLinks(c.pages, ind);
    forall j | 0 <= j < |s.pages| ensures t.pages[j].taken == s.pages[j].taken && t.pages[j].va == s.pages[j].va {
      assert SameCore(c.pages[j], Unlinked(c.pages, ind)[j]);
    }
    assert |t.pages| == |s.pages|;
  }

  /** What get_page_to_swap and swap_to_file do together is one eviction by second chance. */
  lemma EvictsAs(s: View, t: View, c: nat, k: nat)
    requires Ok(s) && k < |s.order| && Chosen(s.pgdir, s.pages, s.order, c, s.order[k]) && k == (if c < |s.order| then c else 0)
    requires 0 <= s.order[k] < |s.pages| && s.pages[s.order[k]].va in ClearA(s.pgdir, s.pages, s.order[..c])
    requires Queue(t) == Without(Queue(s), k)
    requires var p, v := ClearA(s.pgdir, s.pages, s.order[..c]), s.pages[s.order[k]].va;
      t.pgdir == p[v := p[v].(present := false, paged := true)]
    ensures Evicts(Queue(s), s.pgdir, Queue(t), t.pgdir, c, k)
  {
    hide Ok, ClearA;
    forall j | 0 <= j < |s.order| ensures Queue(s)[j] >= 0 && (Acc(t.pgdir, Queue(s)[j]) <==> j >= c && Acc(s.pgdir, Queue(s)[j])) {
      TargetFacts(s, j);
      ClearAExactly(s.pgdir, s.pages, s.order[..c], s.pages[s.order[j]].va);
      forall i | 0 <= i < c ensures (s.pages[s.order[i]].va == s.pages[s.order[j]].va) <==> i == j { QueueDistinct(s, i, j); }
    }
  }

  lemma QueueDistinct(s: View, i: nat, j: nat)
    requires Ok(s) && i < |s.order| && j < |s.order|
    ensures 0 <= s.order[i] < |s.pages| && 0 <= s.order[j] < |s.pages|
    ensures s.pages[s.order[i]].va == s.pages[s.order[j]].va <==> i == j
  {
    assert s.order[i] in s.order && s.order[j] in s.order;
    if i != j { assert ApartAt(s, s.order[i], s.order[j]); }
  }

  lemma EvictFootprint(s: View, t: View, f: nat, junk: Page)
    requires MetaOk(s) && MetaOk(t) && MetaOk(FrameFreed(t, f, junk)) && f in Owned(s)
    requires Owned(t) == Owned(s) - {f} && t.frames == s.frames && t.free == s.free && t.dir == s.dir
    requires Owned(FrameFreed(t, f, junk)) == Owned(t)
    ensures Footprint(s, FrameFreed(t, f, junk))
  {
    hide Owned, MetaOk;
  }

  /** The parts of a swap-out, as the code assigns them. */
  lemma OutUse(s: View, ind: nat, i: nat, k: nat)
    requires Ok(s) && k < |s.order| && s.order[k] == ind && FirstFree(s.offsets, i)
    ensures CanGoOut(s, ind, i) && OutDefined(s, ind, i, k)
    ensures s.offsets[i] >= 0 && s.offsets[i] % PGSIZE == 0 && s.offsets[i] <= |s.file| * PGSIZE
    ensures var t := SwappedOut(s, ind, i, k);
      && t.dir == s.dir && t.frames == s.frames && t.free == s.free
      && t.offsets == s.offsets[i := TAKEN_OFFSET]
      && t.file == PutPage(s.file, s.offsets[i], s.frames[s.pgdir[s.pages[ind].va].frame])
      && |t.file| * PGSIZE == (if s.offsets[i] + PGSIZE > |s.file| * PGSIZE then s.offsets[i] + PGSIZE else |s.file| * PGSIZE)
      && t.pgdir == s.pgdir[s.pages[ind].va := s.pgdir[s.pages[ind].va].(present := false, paged := true)]
      && t.phys == s.phys - 1 && t.order == Without(s.order, k)
      && var c := s.pages[ind := s.pages[ind].(offset := s.offsets[i], onPhys := false)];
      && var q := Unlinked(c, ind);
      && t.pages == (if s.headp == ind then q[ind := q[ind].(nextp := -1, prevp := -1)] else q)
      && t.headp == if s.headp != ind then s.headp else if q[ind].nextp == ind then -1 else q[ind].nextp
  {
    TargetFacts(s, k);
    OutOk(s, ind, i, k);
    NoHoles(s.pages, s.offsets, |s.file|, i);
  }

  lemma TargetFacts(s: View, k: nat)
    requires Ok(s) && k < |s.order|
    ensures 0 <= s.order[k] < |s.pages| == MAX_TOTAL_PAGES && Resident(s.pages[s.order[k]]) && LinksInRange(s.pages, s.order[k])
    ensures s.pages[s.order[k]].pte == PteRef(s.dir, s.pages[s.order[k]].va) && s.pages[s.order[k]].va in s.pgdir
    ensures s.pgdir[s.pages[s.order[k]].va].frame in s.frames
    ensures s.pgdir[s.pages[s.order[k]].va].present && !s.pgdir[s.pages[s.order[k]].va].paged
    ensures |s.offsets| == MAX_SWAP_FILE_SZ
  {
    ScanRing(s, k);
    RingRange(s, k);
    assert MetaOkAt(s, s.order[k]);
  }

  lemma OneEntry(s: View, i: nat, j: nat)
    requires Ok(s) && i < |s.pages| && j < |s.pages| && s.pages[i].taken && s.pages[j].taken && s.pages[i].pte == s.pages[j].pte
    ensures i == j
  {
    assert MetaOkAt(s, i) && MetaOkAt(s, j);
    assert i != j ==> ApartAt(s, i, j);
  }

  /** A page has one entry, so the scan finds the right one. */
  lemma SameEntry(s: View, k: nat, ind: int)
    requires Ok(s) && k < |s.order| && 0 <= s.order[k] < |s.pages| == MAX_TOTAL_PAGES && -1 <= ind < MAX_TOTAL_PAGES
    requires ind >= 0 ==> s.pages[ind].pte == s.pages[s.order[k]].pte && s.pages[ind].taken
    requires ind == -1 ==> forall j :: 0 <= j < MAX_TOTAL_PAGES ==> !(s.pages[j].pte == s.pages[s.order[k]].pte && s.pages[j].taken)
    ensures ind == s.order[k]
  {
    TargetFacts(s, k);
    if ind >= 0 { OneEntry(s, ind, s.order[k]); }
  }

  /** At the c-th entry of the ring: following nextp comes back to headp only after the whole ring. */
  lemma ScanRing(s: View, c: nat)
    requires RingOk(s.pages, s.order, s.headp) && c < |s.order|
    ensures 0 <= s.order[c] < |s.pages| && Resident(s.pages[s.order[c]])
    ensures s.pages[s.order[c]].nextp == s.order[Succ(c, |s.order|)]
    ensures s.headp == s.order[0] && (s.order[Succ(c, |s.order|)] == s.headp <==> c + 1 == |s.order|)
    ensures forall j :: 0 <= j < c ==> 0 <= s.order[j] < |s.pages| && Resident(s.pages[s.order[j]]) && s.order[j] != s.order[c]
  {
    assert s.order[c] in s.order;
    assert Nexts(s.pages)[s.order[c]] == s.pages[s.order[c]].nextp;
    forall j | 0 <= j < c ensures 0 <= s.order[j] < |s.pages| && Resident(s.pages[s.order[j]]) && s.order[j] != s.order[c] {
      assert s.order[j] in s.order;
    }
  }

  /** What the scan relies on at the c-th entry: the page is resident (its panic cannot happen)
      and its accessed bit has not been touched yet. */
  lemma ScanFacts(s: View, c: nat)
    requires Ok(s) && c < |s.order|
    ensures 0 <= s.order[c] < |s.pages| && s.pages[s.order[c]].onPhys
    ensures s.pages[s.order[c]].pte == PteRef(s.dir, s.pages[s.order[c]].va)
    ensures s.pages[s.order[c]].va in s.pgdir && s.pages[s.order[c]].va in ClearA(s.pgdir, s.pages, s.order[..c])
    ensures ClearA(s.pgdir, s.pages, s.order[..c])[s.pages[s.order[c]].va].accessed == s.pgdir[s.pages[s.order[c]].va].accessed
    ensures var v := s.pages[s.order[c]].va;
      ClearA(s.pgdir, s.pages, s.order[..c + 1]) ==
        ClearA(s.pgdir, s.pages, s.order[..c])[v := ClearA(s.pgdir, s.pages, s.order[..c])[v].(accessed := false)]
    ensures s.pages[s.order[c]].nextp == s.order[Succ(c, |s.order|)]
    ensures s.headp == s.order[0] && (s.order[Succ(c, |s.order|)] == s.headp <==> c + 1 == |s.order|)
  {
    hide RingOk, SlotsOk, Tracked;
    var i := s.order[c];
    ScanRing(s, c);
    assert MetaOkAt(s, i);
    assert s.order[..c + 1][..c] == s.order[..c];
    ClearAExactly(s.pgdir, s.pages, s.order[..c], s.pages[i].va);
    forall j | 0 <= j < c ensures s.pages[s.order[j]].va != s.pages[i].va {
      assert ApartAt(s, s.order[j], i);
    }
  }

  lemma FreshOk(s: View)
    requires s.pgdir == map[] && s.headp == -1 && s.order == [] && s.phys == 0 && s.file == []
    requires |s.pages| == MAX_TOTAL_PAGES && |s.offsets| == MAX_SWAP_FILE_SZ
    requires forall j :: 0 <= j < |s.pages| ==> s.pages[j] == Meta(PteRef(0, 0), 0, -1, false, false, -1, -1)
    requires forall j :: 0 <= j < |s.offsets| ==> s.offsets[j] == j * PGSIZE
    ensures Ok(s) && Space(s) == {} && Owned(s) == {}
  {
    forall i | 0 <= i < |s.pages| ensures MetaOkAt(s, i) {}
    forall k | 0 <= k < MAX_SWAP_FILE_SZ ensures k * PGSIZE in s.offsets { assert s.offsets[k] == k * PGSIZE; }
  }
}

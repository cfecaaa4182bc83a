/** One process's paging state (`proc.h`, `swap.c`, `vm.c`): page table, page metadata, swap-slot
    table, SCFIFO ring, swap file and the physical frames, and when together they represent
    one address space. */
module SwapState {
  import opened Ring
  import opened Counting

  const MAX_PHYS_PAGES := 16
  const MAX_TOTAL_PAGES := 32
  const MAX_SWAP_FILE_SZ := 17
  const PGSIZE := 4096
  const TAKEN_OFFSET := -1

  type Page = seq<int>

  /** A pointer to a page-table entry: which page table, which virtual page. */
  datatype PteRef = PteRef(dir: nat, vpn: nat)

  /** PTE_P, PTE_PG, PTE_A and the frame number of an entry. */
  datatype Pte = Pte(present: bool, paged: bool, accessed: bool, frame: nat)

  datatype Meta = Meta(pte: PteRef, va: nat, offset: int, onPhys: bool, taken: bool, nextp: int, prevp: int)

  /** `file` holds the swap file page by page, so its inode size is |file| * PGSIZE.
      `frames` is physical memory, `free` the frames kalloc may hand out.
      `order` lists the ring once around from headp. */
  datatype View = View(dir: nat, pgdir: map<nat, Pte>, pages: seq<Meta>, offsets: seq<int>, headp: int,
                       order: seq<int>, phys: int, file: seq<Page>, frames: map<nat, Page>, free: set<nat>)

  predicate Resident(m: Meta) { m.taken && m.onPhys }

  predicate Swapped(m: Meta) { m.taken && !m.onPhys }

  /** The byte offset of a page-sized slot below n pages. */
  predicate Slot(o: int, n: nat) { 0 <= o < n * PGSIZE && o % PGSIZE == 0 }

  // ---- Metadata against page table ----

  predicate MetaOkAt(s: View, i: nat)
    requires i < |s.pages|
  {
    var m := s.pages[i];
    && (m.taken ==> m.pte == PteRef(s.dir, m.va) && m.va in s.pgdir)
    && (Resident(m) ==>
          && s.pgdir[m.va].present && !s.pgdir[m.va].paged && m.offset == -1
          && s.pgdir[m.va].frame in s.frames && s.pgdir[m.va].frame !in s.free)
    && (Swapped(m) ==> !s.pgdir[m.va].present && s.pgdir[m.va].paged && Slot(m.offset, |s.file|))
    && (!m.taken ==> m.offset == -1 && !m.onPhys)
  }

  predicate MetaOk(s: View) {
    |s.pages| == MAX_TOTAL_PAGES && forall i :: 0 <= i < |s.pages| ==> MetaOkAt(s, i)
  }

  /** Two tracked pages are different pages; two resident ones are in different frames. */
  predicate ApartAt(s: View, i: nat, j: nat)
    requires i < |s.pages| && j < |s.pages|
  {
    var m, n := s.pages[i], s.pages[j];
    && (m.taken && n.taken ==> m.va != n.va)
    && (Resident(m) && Resident(n) && m.va in s.pgdir && n.va in s.pgdir ==>
          s.pgdir[m.va].frame != s.pgdir[n.va].frame)
    && (Swapped(m) && Swapped(n) ==> m.offset != n.offset)
  }

  predicate Apart(s: View) {
    forall i, j :: 0 <= i < |s.pages| && 0 <= j < |s.pages| && i != j ==> ApartAt(s, i, j)
  }

  /** Every mapped user page is tracked. */
  predicate Tracked(s: View) {
    forall v :: v in s.pgdir && (s.pgdir[v].present || s.pgdir[v].paged) ==> HasMeta(s.pages, v)
  }

  predicate HasMeta(pages: seq<Meta>, v: nat) {
    exists i :: 0 <= i < |pages| && pages[i].taken && pages[i].va == v
  }

  // ---- Swap slots ----

  /** Slots below the file's size are free in some entry or in use by a swapped page, never both;
      entries past it have never been handed out. */
  predicate SlotsOk(pages: seq<Meta>, offsets: seq<int>, n: nat) {
    && |offsets| == MAX_SWAP_FILE_SZ && n <= MAX_SWAP_FILE_SZ
    && (forall i :: 0 <= i < n ==> offsets[i] == TAKEN_OFFSET || Slot(offsets[i], n))
    && (forall i :: n <= i < MAX_SWAP_FILE_SZ ==> offsets[i] == i * PGSIZE)
    && (forall i, j :: 0 <= i < j < MAX_SWAP_FILE_SZ && offsets[i] != TAKEN_OFFSET ==> offsets[i] != offsets[j])
    && (forall i, j :: 0 <= i < MAX_SWAP_FILE_SZ && 0 <= j < |pages| && Swapped(pages[j]) ==> offsets[i] != pages[j].offset)
    && (forall k :: 0 <= k < MAX_SWAP_FILE_SZ ==> SlotUsed(pages, k * PGSIZE) || k * PGSIZE in offsets)
  }

  predicate SlotUsed(pages: seq<Meta>, o: int) {
    exists j :: 0 <= j < |pages| && Swapped(pages[j]) && pages[j].offset == o
  }

  // ---- The ring ----

  function Nexts(pages: seq<Meta>): (r: seq<int>)
    ensures |r| == |pages| && forall i :: 0 <= i < |r| ==> r[i] == pages[i].nextp
  {
    seq(|pages|, i requires 0 <= i < |pages| => pages[i].nextp)
  }

  function Prevs(pages: seq<Meta>): (r: seq<int>)
    ensures |r| == |pages| && forall i :: 0 <= i < |r| ==> r[i] == pages[i].prevp
  {
    seq(|pages|, i requires 0 <= i < |pages| => pages[i].prevp)
  }

  /** The ring holds exactly the resident tracked pages, headp is its first, -1 when empty. */
  ghost predicate RingOk(pages: seq<Meta>, order: seq<int>, headp: int) {
    && IsRing(Nexts(pages), Prevs(pages), order)
    && (forall i :: i in order <==> 0 <= i < |pages| && Resident(pages[i]))
    && headp == (if order == [] then -1 else order[0])
  }

  ghost predicate Ok(s: View) {
    && MetaOk(s)
    && Apart(s)
    && Tracked(s)
    && SlotsOk(s.pages, s.offsets, |s.file|)
    && RingOk(s.pages, s.order, s.headp)
    && s.phys == |s.order|
  }

  // ---- The logical address space ----

  /** What tracked page i holds, in memory or in the swap file. */
  function ContentAt(s: View, i: nat): Page
    requires i < |s.pages| && MetaOkAt(s, i) && s.pages[i].taken
  {
    if s.pages[i].onPhys then s.frames[s.pgdir[s.pages[i].va].frame] else s.file[s.pages[i].offset / PGSIZE]
  }

  /** The user's memory: each virtual page with its contents. */
  ghost function Space(s: View): set<(nat, Page)>
    requires MetaOk(s)
  {
    set i | 0 <= i < |s.pages| && s.pages[i].taken :: (s.pages[i].va, ContentAt(s, i))
  }

  /** The frames the process occupies. */
  function Owned(s: View): set<nat>
    requires MetaOk(s)
  {
    set i | 0 <= i < |s.pages| && MetaOkAt(s, i) && Resident(s.pages[i]) :: s.pgdir[s.pages[i].va].frame
  }

  /** s' is s with every page's contents intact. */
  predicate SameContents(s: View, s': View)
    requires MetaOk(s) && MetaOk(s')
  {
    forall i :: 0 <= i < MAX_TOTAL_PAGES ==> SameAt(s, s', i)
  }

  predicate SameAt(s: View, s': View, i: nat)
    requires MetaOk(s) && MetaOk(s') && i < MAX_TOTAL_PAGES
  {
    && s'.pages[i].taken == s.pages[i].taken
    && (s.pages[i].taken ==>
          s'.pages[i].va == s.pages[i].va
          && assert MetaOkAt(s, i) && MetaOkAt(s', i); ContentAt(s', i) == ContentAt(s, i))
  }

  lemma SameSpace(s: View, s': View)
    requires MetaOk(s) && MetaOk(s') && SameContents(s, s')
    ensures Space(s') == Space(s)
  {
    forall x ensures x in Space(s) <==> x in Space(s') {
      if x in Space(s) {
        var i :| 0 <= i < |s.pages| && s.pages[i].taken && x == (s.pages[i].va, ContentAt(s, i));
        assert SameAt(s, s', i);
      }
      if x in Space(s') {
        var i :| 0 <= i < |s'.pages| && s'.pages[i].taken && x == (s'.pages[i].va, ContentAt(s', i));
        assert SameAt(s, s', i);
      }
    }
  }

  /** Frames are conserved between the process and the free ones, none lost and none taken from others, and
      whatever belongs to others stays. */
  ghost predicate Footprint(s: View, s': View)
    requires MetaOk(s) && MetaOk(s')
  {
    && s'.dir == s.dir
    && Owned(s') + s'.free == Owned(s) + s.free
    && forall f :: f in s.frames && f !in Owned(s) && f !in s.free ==> f in s'.frames && s'.frames[f] == s.frames[f]
  }

  lemma FootprintTrans(s: View, t: View, u: View)
    requires MetaOk(s) && MetaOk(t) && MetaOk(u) && Footprint(s, t) && Footprint(t, u)
    ensures Footprint(s, u)
  {}

  lemma FootprintSelf(s: View)
    requires MetaOk(s)
    ensures Footprint(s, s)
  {}

  /** Another process over the same physical memory, as it sees a step of this one. */
  function Other(q: View, s: View): View { q.(frames := s.frames, free := s.free) }

  /** No step of one process can be noticed by another. */
  lemma OthersUntouched(s: View, s': View, q: View)
    requires MetaOk(s) && MetaOk(s') && Footprint(s, s')
    requires Ok(Other(q, s)) && Owned(Other(q, s)) !! Owned(s)
    ensures Ok(Other(q, s')) && Space(Other(q, s')) == Space(Other(q, s))
    ensures Owned(Other(q, s')) !! Owned(s')
  {
    var a, b := Other(q, s), Other(q, s');
    forall i | 0 <= i < |q.pages| ensures MetaOkAt(b, i) {
      assert MetaOkAt(a, i);
      if Resident(q.pages[i]) { assert a.pgdir[a.pages[i].va].frame in Owned(a); }
    }
    assert MetaOk(b);
    forall i, j | 0 <= i < |q.pages| && 0 <= j < |q.pages| && i != j ensures ApartAt(b, i, j) { assert ApartAt(a, i, j); }
    assert Owned(b) == Owned(a);
    forall i | 0 <= i < MAX_TOTAL_PAGES ensures SameAt(a, b, i) {
      assert MetaOkAt(a, i) && MetaOkAt(b, i);
      if Resident(q.pages[i]) { assert a.pgdir[a.pages[i].va].frame in Owned(a); }
    }
    SameSpace(a, b);
    forall f | f in Owned(b) ensures f !in Owned(s') {
      var i :| 0 <= i < |a.pages| && MetaOkAt(a, i) && Resident(a.pages[i]) && f == a.pgdir[a.pages[i].va].frame;
    }
  }

  // ---- Counting: neither slot scan can fail ----

  /** At least 16 of at most 32 tracked pages are resident, so at most 16 are swapped out. */
  lemma SwappedBound(s: View)
    requires Ok(s) && s.phys >= MAX_PHYS_PAGES
    ensures |set j | 0 <= j < |s.pages| && Swapped(s.pages[j])| <= MAX_TOTAL_PAGES - MAX_PHYS_PAGES
  {
    var sw := set j | 0 <= j < |s.pages| && Swapped(s.pages[j]);
    var all := CardRange(MAX_TOTAL_PAGES);
    var res := CardDistinct(s.order);
    assert res + sw <= all && res !! sw;
    assert |res + sw| <= |all| by { CardSubset(res + sw, all); }
  }

  /** get_offset always finds a free slot when an eviction is called for. */
  lemma FreeSlotExists(s: View)
    requires Ok(s) && s.phys >= MAX_PHYS_PAGES
    ensures exists i :: 0 <= i < MAX_SWAP_FILE_SZ && s.offsets[i] != TAKEN_OFFSET
  {
    SwappedBound(s);
    if forall i :: 0 <= i < MAX_SWAP_FILE_SZ ==> s.offsets[i] == TAKEN_OFFSET {
      var sw := set j | 0 <= j < |s.pages| && Swapped(s.pages[j]);
      var f := (j: int) => if 0 <= j < |s.pages| then s.pages[j].offset / PGSIZE else 0;
      var used := CardImage(sw, f);
      var slots := CardRange(MAX_SWAP_FILE_SZ);
      forall k | k in slots ensures k in used {
        assert SlotUsed(s.pages, k * PGSIZE);
        var j :| 0 <= j < |s.pages| && Swapped(s.pages[j]) && s.pages[j].offset == k * PGSIZE;
        assert j in sw && f(j) == k;
      }
      CardSubset(slots, used);
    }
  }

  /** free_offset always finds a taken entry when a swapped page gives its slot back. */
  lemma TakenEntryExists(pages: seq<Meta>, offsets: seq<int>, n: nat, j: nat)
    requires SlotsOk(pages, offsets, n) && j < |pages| && Swapped(pages[j]) && Slot(pages[j].offset, n)
    ensures exists i :: 0 <= i < MAX_SWAP_FILE_SZ && offsets[i] == TAKEN_OFFSET
  {
    if forall i :: 0 <= i < MAX_SWAP_FILE_SZ ==> offsets[i] != TAKEN_OFFSET {
      var vals := CardDistinct(offsets);
      var f := (o: int) => o / PGSIZE;
      var slots := CardRange(MAX_SWAP_FILE_SZ);
      var o := pages[j].offset;
      var rest := slots - {o / PGSIZE};
      var g := (k: int) => k * PGSIZE;
      var im := CardImage(rest, g);
      forall x | x in vals ensures x in im {
        var i :| 0 <= i < |offsets| && offsets[i] == x;
        assert x != o && Slot(x, MAX_SWAP_FILE_SZ);
        assert x / PGSIZE in rest && g(x / PGSIZE) == x;
      }
      CardSubset(vals, im);
    }
  }
}

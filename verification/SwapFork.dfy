/** Fork (`copyuvm`, `copy_swap_file`, `copy_page_arr`): the child gets its own frames, its own swap
    file and metadata pointing into its own page table, and the same memory as its parent. */
module SwapFork {
  import opened Counting
  import opened SwapState
  import opened SwapOut
  import opened SwapTrack
  import opened SwapProc
  import opened SwapQueue

  /** A process over changed physical memory that left its own frames alone. */
  lemma MemOnly(s: View, frames: map<nat, Page>, free: set<nat>)
    requires Ok(s)
    requires forall f :: f in Owned(s) ==> f in frames && frames[f] == s.frames[f] && f !in free
    ensures var t := s.(frames := frames, free := free); Ok(t) && Space(t) == Space(s) && Owned(t) == Owned(s)
  {
    var t := s.(frames := frames, free := free);
    forall i | 0 <= i < |s.pages| ensures MetaOkAt(t, i) {
      assert MetaOkAt(s, i);
      if Resident(s.pages[i]) { assert s.pgdir[s.pages[i].va].frame in Owned(s); }
    }
    forall i, j | 0 <= i < |s.pages| && 0 <= j < |s.pages| && i != j ensures ApartAt(t, i, j) { assert ApartAt(s, i, j); }
    forall i | 0 <= i < MAX_TOTAL_PAGES ensures SameAt(s, t, i) {
      assert MetaOkAt(s, i) && MetaOkAt(t, i);
      if Resident(s.pages[i]) { assert s.pgdir[s.pages[i].va].frame in Owned(s); }
    }
    SameSpace(s, t);
    assert Owned(t) == Owned(s);
  }

  /** The child's entry for page v: a copy of a paged-out entry, or a frame of its own with the
      same contents. */
  predicate CopiedAt(s: View, cp: map<nat, Pte>, frames: map<nat, Page>, v: nat) {
    && v in s.pgdir && v in cp
    && (s.pgdir[v].paged ==> cp[v] == s.pgdir[v])
    && (!s.pgdir[v].paged ==>
          && cp[v].present && !cp[v].paged && cp[v].accessed == s.pgdir[v].accessed
          && s.pgdir[v].frame in s.frames
          && cp[v].frame in frames && frames[cp[v].frame] == s.frames[s.pgdir[v].frame])
  }

  predicate OwnFrame(s: View, cp: map<nat, Pte>, v: nat) { v in cp && v in s.pgdir && !s.pgdir[v].paged }

  predicate UsesFrame(s: View, cp: map<nat, Pte>, v: nat, f: nat) { OwnFrame(s, cp, v) && cp[v].frame == f }

  /** Frames handed to the child so far, all fresh, all different and all in use. */
  ghost predicate FreshFrames(s: View, cp: map<nat, Pte>, a: nat, taken: set<nat>) {
    && (forall v :: 0 <= v < a && OwnFrame(s, cp, v) ==> cp[v].frame in taken)
    && (forall u, v :: 0 <= u < v < a && OwnFrame(s, cp, u) && OwnFrame(s, cp, v) ==> cp[u].frame != cp[v].frame)
    && (forall f :: f in taken ==> exists v :: 0 <= v < a && UsesFrame(s, cp, v, f))
  }

  /** copy_page_arr: the metadata with each pointer moved to the child's page table. */
  function Repointed(pages: seq<Meta>, dir: nat): (r: seq<Meta>)
    ensures |r| == |pages|
  {
    seq(|pages|, i requires 0 <= i < |pages| =>
      if pages[i].taken then pages[i].(pte := PteRef(dir, pages[i].va)) else pages[i])
  }

  /** All user pages lie below page n. */
  predicate Below(s: View, n: nat) {
    && (forall v :: 0 <= v < n ==> v in s.pgdir && (s.pgdir[v].present || s.pgdir[v].paged))
    && (forall i :: 0 <= i < |s.pages| && s.pages[i].taken ==> s.pages[i].va < n)
  }

  function ChildView(s: View, dir: nat, cp: map<nat, Pte>, frames: map<nat, Page>, free: set<nat>): View {
    View(dir, cp, Repointed(s.pages, dir), s.offsets, s.headp, s.order, s.phys, s.file, frames, free)
  }

  ghost predicate Copied(s: View, cp: map<nat, Pte>, frames: map<nat, Page>, free: set<nat>, n: nat, taken: set<nat>) {
    && (forall v :: v in cp ==> v < n)
    && (forall v :: 0 <= v < n ==> CopiedAt(s, cp, frames, v))
    && FreshFrames(s, cp, n, taken)
    && taken !! free
  }

  lemma ChildMetaAt(s: View, dir: nat, cp: map<nat, Pte>, frames: map<nat, Page>, free: set<nat>, n: nat, taken: set<nat>, i: nat)
    requires MetaOk(s) && Below(s, n) && Copied(s, cp, frames, free, n, taken) && i < |s.pages|
    ensures var c := ChildView(s, dir, cp, frames, free);
      && MetaOkAt(c, i) && MetaOkAt(s, i)
      && (s.pages[i].taken ==> ContentAt(c, i) == ContentAt(s, i))
      && (Resident(s.pages[i]) ==> cp[s.pages[i].va].frame in taken)
  {
    assert MetaOkAt(s, i);
    if s.pages[i].taken {
      assert CopiedAt(s, cp, frames, s.pages[i].va);
      assert Resident(s.pages[i]) ==> OwnFrame(s, cp, s.pages[i].va);
    }
  }

  lemma ChildMeta(s: View, dir: nat, cp: map<nat, Pte>, frames: map<nat, Page>, free: set<nat>, n: nat, taken: set<nat>)
    requires MetaOk(s) && Apart(s) && Below(s, n) && Copied(s, cp, frames, free, n, taken)
    ensures var c := ChildView(s, dir, cp, frames, free); MetaOk(c) && SameContents(s, c) && Apart(c) && Owned(c) <= taken
  {
    var c := ChildView(s, dir, cp, frames, free);
    forall i | 0 <= i < |s.pages| ensures MetaOkAt(c, i) { ChildMetaAt(s, dir, cp, frames, free, n, taken, i); }
    forall i | 0 <= i < MAX_TOTAL_PAGES ensures SameAt(s, c, i) { ChildMetaAt(s, dir, cp, frames, free, n, taken, i); }
    forall i, j | 0 <= i < |s.pages| && 0 <= j < |s.pages| && i != j ensures ApartAt(c, i, j) {
      assert ApartAt(s, i, j);
      ChildMetaAt(s, dir, cp, frames, free, n, taken, i);
      ChildMetaAt(s, dir, cp, frames, free, n, taken, j);
    }
    forall f | f in Owned(c) ensures f in taken {
      var i :| 0 <= i < |c.pages| && MetaOkAt(c, i) && Resident(c.pages[i]) && f == c.pgdir[c.pages[i].va].frame;
      ChildMetaAt(s, dir, cp, frames, free, n, taken, i);
    }
  }

  lemma ChildTracked(s: View, dir: nat, cp: map<nat, Pte>, frames: map<nat, Page>, free: set<nat>, n: nat, taken: set<nat>)
    requires Tracked(s) && SlotsOk(s.pages, s.offsets, |s.file|) && RingOk(s.pages, s.order, s.headp)
    requires Below(s, n) && Copied(s, cp, frames, free, n, taken)
    ensures var c := ChildView(s, dir, cp, frames, free);
      Tracked(c) && SlotsOk(c.pages, c.offsets, |c.file|) && RingOk(c.pages, c.order, c.headp)
  {
    var c := ChildView(s, dir, cp, frames, free);
    forall v | v in cp && (cp[v].present || cp[v].paged) ensures HasMeta(c.pages, v) {
      assert CopiedAt(s, cp, frames, v);
      var i :| 0 <= i < |s.pages| && s.pages[i].taken && s.pages[i].va == v;
      assert c.pages[i].taken && c.pages[i].va == v;
    }
    forall k | 0 <= k < MAX_SWAP_FILE_SZ && SlotUsed(s.pages, k * PGSIZE) ensures SlotUsed(c.pages, k * PGSIZE) {
      var j :| 0 <= j < |s.pages| && Swapped(s.pages[j]) && s.pages[j].offset == k * PGSIZE;
      assert Swapped(c.pages[j]) && c.pages[j].offset == k * PGSIZE;
    }
    assert Nexts(c.pages) == Nexts(s.pages) && Prevs(c.pages) == Prevs(s.pages);
  }

  /** Every frame taken for the child holds one of its pages. */
  lemma ChildOwns(s: View, dir: nat, cp: map<nat, Pte>, frames: map<nat, Page>, free: set<nat>, n: nat, taken: set<nat>, f: nat)
    requires MetaOk(s) && Tracked(s) && Below(s, n) && Copied(s, cp, frames, free, n, taken) && f in taken
    requires MetaOk(ChildView(s, dir, cp, frames, free))
    ensures f in Owned(ChildView(s, dir, cp, frames, free))
  {
    var c := ChildView(s, dir, cp, frames, free);
    var v :| 0 <= v < n && UsesFrame(s, cp, v, f);
    assert HasMeta(s.pages, v);
    var i :| 0 <= i < |s.pages| && s.pages[i].taken && s.pages[i].va == v;
    assert MetaOkAt(s, i) && MetaOkAt(c, i) && Resident(c.pages[i]);
  }

  /** Fork equivalence: the child is well formed, remembers what its parent remembers, and shares
      no frame with it. */
  lemma ForkOk(s: View, dir: nat, cp: map<nat, Pte>, frames: map<nat, Page>, free: set<nat>, n: nat, taken: set<nat>)
    requires Ok(s) && Below(s, n) && Copied(s, cp, frames, free, n, taken)
    ensures var c := ChildView(s, dir, cp, frames, free);
      && Ok(c) && Space(c) == Space(s) && Owned(c) == taken
      && forall i :: 0 <= i < |c.pages| && c.pages[i].taken ==> c.pages[i].pte.dir == dir
  {
    hide MetaOk, Apart, Tracked, SlotsOk, RingOk, SameContents, Copied;
    ChildMeta(s, dir, cp, frames, free, n, taken);
    ChildTracked(s, dir, cp, frames, free, n, taken);
    forall f | f in taken ensures f in Owned(ChildView(s, dir, cp, frames, free)) { ChildOwns(s, dir, cp, frames, free, n, taken, f); }
    SameSpace(s, ChildView(s, dir, cp, frames, free));
  }

  /** Copying one more page, into fresh frame g when it is resident. */
  lemma CopiedNext(s: View, cp: map<nat, Pte>, frames: map<nat, Page>, free: set<nat>, a: nat, taken: set<nat>, g: nat)
    requires Copied(s, cp, frames, free, a, taken) && g in free
    requires a in s.pgdir && !s.pgdir[a].paged && s.pgdir[a].frame in s.frames
    ensures Copied(s, cp[a := Pte(true, false, s.pgdir[a].accessed, g)], frames[g := s.frames[s.pgdir[a].frame]], free - {g}, a + 1, taken + {g})
  {
    var cp', frames' := cp[a := Pte(true, false, s.pgdir[a].accessed, g)], frames[g := s.frames[s.pgdir[a].frame]];
    forall v | 0 <= v < a + 1 ensures CopiedAt(s, cp', frames', v) {
      if v < a { assert CopiedAt(s, cp, frames, v); assert OwnFrame(s, cp, v) ==> cp[v].frame in taken; }
    }
    forall u, v | 0 <= u < v < a + 1 && OwnFrame(s, cp', u) && OwnFrame(s, cp', v) ensures cp'[u].frame != cp'[v].frame {
      assert CopiedAt(s, cp, frames, u) && OwnFrame(s, cp, u);
      if v < a { assert CopiedAt(s, cp, frames, v) && OwnFrame(s, cp, v); }
    }
    forall v | 0 <= v < a + 1 && OwnFrame(s, cp', v) ensures cp'[v].frame in taken + {g} {
      if v < a { assert OwnFrame(s, cp, v); }
    }
    forall f | f in taken + {g} ensures exists v :: 0 <= v < a + 1 && UsesFrame(s, cp', v, f) {
      if f == g {
        assert UsesFrame(s, cp', a, f);
      } else {
        var v :| 0 <= v < a && UsesFrame(s, cp, v, f);
        assert UsesFrame(s, cp', v, f);
      }
    }
  }

  lemma CopiedPaged(s: View, cp: map<nat, Pte>, frames: map<nat, Page>, free: set<nat>, a: nat, taken: set<nat>)
    requires Copied(s, cp, frames, free, a, taken) && a in s.pgdir && s.pgdir[a].paged
    ensures Copied(s, cp[a := s.pgdir[a]], frames, free, a + 1, taken)
  {
    var cp' := cp[a := s.pgdir[a]];
    forall v | 0 <= v < a + 1 ensures CopiedAt(s, cp', frames, v) {
      if v < a { assert CopiedAt(s, cp, frames, v); }
    }
    forall u, v | 0 <= u < v < a + 1 && OwnFrame(s, cp', u) && OwnFrame(s, cp', v) ensures cp'[u].frame != cp'[v].frame {
      assert OwnFrame(s, cp, u) && OwnFrame(s, cp, v);
    }
    forall v | 0 <= v < a + 1 && OwnFrame(s, cp', v) ensures cp'[v].frame in taken { assert OwnFrame(s, cp, v); }
    forall f | f in taken ensures exists v :: 0 <= v < a + 1 && UsesFrame(s, cp', v, f) {
      var v :| 0 <= v < a && UsesFrame(s, cp, v, f);
      assert UsesFrame(s, cp', v, f);
    }
  }

  /** Entries that are not paged out are present and in a frame. */
  lemma MappedPage(s: View, v: nat)
    requires Ok(s) && v in s.pgdir && s.pgdir[v].present
    ensures s.pgdir[v].frame in s.frames && s.pgdir[v].frame !in s.free && !s.pgdir[v].paged && s.pgdir[v].frame in Owned(s)
  {
    var k := PresentEntry(s, v);
    assert MetaOkAt(s, s.order[k]);
  }

  /** Memory as the copy has left it: nothing outside the frames that were free has changed. */
  ghost predicate OnlyFresh(s: View, frames: map<nat, Page>, free: set<nat>, taken: set<nat>) {
    && taken + free == s.free && taken !! free && free <= frames.Keys && taken <= frames.Keys
    && forall f :: f in s.frames && f !in taken ==> f in frames && frames[f] == s.frames[f]
  }

  /** The pages below a that need a frame in the child: those that are not paged out. */
  function Residents(s: View, a: nat): set<int> { set v | 0 <= v < a && v in s.pgdir && !s.pgdir[v].paged }

  lemma ResidentsNext(s: View, a: nat)
    requires a in s.pgdir
    ensures |Residents(s, a + 1)| == |Residents(s, a)| + if s.pgdir[a].paged then 0 else 1
  {
    assert Residents(s, a + 1) == Residents(s, a) + if s.pgdir[a].paged then {} else {a};
  }

  lemma ResidentsGrow(s: View, a: nat, n: nat)
    requires a <= n
    ensures |Residents(s, a)| <= |Residents(s, n)|
  {
    CardSubset(Residents(s, a), Residents(s, n));
  }

  /** Nobody else has all the frames when the child's frame for one of these pages is to be had. */
  predicate Calm(s: View, a: nat, busy: nat -> bool) { forall v: nat :: v in Residents(s, a) ==> !busy(v) }

  /** copyuvm: page by page, copying paged-out entries and giving resident pages new frames, which
      takes exactly as many frames as there are such pages. On want of memory the frames taken are freed again. */
  method CopyUvm(p: Proc, n: nat, junk: Page, busy: nat -> bool) returns (ok: bool, cp: map<nat, Pte>, ghost taken: set<nat>)
    requires p.Valid() && Below(p.St(), n)
    modifies p.mem
    ensures ok <==> old(Calm(p.St(), n, busy) && |Residents(p.St(), n)| <= |p.mem.free|)
    ensures ok ==> Copied(old(p.St()), cp, p.mem.frames, p.mem.free, n, taken) && OnlyFresh(old(p.St()), p.mem.frames, p.mem.free, taken)
    ensures ok ==> |p.mem.free| == old(|p.mem.free| - |Residents(p.St(), n)|)
    ensures !ok ==> p.mem.free == old(p.mem.free) && p.mem.free <= p.mem.frames.Keys
    ensures !ok ==> forall f :: f in old(p.mem.frames) && f !in old(p.mem.free) ==> f in p.mem.frames && p.mem.frames[f] == old(p.mem.frames)[f]
  {
    hide Ok, Copied, CopiedAt, FreshFrames, Residents, Calm, OnlyFresh;
    ghost var s := p.St();
    cp, taken := map[], {};
    var a := 0;
    var got: set<nat> := {};
    CopiedNone(s);
    while a < n
      invariant 0 <= a <= n && got == taken
      invariant Copied(s, cp, p.mem.frames, p.mem.free, a, taken)
      invariant OnlyFresh(s, p.mem.frames, p.mem.free, taken)
      invariant Counted(s, a, taken, p.mem.free, busy)
      invariant p.pgdir == s.pgdir && p.mem.free <= p.mem.frames.Keys
    {
      if p.pgdir[a].paged {
        CopiedPaged(s, cp, p.mem.frames, p.mem.free, a, taken);
        CountedNext(s, a, taken, p.mem.free, busy, 0);
        cp := cp[a := p.pgdir[a]];
      } else {
        ghost var before := p.mem.free;
        var f := p.mem.Kalloc(busy(a));
        if f == -1 {
          CountedShort(s, a, n, taken, p.mem.free, busy);
          FreshBack(s, p.mem.frames, p.mem.free, taken);
          ReleaseAll(p.mem, got, junk);
          return false, cp, taken;
        }
        MappedPage(s, a);
        FreshNext(s, p.mem.frames, before, taken, f, p.pgdir[a].frame);
        CopiedNext(s, cp, p.mem.frames, before, a, taken, f);
        CountedNext(s, a, taken, before, busy, f);
        p.mem.frames := p.mem.frames[f := p.mem.frames[p.pgdir[a].frame]];
        cp := cp[a := Pte(true, false, p.pgdir[a].accessed, f)];
        got, taken := got + {f}, taken + {f};
      }
      a := a + 1;
    }
    CountedAll(s, n, taken, p.mem.free, busy);
    ok := true;
  }

  /** One frame for each page copied that needed one. */
  ghost predicate Counted(s: View, a: nat, taken: set<nat>, free: set<nat>, busy: nat -> bool) {
    && taken + free == s.free && taken !! free && |taken| == |Residents(s, a)| && Calm(s, a, busy)
  }

  lemma CountedNext(s: View, a: nat, taken: set<nat>, free: set<nat>, busy: nat -> bool, f: nat)
    requires Counted(s, a, taken, free, busy) && a in s.pgdir
    requires !s.pgdir[a].paged ==> f in free && !busy(a)
    ensures s.pgdir[a].paged ==> Counted(s, a + 1, taken, free, busy)
    ensures !s.pgdir[a].paged ==> Counted(s, a + 1, taken + {f}, free - {f}, busy)
  {
    ResidentsNext(s, a);
  }

  lemma CountedShort(s: View, a: nat, n: nat, taken: set<nat>, free: set<nat>, busy: nat -> bool)
    requires Counted(s, a, taken, free, busy) && a < n && a in s.pgdir && !s.pgdir[a].paged && (free == {} || busy(a))
    ensures !(Calm(s, n, busy) && |Residents(s, n)| <= |s.free|)
  {
    if busy(a) { assert a in Residents(s, n); }
    if free == {} { assert taken == s.free; }
    ResidentsNext(s, a);
    ResidentsGrow(s, a + 1, n);
  }

  lemma CountedAll(s: View, n: nat, taken: set<nat>, free: set<nat>, busy: nat -> bool)
    requires Counted(s, n, taken, free, busy)
    ensures Calm(s, n, busy) && |Residents(s, n)| <= |s.free| && |free| == |s.free| - |Residents(s, n)|
  {
    assert |taken + free| == |taken| + |free|;
  }

  lemma FreshNext(s: View, frames: map<nat, Page>, free: set<nat>, taken: set<nat>, f: nat, g: nat)
    requires OnlyFresh(s, frames, free, taken) && f in free && g in s.frames && g !in s.free
    ensures g in frames && frames[g] == s.frames[g] && f in frames
    ensures OnlyFresh(s, frames[f := frames[g]], free - {f}, taken + {f})
  {}

  lemma FreshBack(s: View, frames: map<nat, Page>, free: set<nat>, taken: set<nat>)
    requires OnlyFresh(s, frames, free, taken)
    ensures free + taken == s.free && s.free <= frames.Keys
    ensures forall f :: f in s.frames && f !in taken ==> f in frames && frames[f] == s.frames[f]
  {}

  lemma CopiedNone(s: View)
    ensures Copied(s, map[], s.frames, s.free, 0, {})
    ensures s.free <= s.frames.Keys ==> OnlyFresh(s, s.frames, s.free, {})
    ensures forall busy :: Counted(s, 0, {}, s.free, busy)
  {}

  /** Frames outside `got` are as they were. */
  ghost predicate Kept(was: map<nat, Page>, now: map<nat, Page>, got: set<nat>) {
    forall f :: f in was ==> f in now && (f !in got ==> now[f] == was[f])
  }

  lemma KeptFree(was: map<nat, Page>, now: map<nat, Page>, got: set<nat>, f: nat, junk: Page)
    requires Kept(was, now, got) && f in got
    ensures Kept(was, now[f := junk], got)
  {}

  /** freevm on the half-built child: every frame it had is freed. */
  method ReleaseAll(mem: PhysMem, got: set<nat>, junk: Page)
    modifies mem
    ensures mem.free == old(mem.free) + got
    ensures Kept(old(mem.frames), mem.frames, got)
  {
    hide Kept;
    var rest := got;
    KeptSelf(mem.frames, got);
    while rest != {}
      invariant rest <= got
      invariant mem.free == old(mem.free) + (got - rest)
      invariant Kept(old(mem.frames), mem.frames, got)
      decreases |rest|
    {
      EmptyOrNot(rest);
      var f :| f in rest;
      KeptFree(old(mem.frames), mem.frames, got, f, junk);
      mem.Kfree(f, junk);
      rest := rest - {f};
    }
  }

  lemma KeptSelf(m: map<nat, Page>, got: set<nat>)
    ensures Kept(m, m, got)
  {}

  /** copy_swap_file: page by page through a buffer, from offset 0 to file_size. The buffer comes from kalloc
      and is not checked; without one, the machine stops in kfree at the latest (not ok). */
  method CopySwapFile(mem: PhysMem, src: seq<Page>, fileSize: int, junk: Page, busy: bool) returns (ok: bool, dst: seq<Page>)
    requires fileSize == |src| * PGSIZE && mem.free <= mem.frames.Keys
    modifies mem
    ensures ok <==> old(mem.free) != {} && !busy
    ensures ok ==> dst == src && mem.free == old(mem.free) && mem.frames.Keys == old(mem.frames.Keys)
    ensures ok ==> forall f :: f in mem.frames && f !in mem.free ==> mem.frames[f] == old(mem.frames)[f]
  {
    dst := [];
    var buffer := mem.Kalloc(busy);
    if buffer == -1 { return false, dst; }
    var i := 0;
    while i < fileSize
      invariant 0 <= i <= fileSize && i % PGSIZE == 0 && dst == src[..i / PGSIZE]
      invariant mem.free == old(mem.free) - {buffer} && mem.frames.Keys == old(mem.frames.Keys)
      invariant forall f :: f in mem.frames && f != buffer ==> mem.frames[f] == old(mem.frames)[f]
    {
      mem.frames := mem.frames[buffer := src[i / PGSIZE]];
      dst := dst + [mem.frames[buffer]];
      i := i + PGSIZE;
    }
    mem.Kfree(buffer, junk);
    ok := true;
  }

  /** copy_page_arr: entry by entry, pointing each tracked page at the child's page table. */
  method CopyPageArr(src: seq<Meta>, dir: nat) returns (dst: seq<Meta>)
    ensures dst == Repointed(src, dir)
  {
    dst := [];
    var i := 0;
    while i < |src|
      invariant 0 <= i <= |src| && dst == Repointed(src, dir)[..i]
    {
      var m := src[i];
      if m.taken { m := m.(pte := PteRef(dir, m.va)); }
      dst := dst + [m];
      i := i + 1;
    }
  }

  /** fork's memory part: afterwards parent and child both hold the parent's old memory, in frames
      and files of their own; without memory for the copy the parent is as it was; with memory for the copy and no
      frame more for the buffer of copy_swap_file, the machine stops (`halted`). */
  method Fork(p: Proc, dir: nat, n: nat, junk: Page, busy: nat -> bool) returns (c: Proc?, halted: bool)
    requires p.Valid() && Below(p.St(), n)
    modifies p.mem
    ensures c != null <==> old(Calm(p.St(), n, busy) && |Residents(p.St(), n)| < |p.mem.free|) && !busy(n)
    ensures halted <==> old(Calm(p.St(), n, busy) && |Residents(p.St(), n)| <= |p.mem.free|) && c == null
    ensures !halted ==> p.Valid() && Space(p.St()) == old(Space(p.St())) && Owned(p.St()) == old(Owned(p.St()))
    ensures c == null && !halted ==> p.mem.free == old(p.mem.free)
    ensures c != null ==>
      && fresh(c) && c.mem == p.mem && c.dir == dir && c.Valid()
      && Space(c.St()) == old(Space(p.St()))
      && Owned(c.St()) !! Owned(p.St()) && Owned(c.St()) + p.mem.free == old(p.mem.free)
      && (forall i :: 0 <= i < |c.pages| && c.pages[i].taken ==> c.pages[i].pte.dir == dir)
      && Queue(c.St()) == old(Queue(p.St()))
      && forall v :: 0 <= v < n ==> Acc(c.pgdir, v) == Acc(p.pgdir, v)
  {
    hide Ok, Copied, MetaOk, Space, Owned, Repointed, Residents, Calm, Queue, Acc;
    ghost var s := p.St();
    OkMeta(s);
    OwnedNotFree(s);
    var ok, cp;
    ghost var taken;
    ok, cp, taken := CopyUvm(p, n, junk, busy);
    halted := false;
    if !ok {
      ParentSame(s, p.St());
      return null, false;
    }
    ghost var frames := p.mem.frames;
    var file;
    ok, file := CopySwapFile(p.mem, p.file, p.fileSize, junk, busy(n));
    if !ok { return null, true; }
    CopiedKept(s, cp, frames, p.mem.frames, p.mem.free, n, taken);
    ParentSame(s, p.St());
    ForkOk(s, dir, cp, p.mem.frames, p.mem.free, n, taken);
    c := MakeChild(p, dir, cp, file);
    assert c.St() == ChildView(s, dir, cp, p.mem.frames, p.mem.free);
    OkMeta(c.St());
    ChildQueue(s, dir, cp, p.mem.frames, p.mem.free, n, taken);
  }

  /** The child's queue is the parent's, with the same accessed bits. */
  lemma ChildQueue(s: View, dir: nat, cp: map<nat, Pte>, frames: map<nat, Page>, free: set<nat>, n: nat, taken: set<nat>)
    requires Copied(s, cp, frames, free, n, taken)
    ensures Queue(ChildView(s, dir, cp, frames, free)) == Queue(s)
    ensures forall v :: 0 <= v < n ==> Acc(cp, v) == Acc(s.pgdir, v)
  {
    forall v | 0 <= v < n ensures Acc(cp, v) == Acc(s.pgdir, v) { assert CopiedAt(s, cp, frames, v); }
  }

  /** The rest of fork: the child's page table, swap file and metadata. */
  method MakeChild(p: Proc, dir: nat, cp: map<nat, Pte>, file: seq<Page>) returns (c: Proc)
    requires file == p.file
    ensures fresh(c) && c.mem == p.mem && c.dir == dir && c.fileSize == p.fileSize
    ensures c.St() == ChildView(p.St(), dir, cp, p.mem.frames, p.mem.free)
  {
    hide Ok, MetaOk, Space, Owned, Repointed;
    c := new Proc(dir, p.mem);
    c.pgdir := cp;
    c.file, c.fileSize := file, p.fileSize;
    c.pages := CopyPageArr(p.pages, dir);
    c.physPages, c.headp, c.offsets, c.order := p.physPages, p.headp, p.offsets, p.order;
  }

  lemma CopiedKept(s: View, cp: map<nat, Pte>, frames: map<nat, Page>, frames': map<nat, Page>, free: set<nat>, n: nat, taken: set<nat>)
    requires Copied(s, cp, frames, free, n, taken) && frames'.Keys == frames.Keys
    requires forall f :: f in frames && f !in free ==> frames'[f] == frames[f]
    ensures Copied(s, cp, frames', free, n, taken)
  {
    forall v | 0 <= v < n ensures CopiedAt(s, cp, frames', v) {
      assert CopiedAt(s, cp, frames, v);
      if !s.pgdir[v].paged { assert OwnFrame(s, cp, v); }
    }
  }

  lemma ParentSame(s: View, t: View)
    requires Ok(s) && MetaOk(s) && t == s.(frames := t.frames, free := t.free) && t.free <= s.free && Owned(s) !! s.free
    requires forall f :: f in s.frames && f !in s.free ==> f in t.frames && t.frames[f] == s.frames[f]
    requires Owned(s) <= s.frames.Keys
    ensures Ok(t) && MetaOk(t) && Space(t) == Space(s) && Owned(t) == Owned(s)
  {
    MemOnly(s, t.frames, t.free);
  }

  lemma OwnedNotFree(s: View)
    requires Ok(s)
    ensures Owned(s) !! s.free && Owned(s) <= s.frames.Keys
  {
    forall f | f in Owned(s) ensures f !in s.free && f in s.frames {
      var i :| 0 <= i < |s.pages| && MetaOkAt(s, i) && Resident(s.pages[i]) && f == s.pgdir[s.pages[i].va].frame;
    }
  }
}

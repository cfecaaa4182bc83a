/** The Kernighan and Ritchie allocator of `umalloc.c`: headers linked through memory,
    `freep` roving over a circular list that contains `base`. */
module Umalloc {
  import opened FreeList
  import opened Ring

  const HEADER_BYTES := 8
  const UINT_MAX_PLUS_1 := 0x1_0000_0000

  datatype Header = Header(ptr: int, size: nat)

  type Memory = map<int, Header>

  /** The headers in memory spell out the list, circularly. */
  predicate Rep(mem: Memory, fl: seq<Blk>) {
    forall i :: 0 <= i < |fl| ==> RepAt(mem, fl, i)
  }

  /** Entry k of the list is where it should be in memory. */
  predicate RepAt(mem: Memory, fl: seq<Blk>, k: nat)
    requires k < |fl|
  {
    fl[k].a in mem && mem[fl[k].a] == Header(fl[Succ(k, |fl|)].a, fl[k].n)
  }

  // ---- Request sizes, with 32-bit arithmetic ----

  /** Units for a request: its bytes rounded up, plus one for the header, in uint arithmetic. */
  function UnitsFor(nbytes: nat): nat
  {
    (nbytes + HEADER_BYTES - 1) % UINT_MAX_PLUS_1 / HEADER_BYTES + 1
  }

  /** A block of that many units holds the request exactly when the rounding does not wrap. */
  lemma UsableBytes(nbytes: nat)
    requires nbytes < UINT_MAX_PLUS_1
    ensures (UnitsFor(nbytes) - 1) * HEADER_BYTES >= nbytes <==> nbytes + HEADER_BYTES - 1 < UINT_MAX_PLUS_1
  {
    var m := nbytes + HEADER_BYTES - 1;
    if m >= UINT_MAX_PLUS_1 { assert m % UINT_MAX_PLUS_1 == m - UINT_MAX_PLUS_1; }
  }

  // ---- The list in memory, after one operation ----

  /** The two header writes of free, with the tests that decide whether neighbours are joined. */
  function FreedHeader(mem: Memory, p: int, bp: int): Header
    requires p in mem && bp in mem && mem[p].ptr in mem
  {
    var q := mem[p].ptr;
    if bp + mem[bp].size == q then Header(mem[q].ptr, mem[bp].size + mem[q].size) else Header(q, mem[bp].size)
  }

  function FreedMem(mem: Memory, p: int, bp: int): Memory
    requires p in mem && bp in mem && mem[p].ptr in mem
  {
    var hb := FreedHeader(mem, p, bp);
    var m := mem[bp := hb];
    m[p := if p + m[p].size == bp then Header(hb.ptr, m[p].size + hb.size) else Header(bp, m[p].size)]
  }

  predicate Ascending(fl: seq<Blk>) {
    forall i, j :: 0 <= i < j < |fl| ==> fl[i].a < fl[j].a
  }

  /** The list with b linked in at place i, joined with its upper neighbour when they touch. */
  function Linked(fl: seq<Blk>, i: nat, b: Blk): seq<Blk>
    requires i < |fl|
  {
    fl[..i + 1] + [JoinUp(fl, i, b)] + Above(fl, i, b)
  }

  lemma LinkedAt(fl: seq<Blk>, i: nat, b: Blk, j: nat)
    requires i < |fl| && j < |Linked(fl, i, b)|
    ensures |Linked(fl, i, b)| == i + 2 + |Above(fl, i, b)|
    ensures Linked(fl, i, b)[j] ==
      if j <= i then fl[j] else if j == i + 1 then JoinUp(fl, i, b) else Above(fl, i, b)[j - i - 2]
  {}

  lemma LinkedAscending(fl: seq<Blk>, i: nat, b: Blk)
    requires Spaced(fl) && Clear(fl, b) && b.n >= 1 && Place(fl, i, b.a)
    ensures Ascending(Linked(fl, i, b))
  {
    hide Linked, Above, JoinUp, Clear;
    AboveSpaced(fl, i, b);
    var gl := Linked(fl, i, b);
    forall j, k | 0 <= j < k < |gl| ensures gl[j].a < gl[k].a {
      LinkedAt(fl, i, b, j);
      LinkedAt(fl, i, b, k);
    }
  }

  /** Both neighbours of place i are in memory. */
  predicate Around(mem: Memory, fl: seq<Blk>, i: nat) {
    i < |fl| && RepAt(mem, fl, i) && RepAt(mem, fl, Succ(i, |fl|))
  }

  lemma RepLinkPlain(mem: Memory, fl: seq<Blk>, i: nat, b: Blk, k: nat)
    requires Rep(mem, fl) && Around(mem, fl, i) && b.a in mem && mem[b.a].size == b.n
    requires fl[Succ(i, |fl|)].a != b.a + b.n && !(i + 1 < |fl| && b.a + b.n == fl[i + 1].a)
    requires Ascending(Linked(fl, i, b)) && k <= |fl|
    ensures RepAt(mem[b.a := FreedHeader(mem, fl[i].a, b.a)][fl[i].a := Header(b.a, fl[i].n)], Linked(fl, i, b), k)
  {
    var gl := Linked(fl, i, b);
    assert gl[i + 1] == b && gl[i] == fl[i];
    if k < i {
      assert RepAt(mem, fl, k) && gl[k] == fl[k] && gl[k + 1] == fl[k + 1] && gl[k].a < gl[i].a < gl[i + 1].a;
    } else if k > i + 1 {
      assert RepAt(mem, fl, k - 1) && gl[k] == fl[k - 1] && gl[i].a < gl[i + 1].a < gl[k].a;
    }
  }

  lemma RepLinkJoined(mem: Memory, fl: seq<Blk>, i: nat, b: Blk, k: nat)
    requires Rep(mem, fl) && Around(mem, fl, i) && b.a in mem && mem[b.a].size == b.n
    requires i + 1 < |fl| && b.a + b.n == fl[i + 1].a
    requires Ascending(Linked(fl, i, b)) && k < |fl|
    ensures |Linked(fl, i, b)| == |fl|
    ensures RepAt(mem[b.a := FreedHeader(mem, fl[i].a, b.a)][fl[i].a := Header(b.a, fl[i].n)], Linked(fl, i, b), k)
  {
    var gl := Linked(fl, i, b);
    assert gl == fl[i + 1 := JoinUp(fl, i, b)];
    assert RepAt(mem, fl, k);
    assert gl[i].a < gl[i + 1].a;
    assert k < i ==> gl[k].a < gl[i].a;
    assert k > i + 1 ==> gl[i + 1].a < gl[k].a;
  }

  lemma RepMergeAt(m: Memory, gl: seq<Blk>, i: nat, k: nat)
    requires Rep(m, gl) && i + 1 < |gl| && Ascending(gl) && k < |gl| - 1 && RepAt(m, gl, i + 1)
    ensures RepAt(m[gl[i].a := Header(m[gl[i + 1].a].ptr, gl[i].n + gl[i + 1].n)],
                  gl[..i] + [Blk(gl[i].a, gl[i].n + gl[i + 1].n)] + gl[i + 2..], k)
  {
    var hl := gl[..i] + [Blk(gl[i].a, gl[i].n + gl[i + 1].n)] + gl[i + 2..];
    assert RepAt(m, gl, i);
    if k < i {
      assert RepAt(m, gl, k) && hl[k] == gl[k] && gl[k].a < gl[i].a;
    } else if k > i {
      assert RepAt(m, gl, k + 1) && hl[k] == gl[k + 1] && gl[i].a < gl[k + 1].a;
    }
  }

  /** After free's two header writes memory spells out the list with the block inserted. */
  lemma RepInsert(mem: Memory, fl: seq<Blk>, i: nat, b: Blk)
    requires Spaced(fl) && Rep(mem, fl) && Clear(fl, b) && b.n >= 1 && Place(fl, i, b.a)
    requires b.a in mem && mem[b.a].size == b.n
    ensures Around(mem, fl, i) && mem[fl[i].a].ptr != b.a && Rep(FreedMem(mem, fl[i].a, b.a), Insert(fl, i, b))
  {
    var gl := Linked(fl, i, b);
    assert Around(mem, fl, i);
    LinkedAscending(fl, i, b);
    var m := mem[b.a := FreedHeader(mem, fl[i].a, b.a)][fl[i].a := Header(b.a, fl[i].n)];
    forall k | 0 <= k < |gl| ensures RepAt(m, gl, k) {
      if i + 1 < |fl| && b.a + b.n == fl[i + 1].a {
        RepLinkJoined(mem, fl, i, b, if k < |fl| then k else 0);
      } else {
        RepLinkPlain(mem, fl, i, b, k);
      }
    }
    if fl[i].a + fl[i].n == b.a { RepInsertJoined(mem, fl, i, b, m); }
  }

  lemma RepInsertJoined(mem: Memory, fl: seq<Blk>, i: nat, b: Blk, m: Memory)
    requires Place(fl, i, b.a) && fl[i].a + fl[i].n == b.a && Ascending(Linked(fl, i, b)) && Rep(m, Linked(fl, i, b))
    requires Around(mem, fl, i) && b.a in mem
    requires m == mem[b.a := FreedHeader(mem, fl[i].a, b.a)][fl[i].a := Header(b.a, fl[i].n)]
    ensures Rep(FreedMem(mem, fl[i].a, b.a), Insert(fl, i, b))
  {
    hide Rep, Ascending;
    var gl, hl := Linked(fl, i, b), Insert(fl, i, b);
    RepUse(m, gl, i + 1);
    assert gl[..i] == fl[..i] && gl[i + 2..] == Above(fl, i, b);
    assert FreedMem(mem, fl[i].a, b.a) == m[gl[i].a := Header(m[gl[i + 1].a].ptr, gl[i].n + gl[i + 1].n)];
    forall k | 0 <= k < |hl| ensures RepAt(FreedMem(mem, fl[i].a, b.a), hl, k) { RepMergeAt(m, gl, i, k); }
    RepIntro(FreedMem(mem, fl[i].a, b.a), hl);
  }

  lemma RepIntro(m: Memory, fl: seq<Blk>)
    requires forall k :: 0 <= k < |fl| ==> RepAt(m, fl, k)
    ensures Rep(m, fl)
  {}

  lemma InOrder(fl: seq<Blk>, i: nat, j: nat)
    requires Spaced(fl) && i < j < |fl|
    ensures fl[i].a < fl[j].a
  {}

  /** Unlinking block k, which malloc hands out whole. */
  lemma RepRemoveAt(mem: Memory, fl: seq<Blk>, k: nat, j: nat)
    requires Spaced(fl) && Rep(mem, fl) && 0 < k < |fl| && j < |fl| - 1
    ensures RepAt(mem[fl[k - 1].a := Header(fl[Succ(k, |fl|)].a, fl[k - 1].n)], fl[..k] + fl[k + 1..], j)
  {
    hide Rep, Spaced;
    var gl := fl[..k] + fl[k + 1..];
    RepUse(mem, fl, k);
    RepUse(mem, fl, k - 1);
    if j < k {
      RepUse(mem, fl, j);
      assert gl[j] == fl[j];
      if j < k - 1 { InOrder(fl, j, k - 1); }
    } else {
      RepUse(mem, fl, j + 1);
      assert gl[j] == fl[j + 1];
      InOrder(fl, k - 1, j + 1);
    }
  }

  /** Shrinking block k and writing a header into the units cut off its end. */
  lemma RepSplitAt(mem: Memory, fl: seq<Blk>, k: nat, units: nat, h: Header, j: nat)
    requires Spaced(fl) && Rep(mem, fl) && 0 < k < |fl| && 1 <= units < fl[k].n && j < |fl|
    ensures RepAt(mem[fl[k].a := Header(fl[Succ(k, |fl|)].a, fl[k].n - units)][fl[k].a + fl[k].n - units := h],
                  fl[k := Blk(fl[k].a, fl[k].n - units)], j)
  {
    assert RepAt(mem, fl, j) && RepAt(mem, fl, k);
    assert j < k ==> fl[j].a < fl[k].a;
    assert j > k ==> fl[k].a + fl[k].n < fl[j].a;
  }

  // ---- Where a block belongs ----

  /** Every block that is not free has a place in the list. */
  lemma {:induction false} PlaceExists(fl: seq<Blk>, b: Blk, i: nat) returns (k: nat)
    requires Spaced(fl) && Clear(fl, b) && b.n >= 1 && i < |fl| && fl[i].a < b.a
    ensures Place(fl, k, b.a)
    decreases |fl| - i
  {
    k := i;
    if i + 1 < |fl| && fl[i + 1].a <= b.a {
      assert fl[i + 1].a != b.a by { assert fl[i + 1].Has(fl[i + 1].a); assert b.Has(b.a); }
      k := PlaceExists(fl, b, i + 1);
    }
  }

  /** How far free's scan still has to go around the list from i to k. */
  function Ahead(i: nat, k: nat, n: nat): int { if i <= k then k - i else n - i + k }

  /** free's two loop tests stop exactly at the place of the block. */
  lemma StopsAtPlace(mem: Memory, fl: seq<Blk>, b: Blk, i: nat, k: nat)
    requires Spaced(fl) && Rep(mem, fl) && i < |fl| && Place(fl, k, b.a) && fl[0].a < b.a
    requires RepAt(mem, fl, i)
    ensures var p, q := fl[i].a, mem[fl[i].a].ptr;
      (p < b.a < q) || (p >= q && (b.a > p || b.a < q)) <==> i == k
  {
    if i < k { assert fl[i + 1].a <= fl[k].a; }
    if k < i { assert k + 1 < |fl| && fl[k + 1].a <= fl[i].a; }
  }

  ghost predicate InLive(live: map<int, nat>, u: int) {
    exists a :: a in live && Blk(a, live[a]).Has(u)
  }

  /** The allocated blocks: headers intact, none of their units free, none overlapping. */
  ghost predicate LiveOk(mem: Memory, fl: seq<Blk>, live: map<int, nat>) {
    && (forall a :: a in live ==> live[a] >= 1 && a in mem && mem[a].size == live[a] && Clear(fl, Blk(a, live[a])))
    && (forall a, b :: a in live && b in live && a != b ==> Apart(Blk(a, live[a]), Blk(b, live[b])))
  }

  /** Every unit obtained from sbrk is either free or in one allocated block. */
  ghost predicate Partition(fl: seq<Blk>, live: map<int, nat>, arena: set<int>) {
    forall u :: u in arena <==> Covers(fl, u) || InLive(live, u)
  }

  predicate InBlock(live: map<int, nat>, a: int, u: int) { a in live && a <= u < a + live[a] }

  predicate UnitSame(m: Memory, m': Memory, u: int) { u in m ==> u in m' && m'[u] == m[u] }

  /** What allocated blocks hold, headers included, is the same in both memories. */
  ghost predicate Kept(live: map<int, nat>, m: Memory, m': Memory) {
    forall a, u :: InBlock(live, a, u) ==> UnitSame(m, m', u)
  }

  class Heap {
    const base: int          // the address of the static header `base`
    var mem: Memory
    var freep: int           // 0 until the first malloc
    var brk: int             // where sbrk will place the next region
    ghost var fl: seq<Blk>
    ghost var live: map<int, nat>
    ghost var arena: set<int>

    constructor (base: int, brk: int)
      requires 0 < base < brk
      ensures Valid() && live == map[] && arena == {}
    {
      this.base, this.brk, mem, freep := base, brk, map[], 0;
      fl, live, arena := [], map[], {};
    }

    ghost predicate Started()
      reads this
    {
      && freep != 0
      && Spaced(fl) && fl[0] == Blk(base, 0)
      && Rep(mem, fl)
      && exists f :: 0 <= f < |fl| && fl[f].a == freep
    }

    ghost predicate Valid()
      reads this
    {
      && 0 < base < brk
      && (freep == 0 ==> fl == [] && live == map[] && arena == {})
      && (freep != 0 ==> Started())
      && LiveOk(mem, fl, live)
      && Partition(fl, live, arena)
      && (forall u :: u in arena ==> u in mem && base < u < brk)
    }

    /** free's scan: start at freep, go around until the block lies between two neighbours
        or beyond the last one. It ends within one lap. */
    method FindPlace(bp: int) returns (p: int, ghost i: nat)
      requires Valid() && bp in live
      ensures Place(fl, i, bp) && p == fl[i].a
    {
      hide Spaced, Clear, LiveOk, Partition, Covers;
      ghost var b := Blk(bp, live[bp]);
      LiveBlock(mem, fl, live, bp);
      ghost var k := PlaceExists(fl, b, 0);
      i :| 0 <= i < |fl| && fl[i].a == freep;
      p := freep;
      assert RepAt(mem, fl, i);
      while !(bp > p && bp < mem[p].ptr)
        invariant 0 <= i < |fl| && p == fl[i].a && RepAt(mem, fl, i)
        decreases Ahead(i, k, |fl|)
      {
        StopsAtPlace(mem, fl, b, i, k);
        if p >= mem[p].ptr && (bp > p || bp < mem[p].ptr) { break; }
        p := mem[p].ptr;
        i := Succ(i, |fl|);
        assert RepAt(mem, fl, i);
      }
      StopsAtPlace(mem, fl, b, i, k);
    }

    /** The pointer surgery of free, once p is the block's lower neighbour. */
    static method JoinNeighbours(mem0: Memory, p: int, bp: int) returns (mem: Memory)
      requires p in mem0 && bp in mem0 && mem0[p].ptr in mem0 && p != bp && mem0[p].ptr != bp
      ensures mem == FreedMem(mem0, p, bp)
    {
      mem := mem0;
      if bp + mem[bp].size == mem[p].ptr {
        mem := mem[bp := mem[bp].(size := mem[bp].size + mem[mem[p].ptr].size)];
        mem := mem[bp := mem[bp].(ptr := mem[mem[p].ptr].ptr)];
      } else {
        mem := mem[bp := mem[bp].(ptr := mem[p].ptr)];
      }
      if p + mem[p].size == bp {
        mem := mem[p := mem[p].(size := mem[p].size + mem[bp].size)];
        mem := mem[p := mem[p].(ptr := mem[bp].ptr)];
      } else {
        mem := mem[p := mem[p].(ptr := bp)];
      }
    }

    /** free: find the block's place, join it with the neighbours it touches, leave freep at the
        free block below it. Afterwards exactly its units have become free. */
    method Free(ap: int) returns (ghost i: nat)
      requires Valid() && ap - 1 in live
      modifies this`mem, this`freep, this`fl, this`live
      ensures Valid() && freep != 0
      ensures live == old(live) - {ap - 1} && Kept(live, old(mem), mem)
      ensures Place(old(fl), i, ap - 1) && freep == old(fl)[i].a
      ensures fl == Insert(old(fl), i, Blk(ap - 1, old(live)[ap - 1]))
      ensures forall u :: Covers(fl, u) <==> old(Covers(fl, u)) || Blk(ap - 1, old(live)[ap - 1]).Has(u)
    {
      hide Spaced, Clear, LiveOk, Partition, Covers, Rep, FreedMem, Insert, Kept;
      var bp := ap - 1;
      LiveBlock(mem, fl, live, bp);
      var p;
      p, i := FindPlace(bp);
      RepInsert(mem, fl, i, Blk(bp, live[bp]));
      ghost var mem0 := mem;
      mem := JoinNeighbours(mem, p, bp);
      freep := p;
      FreedState(mem0, fl, live, arena, i, bp);
      FreedKept(mem0, fl, live, i, bp);
      fl, live := Insert(fl, i, Blk(bp, live[bp])), live - {bp};
    }

    /** The program writes into a block it owns: anything, anywhere past the header. */
    method UserWrite(a: int, u: int, h: Header)
      requires Valid() && a in live && a < u < a + live[a]
      modifies this`mem
      ensures Valid() && fl == old(fl) && live == old(live) && mem == old(mem)[u := h]
    {
      hide Spaced, Clear, LiveOk, Partition, Covers, Rep;
      PayloadWrite(mem, fl, live, a, u, h);
      mem := mem[u := h];
    }

    /** morecore: ask sbrk for at least 4096 units and free them into the list. `gap` is where
        the region lands above the old break (others call sbrk too); negative means it failed. */
    method Morecore(nunits: nat, gap: int) returns (p: int)
      requires Valid() && freep != 0
      modifies this
      ensures Valid() && freep != 0 && live == old(live) && Kept(live, old(mem), mem)
      ensures p == 0 <==> gap < 0
      ensures p == 0 ==> fl == old(fl) && arena == old(arena) && freep == old(freep)
      ensures p != 0 ==>
        && p == freep == Top(old(fl)).a
        && Top(old(fl)).a < old(brk) + gap
        && fl == Extended(old(fl), Blk(old(brk) + gap, Granted(nunits)))
        && (exists j :: 0 <= j < |fl| && fl[j].n >= nunits)
        && arena == old(arena) + Span(Blk(old(brk) + gap, Granted(nunits)))
        && arena != old(arena)
    {
      hide Spaced, Clear, LiveOk, Partition, Covers, Rep, Kept, Span;
      KeptSelf(live, mem);
      if gap < 0 { return 0; }
      var nu := Granted(nunits);
      var hp := brk + gap;
      AtTheTop(fl, live, arena, brk, hp);
      Region(hp, nu);
      ghost var m := mem;
      ghost var i := Free(hp + 1);
      assert live == old(live);
      KeptTrans(live, old(mem), m, mem);
      RunInOneBlock(fl, Blk(hp, nu));
      p := freep;
    }

    /** The region sbrk returned, with its header: for a moment it is an allocated block. */
    method Region(hp: int, nu: nat)
      requires Valid() && freep != 0 && brk <= hp && nu >= 1
      modifies this`mem, this`brk, this`arena, this`live
      ensures Valid() && hp !in old(live) && live == old(live)[hp := nu] && Kept(old(live), old(mem), mem)
      ensures live - {hp} == old(live)
      ensures arena == old(arena) + Span(Blk(hp, nu)) && hp in arena && hp !in old(arena)
    {
      hide Spaced, Clear, LiveOk, Partition, Covers, Rep, Kept;
      ghost var region, mem0 := Blk(hp, nu), mem;
      GrowRep(mem, fl, live, arena, brk, region);
      GrowLive(mem, fl, live, arena, brk, region);
      GrowPartition(fl, live, arena, hp, nu);
      GrowKept(mem, fl, live, arena, brk, region);
      mem := mem + Zeroed(Blk(hp, nu));
      mem := mem[hp := mem[hp].(size := nu)];
      assert mem == Grown(mem0, region);
      brk := hp + nu;
      arena, live := arena + Span(Blk(hp, nu)), live[hp := nu];
      assert hp in arena by { assert region.Has(hp); }
    }

    /** The first malloc: the list is `base` alone. */
    method Start()
      requires Valid()
      modifies this`mem, this`freep, this`fl
      ensures Valid() && freep == (if old(freep) == 0 then base else old(freep)) != 0
      ensures fl == Listed(old(fl), base)
      ensures forall u :: Covers(fl, u) <==> old(Covers(fl, u))
      ensures Kept(live, old(mem), mem)
    {
      if freep == 0 {
        mem := mem[base := Header(base, 0)];
        freep := base;
        fl := [Blk(base, 0)];
        assert RepAt(mem, fl, 0);
        assert fl[0].a == freep;
      }
    }

    /** Hand out `units` units from the end of free block k, reached from its predecessor. */
    method Allocate(prevp: int, p0: int, units: nat, ghost k: nat) returns (p: int)
      requires Valid() && freep != 0 && 0 < k < |fl| && prevp == fl[k - 1].a && p0 == fl[k].a && 1 <= units <= fl[k].n
      modifies this`mem, this`freep, this`fl, this`live
      ensures Valid() && freep == prevp && p > base
      ensures p !in old(live) && live == old(live)[p := units] && Kept(old(live), old(mem), mem)
      ensures p == TakenAt(old(fl), k, units).a && fl == Take(old(fl), k, units)
    {
      hide Spaced, Clear, LiveOk, Partition, Covers, Rep, Take, Kept;
      p := p0;
      AllocState(mem, fl, live, arena, k, units);
      AllocKept(mem, fl, live, k, units);
      assert RepAt(mem, fl, k) && RepAt(mem, fl, k - 1) by { RepUse(mem, fl, k); RepUse(mem, fl, k - 1); }
      ghost var mem0 := mem;
      if mem[p].size == units {
        mem := mem[prevp := mem[prevp].(ptr := mem[p].ptr)];
      } else {
        mem := mem[p := mem[p].(size := mem[p].size - units)];
        p := p + mem[p].size;
        mem := mem[p := mem[p].(size := units)];
      }
      assert mem == AllocMem(mem0, fl, k, units);
      freep := prevp;
      fl, live := Take(fl, k, units), live[p := units];
      LiveBlock(mem, fl, live, p);
    }

    /** malloc: scan once around from freep for the first block that is large enough; failing
        that, grow the heap once and scan once more. The result is the address past the header. It
        grows the heap, or fails, exactly when no free block is large enough, and then the block
        is the end of what sbrk granted. */
    method Malloc(nbytes: nat, gap: int) returns (r: int)
      requires Valid() && nbytes <= MAX_REQUEST
      modifies this
      ensures Valid() && Kept(old(live), old(mem), mem)
      ensures r == 0 || arena != old(arena) <==> NoneFits(old(fl), UnitsFor(nbytes))
      ensures r == 0 ==> gap < 0 && live == old(live) && arena == old(arena) && fl == Listed(old(fl), base)
      ensures r == 0 ==> freep == if old(freep) == 0 then base else old(freep)
      ensures r != 0 ==>
        && r - 1 !in old(live)
        && live == old(live)[r - 1 := UnitsFor(nbytes)]
        && (UnitsFor(nbytes) - 1) * HEADER_BYTES >= nbytes
      ensures r != 0 && arena == old(arena) ==> FirstFit(old(fl), old(freep), UnitsFor(nbytes), r - 1, fl, freep)
      ensures r != 0 && arena != old(arena) ==>
        var b, l := Blk(old(brk) + gap, Granted(UnitsFor(nbytes))), Listed(old(fl), base);
        && arena == old(arena) + Span(b)
        && FirstFit(Extended(l, b), Top(l).a, UnitsFor(nbytes), r - 1, fl, freep)
        && r - 1 == b.a + b.n - UnitsFor(nbytes)
    {
      hide Spaced, Clear, LiveOk, Partition, Covers, Rep, Take, Scanning, FirstFit, Kept, NoneFits, Extended, Listed, Span;
      UsableBytes(nbytes);
      var nunits := UnitsFor(nbytes);
      Start();
      var prevp := freep;
      ghost var l, start := fl, freep;
      ghost var b := Blk(old(brk) + gap, Granted(nunits));
      NoneListed(old(fl), base, nunits);
      ghost var f := ScanStart(mem, fl, freep, nunits);
      ghost var t := 0;
      ghost var grown := false;
      var p := mem[prevp].ptr;
      while true
        invariant Valid() && freep != 0 && live == old(live) && Kept(live, old(mem), mem)
        invariant Scanning(fl, freep, prevp, p, f, t, nunits)
        invariant t < |fl|
        invariant grown ==> exists j :: 0 <= j < |fl| && fl[j].n >= nunits
        invariant !grown ==> arena == old(arena) && brk == old(brk) && fl == l && freep == start
        invariant grown ==> arena == old(arena) + Span(b) && arena != old(arena)
        invariant grown ==> NoneFits(l, nunits) && Top(l).a < b.a && fl == Extended(l, b) && freep == Top(l).a
        decreases if grown then 0 else 1, |fl| - t
      {
        ScanNext(mem, fl, freep, prevp, p, f, t, nunits);
        if mem[p].size >= nunits {
          ghost var m, gl, q := mem, fl, freep;
          p := Allocate(prevp, p, nunits, Step(f, t, |fl|));
          KeptTrans(old(live), old(mem), m, mem);
          FirstFitIntro(gl, q, nunits, f, t, p, fl, freep);
          if grown { TakenFromGrant(l, b, q, nunits, p, fl, freep); } else { FitsListed(old(fl), base, q, nunits, p, fl, freep); }
          return p + 1;
        }
        if p == freep {
          NoneFitsIntro(fl, nunits);
          ghost var m := mem;
          p := Morecore(nunits, gap);
          KeptTrans(live, old(mem), m, mem);
          if p == 0 { return 0; }
          f := ScanStart(mem, fl, freep, nunits);
          grown, t := true, 0;
        } else {
          t := t + 1;
        }
        prevp, p := p, mem[p].ptr;
      }
    }
  }

  // ---- What allocated blocks hold ----

  lemma KeptSelf(live: map<int, nat>, m: Memory)
    ensures Kept(live, m, m)
  {}

  lemma KeptTrans(live: map<int, nat>, m: Memory, m': Memory, m'': Memory)
    requires Kept(live, m, m') && Kept(live, m', m'')
    ensures Kept(live, m, m'')
  {
    forall a, u | InBlock(live, a, u) ensures UnitSame(m, m'', u) { assert UnitSame(m, m', u) && UnitSame(m', m'', u); }
  }

  /** No unit of an allocated block is the header of a free one, nor in the free block k. */
  lemma LiveUnit(mem: Memory, fl: seq<Blk>, live: map<int, nat>, a: int, u: int, k: nat)
    requires Spaced(fl) && LiveOk(mem, fl, live) && InBlock(live, a, u) && k < |fl|
    ensures u != fl[k].a && !fl[k].Has(u)
  {
    assert Clear(fl, Blk(a, live[a])) && Blk(a, live[a]).Has(u);
    assert k > 0 ==> fl[k].Has(fl[k].a);
  }

  lemma FreedKept(mem: Memory, fl: seq<Blk>, live: map<int, nat>, i: nat, bp: int)
    requires Spaced(fl) && LiveOk(mem, fl, live) && bp in live && Place(fl, i, bp) && Around(mem, fl, i)
    ensures bp in mem && Kept(live - {bp}, mem, FreedMem(mem, fl[i].a, bp))
  {
    var m := FreedMem(mem, fl[i].a, bp);
    forall a, u | InBlock(live - {bp}, a, u) ensures UnitSame(mem, m, u) {
      assert InBlock(live, a, u);
      LiveUnit(mem, fl, live, a, u, i);
      assert Apart(Blk(a, live[a]), Blk(bp, live[bp]));
    }
  }

  lemma AllocKept(mem: Memory, fl: seq<Blk>, live: map<int, nat>, k: nat, units: nat)
    requires Spaced(fl) && LiveOk(mem, fl, live) && 0 < k < |fl| && 1 <= units <= fl[k].n && TakenAt(fl, k, units).a in mem
    ensures Kept(live, mem, AllocMem(mem, fl, k, units))
  {
    var m := AllocMem(mem, fl, k, units);
    forall a, u | InBlock(live, a, u) ensures UnitSame(mem, m, u) {
      LiveUnit(mem, fl, live, a, u, k);
      LiveUnit(mem, fl, live, a, u, k - 1);
    }
  }

  lemma GrowKept(mem: Memory, fl: seq<Blk>, live: map<int, nat>, arena: set<int>, brk: int, b: Blk)
    requires Partition(fl, live, arena) && brk <= b.a && forall u :: u in arena ==> u < brk
    ensures Kept(live, mem, Grown(mem, b))
  {
    forall a, u | InBlock(live, a, u) ensures UnitSame(mem, Grown(mem, b), u) {
      assert InLive(live, u);
      assert u in arena;
    }
  }

  /** What malloc's loop knows: t blocks after freep, at index f, were too small. */
  ghost predicate Scanning(fl: seq<Blk>, freep: int, prevp: int, p: int, f: nat, t: nat, units: nat) {
    && f < |fl| && fl[f].a == freep && t < |fl|
    && p == fl[Step(f, t, |fl|)].a
    && prevp == fl[if t == 0 then f else Step(f, t - 1, |fl|)].a
    && TooSmall(fl, f, t, units)
  }

  /** No free block is large enough. */
  predicate NoneFits(fl: seq<Blk>, units: nat) { forall i :: 0 <= i < |fl| ==> fl[i].n < units }

  /** The list malloc scans: `base` alone before the first call. */
  function Listed(fl: seq<Blk>, base: int): seq<Blk> { if fl == [] then [Blk(base, 0)] else fl }

  function Top(fl: seq<Blk>): Blk { if fl == [] then Blk(0, 0) else fl[|fl| - 1] }

  /** The list with a region above every block of it. */
  function Extended(fl: seq<Blk>, b: Blk): seq<Blk> { if fl == [] then [] else Insert(fl, |fl| - 1, b) }

  /** Block k handed out, from its end: the address, the list then, and freep at the block before. */
  predicate Handed(fl: seq<Blk>, k: int, units: nat, a: int, fl': seq<Blk>, freep': int) {
    && 0 < k < |fl| && units <= fl[k].n
    && a == TakenAt(fl, k, units).a && fl' == Take(fl, k, units) && freep' == fl[k - 1].a
  }

  /** The block at a comes from the end of the first large enough block after freep. */
  ghost predicate FirstFit(fl: seq<Blk>, freep: int, units: nat, a: int, fl': seq<Blk>, freep': int) {
    exists f, t ::
      && 0 <= f < |fl| && fl[f].a == freep && 0 <= t < |fl| && TooSmall(fl, f, t, units)
      && Handed(fl, Step(f, t, |fl|), units, a, fl', freep')
  }

  lemma FirstFitIntro(fl: seq<Blk>, freep: int, units: nat, f: nat, t: nat, a: int, fl': seq<Blk>, freep': int)
    requires f < |fl| && fl[f].a == freep && t < |fl| && TooSmall(fl, f, t, units)
    requires Handed(fl, Step(f, t, |fl|), units, a, fl', freep')
    ensures FirstFit(fl, freep, units, a, fl', freep')
  {}

  lemma NoneFitsIntro(fl: seq<Blk>, units: nat)
    requires forall i :: 0 <= i < |fl| ==> fl[i].n < units
    ensures NoneFits(fl, units)
  {}

  lemma NoneListed(fl: seq<Blk>, base: int, units: nat)
    requires units >= 1
    ensures NoneFits(Listed(fl, base), units) <==> NoneFits(fl, units)
  {}

  /** A block found without growing is in the list there was. */
  lemma FitsListed(fl: seq<Blk>, base: int, freep: int, units: nat, a: int, fl': seq<Blk>, freep': int)
    requires FirstFit(Listed(fl, base), freep, units, a, fl', freep')
    ensures !NoneFits(fl, units) && Listed(fl, base) == fl
  {}

  /** Every block of the extended list is an old one, or ends where the region ends. */
  lemma ExtendedAt(fl: seq<Blk>, b: Blk, k: nat)
    requires Top(fl).a < b.a && k < |Extended(fl, b)|
    ensures (k < |fl| && Extended(fl, b)[k] == fl[k]) || Extended(fl, b)[k].a + Extended(fl, b)[k].n == b.a + b.n
  {}

  /** When nothing fitted before, the block is the end of the region that was granted. */
  lemma TakenFromGrant(fl: seq<Blk>, b: Blk, freep: int, units: nat, a: int, fl': seq<Blk>, freep': int)
    requires NoneFits(fl, units) && Top(fl).a < b.a && FirstFit(Extended(fl, b), freep, units, a, fl', freep')
    ensures a == b.a + b.n - units
  {
    var gl := Extended(fl, b);
    var f, t :| 0 <= f < |gl| && gl[f].a == freep && 0 <= t < |gl| && TooSmall(gl, f, t, units) && Handed(gl, Step(f, t, |gl|), units, a, fl', freep');
    ExtendedAt(fl, b, Step(f, t, |gl|));
  }

  /** A region above the break belongs after the last block. */
  lemma AtTheTop(fl: seq<Blk>, live: map<int, nat>, arena: set<int>, brk: int, hp: int)
    requires Spaced(fl) && Partition(fl, live, arena) && fl[0].a < brk <= hp && forall u :: u in arena ==> u < brk
    ensures forall i: nat :: Place(fl, i, hp) ==> i == |fl| - 1
    ensures Top(fl).a < hp
  {
    forall k | 0 < k < |fl| ensures fl[k].a < hp {
      assert fl[k].Has(fl[k].a);
      assert Covers(fl, fl[k].a);
    }
  }

  lemma ScanStart(mem: Memory, fl: seq<Blk>, freep: int, units: nat) returns (f: nat)
    requires Rep(mem, fl) && exists f :: 0 <= f < |fl| && fl[f].a == freep
    ensures freep in mem && Scanning(fl, freep, freep, mem[freep].ptr, f, 0, units)
  {
    f :| 0 <= f < |fl| && fl[f].a == freep;
    RepUse(mem, fl, f);
  }

  lemma ScanNext(mem: Memory, fl: seq<Blk>, freep: int, prevp: int, p: int, f: nat, t: nat, units: nat)
    requires Rep(mem, fl) && Spaced(fl) && Scanning(fl, freep, prevp, p, f, t, units)
    ensures 0 <= Step(f, t, |fl|) < |fl| && p == fl[Step(f, t, |fl|)].a
    ensures p in mem && mem[p].size == fl[Step(f, t, |fl|)].n
    ensures mem[p].size < units && p != freep ==> t + 1 < |fl| && Scanning(fl, freep, p, mem[p].ptr, f, t + 1, units)
    ensures mem[p].size < units && p == freep ==> forall i :: 0 <= i < |fl| ==> fl[i].n < units
    ensures mem[p].size >= units >= 1 ==> 0 < Step(f, t, |fl|) && prevp == fl[Step(f, t, |fl|) - 1].a
    ensures f < |fl| && fl[f].a == freep && TooSmall(fl, f, t, units)
  {
    RepUse(mem, fl, Step(f, t, |fl|));
    if mem[p].size < units {
      if p == freep {
        SameAddress(fl, f, Step(f, t, |fl|));
        assert TooSmall(fl, f, t + 1, units);
        FullLap(fl, f, units);
      }
    }
  }

  lemma SameAddress(fl: seq<Blk>, i: nat, j: nat)
    requires Spaced(fl) && i < |fl| && j < |fl| && fl[i].a == fl[j].a
    ensures i == j
  {}

  lemma RepUse(mem: Memory, fl: seq<Blk>, k: nat)
    requires Rep(mem, fl) && k < |fl|
    ensures RepAt(mem, fl, k)
  {}

  /** Memory after units are taken from block k. */
  function AllocMem(mem: Memory, fl: seq<Blk>, k: nat, units: nat): Memory
    requires 0 < k < |fl| && 1 <= units <= fl[k].n && TakenAt(fl, k, units).a in mem
  {
    var q := TakenAt(fl, k, units).a;
    if fl[k].n == units then mem[fl[k - 1].a := Header(fl[Succ(k, |fl|)].a, fl[k - 1].n)]
    else mem[fl[k].a := Header(fl[Succ(k, |fl|)].a, fl[k].n - units)][q := Header(mem[q].ptr, units)]
  }

  lemma AllocRep(mem: Memory, fl: seq<Blk>, k: nat, units: nat)
    requires Spaced(fl) && Rep(mem, fl) && 0 < k < |fl| && 1 <= units <= fl[k].n && TakenAt(fl, k, units).a in mem
    ensures Rep(AllocMem(mem, fl, k, units), Take(fl, k, units))
    ensures exists f :: 0 <= f < |Take(fl, k, units)| && Take(fl, k, units)[f].a == fl[k - 1].a
    ensures Take(fl, k, units)[0] == fl[0]
  {
    var gl, m, q := Take(fl, k, units), AllocMem(mem, fl, k, units), TakenAt(fl, k, units).a;
    forall j | 0 <= j < |gl| ensures RepAt(m, gl, j) {
      if fl[k].n == units { RepRemoveAt(mem, fl, k, j); } else { RepSplitAt(mem, fl, k, units, Header(mem[q].ptr, units), j); }
    }
    assert gl[k - 1].a == fl[k - 1].a;
  }

  lemma AllocLive(mem: Memory, fl: seq<Blk>, live: map<int, nat>, k: nat, units: nat)
    requires Spaced(fl) && Rep(mem, fl) && LiveOk(mem, fl, live)
    requires 0 < k < |fl| && 1 <= units <= fl[k].n && TakenAt(fl, k, units).a in mem
    ensures TakenAt(fl, k, units).a !in live
    ensures LiveOk(AllocMem(mem, fl, k, units), Take(fl, k, units), live[TakenAt(fl, k, units).a := units])
  {
    var b, gl, m := TakenAt(fl, k, units), Take(fl, k, units), AllocMem(mem, fl, k, units);
    forall u ensures (Covers(gl, u) <==> Covers(fl, u) && !b.Has(u)) && (b.Has(u) ==> Covers(fl, u)) {
      TakeCovers(fl, k, units, u);
    }
    AllocRep(mem, fl, k, units);
    RepUse(mem, fl, k);
    forall a | a in live ensures a != b.a && Apart(Blk(a, live[a]), b) && a in m && m[a].size == live[a] && Clear(gl, Blk(a, live[a])) {
      LiveBlock(mem, fl, live, a);
      AllocOther(fl, k, b, Blk(a, live[a]));
      OtherHeader(fl, Blk(a, live[a]), k);
      OtherHeader(fl, Blk(a, live[a]), k - 1);
    }
    assert Clear(gl, b);
  }

  /** An allocated block starts at no free block. */
  lemma OtherHeader(fl: seq<Blk>, c: Blk, i: nat)
    requires Spaced(fl) && Clear(fl, c) && c.n >= 1 && i < |fl|
    ensures c.a != fl[i].a
  {
    assert c.Has(c.a);
    assert i > 0 ==> fl[i].Has(fl[i].a);
  }

  lemma AllocOther(fl: seq<Blk>, k: nat, b: Blk, c: Blk)
    requires Spaced(fl) && Clear(fl, c) && c.n >= 1 && 0 < k < |fl|
    requires b.n >= 1 && fl[k].a <= b.a && b.a + b.n == fl[k].a + fl[k].n
    ensures Apart(c, b) && c.a != b.a
  {
    ClearApart(fl, c, k);
  }

  lemma AllocState(mem: Memory, fl: seq<Blk>, live: map<int, nat>, arena: set<int>, k: nat, units: nat)
    requires Spaced(fl) && Rep(mem, fl) && LiveOk(mem, fl, live) && Partition(fl, live, arena)
    requires 0 < k < |fl| && 1 <= units <= fl[k].n && forall u :: u in arena ==> u in mem
    ensures var b := TakenAt(fl, k, units);
      && b.a in mem && b.a !in live
      && Spaced(Take(fl, k, units)) && Take(fl, k, units)[0] == fl[0]
      && Rep(AllocMem(mem, fl, k, units), Take(fl, k, units))
      && (exists f :: 0 <= f < |Take(fl, k, units)| && Take(fl, k, units)[f].a == fl[k - 1].a)
      && LiveOk(AllocMem(mem, fl, k, units), Take(fl, k, units), live[b.a := units])
      && Partition(Take(fl, k, units), live[b.a := units], arena)
  {
    var b, gl := TakenAt(fl, k, units), Take(fl, k, units);
    assert fl[k].Has(b.a) && Covers(fl, b.a);
    TakeSpaced(fl, k, units);
    AllocRep(mem, fl, k, units);
    AllocLive(mem, fl, live, k, units);
    forall u ensures u in arena <==> Covers(gl, u) || InLive(live[b.a := units], u) {
      TakeCovers(fl, k, units, u);
      LiveAdd(live, b, u);
    }
  }

  // ---- malloc ----

  /** The largest request whose units fit the signed byte count sbrk takes. */
  const MAX_REQUEST := 0x7FFF_FFF0

  /** The byte count morecore passes: nu * sizeof(Header) as a 32-bit int. */
  function SbrkArgument(nunits: nat): int {
    var bytes := Granted(nunits) * HEADER_BYTES % UINT_MAX_PLUS_1;
    if bytes < 0x8000_0000 then bytes else bytes - UINT_MAX_PLUS_1
  }

  /** A request is rounded and passed on to sbrk without wrapping exactly up to MAX_REQUEST. */
  lemma RequestLimit(nbytes: nat)
    requires nbytes < UINT_MAX_PLUS_1
    ensures
      && (UnitsFor(nbytes) - 1) * HEADER_BYTES >= nbytes
      && SbrkArgument(UnitsFor(nbytes)) == Granted(UnitsFor(nbytes)) * HEADER_BYTES
      <==> nbytes <= MAX_REQUEST
  {
    UsableBytes(nbytes);
  }

  /** The position t steps after the one following f, around a list of n. */
  function Step(f: nat, t: nat, n: nat): int { if f + 1 + t < n then f + 1 + t else f + 1 + t - n }

  /** The t blocks after f are all too small. */
  predicate TooSmall(fl: seq<Blk>, f: nat, t: nat, units: nat) {
    f < |fl| && t <= |fl| && forall j :: 0 <= j < t ==> fl[Step(f, j, |fl|)].n < units
  }

  /** A whole lap of blocks too small leaves none. */
  lemma FullLap(fl: seq<Blk>, f: nat, units: nat)
    requires TooSmall(fl, f, |fl|, units)
    ensures forall i :: 0 <= i < |fl| ==> fl[i].n < units
  {
    forall i | 0 <= i < |fl| ensures fl[i].n < units {
      var j := if i >= f + 1 then i - f - 1 else i - f - 1 + |fl|;
      assert Step(f, j, |fl|) == i;
    }
  }

  function Span(b: Blk): set<int> { set u | b.a <= u < b.a + b.n && b.Has(u) }

  /** sbrk hands out zeroed memory. */
  function Zeroed(b: Blk): Memory { map u | b.a <= u < b.a + b.n && b.Has(u) :: Header(0, 0) }

  /** What morecore asks for. */
  function Granted(nunits: nat): nat { if nunits < 4096 then 4096 else nunits }

  lemma PayloadWrite(mem: Memory, fl: seq<Blk>, live: map<int, nat>, a: int, u: int, h: Header)
    requires Spaced(fl) && Rep(mem, fl) && LiveOk(mem, fl, live) && a in live && a < u < a + live[a]
    ensures Rep(mem[u := h], fl) && LiveOk(mem[u := h], fl, live)
  {
    LiveBlock(mem, fl, live, a);
    assert Blk(a, live[a]).Has(u);
    var m := mem[u := h];
    forall i | 0 <= i < |fl| ensures RepAt(m, fl, i) {
      assert RepAt(mem, fl, i);
      assert i > 0 ==> fl[i].Has(fl[i].a);
    }
    forall b | b in live ensures b != u {
      assert b != a ==> Apart(Blk(a, live[a]), Blk(b, live[b]));
    }
  }

  /** A stretch of free units lies inside one free block. */
  lemma RunInOneBlock(fl: seq<Blk>, r: Blk)
    requires Spaced(fl) && r.n >= 1 && forall u :: r.Has(u) ==> Covers(fl, u)
    ensures exists j :: 0 <= j < |fl| && fl[j].a <= r.a && r.a + r.n <= fl[j].a + fl[j].n && fl[j].n >= r.n
  {
    assert r.Has(r.a);
    var j :| 0 <= j < |fl| && fl[j].Has(r.a);
    var e := fl[j].a + fl[j].n;
    forall k | 0 <= k < |fl| ensures !fl[k].Has(e) {}
    assert !r.Has(e);
  }

  /** Memory with a new region whose first header records its size. */
  function Grown(mem: Memory, b: Blk): Memory { (mem + Zeroed(b))[b.a := Header(0, b.n)] }

  lemma GrowRep(mem: Memory, fl: seq<Blk>, live: map<int, nat>, arena: set<int>, brk: int, b: Blk)
    requires Spaced(fl) && Rep(mem, fl) && Partition(fl, live, arena) && fl[0].a < brk <= b.a
    requires forall u :: u in arena ==> u < brk
    ensures Rep(Grown(mem, b), fl)
  {
    var m := Grown(mem, b);
    forall i | 0 <= i < |fl| ensures RepAt(m, fl, i) {
      assert RepAt(mem, fl, i);
      assert i > 0 ==> fl[i].Has(fl[i].a);
      assert i > 0 ==> Covers(fl, fl[i].a);
    }
  }

  lemma LiveBelow(mem: Memory, fl: seq<Blk>, live: map<int, nat>, arena: set<int>, brk: int, a: int)
    requires LiveOk(mem, fl, live) && Partition(fl, live, arena) && a in live
    requires forall u :: u in arena ==> u < brk
    ensures a < a + live[a] <= brk
  {
    assert Blk(a, live[a]).Has(a + live[a] - 1);
    assert InLive(live, a + live[a] - 1);
  }

  /** Fresh units above the break overlap nothing. */
  lemma GrowLive(mem: Memory, fl: seq<Blk>, live: map<int, nat>, arena: set<int>, brk: int, b: Blk)
    requires Spaced(fl) && LiveOk(mem, fl, live) && Partition(fl, live, arena)
    requires fl[0].a < brk <= b.a && b.n >= 1 && forall u :: u in arena ==> u < brk
    ensures b.a !in live && LiveOk(Grown(mem, b), fl, live[b.a := b.n])
  {
    var m, live' := Grown(mem, b), live[b.a := b.n];
    forall a | a in live ensures a < b.a && a + live[a] <= b.a && live[a] >= 1 {
      LiveBelow(mem, fl, live, arena, brk, a);
    }
    assert Clear(fl, b);
    forall a | a in live' ensures live'[a] >= 1 && a in m && m[a].size == live'[a] && Clear(fl, Blk(a, live'[a])) {
      if a != b.a { LiveBlock(mem, fl, live, a); }
    }
    forall a, c | a in live' && c in live' && a != c ensures Apart(Blk(a, live'[a]), Blk(c, live'[c])) {
      if a != b.a && c != b.a { assert Apart(Blk(a, live[a]), Blk(c, live[c])); }
    }
  }

  lemma GrowPartition(fl: seq<Blk>, live: map<int, nat>, arena: set<int>, hp: int, nu: nat)
    requires Partition(fl, live, arena) && hp !in live
    ensures Partition(fl, live[hp := nu], arena + Span(Blk(hp, nu)))
  {
    forall u ensures InLive(live[hp := nu], u) <==> InLive(live, u) || Blk(hp, nu).Has(u) {
      LiveAdd(live, Blk(hp, nu), u);
    }
  }

  lemma LiveAdd(live: map<int, nat>, b: Blk, u: int)
    requires b.a !in live
    ensures InLive(live[b.a := b.n], u) <==> InLive(live, u) || b.Has(u)
  {
    var live' := live[b.a := b.n];
    if InLive(live, u) {
      var a :| a in live && Blk(a, live[a]).Has(u);
      assert a in live' && Blk(a, live'[a]).Has(u);
    }
    if b.Has(u) { assert b.a in live' && Blk(b.a, live'[b.a]).Has(u); }
  }

  lemma LiveBlock(mem: Memory, fl: seq<Blk>, live: map<int, nat>, a: int)
    requires LiveOk(mem, fl, live) && a in live
    ensures live[a] >= 1 && a in mem && mem[a].size == live[a] && Clear(fl, Blk(a, live[a]))
    ensures fl != [] && fl[0].a < a
  {}

  /** Freeing keeps the partition: the block's units move from one side to the other. */
  lemma FreedState(mem: Memory, fl: seq<Blk>, live: map<int, nat>, arena: set<int>, i: nat, bp: int)
    requires Spaced(fl) && LiveOk(mem, fl, live) && Partition(fl, live, arena) && bp in live
    requires Place(fl, i, bp) && Around(mem, fl, i)
    ensures var gl, m := Insert(fl, i, Blk(bp, live[bp])), FreedMem(mem, fl[i].a, bp);
      && m.Keys == mem.Keys
      && Spaced(gl) && gl[0] == fl[0] && (exists f :: 0 <= f < |gl| && gl[f].a == fl[i].a)
      && (forall u :: Covers(gl, u) <==> Covers(fl, u) || Blk(bp, live[bp]).Has(u))
      && LiveOk(m, gl, live - {bp}) && Partition(gl, live - {bp}, arena)
  {
    var b := Blk(bp, live[bp]);
    var gl, m := Insert(fl, i, b), FreedMem(mem, fl[i].a, bp);
    InsertSpaced(fl, i, b);
    InsertHead(fl, i, b);
    assert gl[i].a == fl[i].a;
    forall u ensures Covers(gl, u) <==> Covers(fl, u) || b.Has(u) { InsertCovers(fl, i, b, u); }
    FreedLive(mem, fl, live, i, bp, gl);
    forall u ensures u in arena <==> Covers(gl, u) || InLive(live - {bp}, u) {
      if InLive(live, u) && !InLive(live - {bp}, u) {
        var a :| a in live && Blk(a, live[a]).Has(u);
        assert a != bp ==> a in live - {bp};
      }
    }
  }

  lemma FreedLive(mem: Memory, fl: seq<Blk>, live: map<int, nat>, i: nat, bp: int, gl: seq<Blk>)
    requires Spaced(fl) && LiveOk(mem, fl, live) && bp in live && Place(fl, i, bp) && Around(mem, fl, i)
    requires gl != [] && gl[0] == fl[0]
    requires forall u :: Covers(gl, u) <==> Covers(fl, u) || Blk(bp, live[bp]).Has(u)
    ensures LiveOk(FreedMem(mem, fl[i].a, bp), gl, live - {bp})
  {
    var m := FreedMem(mem, fl[i].a, bp);
    forall a | a in live - {bp}
      ensures a in m && m[a].size == live[a] && Clear(gl, Blk(a, live[a]))
    {
      assert Clear(fl, Blk(a, live[a])) && Apart(Blk(a, live[a]), Blk(bp, live[bp]));
      assert Blk(a, live[a]).Has(a);
    }
  }
}

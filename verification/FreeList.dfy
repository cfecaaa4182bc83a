/** The free list of `umalloc.c` as a value: the blocks in address order, `base` first.
    Addresses are counted in units of one Header. */
module FreeList {

  datatype Blk = Blk(a: int, n: nat) {
    predicate Has(u: int) { a <= u < a + n }
  }

  /** Address order, no two free blocks touching, and only `base` empty. */
  predicate Spaced(fl: seq<Blk>) {
    && fl != []
    && fl[0].n == 0
    && (forall i :: 0 < i < |fl| ==> fl[i].n >= 1)
    && (forall i, j :: 0 <= i < j < |fl| ==> fl[i].a + fl[i].n < fl[j].a)
  }

  /** Unit u is free. */
  predicate Covers(fl: seq<Blk>, u: int) {
    exists i :: 0 <= i < |fl| && fl[i].Has(u)
  }

  /** No unit of the block is free, and it lies above `base`. */
  ghost predicate Clear(fl: seq<Blk>, b: Blk) {
    fl != [] && fl[0].a < b.a && forall u :: b.Has(u) ==> !Covers(fl, u)
  }

  predicate Apart(x: Blk, y: Blk) { x.a + x.n <= y.a || y.a + y.n <= x.a }

  lemma ClearApart(fl: seq<Blk>, b: Blk, i: nat)
    requires Spaced(fl) && Clear(fl, b) && b.n >= 1 && i < |fl|
    ensures Apart(fl[i], b)
  {
    if i > 0 && !Apart(fl[i], b) {
      var u := if fl[i].a < b.a then b.a else fl[i].a;
      assert fl[i].Has(u) && b.Has(u);
    }
  }

  /** i is where address a belongs in the list. */
  predicate Place(fl: seq<Blk>, i: nat, a: int) {
    i < |fl| && fl[i].a < a && (i + 1 < |fl| ==> a < fl[i + 1].a)
  }

  // ---- free: insert and coalesce ----

  /** Join b with its upper neighbour, the block after place i, when they touch. */
  function JoinUp(fl: seq<Blk>, i: nat, b: Blk): Blk
    requires i < |fl|
  {
    if i + 1 < |fl| && b.a + b.n == fl[i + 1].a then Blk(b.a, b.n + fl[i + 1].n) else b
  }

  /** The blocks above place i that remain after joining up. */
  function Above(fl: seq<Blk>, i: nat, b: Blk): seq<Blk>
    requires i < |fl|
  {
    if i + 1 < |fl| && b.a + b.n == fl[i + 1].a then fl[i + 2..] else fl[i + 1..]
  }

  /** The free list after b is freed at place i. */
  function Insert(fl: seq<Blk>, i: nat, b: Blk): seq<Blk>
    requires i < |fl|
  {
    var up := JoinUp(fl, i, b);
    if fl[i].a + fl[i].n == b.a then fl[..i] + [Blk(fl[i].a, fl[i].n + up.n)] + Above(fl, i, b)
    else fl[..i + 1] + [up] + Above(fl, i, b)
  }

  lemma InsertHead(fl: seq<Blk>, i: nat, b: Blk)
    requires Spaced(fl) && Place(fl, i, b.a)
    ensures Insert(fl, i, b) != [] && Insert(fl, i, b)[0] == fl[0]
  {}

  /** The joined block and everything above it keep their distance. */
  lemma AboveSpaced(fl: seq<Blk>, i: nat, b: Blk)
    requires Spaced(fl) && Clear(fl, b) && b.n >= 1 && Place(fl, i, b.a)
    ensures JoinUp(fl, i, b).a == b.a && JoinUp(fl, i, b).n >= 1
    ensures fl[i].a + fl[i].n <= b.a
    ensures forall k :: 0 <= k < |Above(fl, i, b)| ==>
      Above(fl, i, b)[k].n >= 1 && JoinUp(fl, i, b).a + JoinUp(fl, i, b).n < Above(fl, i, b)[k].a
    ensures forall j, k :: 0 <= j < k < |Above(fl, i, b)| ==>
      Above(fl, i, b)[j].a + Above(fl, i, b)[j].n < Above(fl, i, b)[k].a
  {
    ClearApart(fl, b, i);
    if i + 1 < |fl| { ClearApart(fl, b, i + 1); }
  }

  lemma InsertSpaced(fl: seq<Blk>, i: nat, b: Blk)
    requires Spaced(fl) && Clear(fl, b) && b.n >= 1 && Place(fl, i, b.a)
    ensures Spaced(Insert(fl, i, b))
  {
    if fl[i].a + fl[i].n == b.a { InsertJoined(fl, i, b); } else { InsertApart(fl, i, b); }
  }

  lemma InsertJoined(fl: seq<Blk>, i: nat, b: Blk)
    requires Spaced(fl) && Clear(fl, b) && b.n >= 1 && Place(fl, i, b.a) && fl[i].a + fl[i].n == b.a
    ensures Spaced(Insert(fl, i, b))
  {
    hide Clear, Above, JoinUp;
    AboveSpaced(fl, i, b);
    Splice(fl[..i], Blk(fl[i].a, fl[i].n + JoinUp(fl, i, b).n), Above(fl, i, b));
  }

  lemma InsertApart(fl: seq<Blk>, i: nat, b: Blk)
    requires Spaced(fl) && Clear(fl, b) && b.n >= 1 && Place(fl, i, b.a) && fl[i].a + fl[i].n != b.a
    ensures Spaced(Insert(fl, i, b))
  {
    hide Clear, Above, JoinUp;
    AboveSpaced(fl, i, b);
    Splice(fl[..i + 1], JoinUp(fl, i, b), Above(fl, i, b));
  }

  predicate Ordered(s: seq<Blk>) {
    forall i, j :: 0 <= i < j < |s| ==> s[i].a + s[i].n < s[j].a
  }

  lemma Splice(lo: seq<Blk>, m: Blk, hi: seq<Blk>)
    requires Ordered(lo) && Ordered(hi) && m.n >= 1
    requires forall i :: 0 <= i < |lo| ==> lo[i].a + lo[i].n < m.a
    requires forall k :: 0 <= k < |hi| ==> m.a + m.n < hi[k].a
    requires lo != [] && lo[0].n == 0
    requires (forall i :: 0 < i < |lo| ==> lo[i].n >= 1) && (forall k :: 0 <= k < |hi| ==> hi[k].n >= 1)
    ensures Spaced(lo + [m] + hi)
  {
    var s, n := lo + [m] + hi, |lo|;
    forall i, j | 0 <= i < j < |s| ensures s[i].a + s[i].n < s[j].a {
      assert s[i] == if i < n then lo[i] else if i == n then m else hi[i - n - 1];
      assert s[j] == if j < n then lo[j] else if j == n then m else hi[j - n - 1];
    }
  }

  lemma CoversConcat(s: seq<Blk>, t: seq<Blk>, u: int)
    ensures Covers(s + t, u) <==> Covers(s, u) || Covers(t, u)
  {
    if i :| 0 <= i < |s| && s[i].Has(u) { assert (s + t)[i].Has(u); }
    if i :| 0 <= i < |t| && t[i].Has(u) { assert (s + t)[|s| + i].Has(u); }
    if i :| 0 <= i < |s + t| && (s + t)[i].Has(u) {
      if i < |s| { assert s[i].Has(u); } else { assert t[i - |s|].Has(u); }
    }
  }

  lemma CoversOne(b: Blk, u: int)
    ensures Covers([b], u) <==> b.Has(u)
  {
    if b.Has(u) { assert [b][0].Has(u); }
  }

  lemma CoversThree(lo: seq<Blk>, m: Blk, hi: seq<Blk>, u: int)
    ensures Covers(lo + [m] + hi, u) <==> Covers(lo, u) || m.Has(u) || Covers(hi, u)
  {
    CoversConcat(lo + [m], hi, u);
    CoversConcat(lo, [m], u);
    CoversOne(m, u);
  }

  /** Freeing a block makes exactly its units free. */
  lemma InsertCovers(fl: seq<Blk>, i: nat, b: Blk, u: int)
    requires Spaced(fl) && Clear(fl, b) && b.n >= 1 && Place(fl, i, b.a)
    ensures Covers(Insert(fl, i, b), u) <==> Covers(fl, u) || b.Has(u)
  {
    AboveSpaced(fl, i, b);
    var up, ab := JoinUp(fl, i, b), Above(fl, i, b);
    CoversThree(fl[..i], fl[i], fl[i + 1..], u);
    assert fl == fl[..i] + [fl[i]] + fl[i + 1..];
    UpCovers(fl, i, b, u);
    if fl[i].a + fl[i].n == b.a {
      CoversThree(fl[..i], Blk(fl[i].a, fl[i].n + up.n), ab, u);
    } else {
      CoversThree(fl[..i + 1], up, ab, u);
      assert fl[..i + 1] == fl[..i] + [fl[i]];
      CoversConcat(fl[..i], [fl[i]], u);
      CoversOne(fl[i], u);
    }
  }

  lemma UpCovers(fl: seq<Blk>, i: nat, b: Blk, u: int)
    requires i < |fl|
    ensures JoinUp(fl, i, b).Has(u) || Covers(Above(fl, i, b), u) <==> b.Has(u) || Covers(fl[i + 1..], u)
  {
    if i + 1 < |fl| && b.a + b.n == fl[i + 1].a {
      assert fl[i + 1..] == [fl[i + 1]] + fl[i + 2..];
      CoversConcat([fl[i + 1]], fl[i + 2..], u);
      CoversOne(fl[i + 1], u);
    }
  }

  // ---- malloc: take from the end of a block ----

  /** The free list after `units` units are taken from the end of block k. */
  function Take(fl: seq<Blk>, k: nat, units: nat): seq<Blk>
    requires k < |fl| && units <= fl[k].n
  {
    if fl[k].n == units then fl[..k] + fl[k + 1..]
    else fl[k := Blk(fl[k].a, fl[k].n - units)]
  }

  function TakenAt(fl: seq<Blk>, k: nat, units: nat): Blk
    requires k < |fl| && units <= fl[k].n
  {
    Blk(fl[k].a + fl[k].n - units, units)
  }

  lemma TakeSpaced(fl: seq<Blk>, k: nat, units: nat)
    requires Spaced(fl) && 0 < k < |fl| && 1 <= units <= fl[k].n
    ensures Spaced(Take(fl, k, units))
  {
    if fl[k].n == units {
      var s := fl[..k] + fl[k + 1..];
      forall i, j | 0 <= i < j < |s| ensures s[i].a + s[i].n < s[j].a {
        assert s[i] == fl[if i < k then i else i + 1];
        assert s[j] == fl[if j < k then j else j + 1];
      }
    }
  }

  /** Taking a block makes exactly its units not free; they all were. */
  lemma TakeCovers(fl: seq<Blk>, k: nat, units: nat, u: int)
    requires Spaced(fl) && 0 < k < |fl| && 1 <= units <= fl[k].n
    ensures Covers(Take(fl, k, units), u) <==> Covers(fl, u) && !TakenAt(fl, k, units).Has(u)
    ensures TakenAt(fl, k, units).Has(u) ==> Covers(fl, u)
  {
    var lo, hi := fl[..k], fl[k + 1..];
    assert fl == lo + [fl[k]] + hi;
    CoversThree(lo, fl[k], hi, u);
    if fl[k].n == units {
      CoversConcat(lo, hi, u);
    } else {
      var m := Blk(fl[k].a, fl[k].n - units);
      assert fl[k := m] == lo + [m] + hi;
      CoversThree(lo, m, hi, u);
    }
    if fl[k].Has(u) {
      forall i | 0 <= i < |lo| ensures !lo[i].Has(u) {}
      forall i | 0 <= i < |hi| ensures !hi[i].Has(u) { assert hi[i] == fl[k + 1 + i]; }
    }
  }

  // ---- The list is determined by the free units ----

  /** The same list without its first block. */
  function Rest(fl: seq<Blk>): seq<Blk>
    requires |fl| > 1
  {
    [fl[0]] + fl[2..]
  }

  lemma RestCovers(fl: seq<Blk>, u: int)
    requires Spaced(fl) && |fl| > 1
    ensures Spaced(Rest(fl))
    ensures Covers(Rest(fl), u) <==> Covers(fl, u) && u >= fl[1].a + fl[1].n
  {
    assert fl == [fl[0]] + [fl[1]] + fl[2..];
    CoversThree([fl[0]], fl[1], fl[2..], u);
    CoversConcat([fl[0]], fl[2..], u);
    CoversOne(fl[0], u);
    if Covers(fl[2..], u) {
      var i :| 0 <= i < |fl[2..]| && fl[2..][i].Has(u);
      assert fl[2..][i] == fl[i + 2];
    }
    forall i, j | 0 <= i < j < |Rest(fl)| ensures Rest(fl)[i].a + Rest(fl)[i].n < Rest(fl)[j].a {
      assert Rest(fl)[j] == fl[j + 1] && Rest(fl)[i] == fl[if i == 0 then 0 else i + 1];
    }
  }

  /** The units of the first block are free and those on either side of it are not. */
  lemma FirstBlock(fl: seq<Blk>)
    requires Spaced(fl) && |fl| > 1
    ensures forall u :: fl[1].Has(u) ==> Covers(fl, u)
    ensures forall u :: u < fl[1].a ==> !Covers(fl, u)
    ensures !Covers(fl, fl[1].a + fl[1].n)
  {}

  lemma NoLonger(fl: seq<Blk>, gl: seq<Blk>)
    requires Spaced(fl) && Spaced(gl) && |fl| > 1 && |gl| > 1 && fl[1].a == gl[1].a
    requires forall u :: Covers(fl, u) <==> Covers(gl, u)
    ensures gl[1].n <= fl[1].n
  {
    FirstBlock(fl);
    FirstBlock(gl);
    var e := fl[1].a + fl[1].n;
    assert gl[1].Has(e) ==> Covers(gl, e);
  }

  /** Two well-spaced lists with the same free units are the same list: coalescing is complete,
      and after any history the list depends only on what is free. */
  lemma {:induction false} Canonical(fl: seq<Blk>, gl: seq<Blk>)
    requires Spaced(fl) && Spaced(gl) && fl[0] == gl[0]
    requires forall u :: Covers(fl, u) <==> Covers(gl, u)
    ensures fl == gl
    decreases |fl|
  {
    if |fl| > 1 && |gl| > 1 {
      FirstBlock(fl);
      FirstBlock(gl);
      assert fl[1].Has(fl[1].a) && gl[1].Has(gl[1].a);
      assert fl[1].a == gl[1].a;
      NoLonger(fl, gl);
      NoLonger(gl, fl);
      forall u ensures Covers(Rest(fl), u) <==> Covers(Rest(gl), u) {
        RestCovers(fl, u);
        RestCovers(gl, u);
      }
      RestCovers(fl, 0);
      RestCovers(gl, 0);
      Canonical(Rest(fl), Rest(gl));
      assert fl[2..] == Rest(fl)[1..] && gl[2..] == Rest(gl)[1..];
      assert fl == [fl[0], fl[1]] + fl[2..] && gl == [gl[0], gl[1]] + gl[2..];
    } else if |fl| > 1 {
      FirstBlock(fl);
      assert fl[1].Has(fl[1].a);
    } else if |gl| > 1 {
      FirstBlock(gl);
      assert gl[1].Has(gl[1].a);
    }
  }

  /** malloc then free of the same block restores the list exactly, splits and unlinks alike. */
  lemma MallocThenFree(fl: seq<Blk>, k: nat, units: nat, i: nat)
    requires Spaced(fl) && 0 < k < |fl| && 1 <= units <= fl[k].n
    requires Place(Take(fl, k, units), i, TakenAt(fl, k, units).a)
    ensures Insert(Take(fl, k, units), i, TakenAt(fl, k, units)) == fl
  {
    var b, gl := TakenAt(fl, k, units), Take(fl, k, units);
    TakeSpaced(fl, k, units);
    forall u ensures (Covers(gl, u) <==> Covers(fl, u) && !b.Has(u)) && (b.Has(u) ==> Covers(fl, u)) {
      TakeCovers(fl, k, units, u);
    }
    assert Clear(gl, b);
    InsertSpaced(gl, i, b);
    InsertHead(gl, i, b);
    forall u ensures Covers(Insert(gl, i, b), u) <==> Covers(fl, u) { InsertCovers(gl, i, b, u); }
    Canonical(Insert(gl, i, b), fl);
  }
}

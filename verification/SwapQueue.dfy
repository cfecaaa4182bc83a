/** The SCFIFO queue as pages rather than ring links: which page an eviction takes, and what a run
    of evictions leaves of the pages that were there before it. */
module SwapQueue {
  import opened Counting
  import opened Ring
  import opened SwapState

  /** The virtual pages on the ring, from headp. */
  function Queue(s: View): (q: seq<int>)
    ensures |q| == |s.order|
  {
    seq(|s.order|, k requires 0 <= k < |s.order| => if 0 <= s.order[k] < |s.pages| then s.pages[s.order[k]].va else -1)
  }

  predicate Acc(p: map<nat, Pte>, v: int) { v >= 0 && v in p && p[v].accessed }

  /** Second chance: the first c pages of the queue had PTE_A and lose it, the next one goes; if all had it, the
      first goes. */
  predicate Evicts(q: seq<int>, p: map<nat, Pte>, q': seq<int>, p': map<nat, Pte>, c: nat, k: nat) {
    && c <= |q| && q != [] && k == (if c < |q| then c else 0)
    && (forall j :: 0 <= j < c ==> Acc(p, q[j]))
    && (c < |q| ==> !Acc(p, q[c]))
    && q' == Without(q, k)
    && (forall j :: 0 <= j < |q| ==> (Acc(p', q[j]) <==> j >= c && Acc(p, q[j])))
  }

  /** The entries of the metadata in use. */
  function Used(pages: seq<Meta>): set<int> { set j | 0 <= j < |pages| && pages[j].taken }

  lemma UsedAll(pages: seq<Meta>)
    requires forall j :: 0 <= j < |pages| ==> pages[j].taken
    ensures |Used(pages)| == |pages|
  {
    var all := CardRange(|pages|);
    assert Used(pages) == all;
  }

  lemma UsedAdd(a: seq<Meta>, b: seq<Meta>, i: nat)
    requires |a| == |b| && i < |a| && !a[i].taken && forall j :: 0 <= j < |a| ==> b[j].taken == (a[j].taken || j == i)
    ensures |Used(b)| == |Used(a)| + 1
  {
    assert Used(b) == Used(a) + {i};
  }

  lemma QueueFields(s: View, t: View)
    requires t.pages == s.pages && t.order == s.order
    ensures Queue(t) == Queue(s)
  {}

  /** The queue without the pages of a range, the others in their order. */
  function Beyond(q: seq<int>, lo: int, hi: int): seq<int>
    decreases |q|
  {
    if q == [] then []
    else Beyond(q[..|q| - 1], lo, hi) + if lo <= q[|q| - 1] < hi then [] else [q[|q| - 1]]
  }

  lemma {:induction false} BeyondConcat(q: seq<int>, r: seq<int>, lo: int, hi: int)
    ensures Beyond(q + r, lo, hi) == Beyond(q, lo, hi) + Beyond(r, lo, hi)
    decreases |r|
  {
    if r == [] {
      assert q + r == q;
    } else {
      assert (q + r)[..|q + r| - 1] == q + r[..|r| - 1];
      BeyondConcat(q, r[..|r| - 1], lo, hi);
    }
  }

  lemma {:induction false} BeyondSame(q: seq<int>, lo: int, hi: int)
    requires forall j :: 0 <= j < |q| ==> !(lo <= q[j] < hi)
    ensures Beyond(q, lo, hi) == q
    decreases |q|
  {
    if q != [] {
      assert q == q[..|q| - 1] + [q[|q| - 1]];
      BeyondSame(q[..|q| - 1], lo, hi);
    }
  }

  /** Dropping a page that is there once. */
  lemma {:induction false} BeyondOne(q: seq<int>, k: nat)
    requires k < |q| && forall j :: 0 <= j < |q| && j != k ==> q[j] != q[k]
    ensures Beyond(q, q[k], q[k] + 1) == Without(q, k)
    decreases |q|
  {
    var n := |q| - 1;
    if k == n {
      BeyondSame(q[..n], q[k], q[k] + 1);
    } else {
      BeyondOne(q[..n], k);
      assert Without(q, k) == Without(q[..n], k) + [q[n]];
    }
  }

  lemma {:induction false} BeyondNext(q: seq<int>, lo: int, a: int)
    requires lo <= a
    ensures Beyond(q, lo, a + 1) == Beyond(Beyond(q, lo, a), a, a + 1)
    decreases |q|
  {
    if q != [] {
      var r, x := q[..|q| - 1], q[|q| - 1];
      BeyondNext(r, lo, a);
      BeyondConcat(Beyond(r, lo, a), if lo <= x < a then [] else [x], a, a + 1);
      assert [x][..0] == [];
    }
  }

  /** While pages lo..hi are being added: n of the older pages are left at the front of the queue, the
      newer ones have not been used, and at most one of those has been evicted before the older ones were gone,
      in which case the older ones have lost PTE_A. */
  predicate Pressed(q: seq<int>, p: map<nat, Pte>, lo: nat, hi: nat, n: nat, x: nat) {
    && n <= |q|
    && (forall j :: 0 <= j < n ==> !(lo <= q[j] < hi))
    && (forall j :: n <= j < |q| ==> lo <= q[j] < hi && !Acc(p, q[j]))
    && (n > 0 ==> x == 0 || (x == 1 && forall j :: 0 <= j < n ==> !Acc(p, q[j])))
  }

  /** Each eviction takes an older page, except perhaps one. */
  lemma PressEvict(q: seq<int>, p: map<nat, Pte>, q': seq<int>, p': map<nat, Pte>, c: nat, k: nat, lo: nat, hi: nat, n: nat, x: nat)
    returns (n': nat, x': nat)
    requires Pressed(q, p, lo, hi, n, x) && Evicts(q, p, q', p', c, k)
    ensures Pressed(q', p', lo, hi, n', x')
    ensures n > 0 ==> n' - x' == n - x - 1
    ensures n' <= n
  {
    assert forall j :: 0 <= j < |q'| ==> q'[j] == q[if j < k then j else j + 1];
    if n > 0 && k < n {
      n', x' := n - 1, x;
    } else if n > 0 {
      assert Acc(p, q[0]);
      n', x' := n, 1;
    } else {
      n', x' := 0, x;
    }
  }

  lemma PressAdd(q: seq<int>, p: map<nat, Pte>, p': map<nat, Pte>, v: nat, lo: nat, hi: nat, n: nat, x: nat)
    requires Pressed(q, p, lo, hi, n, x) && lo <= v < hi && v in p' && !p'[v].accessed && p' == p[v := p'[v]]
    ensures Pressed(q + [v], p', lo, hi, n, x)
  {}

  /** At the start all pages are older. */
  lemma PressStart(s: View, lo: nat, hi: nat)
    requires Ok(s) && forall v :: lo <= v < hi && v in s.pgdir ==> !s.pgdir[v].present
    ensures Pressed(Queue(s), s.pgdir, lo, hi, |s.order|, 0)
  {
    forall j | 0 <= j < |s.order| ensures !(lo <= Queue(s)[j] < hi) {
      if lo <= Queue(s)[j] < hi { PresentQueue(s, Queue(s)[j]); }
    }
  }

  /** Present pages and the queue are the same pages. */
  lemma PresentQueue(s: View, v: nat)
    requires Ok(s)
    ensures v in Queue(s) <==> v in s.pgdir && s.pgdir[v].present
  {
    if v in Queue(s) {
      var k :| 0 <= k < |s.order| && Queue(s)[k] == v;
      assert s.order[k] in s.order && MetaOkAt(s, s.order[k]);
    }
    if v in s.pgdir && s.pgdir[v].present {
      assert HasMeta(s.pages, v);
      var i :| 0 <= i < |s.pages| && s.pages[i].taken && s.pages[i].va == v;
      assert MetaOkAt(s, i) && i in s.order;
      var k :| 0 <= k < |s.order| && s.order[k] == i;
      assert Queue(s)[k] == v;
    }
  }

  /** With no page present the ring is empty. */
  lemma NonePresent(s: View)
    requires Ok(s) && forall v :: v in s.pgdir ==> !s.pgdir[v].present
    ensures s.order == []
  {
    assert s.order != [] ==> s.order[0] in s.order;
    forall i | 0 <= i < |s.pages| ensures !Resident(s.pages[i]) { assert MetaOkAt(s, i); }
  }
}

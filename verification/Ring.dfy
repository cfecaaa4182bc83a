/** Circular doubly linked lists threaded through array indices: the shape shared by the
    LRU list of `bio.c` and the SCFIFO ring of `swap.c`. */
module Ring {
  import opened Counting

  function Succ(i: nat, n: nat): nat { if i + 1 == n then 0 else i + 1 }

  function Pred(i: nat, n: nat): int { if i == 0 then n - 1 else i - 1 }

  /** `order` lists the ring once around, following next; prev runs the other way. */
  predicate IsRing(next: seq<int>, prev: seq<int>, order: seq<int>) {
    && |next| == |prev|
    && Distinct(order)
    && (forall i :: 0 <= i < |order| ==> 0 <= order[i] < |next|)
    && (forall i :: 0 <= i < |order| ==> next[order[i]] == order[Succ(i, |order|)])
    && (forall i :: 0 <= i < |order| ==> prev[order[i]] == order[Pred(i, |order|)])
  }

  function Without(s: seq<int>, k: nat): seq<int>
    requires k < |s|
  {
    s[..k] + s[k + 1..]
  }

  lemma WithoutMembers(s: seq<int>, k: nat)
    requires Distinct(s) && k < |s|
    ensures Distinct(Without(s, k))
    ensures forall x :: x in Without(s, k) <==> x in s && x != s[k]
  {
    assert s == s[..k] + [s[k]] + s[k + 1..];
  }

  lemma WithoutAt(s: seq<int>, k: nat, i: nat)
    requires k < |s| && i < |s| - 1
    ensures |Without(s, k)| == |s| - 1 && Without(s, k)[i] == s[if i < k then i else i + 1]
  {}

  lemma UnlinkNext(next: seq<int>, prev: seq<int>, order: seq<int>, k: nat, i: nat)
    requires IsRing(next, prev, order) && k < |order| && i < |order| - 1
    ensures var o, x := Without(order, k), order[k];
      && 0 <= o[i] < |next| && 0 <= prev[x] < |next|
      && next[prev[x] := next[x]][o[i]] == o[Succ(i, |o|)]
  {
    hide Without;
    WithoutAt(order, k, i);
    WithoutAt(order, k, Succ(i, |order| - 1));
    assert order[if i < k then i else i + 1] == order[Pred(k, |order|)] <==> Succ(if i < k then i else i + 1, |order|) == k;
  }

  lemma UnlinkPrev(next: seq<int>, prev: seq<int>, order: seq<int>, k: nat, i: nat)
    requires IsRing(next, prev, order) && k < |order| && i < |order| - 1
    ensures var o, x := Without(order, k), order[k];
      && 0 <= o[i] < |next| && 0 <= next[x] < |next|
      && prev[next[x] := prev[x]][o[i]] == o[Pred(i, |o|)]
  {
    hide Without;
    WithoutAt(order, k, i);
    WithoutAt(order, k, Pred(i, |order| - 1));
    assert order[if i < k then i else i + 1] == order[Succ(k, |order|)] <==> Pred(if i < k then i else i + 1, |order|) == k;
  }

  /** Unlinking the k-th element: its neighbours now point at each other. */
  lemma Unlink(next: seq<int>, prev: seq<int>, order: seq<int>, k: nat)
    requires IsRing(next, prev, order) && k < |order|
    ensures var x := order[k];
      && 0 <= next[x] < |next| && 0 <= prev[x] < |next|
      && IsRing(next[prev[x] := next[x]], prev[next[x] := prev[x]], Without(order, k))
  {
    WithoutMembers(order, k);
    forall i | 0 <= i < |order| - 1
      ensures 0 <= Without(order, k)[i] < |next|
      ensures next[prev[order[k]] := next[order[k]]][Without(order, k)[i]] == Without(order, k)[Succ(i, |order| - 1)]
      ensures prev[next[order[k]] := prev[order[k]]][Without(order, k)[i]] == Without(order, k)[Pred(i, |order| - 1)]
    {
      UnlinkNext(next, prev, order, k, i);
      UnlinkPrev(next, prev, order, k, i);
    }
  }

  /** Linking x in just before the first element, that is, at the tail. */
  lemma LinkTail(next: seq<int>, prev: seq<int>, order: seq<int>, x: int)
    requires IsRing(next, prev, order) && order != []
    requires 0 <= x < |next| && x !in order
    ensures var h := order[0];
      && 0 <= prev[h] < |next|
      && IsRing(next[x := h][prev[h] := x], prev[x := prev[h]][h := x], order + [x])
  {
    var h := order[0];
    var t := prev[h];
    var next', prev', o := next[x := h][t := x], prev[x := t][h := x], order + [x];
    forall i | 0 <= i < |o| ensures next'[o[i]] == o[Succ(i, |o|)] {
      if i < |order| { assert o[i] == order[i]; }
    }
    forall i | 0 <= i < |o| ensures prev'[o[i]] == o[Pred(i, |o|)] {
      if i < |order| { assert o[i] == order[i]; }
    }
  }

  /** A ring of one. */
  lemma LinkFirst(next: seq<int>, prev: seq<int>, x: int)
    requires |next| == |prev| && 0 <= x < |next|
    ensures IsRing(next[x := x], prev[x := x], [x])
  {}

  /** The ring with x just after its first element. */
  function Front(order: seq<int>, x: int): seq<int>
    requires order != []
  {
    [order[0], x] + order[1..]
  }

  lemma FrontAt(order: seq<int>, x: int, i: nat)
    requires order != [] && i <= |order|
    ensures |Front(order, x)| == |order| + 1
    ensures Front(order, x)[i] == if i == 0 then order[0] else if i == 1 then x else order[i - 1]
  {}

  lemma LinkFrontNext(next: seq<int>, prev: seq<int>, order: seq<int>, x: int, i: nat)
    requires IsRing(next, prev, order) && order != [] && 0 <= x < |next| && x !in order && i <= |order|
    ensures var h, o := order[0], Front(order, x);
      |o| == |order| + 1 && 0 <= o[i] < |next| && next[x := next[h]][h := x][o[i]] == o[Succ(i, |o|)]
  {
    hide Front;
    FrontAt(order, x, i);
    FrontAt(order, x, Succ(i, |order| + 1));
  }

  lemma LinkFrontPrev(next: seq<int>, prev: seq<int>, order: seq<int>, x: int, i: nat)
    requires IsRing(next, prev, order) && order != [] && 0 <= x < |next| && x !in order && i <= |order|
    ensures var h, o := order[0], Front(order, x);
      && |o| == |order| + 1 && 0 <= o[i] < |next| && 0 <= next[h] < |next|
      && prev[x := h][next[h] := x][o[i]] == o[Pred(i, |o|)]
  {
    hide Front;
    FrontAt(order, x, i);
    FrontAt(order, x, Pred(i, |order| + 1));
  }

  /** Linking x in just after the first element: the front of an LRU list headed by order[0]. */
  lemma LinkFront(next: seq<int>, prev: seq<int>, order: seq<int>, x: int)
    requires IsRing(next, prev, order) && order != []
    requires 0 <= x < |next| && x !in order
    ensures var h := order[0];
      && 0 <= next[h] < |next|
      && IsRing(next[x := next[h]][h := x], prev[x := h][next[h] := x], Front(order, x))
  {
    hide Front;
    var o := Front(order, x);
    FrontAt(order, x, 0);
    LinkFrontPrev(next, prev, order, x, 0);
    forall i | 0 <= i < |o|
      ensures 0 <= o[i] < |next|
      ensures next[x := next[order[0]]][order[0] := x][o[i]] == o[Succ(i, |o|)]
      ensures prev[x := order[0]][next[order[0]] := x][o[i]] == o[Pred(i, |o|)]
    {
      LinkFrontNext(next, prev, order, x, i);
      LinkFrontPrev(next, prev, order, x, i);
    }
    forall i, j | 0 <= i < j < |o| ensures o[i] != o[j] {
      FrontAt(order, x, i);
      FrontAt(order, x, j);
    }
  }
}

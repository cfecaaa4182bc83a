/** Cardinalities of finite sets of integers, for pigeonhole arguments. */
module Counting {

  predicate Distinct(s: seq<int>) {
    forall i, j :: 0 <= i < j < |s| ==> s[i] != s[j]
  }

  lemma {:induction false} CardImage(s: set<int>, f: int -> int) returns (t: set<int>)
    ensures t == set x | x in s :: f(x)
    ensures |t| <= |s|
    decreases |s|
  {
    if forall x :: x !in s {
      assert s == {};
      t := {};
    } else {
      var x :| x in s;
      var t' := CardImage(s - {x}, f);
      t := t' + {f(x)};
      assert s == (s - {x}) + {x};
    }
  }

  /** An image under a function that keeps the elements apart is as large. */
  lemma {:induction false} CardInjection(s: set<int>, f: int -> int) returns (t: set<int>)
    requires forall x, y :: x in s && y in s && f(x) == f(y) ==> x == y
    ensures t == set x | x in s :: f(x)
    ensures |t| == |s|
    decreases |s|
  {
    if forall x :: x !in s {
      assert s == {};
      t := {};
    } else {
      var x :| x in s;
      var t' := CardInjection(s - {x}, f);
      assert f(x) !in t';
      t := t' + {f(x)};
      assert s == (s - {x}) + {x};
    }
  }

  lemma {:induction false} CardDistinct(s: seq<int>) returns (t: set<int>)
    requires Distinct(s)
    ensures t == set x | x in s
    ensures |t| == |s|
    decreases |s|
  {
    if s == [] {
      t := {};
    } else {
      var t' := CardDistinct(s[1..]);
      assert s == [s[0]] + s[1..];
      assert s[0] !in s[1..];
      t := t' + {s[0]};
    }
  }

  lemma {:induction false} CardRange(n: nat) returns (t: set<int>)
    ensures forall k :: k in t <==> 0 <= k < n
    ensures |t| == n
  {
    if n == 0 {
      t := {};
    } else {
      var t' := CardRange(n - 1);
      t := t' + {n - 1};
    }
  }

  lemma {:induction false} CardSubset(a: set<int>, b: set<int>)
    requires a <= b
    ensures |a| <= |b|
    decreases |a|
  {
    if forall x :: x !in a {
      assert a == {};
    } else {
      var x :| x in a;
      CardSubset(a - {x}, b - {x});
    }
  }

  lemma CardAdd(s: set<int>, x: int)
    ensures |s + {x}| <= |s| + 1
  {
    if x in s { assert s + {x} == s; }
  }

  lemma {:induction false} CardUnion(s: set<int>, t: set<int>)
    ensures |s + t| <= |s| + |t|
    decreases t
  {
    if forall x :: x !in t {
      assert s + t == s;
    } else {
      var x :| x in t;
      CardUnion(s, t - {x});
      assert s + t == (s + (t - {x})) + {x};
      CardAdd(s + (t - {x}), x);
    }
  }
}

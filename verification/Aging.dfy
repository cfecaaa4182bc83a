/** The NFUA and LAPA replacement policies of `swap.c`: a 32-bit access history for every resident page,
    shifted at each clock tick, and the choice of the page to evict. */
module Aging {

  const WORD := 0x1_0000_0000
  const TOP := 0x8000_0000

  type Uint = c: int | 0 <= c < 0x1_0000_0000

  /** The fields of a page the policies use; `accessed` is PTE_A of its entry. */
  datatype Page = Page(taken: bool, onPhys: bool, counter: Uint, accessed: bool)

  predicate Resident(p: Page) { p.taken && p.onPhys }

  // ---- Words as bits, most significant first ----

  function Bit(b: bool): nat { if b then 1 else 0 }

  function Pow2(n: nat): nat { if n == 0 then 1 else 2 * Pow2(n - 1) }

  function Val(b: seq<bool>): nat {
    if b == [] then 0 else 2 * Val(b[..|b| - 1]) + Bit(b[|b| - 1])
  }

  lemma {:induction false} ValCons(a: bool, b: seq<bool>)
    ensures Val([a] + b) == Bit(a) * Pow2(|b|) + Val(b)
    decreases |b|
  {
    if b == [] {
      assert [a] + b == [a] && [a][..0] == [];
    } else {
      var c := b[..|b| - 1];
      assert ([a] + b)[..|b|] == [a] + c && ([a] + b)[|b|] == b[|b| - 1];
      ValCons(a, c);
      assert Pow2(|b|) == 2 * Pow2(|c|);
    }
  }

  lemma {:induction false} ValBound(b: seq<bool>)
    ensures Val(b) < Pow2(|b|)
    decreases |b|
  {
    if b != [] { ValBound(b[..|b| - 1]); }
  }

  lemma Pow2Word()
    ensures Pow2(31) == TOP && Pow2(32) == WORD
  {
    assert Pow2(8) == 256;
    assert Pow2(16) == 65536;
    assert Pow2(24) == 16777216;
    assert Pow2(31) == TOP;
  }

  /** All bits set is the largest word, and nothing else is. */
  lemma {:induction false} ValFull(b: seq<bool>)
    ensures Val(b) == Pow2(|b|) - 1 <==> forall k :: 0 <= k < |b| ==> b[k]
    decreases |b|
  {
    if b != [] {
      var c := b[..|b| - 1];
      ValFull(c);
      ValBound(c);
      assert forall k :: 0 <= k < |c| ==> c[k] == b[k];
    }
  }

  // ---- Popcount ----

  function Ones(c: nat): nat { if c == 0 then 0 else c % 2 + Ones(c / 2) }

  function Count(b: seq<bool>): nat { if b == [] then 0 else Count(b[..|b| - 1]) + Bit(b[|b| - 1]) }

  /** num_of_ones counts the set bits of the word. */
  lemma {:induction false} OnesIsCount(b: seq<bool>)
    ensures Ones(Val(b)) == Count(b) <= |b|
    decreases |b|
  {
    if b != [] {
      var c := b[..|b| - 1];
      OnesIsCount(c);
      assert Val(b) / 2 == Val(c) && Val(b) % 2 == Bit(b[|b| - 1]);
    }
  }

  lemma {:induction false} OnesBound(c: nat, n: nat)
    requires c < Pow2(n)
    ensures Ones(c) <= n
    decreases n
  {
    if c != 0 && n > 0 { OnesBound(c / 2, n - 1); }
  }

  method NumOfOnes(c0: Uint) returns (ans: nat)
    ensures ans == Ones(c0) <= 32
  {
    Pow2Word();
    OnesBound(c0, 32);
    ans := 0;
    var c: nat := c0;
    while c != 0
      invariant ans + Ones(c) == Ones(c0)
      decreases c
    {
      if c % 2 != 0 { ans := ans + 1; }
      c := c / 2;
    }
  }

  // ---- Aging ----

  /** counter >>= 1, then the top bit when the page was accessed. */
  function Age(c: Uint, accessed: bool): Uint { c / 2 + (if accessed then TOP else 0) }

  function AgeAll(c: Uint, acc: seq<bool>): Uint {
    if acc == [] then c else Age(AgeAll(c, acc[..|acc| - 1]), acc[|acc| - 1])
  }

  /** The last 32 observations, newest first, over the bits the counter started with. */
  function Window(start: seq<bool>, acc: seq<bool>): seq<bool>
    requires |start| == 32
    ensures |Window(start, acc)| == 32
  {
    if acc == [] then start else [acc[|acc| - 1]] + Window(start, acc[..|acc| - 1])[..31]
  }

  lemma {:induction false} WindowAt(start: seq<bool>, acc: seq<bool>, k: nat)
    requires |start| == 32 && k < 32
    ensures Window(start, acc)[k] == (if k < |acc| then acc[|acc| - 1 - k] else start[k - |acc|])
    decreases |acc|
  {
    if acc != [] && k > 0 {
      var before := acc[..|acc| - 1];
      WindowAt(start, before, k - 1);
      assert Window(start, acc)[k] == Window(start, before)[..31][k - 1];
    }
  }

  lemma AgeShifts(b: seq<bool>, a: bool)
    requires |b| == 32 && Val(b) < WORD
    ensures Age(Val(b), a) == Val([a] + b[..31])
  {
    ValCons(a, b[..31]);
    Pow2Word();
    assert Val(b) / 2 == Val(b[..31]);
  }

  /** After any run of ticks the counter is the page's last 32 accesses, newest in the top bit. */
  lemma {:induction false} CounterIsHistory(start: seq<bool>, acc: seq<bool>)
    requires |start| == 32
    ensures Val(start) < WORD && Val(Window(start, acc)) < WORD
    ensures AgeAll(Val(start), acc) == Val(Window(start, acc))
    decreases |acc|
  {
    ValBound(start);
    Pow2Word();
    ValBound(Window(start, acc));
    if acc != [] {
      CounterIsHistory(start, acc[..|acc| - 1]);
      AgeShifts(Window(start, acc[..|acc| - 1]), acc[|acc| - 1]);
    }
  }

  /** So LAPA ranks a page by how many of its last 32 ticks saw an access. */
  lemma LapaRank(start: seq<bool>, acc: seq<bool>)
    requires |start| == 32
    ensures Val(start) < WORD && Ones(AgeAll(Val(start), acc)) == Count(Window(start, acc))
  {
    CounterIsHistory(start, acc);
    OnesIsCount(Window(start, acc));
  }

  /** The counter is saturated exactly when every observation in the window was an access. */
  lemma SaturatedExactly(start: seq<bool>, acc: seq<bool>)
    requires |start| == 32
    ensures Val(start) < WORD
    ensures AgeAll(Val(start), acc) == WORD - 1 <==> (forall k :: 0 <= k < 32 ==> Window(start, acc)[k])
  {
    CounterIsHistory(start, acc);
    ValFull(Window(start, acc));
    Pow2Word();
  }

  // ---- The page table ----

  /** A page after one tick. */
  function Ticked(p: Page): Page {
    if Resident(p) then Page(p.taken, p.onPhys, Age(p.counter, p.accessed), false) else p
  }

  class Pager {
    var pages: seq<Page>

    constructor (pages: seq<Page>)
      ensures this.pages == pages
    {
      this.pages := pages;
    }

    /** updatePagesCounter ages every resident page once and clears its accessed bit. */
    method UpdatePagesCounter()
      modifies this
      ensures |pages| == |old(pages)| && forall i :: 0 <= i < |pages| ==> pages[i] == Ticked(old(pages)[i])
    {
      var i := 0;
      while i < |pages|
        invariant i <= |pages| == |old(pages)|
        invariant forall k :: 0 <= k < |pages| ==> pages[k] == (if k < i then Ticked(old(pages)[k]) else old(pages)[k])
      {
        var p := pages[i];
        if p.taken && p.onPhys {
          p := p.(counter := p.counter / 2);
          if p.accessed {
            p := p.(counter := p.counter + TOP);
            p := p.(accessed := false);
          }
          pages := pages[i := p];
        }
        i := i + 1;
      }
    }

    /** LAPA's choice: the resident page with the fewest set bits, then the smallest counter, then the
        lowest index; there is one whenever a page is resident. */
    method LapaVictim() returns (selected: int)
      ensures selected == -1 <==> forall j :: 0 <= j < |pages| ==> !Resident(pages[j])
      ensures selected != -1 ==> 0 <= selected < |pages| && Resident(pages[selected])
      ensures selected != -1 ==> forall j :: 0 <= j < |pages| && Resident(pages[j]) && j != selected ==>
        if selected < j then AtMost(pages[selected], pages[j]) else Below(pages[selected], pages[j])
    {
      selected := -1;
      var best: nat := WORD - 1;
      var i := 0;
      while i < |pages|
        invariant 0 <= i <= |pages| && -1 <= selected < i
        invariant selected == -1 ==> best == WORD - 1 && forall j :: 0 <= j < i ==> !Resident(pages[j])
        invariant selected != -1 ==> Resident(pages[selected]) && best == Ones(pages[selected].counter) <= 32
        invariant selected != -1 ==> forall j :: 0 <= j < i && Resident(pages[j]) && j != selected ==>
          if selected < j then AtMost(pages[selected], pages[j]) else Below(pages[selected], pages[j])
      {
        if Resident(pages[i]) {
          var curr := NumOfOnes(pages[i].counter);
          if curr < best || (curr == best && pages[i].counter < pages[selected].counter) {
            best := curr;
            selected := i;
          }
        }
        i := i + 1;
      }
    }

    /** NFUA's choice: the first resident page with the smallest counter, and none, although pages are
        resident, exactly when all of them are saturated. */
    method NfuaVictim() returns (selected: int)
      ensures selected == -1 <==> forall j :: 0 <= j < |pages| && Resident(pages[j]) ==> pages[j].counter == WORD - 1
      ensures selected != -1 ==> 0 <= selected < |pages| && Resident(pages[selected])
      ensures selected != -1 ==> forall j :: 0 <= j < |pages| && Resident(pages[j]) && j != selected ==>
        if selected < j then pages[selected].counter <= pages[j].counter else pages[selected].counter < pages[j].counter
    {
      selected := -1;
      var best: nat := WORD - 1;
      var i := 0;
      while i < |pages|
        invariant 0 <= i <= |pages| && -1 <= selected < i
        invariant selected == -1 ==> best == WORD - 1
        invariant selected == -1 ==> forall j :: 0 <= j < i && Resident(pages[j]) ==> pages[j].counter == WORD - 1
        invariant selected != -1 ==> Resident(pages[selected]) && best == pages[selected].counter < WORD - 1
        invariant selected != -1 ==> forall j :: 0 <= j < i && Resident(pages[j]) && j != selected ==>
          if selected < j then pages[selected].counter <= pages[j].counter else pages[selected].counter < pages[j].counter
      {
        if Resident(pages[i]) && pages[i].counter < best {
          best := pages[i].counter;
          selected := i;
        }
        i := i + 1;
      }
    }
  }

  /** p is evicted strictly before q. */
  predicate Below(p: Page, q: Page) {
    Ones(p.counter) < Ones(q.counter) || (Ones(p.counter) == Ones(q.counter) && p.counter < q.counter)
  }

  predicate AtMost(p: Page, q: Page) {
    Ones(p.counter) < Ones(q.counter) || (Ones(p.counter) == Ones(q.counter) && p.counter <= q.counter)
  }

  /** A page accessed in each of its last 32 ticks is saturated, whatever its counter was: when all
      resident pages are, NFUA finds no victim. */
  lemma AlwaysAccessedSaturates(start: seq<bool>, acc: seq<bool>)
    requires |start| == 32 && |acc| >= 32 && forall t :: |acc| - 32 <= t < |acc| ==> acc[t]
    ensures Val(start) < WORD && AgeAll(Val(start), acc) == WORD - 1
  {
    SaturatedExactly(start, acc);
    forall k | 0 <= k < 32 ensures Window(start, acc)[k] { WindowAt(start, acc, k); }
  }
}

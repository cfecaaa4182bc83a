/** Every run of a process under NFUA or LAPA: what a page's counter says when pages are used, come, go and
    are aged at clock ticks in any order. */
module AgingRuns {
  import opened Aging

  datatype Policy = NFUA | LAPA

  /** The program uses a page, the clock ticks, a page goes to the swap file or comes back, and pages enter and
      leave the tracked set. */
  datatype Step = Touch(i: nat) | Tick | Out(i: nat) | In(i: nat) | Add(i: nat) | Remove(i: nat)

  predicate Enabled(ps: seq<Page>, e: Step) {
    match e
    case Touch(i) => i < |ps| && Resident(ps[i])
    case Tick => true
    case Out(i) => i < |ps| && Resident(ps[i])
    case In(i) => i < |ps| && ps[i].taken && !ps[i].onPhys
    case Add(i) => i < |ps| && !ps[i].taken
    case Remove(i) => i < |ps| && ps[i].taken
  }

  /** The counter of a page that comes back from the swap file, and of one that is new. */
  function CounterIn(p: Policy): Uint { if p == NFUA then TOP else WORD - 1 }

  function CounterNew(p: Policy): Uint { if p == NFUA then 0 else WORD - 1 }

  /** A page that comes is mapped by a new page-table entry, without PTE_A. */
  function Do(p: Policy, ps: seq<Page>, e: Step): (qs: seq<Page>)
    requires Enabled(ps, e)
    ensures |qs| == |ps|
  {
    match e
    case Touch(i) => ps[i := ps[i].(accessed := true)]
    case Tick => seq(|ps|, i requires 0 <= i < |ps| => Ticked(ps[i]))
    case Out(i) => ps[i := ps[i].(onPhys := false)]
    case In(i) => ps[i := Page(true, true, CounterIn(p), false)]
    case Add(i) => ps[i := Page(true, true, CounterNew(p), false)]
    case Remove(i) => ps[i := Page(false, false, 0, ps[i].accessed)]
  }

  predicate Run(p: Policy, ps: seq<Page>, es: seq<Step>, qs: seq<Page>)
    decreases |es|
  {
    if es == [] then qs == ps
    else Enabled(ps, es[0]) && Run(p, Do(p, ps, es[0]), es[1..], qs)
  }

  // ---- What has been observed of a page ----

  /** Since page i came: the bits its counter started with, for each tick whether it was used since the tick
      before, and whether it has been used since the last tick. */
  datatype Story = Story(start: seq<bool>, acc: seq<bool>, used: bool)

  function Ones32(): (b: seq<bool>)
    ensures |b| == 32 && forall k :: 0 <= k < 32 ==> b[k]
  {
    seq(32, k => true)
  }

  function Zeros32(): (b: seq<bool>)
    ensures |b| == 32 && forall k :: 0 <= k < 32 ==> !b[k]
  {
    seq(32, k => false)
  }

  function BitsIn(p: Policy): seq<bool> { if p == NFUA then Zeros32()[0 := true] else Ones32() }

  function BitsNew(p: Policy): seq<bool> { if p == NFUA then Zeros32() else Ones32() }

  function Seen(p: Policy, h: Story, e: Step, i: nat): Story {
    if e == Touch(i) then h.(used := true)
    else if e == Tick then Story(h.start, h.acc + [h.used], false)
    else if e == In(i) then Story(BitsIn(p), [], false)
    else if e == Add(i) then Story(BitsNew(p), [], false)
    else h
  }

  function After(p: Policy, h: Story, es: seq<Step>, i: nat): Story
    decreases |es|
  {
    if es == [] then h else After(p, Seen(p, h, es[0], i), es[1..], i)
  }

  /** The page is as its story says. */
  predicate Matches(q: Page, h: Story) {
    |h.start| == 32 && q.accessed == h.used && q.counter == Val(Window(h.start, h.acc))
  }

  lemma {:induction false} ValZeros(b: seq<bool>)
    requires forall k :: 0 <= k < |b| ==> !b[k]
    ensures Val(b) == 0
    decreases |b|
  {
    if b != [] { ValZeros(b[..|b| - 1]); }
  }

  lemma StartsRight(p: Policy)
    ensures |BitsIn(p)| == |BitsNew(p)| == 32 && Val(BitsIn(p)) == CounterIn(p) && Val(BitsNew(p)) == CounterNew(p)
  {
    Pow2Word();
    ValFull(Ones32());
    ValZeros(Zeros32());
    var z := Zeros32()[1..];
    assert Zeros32()[0 := true] == [true] + z;
    ValCons(true, z);
    ValZeros(z);
  }

  lemma TickMatches(q: Page, h: Story)
    requires Resident(q) && Matches(q, h)
    ensures Matches(Ticked(q), Story(h.start, h.acc + [h.used], false))
  {
    var w := Window(h.start, h.acc);
    ValBound(w);
    Pow2Word();
    AgeShifts(w, h.used);
    assert (h.acc + [h.used])[..|h.acc|] == h.acc;
  }

  /** What the steps keep: a resident page is as its story says. */
  lemma StepMatches(p: Policy, ps: seq<Page>, e: Step, i: nat, h: Story)
    requires Enabled(ps, e) && i < |ps| && (Resident(ps[i]) ==> Matches(ps[i], h))
    ensures Resident(Do(p, ps, e)[i]) ==> Matches(Do(p, ps, e)[i], Seen(p, h, e, i))
  {
    StartsRight(p);
    if e == Tick && Resident(ps[i]) { TickMatches(ps[i], h); }
  }

  /** Over every run, a resident page's counter is its last 32 observations since it came, newest in the top bit,
      over the bits it came with; and it has PTE_A exactly if it was used since the last tick. */
  lemma {:induction false} CounterOverRuns(p: Policy, ps: seq<Page>, es: seq<Step>, qs: seq<Page>, i: nat, h: Story)
    requires Run(p, ps, es, qs) && i < |ps| && (Resident(ps[i]) ==> Matches(ps[i], h))
    ensures |qs| == |ps| && (Resident(qs[i]) ==> Matches(qs[i], After(p, h, es, i)))
    decreases |es|
  {
    if es != [] {
      StepMatches(p, ps, es[0], i, h);
      CounterOverRuns(p, Do(p, ps, es[0]), es[1..], qs, i, Seen(p, h, es[0], i));
    }
  }

  // ---- What the story is ----

  lemma {:induction false} AfterConcat(p: Policy, h: Story, a: seq<Step>, b: seq<Step>, i: nat)
    ensures After(p, h, a + b, i) == After(p, After(p, h, a, i), b, i)
    decreases |a|
  {
    if a == [] {
      assert a + b == b;
    } else {
      assert (a + b)[0] == a[0] && (a + b)[1..] == a[1..] + b;
      AfterConcat(p, Seen(p, h, a[0], i), a[1..], b, i);
    }
  }

  predicate Comes(e: Step, i: nat) { e == In(i) || e == Add(i) }

  /** Between ticks only use counts. */
  lemma {:induction false} Between(p: Policy, h: Story, b: seq<Step>, i: nat)
    requires forall k :: 0 <= k < |b| ==> b[k] != Tick && !Comes(b[k], i)
    ensures After(p, h, b, i) == h.(used := h.used || Touch(i) in b)
    decreases |b|
  {
    if b != [] {
      Between(p, Seen(p, h, b[0], i), b[1..], i);
      assert b == [b[0]] + b[1..];
    }
  }

  /** Each tick observes exactly whether the page was used since the tick before it, or since it came. */
  lemma Observed(p: Policy, h: Story, a: seq<Step>, e: Step, b: seq<Step>, i: nat)
    requires e == Tick || Comes(e, i)
    requires forall k :: 0 <= k < |b| ==> b[k] != Tick && !Comes(b[k], i)
    ensures var g, g' := After(p, h, a + [e], i), After(p, h, a + [e] + b + [Tick], i);
      g'.acc == g.acc + [Touch(i) in b] && g'.start == g.start && !g'.used
  {
    var g := After(p, h, a + [e], i);
    AfterConcat(p, h, a, [e], i);
    AfterConcat(p, h, a + [e] + b, [Tick], i);
    AfterConcat(p, h, a + [e], b, i);
    Between(p, g, b, i);
  }

  /** Until the page comes anew, every tick adds one observation. */
  lemma {:induction false} NoTicksLost(p: Policy, h: Story, b: seq<Step>, i: nat)
    requires forall k :: 0 <= k < |b| ==> !Comes(b[k], i)
    ensures After(p, h, b, i).start == h.start && |After(p, h, b, i).acc| == |h.acc| + Ticks(b)
    decreases |b|
  {
    if b != [] { NoTicksLost(p, Seen(p, h, b[0], i), b[1..], i); }
  }

  function Ticks(b: seq<Step>): nat { if b == [] then 0 else (if b[0] == Tick then 1 else 0) + Ticks(b[1..]) }

  // ---- Consequences ----

  lemma {:induction false} RunSplit(p: Policy, ps: seq<Page>, a: seq<Step>, b: seq<Step>, qs: seq<Page>) returns (ms: seq<Page>)
    requires Run(p, ps, a + b, qs)
    ensures Run(p, ps, a, ms) && Run(p, ms, b, qs)
    decreases |a|
  {
    if a == [] {
      assert a + b == b;
      ms := ps;
    } else {
      assert (a + b)[0] == a[0] && (a + b)[1..] == a[1..] + b;
      ms := RunSplit(p, Do(p, ps, a[0]), a[1..], b, qs);
    }
  }

  /** After each tick no resident page has PTE_A, and the tick changed no other page. */
  lemma TickClears(p: Policy, ps: seq<Page>, es: seq<Step>, qs: seq<Page>, i: nat)
    requires Run(p, ps, es + [Tick], qs) && i < |ps|
    ensures |qs| == |ps| && (Resident(qs[i]) ==> !qs[i].accessed)
    ensures !Resident(qs[i]) ==> forall ms :: Run(p, ps, es, ms) ==> |ms| == |ps| && ms[i] == qs[i]
  {
    var ms := RunSplit(p, ps, es, [Tick], qs);
    assert [Tick][1..] == [];
    RunOne(p, ps, es, ms, ms);
    forall ns | Run(p, ps, es, ns) ensures ns == ms { RunOne(p, ps, es, ns, ms); }
  }

  lemma {:induction false} RunOne(p: Policy, ps: seq<Page>, es: seq<Step>, qs: seq<Page>, rs: seq<Page>)
    requires Run(p, ps, es, qs) && Run(p, ps, es, rs)
    ensures qs == rs && |qs| == |ps|
    decreases |es|
  {
    if es != [] { RunOne(p, Do(p, ps, es[0]), es[1..], qs, rs); }
  }

  predicate Concerns(e: Step, i: nat) { Comes(e, i) || e == Remove(i) }

  /** A page that is not resident stays as it is until it comes or is removed. */
  lemma {:induction false} AwayUnchanged(p: Policy, ps: seq<Page>, es: seq<Step>, qs: seq<Page>, i: nat)
    requires Run(p, ps, es, qs) && i < |ps| && !Resident(ps[i]) && forall k :: 0 <= k < |es| ==> !Concerns(es[k], i)
    ensures |qs| == |ps| && qs[i] == ps[i]
    decreases |es|
  {
    if es != [] { AwayUnchanged(p, Do(p, ps, es[0]), es[1..], qs, i); }
  }

  /** A page used since the last tick but one outranks, for NFUA, every page that was not. */
  lemma UsedOutranks(p: Policy, ps: seq<Page>, es: seq<Step>, qs: seq<Page>, i: nat, j: nat, hi: Story, hj: Story)
    requires Run(p, ps, es + [Tick], qs) && i < |ps| && j < |ps|
    requires (Resident(ps[i]) ==> Matches(ps[i], hi)) && (Resident(ps[j]) ==> Matches(ps[j], hj))
    ensures |qs| == |ps|
    ensures Resident(qs[i]) && Resident(qs[j]) && After(p, hi, es, i).used && !After(p, hj, es, j).used ==> qs[j].counter < qs[i].counter
  {
    var ms := RunSplit(p, ps, es, [Tick], qs);
    assert [Tick][1..] == [];
    CounterOverRuns(p, ps, es, ms, i, hi);
    CounterOverRuns(p, ps, es, ms, j, hj);
  }
}

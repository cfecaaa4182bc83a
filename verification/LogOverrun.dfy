/** What happens to a log without room: log_write's test is made before log.lock is taken, so two processes can pass
    it on the same length, and the commit then writes past the end of the log, or has no buffer to write with. */
module LogOverrun {
  import opened DiskModel
  import opened LogRecovery
  import opened Options
  import opened LogSystem
  import Safety = LogSystemSafety
  import G = GroupCommit
  import B = BufferCache

  lemma Extend(l: Layout, n: nat, d: Image, steps: seq<Step>, step: Step, s: Sys)
    requires Run(l, n, d, steps) == Some(s) && Enabled(l, s, step)
    ensures Run(l, n, d, steps + [step]) == Some(Do(l, s, step))
  {
    assert (steps + [step])[..|steps|] == steps;
  }

  // ---- One block logged ----

  /** p has block b, read in and locked. */
  function Fetched(s: Sys, p: Pid, b: nat): Sys
    requires b < |s.disk|
  {
    WithBuf(s, b, Buf(true, false, {p}, Some(p), s.disk[b]))
  }

  function Fetch(p: Pid, b: nat): seq<Step> { [Claim(p, b), Lock(p, b), Fill(p, b)] }

  lemma FetchRuns(l: Layout, n: nat, d: Image, steps: seq<Step>, s: Sys, p: Pid, b: nat)
    requires Run(l, n, d, steps) == Some(s) && WellFormed(l, s.disk) && !s.phase.Recovering? && !Inside(s, p)
    requires l.Home(b) && b !in s.cache && Spare(s)
    ensures Run(l, n, d, steps + Fetch(p, b)) == Some(Fetched(s, p, b))
  {
    hide WellFormed, Run;
    HomeInRange(l, s.disk, b);
    var s1 := WithBuf(s, b, Buf(false, false, {p}, None, s.disk[l.start]));
    var s2 := WithBuf(s, b, Buf(false, false, {p}, Some(p), s.disk[l.start]));
    Extend(l, n, d, steps, Claim(p, b), s);
    assert s1.cache[b := Buf(false, false, {p}, Some(p), s.disk[l.start])] == s2.cache;
    Extend(l, n, d, steps + [Claim(p, b)], Lock(p, b), s1);
    assert s2.cache[b := Buf(true, false, {p}, Some(p), s.disk[b])] == Fetched(s, p, b).cache;
    Extend(l, n, d, steps + [Claim(p, b)] + [Lock(p, b)], Fill(p, b), s2);
    assert steps + [Claim(p, b)] + [Lock(p, b)] + [Fill(p, b)] == steps + Fetch(p, b);
  }

  lemma HomeInRange(l: Layout, d: Image, b: nat)
    requires WellFormed(l, d) && l.Home(b)
    ensures b < |d| && l.start < |d|
  {}

  /** p's block b, logged and released. */
  function Logged(s: Sys, p: Pid, b: nat): Sys
    requires b < |s.disk| && p in s.g.left && s.g.left[p] > 0
  {
    WithBuf(s, b, Buf(true, true, {}, None, s.disk[b])).(g := Counted(s.g, p, b))
  }

  function Counted(g: G.State, p: Pid, b: nat): G.State
    requires p in g.left && g.left[p] > 0
  {
    g.(lh := g.lh + [b], left := g.left[p := g.left[p] - 1])
  }

  lemma TestRuns(l: Layout, n: nat, d: Image, steps: seq<Step>, s: Sys, p: Pid, b: nat)
    requires Run(l, n, d, steps) == Some(s) && WellFormed(l, s.disk) && Holds(s, p, b) && s.cache[b].valid
    requires p in s.g.left && s.g.left[p] > 0 && !Inside(s, p) && !G.WouldPanic(l.size, s.g)
    ensures Run(l, n, d, steps + [LogTest(p, b)]) == Some(s.(g := s.g.(passed := s.g.passed[p := b])))
  {
    hide WellFormed, Run;
    Extend(l, n, d, steps, LogTest(p, b), s);
  }

  lemma AppendRuns(l: Layout, n: nat, d: Image, steps: seq<Step>, s: Sys, p: Pid, b: nat)
    requires Run(l, n, d, steps) == Some(s) && WellFormed(l, s.disk) && CanAppend(s, p) && s.unlogged == {}
    requires s.g.passed[p] == b && s.g.left[p] > 0 && b !in s.g.lh
    ensures Run(l, n, d, steps + [LogAppend(p)]) ==
      Some(WithBuf(s, b, s.cache[b].(dirty := true)).(g := Counted(s.g, p, b).(passed := s.g.passed - {p})))
  {
    hide WellFormed, Run;
    Extend(l, n, d, steps, LogAppend(p), s);
    assert s.unlogged - {b} == s.unlogged;
  }

  lemma ReleaseRuns(l: Layout, n: nat, d: Image, steps: seq<Step>, s: Sys, p: Pid, b: nat)
    requires Run(l, n, d, steps) == Some(s) && WellFormed(l, s.disk) && Holds(s, p, b) && !Inside(s, p) && s.unlogged == {}
    ensures Run(l, n, d, steps + [Release(p, b)]) == Some(WithBuf(s, b, s.cache[b].(holder := None, refs := s.cache[b].refs - {p})))
  {
    hide WellFormed, Run;
    Extend(l, n, d, steps, Release(p, b), s);
  }

  function LogOne(p: Pid, b: nat): seq<Step> { Fetch(p, b) + [LogTest(p, b)] + [LogAppend(p)] + [Release(p, b)] }

  /** A block that can be logged: not cached, with a buffer for it, and p open with something left. */
  predicate CanLog(l: Layout, s: Sys, p: Pid, b: nat) {
    && WellFormed(l, s.disk) && !s.phase.Recovering? && s.unlogged == {} && l.Home(b) && b !in s.cache && b !in s.g.lh
    && p in s.g.left && s.g.left[p] > 0 && !Inside(s, p) && !G.WouldPanic(l.size, s.g) && Spare(s)
  }

  lemma LogOneRuns(l: Layout, n: nat, d: Image, steps: seq<Step>, s: Sys, p: Pid, b: nat)
    requires Run(l, n, d, steps) == Some(s) && CanLog(l, s, p, b) && b < |s.disk|
    ensures Run(l, n, d, steps + LogOne(p, b)) == Some(Logged(s, p, b))
  {
    hide WellFormed, Run, Enabled, Do, Fetch;
    var s1 := Fetched(s, p, b);
    var s2 := s1.(g := s.g.(passed := s.g.passed[p := b]));
    var s3 := WithBuf(s, b, Buf(true, true, {p}, Some(p), s.disk[b])).(g := Counted(s.g, p, b));
    var a := steps + Fetch(p, b);
    FetchRuns(l, n, d, steps, s, p, b);
    TestRuns(l, n, d, a, s1, p, b);
    AppendRuns(l, n, d, a + [LogTest(p, b)], s2, p, b);
    assert s.g.passed[p := b] - {p} == s.g.passed;
    assert s1.cache[b := Buf(true, true, {p}, Some(p), s.disk[b])] == s3.cache;
    ReleaseRuns(l, n, d, a + [LogTest(p, b)] + [LogAppend(p)], s3, p, b);
    assert {p} - {p} == {};
    assert s3.cache[b := Buf(true, true, {}, None, s.disk[b])] == Logged(s, p, b).cache;
    assert steps + LogOne(p, b) == a + [LogTest(p, b)] + [LogAppend(p)] + [Release(p, b)];
  }

  // ---- Two processes pass the test together ----

  function Race(b: nat, c: nat): seq<Step> {
    Fetch(0, b) + Fetch(1, c) + [LogTest(0, b)] + [LogTest(1, c)] + [LogAppend(0)] + [LogAppend(1)]
  }

  /** Both blocks are in the log, their buffers still held. */
  function Raced(s: Sys, b: nat, c: nat): Sys
    requires b < |s.disk| && c < |s.disk| && 0 in s.g.left && 1 in s.g.left && s.g.left[0] > 0 && s.g.left[1] > 0
  {
    WithBuf(WithBuf(s, b, Buf(true, true, {0}, Some(0), s.disk[b])), c, Buf(true, true, {1}, Some(1), s.disk[c])).(
      g := Counted(Counted(s.g, 0, b), 1, c))
  }

  lemma RaceTests(l: Layout, n: nat, d: Image, steps: seq<Step>, s: Sys, b: nat, c: nat)
    requires Run(l, n, d, steps) == Some(s) && CanLog(l, s, 0, b) && CanLog(l, s, 1, c) && b != c && b < |s.disk| && c < |s.disk| && |s.cache| + 1 < s.nbuf
    ensures Run(l, n, d, steps + Fetch(0, b) + Fetch(1, c) + [LogTest(0, b)] + [LogTest(1, c)]) ==
      Some(Fetched(Fetched(s, 0, b), 1, c).(g := s.g.(passed := s.g.passed[0 := b][1 := c])))
  {
    hide WellFormed, Run;
    var s1 := Fetched(s, 0, b);
    var s2 := Fetched(s1, 1, c);
    FetchRuns(l, n, d, steps, s, 0, b);
    assert s1.cache.Keys == s.cache.Keys + {b};
    FetchRuns(l, n, d, steps + Fetch(0, b), s1, 1, c);
    TestRuns(l, n, d, steps + Fetch(0, b) + Fetch(1, c), s2, 0, b);
    TestRuns(l, n, d, steps + Fetch(0, b) + Fetch(1, c) + [LogTest(0, b)], s2.(g := s.g.(passed := s.g.passed[0 := b])), 1, c);
  }

  /** Process 0 has appended, process 1 not yet. */
  function HalfRaced(s: Sys, b: nat, c: nat): Sys
    requires b < |s.disk| && c < |s.disk| && 0 in s.g.left && s.g.left[0] > 0
  {
    WithBuf(WithBuf(s, b, Buf(true, true, {0}, Some(0), s.disk[b])), c, Buf(true, false, {1}, Some(1), s.disk[c])).(
      g := Counted(s.g, 0, b).(passed := map[1 := c]))
  }

  lemma HalfRaceRuns(l: Layout, n: nat, d: Image, steps: seq<Step>, s: Sys, b: nat, c: nat)
    requires Run(l, n, d, steps) == Some(s) && CanLog(l, s, 0, b) && CanLog(l, s, 1, c) && b != c && b < |s.disk| && c < |s.disk| && |s.cache| + 1 < s.nbuf
    requires s.g.passed == map[]
    ensures Run(l, n, d, steps + Fetch(0, b) + Fetch(1, c) + [LogTest(0, b)] + [LogTest(1, c)] + [LogAppend(0)]) == Some(HalfRaced(s, b, c))
  {
    hide WellFormed, Run, Enabled, Do;
    RaceTests(l, n, d, steps, s, b, c);
    var s1 := Fetched(Fetched(s, 0, b), 1, c).(g := s.g.(passed := map[0 := b, 1 := c]));
    assert s.g.passed[0 := b][1 := c] == map[0 := b, 1 := c];
    AppendRuns(l, n, d, steps + Fetch(0, b) + Fetch(1, c) + [LogTest(0, b)] + [LogTest(1, c)], s1, 0, b);
    assert map[0 := b, 1 := c] - {0} == map[1 := c];
    assert s1.cache[b := Buf(true, true, {0}, Some(0), s.disk[b])] == HalfRaced(s, b, c).cache;
  }

  lemma RaceRuns(l: Layout, n: nat, d: Image, steps: seq<Step>, s: Sys, b: nat, c: nat)
    requires Run(l, n, d, steps) == Some(s) && CanLog(l, s, 0, b) && CanLog(l, s, 1, c) && b != c && b < |s.disk| && c < |s.disk| && |s.cache| + 1 < s.nbuf
    requires s.g.passed == map[]
    ensures Run(l, n, d, steps + Race(b, c)) == Some(Raced(s, b, c))
  {
    hide WellFormed, Run, Enabled, Do;
    HalfRaceRuns(l, n, d, steps, s, b, c);
    var a := steps + Fetch(0, b) + Fetch(1, c) + [LogTest(0, b)] + [LogTest(1, c)] + [LogAppend(0)];
    AppendRuns(l, n, d, a, HalfRaced(s, b, c), 1, c);
    assert map[1 := c] - {1} == map[];
    assert HalfRaced(s, b, c).cache[c := Buf(true, true, {1}, Some(1), s.disk[c])] == Raced(s, b, c).cache;
    assert steps + Race(b, c) == a + [LogAppend(1)];
  }

  // ---- The whole run ----

  /** Log size blocks, of which the last two race: the log is 2 to LOGSIZE blocks, the logged blocks come after it and
      after the block that follows it. */
  predicate Small(l: Layout) {
    l.Valid() && 2 <= l.size <= LOGSIZE && l.start + 2 * l.size < l.disksize
  }

  function First(l: Layout): nat { l.start + l.size + 1 }

  function Zeros(): Block { seq(128, (i: int) => 0) }

  function Ones(): Block { seq(128, (i: int) => 1) }

  /** Everything zero but the block that is logged last. */
  function Disk(l: Layout): Image { seq(l.disksize, (b: int) => Initially(l, b)) }

  function Initially(l: Layout, b: int): Block { if b == l.start + 2 * l.size then Ones() else Zeros() }

  function Blocks(first: nat, k: nat): seq<int> { if k == 0 then [] else Blocks(first, k - 1) + [first + k - 1] }

  function CacheOf(d: Image, first: nat, k: nat): map<int, Buf>
    requires first + k <= |d|
  {
    if k == 0 then map[] else CacheOf(d, first, k - 1)[first + k - 1 := Buf(true, true, {}, None, d[first + k - 1])]
  }

  lemma {:induction false} BlocksAt(d: Image, first: nat, k: nat)
    requires first + k <= |d|
    ensures |Blocks(first, k)| == k && forall i :: 0 <= i < k ==> Blocks(first, k)[i] == first + i
    ensures forall b :: b in CacheOf(d, first, k) <==> first <= b < first + k
    ensures forall b :: first <= b < first + k ==> CacheOf(d, first, k)[b] == Buf(true, true, {}, None, d[b])
    decreases k
  {
    if k > 0 { BlocksAt(d, first, k - 1); }
  }

  lemma {:induction false} CacheSize(d: Image, first: nat, k: nat)
    requires first + k <= |d|
    ensures |CacheOf(d, first, k)| == k
    decreases k
  {
    if k > 0 {
      CacheSize(d, first, k - 1);
      BlocksAt(d, first, k - 1);
      assert CacheOf(d, first, k).Keys == CacheOf(d, first, k - 1).Keys + {first + k - 1};
    }
  }

  function Clamp(k: int, hi: nat): nat { if k < 0 then 0 else if k > hi then hi else k }

  /** Process 2 logs the first ten blocks, process 0 the next nine, process 1 the rest. */
  function LeftAfter(k: nat): map<Pid, nat> {
    map[0 := 10 - Clamp(k - 10, 9), 1 := 10 - Clamp(k - 19, 9), 2 := 10 - Clamp(k, 10)]
  }

  function Logger(k: nat): Pid { if k < 10 then 2 else if k < 19 then 0 else 1 }

  const BEGUN := [EBegin(0), EBegin(1), EBegin(2)]

  /** The system once k blocks are logged. */
  function After(l: Layout, n: nat, k: nat): Sys
    requires Small(l) && k <= l.size
  {
    Sys(Disk(l), CacheOf(Disk(l), First(l), k), n, G.State(Blocks(First(l), k), 3, false, LeftAfter(k), map[]), {}, Running, BEGUN, 0)
  }

  function LogSteps(l: Layout, k: nat): seq<Step> {
    if k == 0 then [ClearAfterCrash] + [BeginOp(0)] + [BeginOp(1)] + [BeginOp(2)]
    else LogSteps(l, k - 1) + LogOne(Logger(k - 1), First(l) + k - 1)
  }

  lemma DiskOk(l: Layout)
    requires Small(l)
    ensures WellFormed(l, Disk(l)) && Head(l, Disk(l)) == []
    ensures forall b :: 0 <= b < l.disksize ==> Disk(l)[b] == if b == l.start + 2 * l.size then Ones() else Zeros()
    ensures Disk(l)[l.start := EncodeHead(Disk(l)[l.start], [])] == Disk(l)
  {
    assert Disk(l)[l.start] == Zeros();
    assert EncodeHead(Zeros(), []) == Zeros();
  }

  lemma StartRuns(l: Layout, n: nat)
    requires Small(l) && l.size <= n
    ensures Run(l, n, Disk(l), LogSteps(l, 0)) == Some(After(l, n, 0))
  {
    hide WellFormed, Run;
    DiskOk(l);
    var d := Disk(l);
    var s := Sys(d, map[], n, G.Init, {}, Running, [], 0);
    BootRun(l, n, d);
    Extend(l, n, d, [], ClearAfterCrash, Boot(n, d));
    assert [] + [ClearAfterCrash] == [ClearAfterCrash];
    BeginRuns(l, n, d, [ClearAfterCrash], s, 0);
    BeginRuns(l, n, d, [ClearAfterCrash] + [BeginOp(0)], Opened(s, 0), 1);
    BeginRuns(l, n, d, [ClearAfterCrash] + [BeginOp(0)] + [BeginOp(1)], Opened(Opened(s, 0), 1), 2);
    assert map[][0 := 10][1 := 10][2 := 10] == LeftAfter(0);
    assert [] + [EBegin(0)] + [EBegin(1)] + [EBegin(2)] == BEGUN;
  }

  lemma BootRun(l: Layout, n: nat, d: Image)
    ensures Run(l, n, d, []) == Some(Boot(n, d))
  {}

  function Opened(s: Sys, p: Pid): Sys {
    s.(g := s.g.(outstanding := s.g.outstanding + 1, left := s.g.left[p := MAXOPBLOCKS]), hist := s.hist + [EBegin(p)])
  }

  lemma BeginRuns(l: Layout, n: nat, d: Image, steps: seq<Step>, s: Sys, p: Pid)
    requires Run(l, n, d, steps) == Some(s) && WellFormed(l, s.disk) && !s.phase.Recovering?
    requires p !in s.g.left && !s.g.committing && G.Fits(s.g)
    ensures Run(l, n, d, steps + [BeginOp(p)]) == Some(Opened(s, p))
  {
    hide WellFormed, Run;
    Extend(l, n, d, steps, BeginOp(p), s);
  }

  lemma AfterCanLog(l: Layout, n: nat, k: nat)
    requires Small(l) && l.size <= n && k <= l.size - 2
    ensures CanLog(l, After(l, n, k), Logger(k), First(l) + k) && First(l) + k < |Disk(l)|
    ensures CanLog(l, After(l, n, k), 0, First(l) + k)
    ensures CanLog(l, After(l, n, k), 1, First(l) + k + 1) && First(l) + k + 1 < |Disk(l)|
  {
    DiskOk(l);
    BlocksAt(Disk(l), First(l), k);
    CacheSize(Disk(l), First(l), k);
  }

  lemma AfterFacts(l: Layout, n: nat, k: nat)
    requires Small(l) && k <= l.size - 2
    ensures var s := After(l, n, k);
      && s.disk == Disk(l) && |s.cache| == k && s.nbuf == n && s.g.passed == map[]
      && 0 in s.g.left && 1 in s.g.left && s.g.left[0] > 0 && s.g.left[1] > 0
  {
    DiskSize(l);
    CacheSize(Disk(l), First(l), k);
  }

  lemma AfterNext(l: Layout, n: nat, k: nat)
    requires Small(l) && l.size <= n && k < l.size - 2
    ensures CanLog(l, After(l, n, k), Logger(k), First(l) + k) && First(l) + k < |Disk(l)|
    ensures Logged(After(l, n, k), Logger(k), First(l) + k) == After(l, n, k + 1)
  {
    AfterCanLog(l, n, k);
    hide WellFormed, Disk, CanLog;
    DiskSize(l);
    assert Logger(k) in LeftAfter(k) && LeftAfter(k)[Logger(k)] > 0;
  }

  lemma {:induction false} LogsRun(l: Layout, n: nat, k: nat)
    requires Small(l) && l.size <= n && k <= l.size - 2
    ensures Run(l, n, Disk(l), LogSteps(l, k)) == Some(After(l, n, k))
  {
    hide Run, CanLog, Small, After;
    if k == 0 {
      StartRuns(l, n);
    } else {
      LogsRun(l, n, k - 1);
      AfterCanLog(l, n, k - 1);
      AfterDisk(l, n, k - 1);
      LogOneRuns(l, n, Disk(l), LogSteps(l, k - 1), After(l, n, k - 1), Logger(k - 1), First(l) + k - 1);
      AfterNext(l, n, k - 1);
    }
  }

  lemma AfterDisk(l: Layout, n: nat, k: nat)
    requires Small(l) && k <= l.size
    ensures After(l, n, k).disk == Disk(l) && After(l, n, k).g.passed == map[]
  {}

  // ---- The commit past the end of the log ----

  /** The last two blocks: processes 0 and 1 pass the test at length size - 2 and both append. */
  function RaceSteps(l: Layout): seq<Step>
    requires Small(l)
  {
    var b := First(l) + l.size - 2;
    LogSteps(l, l.size - 2) + Race(b, b + 1) + [Release(0, b)] + [Release(1, b + 1)]
  }

  function LeftAtEnd(l: Layout): map<Pid, nat>
    requires Small(l)
  {
    var m := LeftAfter(l.size - 2);
    m[0 := m[0] - 1][1 := m[1] - 1]
  }

  /** More blocks logged than the log holds. */
  function Overfull(l: Layout, n: nat): Sys
    requires Small(l)
  {
    After(l, n, l.size).(g := G.State(Blocks(First(l), l.size), 3, false, LeftAtEnd(l), map[]))
  }

  lemma RaceReached(l: Layout, n: nat)
    requires Small(l) && l.size <= n
    ensures var b := First(l) + l.size - 2;
      && b + 1 < |Disk(l)| == l.disksize && After(l, n, l.size - 2).disk == Disk(l) && WellFormed(l, Disk(l))
      && 0 in After(l, n, l.size - 2).g.left && 1 in After(l, n, l.size - 2).g.left
      && After(l, n, l.size - 2).g.left[0] > 0 && After(l, n, l.size - 2).g.left[1] > 0
      && Run(l, n, Disk(l), LogSteps(l, l.size - 2) + Race(b, b + 1)) == Some(Raced(After(l, n, l.size - 2), b, b + 1))
  {
    hide Run, After, WellFormed, LogSteps, Race, CanLog, Disk, Raced;
    var k := l.size - 2;
    LogsRun(l, n, k);
    AfterCanLog(l, n, k);
    DiskOk(l);
    DiskSize(l);
    AfterFacts(l, n, k);
    RaceRuns(l, n, Disk(l), LogSteps(l, k), After(l, n, k), First(l) + k, First(l) + k + 1);
  }

  lemma OverfullReached(l: Layout, n: nat)
    requires Small(l) && l.size <= n
    ensures Run(l, n, Disk(l), RaceSteps(l)) == Some(Overfull(l, n)) && |Overfull(l, n).g.lh| == l.size
  {
    hide Run, WellFormed, CacheOf, Blocks, LogSteps, Race, Disk;
    var d, k := Disk(l), l.size - 2;
    var b, s := First(l) + k, After(l, n, k);
    RaceReached(l, n);
    var t := Raced(s, b, b + 1);
    var a := LogSteps(l, k) + Race(b, b + 1);
    ReleaseRuns(l, n, d, a, t, 0, b);
    var u := WithBuf(t, b, Buf(true, true, {}, None, d[b]));
    assert {0} - {0} == {} && {1} - {1} == {};
    ReleaseRuns(l, n, d, a + [Release(0, b)], u, 1, b + 1);
    RacedCache(l, n);
    BlocksAt(d, First(l), l.size);
  }

  lemma TwoUpdates(m: map<int, Buf>, b: int, c: int, x: Buf, y: Buf, x': Buf, y': Buf)
    requires b != c
    ensures m[b := x][c := y][b := x'][c := y'] == m[b := x'][c := y']
  {}

  lemma RacedCache(l: Layout, n: nat)
    requires Small(l)
    ensures var d, b := Disk(l), First(l) + l.size - 2;
      && b + 1 < |d| && var t := Raced(After(l, n, l.size - 2), b, b + 1);
      && t.cache[b := Buf(true, true, {}, None, d[b])][b + 1 := Buf(true, true, {}, None, d[b + 1])] == Overfull(l, n).cache
      && t.g == Overfull(l, n).g
  {
    hide Disk, Blocks, CacheOf;
    var d, k, b := Disk(l), l.size - 2, First(l) + l.size - 2;
    DiskSize(l);
    TwoUpdates(CacheOf(d, First(l), k), b, b + 1, Buf(true, true, {0}, Some(0), d[b]), Buf(true, true, {1}, Some(1), d[b + 1]),
               Buf(true, true, {}, None, d[b]), Buf(true, true, {}, None, d[b + 1]));
    TwoMore(d, First(l), k);
  }

  lemma TwoMore(d: Image, first: nat, k: nat)
    requires first + k + 2 <= |d|
    ensures CacheOf(d, first, k + 2) ==
      CacheOf(d, first, k)[first + k := Buf(true, true, {}, None, d[first + k])][first + k + 1 := Buf(true, true, {}, None, d[first + k + 1])]
    ensures Blocks(first, k + 2) == Blocks(first, k) + [first + k] + [first + k + 1]
  {
    assert Blocks(first, k + 1) == Blocks(first, k) + [first + k];
    assert CacheOf(d, first, k + 1) == CacheOf(d, first, k)[first + k := Buf(true, true, {}, None, d[first + k])];
  }

  lemma DiskSize(l: Layout)
    ensures |Disk(l)| == l.disksize
  {}

  function EndSteps(l: Layout): seq<Step>
    requires Small(l)
  {
    RaceSteps(l) + [EndOp(0)] + [EndOp(1)] + [EndOp(2)]
  }

  const ENDED := BEGUN + [EEnd(0)] + [EEnd(1)] + [EEnd(2)]

  function CopiedDisk(l: Layout, t: nat): (r: Image)
    requires Small(l) && t <= l.size
    ensures |r| == l.disksize
  {
    if t == 0 then Disk(l) else CopiedDisk(l, t - 1)[l.start + t := Disk(l)[First(l) + t - 1]]
  }

  /** The commit after t blocks have been written to the log. */
  function CopyingAt(l: Layout, n: nat, t: nat): Sys
    requires Small(l) && t <= l.size
  {
    Overfull(l, n).(disk := CopiedDisk(l, t), phase := Copying(t), hist := ENDED,
                 g := G.State(Blocks(First(l), l.size), 0, true, map[], map[]))
  }

  function Closed(s: Sys, p: Pid): Sys
    requires p in s.g.left
  {
    var last := s.g.outstanding - 1 == 0;
    s.(g := s.g.(outstanding := s.g.outstanding - 1, left := s.g.left - {p}, committing := last), hist := s.hist + [EEnd(p)],
       phase := if last && |s.g.lh| > 0 then Copying(0) else s.phase)
  }

  lemma EndRuns(l: Layout, n: nat, d: Image, steps: seq<Step>, s: Sys, p: Pid)
    requires Run(l, n, d, steps) == Some(s) && WellFormed(l, s.disk) && p in s.g.left && !Inside(s, p) && !s.g.committing && s.unlogged == {}
    ensures Run(l, n, d, steps + [EndOp(p)]) == Some(Closed(s, p))
  {
    hide WellFormed, Run;
    Extend(l, n, d, steps, EndOp(p), s);
  }

  lemma CommitStarts(l: Layout, n: nat)
    requires Small(l) && l.size <= n
    ensures Run(l, n, Disk(l), EndSteps(l)) == Some(CopyingAt(l, n, 0))
  {
    hide Run, WellFormed;
    OverfullReached(l, n);
    DiskOk(l);
    var d, s := Disk(l), Overfull(l, n);
    var s1 := Closed(s, 0);
    var s2 := Closed(s1, 1);
    EndRuns(l, n, d, RaceSteps(l), s, 0);
    EndRuns(l, n, d, RaceSteps(l) + [EndOp(0)], s1, 1);
    EndRuns(l, n, d, RaceSteps(l) + [EndOp(0)] + [EndOp(1)], s2, 2);
    var m := LeftAtEnd(l);
    assert m.Keys == {0, 1, 2};
    assert m - {0} - {1} - {2} == map[];
  }

  function CopySteps(l: Layout, t: nat): seq<Step>
    requires Small(l)
  {
    if t == 0 then EndSteps(l) else CopySteps(l, t - 1) + [CopyBlock]
  }

  lemma {:induction false} CopiedAt(l: Layout, t: nat, b: nat)
    requires Small(l) && t <= l.size && b < l.disksize
    ensures |Disk(l)| == l.disksize
    ensures CopiedDisk(l, t)[b] == if l.start < b <= l.start + t then Disk(l)[First(l) + b - l.start - 1] else Disk(l)[b]
    decreases t
  {
    hide Disk;
    DiskSize(l);
    if t > 0 { CopiedAt(l, t - 1, b); }
  }

  lemma SameHead(l: Layout, d: Image, e: Image)
    requires WellFormed(l, d) && |e| == |d| && e[l.start] == d[l.start]
    ensures WellFormed(l, e) && Head(l, e) == Head(l, d)
  {}

  lemma CopiedOk(l: Layout, t: nat)
    requires Small(l) && t <= l.size
    ensures WellFormed(l, CopiedDisk(l, t)) && Head(l, CopiedDisk(l, t)) == []
  {
    hide WellFormed, Head, Disk, CopiedDisk;
    DiskOk(l);
    DiskSize(l);
    CopiedAt(l, t, l.start);
    SameHead(l, Disk(l), CopiedDisk(l, t));
  }

  lemma CopyNext(l: Layout, n: nat, t: nat)
    requires Small(l) && l.size < n && t < l.size
    ensures Enabled(l, CopyingAt(l, n, t), CopyBlock) && Do(l, CopyingAt(l, n, t), CopyBlock) == CopyingAt(l, n, t + 1)
  {
    hide WellFormed, Head, Disk;
    CopiedOk(l, t);
    DiskSize(l);
    BlocksAt(Disk(l), First(l), l.size);
    CacheSize(Disk(l), First(l), l.size);
    var s := CopyingAt(l, n, t);
    assert s.g.lh[t] == First(l) + t && s.cache[First(l) + t] == Buf(true, true, {}, None, Disk(l)[First(l) + t]);
  }

  lemma {:induction false} CopiesRun(l: Layout, n: nat, t: nat)
    requires Small(l) && l.size < n && t <= l.size
    ensures Run(l, n, Disk(l), CopySteps(l, t)) == Some(CopyingAt(l, n, t))
  {
    hide Run, Enabled, Do, CopyingAt, EndSteps;
    if t == 0 {
      CommitStarts(l, n);
    } else {
      CopiesRun(l, n, t - 1);
      CopyNext(l, n, t - 1);
      Extend(l, n, Disk(l), CopySteps(l, t - 1), CopyBlock, CopyingAt(l, n, t - 1));
    }
  }

  /** With a buffer to spare the block after the log is overwritten, although nothing was committed: what a crash leaves
      is no replay. */
  lemma HomeBlockLost(l: Layout, n: nat)
    requires Small(l) && l.size < n
    ensures WellFormed(l, Disk(l)) && Run(l, n, Disk(l), CopySteps(l, l.size)).Some?
    ensures !Survives(l, n, Disk(l), CopySteps(l, l.size), [])
  {
    var d := Disk(l);
    DiskOk(l);
    CopiesRun(l, n, l.size);
    CopiedOk(l, l.size);
    CopiedAt(l, l.size, l.start + l.size);
    var e := CopiedDisk(l, l.size);
    RecoverAfterCrashes(l, d, []);
    RecoverAfterCrashes(l, e, []);
    var b := l.start + l.size;
    assert l.Home(b) && e[b] == Ones() && d[b] == Zeros();
    assert Ones()[0] != Zeros()[0];
    assert ENDED[..0] == [];
  }

  /** With as many buffers as the log has blocks the same commit begins with all of them pinned: its first bread of a log
      block finds none, none can be recycled, and the disk is as it was. */
  lemma CommitStops(l: Layout)
    requires Small(l)
    ensures Run(l, l.size, Disk(l), EndSteps(l)) == Some(CopyingAt(l, l.size, 0))
    ensures var s := CopyingAt(l, l.size, 0);
      && s.disk == Disk(l) && !Enabled(l, s, CopyBlock) && (forall b :: !Enabled(l, s, Recycle(b)))
      && (forall p, b :: Enabled(l, s, Claim(p, b)) ==> b in s.cache)
  {
    hide Run, EndSteps, Disk, CacheOf, Blocks, LeftAtEnd;
    CommitStarts(l, l.size);
    DiskSize(l);
    BlocksAt(Disk(l), First(l), l.size);
    CacheSize(Disk(l), First(l), l.size);
  }

  /** The storage stack is atomic and durable, over every disk, run and sequence of crashes, exactly when the log has
      room, or has no fewer blocks than there are buffers. */
  lemma AtomicExactly(l: Layout, n: nat)
    requires l.Valid() && l.start + 2 * l.size < l.disksize
    ensures (forall d, steps, cuts :: WellFormed(l, d) && Run(l, n, d, steps).Some? ==> Survives(l, n, d, steps, cuts)) <==> Room(l, n)
  {
    if Room(l, n) {
      forall d, steps, cuts | WellFormed(l, d) && Run(l, n, d, steps).Some? ensures Survives(l, n, d, steps, cuts) {
        Safety.AtomicAndDurable(l, n, d, steps, cuts);
      }
    } else {
      HomeBlockLost(l, n);
    }
  }

  /** With the NBUF buffers there are: for no log of 2 to LOGSIZE - 1 blocks, and for the one mkfs makes. */
  lemma AtomicWithBuffers(l: Layout)
    requires l.Valid() && l.start + 2 * l.size < l.disksize
    ensures (forall d, steps, cuts :: WellFormed(l, d) && Run(l, B.NBUF, d, steps).Some? ==> Survives(l, B.NBUF, d, steps, cuts))
      <==> l.size <= 1 || l.size >= LOGSIZE
  {
    AtomicExactly(l, B.NBUF);
  }
}

/** Every step of the storage stack keeps its invariant, hence every run does.
    Each part of the invariant is kept by a lemma of its own; the parts are put together
    step by step, and the steps into runs, at the end. */
module LogSystemSafety {
  import opened Counting
  import opened DiskModel
  import opened LogRecovery
  import opened Options
  import opened LogSystem
  import G = GroupCommit

  lemma ReplaySnoc(base: Image, hist: seq<Event>, e: Event)
    ensures Replay(base, hist + [e]) ==
      var r := Replay(base, hist); if e.EWrite? && e.b < |r| then r[e.b := e.x] else r
  {
    assert (hist + [e])[..|hist|] == hist;
  }

  lemma OpenSnoc(hist: seq<Event>, e: Event)
    ensures OpenOps(hist + [e]) ==
      if e.EBegin? then OpenOps(hist) + {e.p} else if e.EEnd? then OpenOps(hist) - {e.p} else OpenOps(hist)
  {
    assert (hist + [e])[..|hist|] == hist;
  }

  /** Appending to the history leaves its durable part alone. */
  lemma HistSnoc(hist: seq<Event>, e: Event, k: nat)
    requires k <= |hist|
    ensures (hist + [e])[..k] == hist[..k]
  {}

  // ---- Inside log_write ----

  /** Nothing that a process inside log_write relies on has changed. */
  lemma InsideSame(s: Sys, s': Sys)
    requires InsideOk(s) && s'.g.passed == s.g.passed && s'.g.left.Keys >= s.g.passed.Keys
    requires forall p :: p in s.g.passed ==> Holds(s', p, s.g.passed[p]) && s'.cache[s.g.passed[p]].valid
    ensures InsideOk(s')
  {
    forall p | p in s'.g.passed ensures CanAppend(s', p) { assert CanAppend(s, p); }
  }

  /** The same, after a change to one buffer that nobody inside log_write has. */
  lemma InsideBuf(s: Sys, s': Sys, b: nat)
    requires InsideOk(s) && s'.g.passed == s.g.passed && s'.g.left.Keys >= s.g.passed.Keys
    requires forall c :: c in s.cache && c != b ==> c in s'.cache && s'.cache[c] == s.cache[c]
    requires forall p :: p in s.g.passed ==> s.g.passed[p] != b
    ensures InsideOk(s')
  {
    forall p | p in s.g.passed ensures s.g.passed[p] in s'.cache && s'.cache[s.g.passed[p]] == s.cache[s.g.passed[p]] {
      assert CanAppend(s, p);
    }
    InsideSame(s, s');
  }

  lemma InsideKeys(s: Sys)
    requires InsideOk(s)
    ensures s.g.passed.Keys <= s.g.left.Keys
  {
    forall p | p in s.g.passed ensures p in s.g.left { assert CanAppend(s, p); }
  }

  lemma NobodyInside(s: Sys)
    requires s.g.passed == map[]
    ensures InsideOk(s)
  {}

  /** A block held by somebody else, or by nobody, is not the one of a process inside log_write. */
  lemma NotInside(s: Sys, b: nat)
    requires InsideOk(s) && b in s.cache && (s.cache[b].holder.Some? ==> !Inside(s, s.cache[b].holder.value))
    ensures forall q :: q in s.g.passed ==> s.g.passed[q] != b
  {
    forall q | q in s.g.passed ensures s.g.passed[q] != b { assert CanAppend(s, q); }
  }

  lemma NotCached(s: Sys, b: nat)
    requires InsideOk(s) && b !in s.cache
    ensures forall q :: q in s.g.passed ==> s.g.passed[q] != b
  {
    forall q | q in s.g.passed ensures s.g.passed[q] != b { assert CanAppend(s, q); }
  }

  lemma CommitNobodyInside(s: Sys)
    requires G.Inv(s.g) && s.g.left == map[]
    ensures s.g.passed == map[]
  {
    assert s.g.passed.Keys <= s.g.left.Keys;
    assert s.g.passed.Keys == {};
  }

  /** An operation is open, so no commit is in progress. */
  lemma OpenMeansRunning(l: Layout, s: Sys, p: Pid)
    requires WellFormed(l, s.disk) && PhaseOk(l, s) && G.Inv(s.g) && p in s.g.left
    ensures s.phase == Running && !s.g.committing
  {}

  // ---- Operations ----

  /** Recording an event that is not a write changes no contents. */
  lemma EventHist(l: Layout, base: Image, s: Sys, s': Sys, e: Event)
    requires WellFormed(l, s.disk) && HistOk(l, base, s) && !e.EWrite?
    requires s'.disk == s.disk && s'.cache == s.cache && s'.durable == s.durable && s'.hist == s.hist + [e]
    requires s'.g.left.Keys == if e.EBegin? then s.g.left.Keys + {e.p} else s.g.left.Keys - {e.p}
    ensures HistOk(l, base, s')
  {
    OpenSnoc(s.hist, e);
    ReplaySnoc(base, s.hist, e);
    HistSnoc(s.hist, e, s.durable);
    forall c | l.Home(c) ensures Current(l, s', c) == Current(l, s, c) {}
  }

  lemma BeginParts(l: Layout, s: Sys, g: G.State)
    requires WellFormed(l, s.disk) && CacheOk(l, s) && PhaseOk(l, s) && !s.phase.Recovering? && !s.g.committing
    requires g.lh == s.g.lh && g.left.Keys >= s.g.left.Keys
    ensures CacheOk(l, s.(g := g)) && PhaseOk(l, s.(g := g))
  {
    assert Pinned(s.(g := g)) == Pinned(s);
  }

  lemma BeginKeeps(l: Layout, base: Image, s: Sys, p: Pid)
    requires Inv(l, base, s) && Enabled(l, s, BeginOp(p))
    ensures Inv(l, base, Do(l, s, BeginOp(p)))
  {
    hide G.Inv, ListOk, CacheOk, PhaseOk, HistOk, InsideOk;
    CountersKeep(l.size, s.g, G.Begin(p));
    InsideKeys(s);
    SameCacheInside(s, Do(l, s, BeginOp(p)));
    BeginParts(l, s, G.Exec(l.size, G.NewBlocks(), s.g, G.Begin(p)).s);
    EventHist(l, base, s, Do(l, s, BeginOp(p)), EBegin(p));
    HistoryOnly(l, s.(g := Do(l, s, BeginOp(p)).g), s.hist + [EBegin(p)]);
  }

  lemma CountersKeep(size: nat, g: G.State, step: G.Step)
    requires G.Inv(g)
    ensures var o := G.Exec(size, G.NewBlocks(), g, step); o.Goes? ==> G.Inv(o.s)
  {
    G.ExecKeeps(size, G.NewBlocks(), g, step, 0);
  }

  lemma SameCacheInside(s: Sys, s': Sys)
    requires InsideOk(s) && s'.cache == s.cache && s'.g.passed == s.g.passed && s'.g.left.Keys >= s.g.passed.Keys
    ensures InsideOk(s')
  {
    forall p | p in s.g.passed ensures CanAppend(s, p) {}
    InsideSame(s, s');
  }

  /** The cache and the phase do not depend on the history. */
  lemma HistoryOnly(l: Layout, s: Sys, hist: seq<Event>)
    requires WellFormed(l, s.disk) && CacheOk(l, s) && PhaseOk(l, s)
    ensures CacheOk(l, s.(hist := hist)) && PhaseOk(l, s.(hist := hist))
  {
    assert Pinned(s.(hist := hist)) == Pinned(s);
  }

  /** Ending an operation, with the counters `g` it leaves and the phase that follows. */
  lemma EndParts(l: Layout, s: Sys, p: Pid, g: G.State, phase: Phase)
    requires WellFormed(l, s.disk) && CacheOk(l, s) && PhaseOk(l, s) && s.phase == Running
    requires g.lh == s.g.lh && g.left == s.g.left - {p}
    requires phase == Running || (g.committing && phase == Copying(0))
    requires forall b :: b in s.unlogged ==> !Holds(s, p, b)
    ensures CacheOk(l, s.(g := g, phase := phase)) && PhaseOk(l, s.(g := g, phase := phase))
  {
    assert Pinned(s.(g := g, phase := phase)) == Pinned(s);
  }

  lemma CommitList(l: Layout, n: nat, lh: seq<int>)
    requires ListOk(l, n, lh, Running)
    ensures ListOk(l, n, lh, Copying(0))
  {}

  lemma EmptyList(l: Layout, n: nat, phase: Phase)
    requires l.Valid()
    ensures ListOk(l, n, [], phase)
  {}

  lemma InstallList(l: Layout, n: nat, lh: seq<int>, t: nat, u: nat)
    requires ListOk(l, n, lh, Installing(t))
    ensures Distinct(lh) && ListOk(l, n, lh, Installing(u))
  {}

  lemma EndKeeps(l: Layout, base: Image, s: Sys, p: Pid)
    requires Inv(l, base, s) && Enabled(l, s, EndOp(p))
    ensures Inv(l, base, Do(l, s, EndOp(p)))
  {
    hide G.Inv, ListOk, CacheOk, PhaseOk, HistOk, InsideOk;
    var g := G.Exec(l.size, G.NewBlocks(), s.g, G.End(p)).s;
    var s' := Do(l, s, EndOp(p));
    CountersKeep(l.size, s.g, G.End(p));
    InsideKeys(s);
    SameCacheInside(s, s');
    OpenMeansRunning(l, s, p);
    EndParts(l, s, p, g, s'.phase);
    CommitList(l, s.nbuf, s.g.lh);
    EventHist(l, base, s, s', EEnd(p));
    HistoryOnly(l, s.(g := g, phase := s'.phase), s'.hist);
  }

  /** Counters that agree on the logged blocks and the open operations. */
  lemma FinishParts(l: Layout, base: Image, s: Sys, g: G.State)
    requires Inv(l, base, s) && s.phase == Running && g.lh == s.g.lh && g.left == s.g.left
    ensures CacheOk(l, s.(g := g)) && PhaseOk(l, s.(g := g)) && HistOk(l, base, s.(g := g))
  {
    assert Pinned(s.(g := g)) == Pinned(s);
    forall c | l.Home(c) ensures Current(l, s.(g := g), c) == Current(l, s, c) {}
  }

  lemma FinishKeeps(l: Layout, base: Image, s: Sys)
    requires Inv(l, base, s) && Enabled(l, s, FinishCommit)
    ensures Inv(l, base, Do(l, s, FinishCommit))
  {
    hide G.Inv, ListOk, CacheOk, PhaseOk, HistOk, InsideOk;
    CountersKeep(l.size, s.g, G.Finish);
    InsideKeys(s);
    SameCacheInside(s, Do(l, s, FinishCommit));
    FinishParts(l, base, s, G.Exec(l.size, G.NewBlocks(), s.g, G.Finish).s);
  }

  lemma ModifyCache(l: Layout, s: Sys, p: Pid, b: nat, x: Block)
    requires WellFormed(l, s.disk) && CacheOk(l, s) && PhaseOk(l, s) && s.phase == Running
    requires Holds(s, p, b) && s.cache[b].valid && p in s.g.left
    ensures l.Home(b)
    ensures var s' := WithBuf(s, b, s.cache[b].(data := x)).(unlogged := s.unlogged + {b});
      CacheOk(l, s') && PhaseOk(l, s')
  {}

  lemma ModifyHist(l: Layout, base: Image, s: Sys, p: Pid, b: nat, x: Block)
    requires WellFormed(l, s.disk) && HistOk(l, base, s)
    requires b in s.cache && s.cache[b].valid && l.Home(b)
    ensures HistOk(l, base,
      WithBuf(s, b, s.cache[b].(data := x)).(unlogged := s.unlogged + {b}, hist := s.hist + [EWrite(p, b, x)]))
  {
    var s' := WithBuf(s, b, s.cache[b].(data := x)).(unlogged := s.unlogged + {b}, hist := s.hist + [EWrite(p, b, x)]);
    ReplaySnoc(base, s.hist, EWrite(p, b, x));
    OpenSnoc(s.hist, EWrite(p, b, x));
    HistSnoc(s.hist, EWrite(p, b, x), s.durable);
    forall c | l.Home(c) && c != b ensures Current(l, s', c) == Current(l, s, c) {}
  }

  lemma ModifyKeeps(l: Layout, base: Image, s: Sys, p: Pid, b: nat, x: Block)
    requires Inv(l, base, s) && Holds(s, p, b) && s.cache[b].valid && p in s.g.left && !Inside(s, p)
    ensures Inv(l, base,
      WithBuf(s, b, s.cache[b].(data := x)).(unlogged := s.unlogged + {b}, hist := s.hist + [EWrite(p, b, x)]))
  {
    hide G.Inv, ListOk, CacheOk, PhaseOk, HistOk, InsideOk;
    OpenMeansRunning(l, s, p);
    InsideKeys(s);
    NotInside(s, b);
    InsideBuf(s, WithBuf(s, b, s.cache[b].(data := x)).(unlogged := s.unlogged + {b}, hist := s.hist + [EWrite(p, b, x)]), b);
    ModifyCache(l, s, p, b, x);
    ModifyHist(l, base, s, p, b, x);
    HistoryOnly(l, WithBuf(s, b, s.cache[b].(data := x)).(unlogged := s.unlogged + {b}), s.hist + [EWrite(p, b, x)]);
  }

  /** The state after log_write of b, with the counters `g` it leaves. */
  function Logged(s: Sys, b: nat, g: G.State): Sys
    requires b in s.cache
  {
    WithBuf(s, b, s.cache[b].(dirty := true)).(unlogged := s.unlogged - {b}, g := g)
  }

  lemma LogWriteCache(l: Layout, s: Sys, p: Pid, b: nat, g: G.State)
    requires WellFormed(l, s.disk) && CacheOk(l, s) && s.phase == Running
    requires Holds(s, p, b) && s.cache[b].valid && g.lh == G.Absorb(s.g.lh, b) && g.left.Keys == s.g.left.Keys
    ensures CacheOk(l, Logged(s, b, g)) && l.Home(b)
  {}

  lemma LogWritePhase(l: Layout, s: Sys, b: nat, g: G.State)
    requires WellFormed(l, s.disk) && PhaseOk(l, s) && s.phase == Running && ListOk(l, s.nbuf, s.g.lh, s.phase)
    requires b in s.cache && l.Home(b) && (b !in s.g.lh ==> |s.g.lh| < LOGSIZE) && l.size > 1 && Room(l, s.nbuf)
    requires g.lh == G.Absorb(s.g.lh, b)
    ensures PhaseOk(l, Logged(s, b, g)) && ListOk(l, s.nbuf, g.lh, s.phase)
  {}

  lemma LogWriteHist(l: Layout, base: Image, s: Sys, b: nat, g: G.State)
    requires WellFormed(l, s.disk) && HistOk(l, base, s)
    requires b in s.cache && g.left.Keys == s.g.left.Keys
    ensures HistOk(l, base, Logged(s, b, g))
  {
    forall c | l.Home(c) ensures Current(l, Logged(s, b, g), c) == Current(l, s, c) {}
  }

  /** log_write's tests, made without the lock: they only let the process go on. */
  lemma LogTestKeeps(l: Layout, base: Image, s: Sys, p: Pid, b: nat)
    requires Inv(l, base, s) && Enabled(l, s, LogTest(p, b))
    ensures Inv(l, base, Do(l, s, LogTest(p, b)))
  {
    hide G.Inv, ListOk, CacheOk, PhaseOk, HistOk;
    var s' := Do(l, s, LogTest(p, b));
    CountersKeep(l.size, s.g, G.LogTest(p, b));
    OpenMeansRunning(l, s, p);
    FinishParts(l, base, s, s'.g);
    assert s'.g.passed == s.g.passed[p := b] && s'.cache == s.cache && s'.g.left == s.g.left;
    forall q | q in s'.g.passed ensures CanAppend(s', q) {
      if q != p { assert CanAppend(s, q); }
    }
  }

  /** An append of a new block finds room in the list, and, with Room, in the log. */
  lemma AppendRoom(g: G.State, p: Pid)
    requires G.Inv(g) && p in g.passed && p in g.left
    ensures g.passed[p] !in g.lh ==> |g.lh| < LOGSIZE
  {
    G.SumRemove(g.left, 0, p);
    G.SumCapped(g.left - {p}, 0);
  }

  lemma AppendInside(s: Sys, p: Pid, g: G.State)
    requires InsideOk(s) && CanAppend(s, p) && g.passed == s.g.passed - {p} && g.left.Keys == s.g.left.Keys
    ensures InsideOk(Logged(s, s.g.passed[p], g))
  {
    var t := Logged(s, s.g.passed[p], g);
    forall q | q in t.g.passed ensures CanAppend(t, q) { assert CanAppend(s, q); }
  }

  /** The append, under the lock, after any number of other appends since the test. */
  lemma LogAppendKeeps(l: Layout, base: Image, s: Sys, p: Pid)
    requires Inv(l, base, s) && Enabled(l, s, LogAppend(p))
    ensures Inv(l, base, Do(l, s, LogAppend(p)))
  {
    hide G.Inv, ListOk, CacheOk, PhaseOk, HistOk, InsideOk;
    var b, g := s.g.passed[p], G.Appended(s.g, p);
    AppendCounters(s.g, p);
    OpenMeansRunning(l, s, p);
    AppendRoom(s.g, p);
    LogWriteCache(l, s, p, b, g);
    LogWritePhase(l, s, b, g);
    LogWriteHist(l, base, s, b, g);
    AppendInside(s, p, g);
  }

  lemma AppendCounters(g: G.State, p: Pid)
    requires G.Inv(g) && p in g.passed && p in g.left
    ensures G.Inv(G.Appended(g, p)) && G.Appended(g, p).left.Keys == g.left.Keys
  {
    G.AppendKeeps(g, p, 0);
  }

  // ---- The buffer cache ----

  /** Same contents and flags; only references and the lock differ. */
  predicate SameContent(x: Buf, y: Buf) {
    x.dirty == y.dirty && x.valid == y.valid && x.data == y.data
  }

  lemma LockChangeCache(l: Layout, s: Sys, b: nat, buf: Buf)
    requires WellFormed(l, s.disk) && CacheOk(l, s)
    requires b in s.cache && SameContent(s.cache[b], buf)
    requires buf.holder.Some? ==> buf.holder.value in buf.refs
    requires b in s.unlogged ==> buf.holder == s.cache[b].holder
    ensures CacheOk(l, WithBuf(s, b, buf))
  {
    assert Pinned(WithBuf(s, b, buf)) == Pinned(s);
  }

  lemma LockChangePhase(l: Layout, s: Sys, b: nat, buf: Buf)
    requires WellFormed(l, s.disk) && PhaseOk(l, s)
    requires b in s.cache && SameContent(s.cache[b], buf)
    ensures PhaseOk(l, WithBuf(s, b, buf))
  {}

  lemma LockChangeHist(l: Layout, base: Image, s: Sys, b: nat, buf: Buf)
    requires WellFormed(l, s.disk) && HistOk(l, base, s)
    requires b in s.cache && SameContent(s.cache[b], buf)
    ensures HistOk(l, base, WithBuf(s, b, buf))
  {
    var s' := WithBuf(s, b, buf);
    forall c | l.Home(c) ensures Current(l, s', c) == Current(l, s, c) {}
  }

  lemma LockChange(l: Layout, base: Image, s: Sys, b: nat, buf: Buf)
    requires Inv(l, base, s)
    requires b in s.cache && SameContent(s.cache[b], buf)
    requires buf.holder.Some? ==> buf.holder.value in buf.refs
    requires b in s.unlogged ==> buf.holder == s.cache[b].holder
    requires buf.holder == s.cache[b].holder || forall q :: q in s.g.passed ==> s.g.passed[q] != b
    ensures Inv(l, base, WithBuf(s, b, buf))
  {
    hide G.Inv, ListOk, CacheOk, PhaseOk, HistOk;
    forall p | p in s.g.passed ensures CanAppend(WithBuf(s, b, buf), p) { assert CanAppend(s, p); }
    LockChangeCache(l, s, b, buf);
    LockChangePhase(l, s, b, buf);
    LockChangeHist(l, base, s, b, buf);
  }

  /** Claiming a buffer for an uncached block: it holds nothing until it is filled. */
  lemma ClaimNewCache(l: Layout, s: Sys, b: nat, buf: Buf)
    requires WellFormed(l, s.disk) && CacheOk(l, s)
    requires l.Home(b) && b !in s.cache && !buf.valid && !buf.dirty && buf.holder == None
    ensures CacheOk(l, WithBuf(s, b, buf))
  {
    assert Pinned(WithBuf(s, b, buf)) == Pinned(s);
  }

  lemma ClaimNewPhase(l: Layout, s: Sys, b: nat, buf: Buf)
    requires WellFormed(l, s.disk) && PhaseOk(l, s) && !s.phase.Recovering? && b !in s.cache
    ensures PhaseOk(l, WithBuf(s, b, buf))
  {}

  lemma ClaimNewHist(l: Layout, base: Image, s: Sys, b: nat, buf: Buf)
    requires WellFormed(l, s.disk) && HistOk(l, base, s) && b !in s.cache && !buf.valid
    ensures HistOk(l, base, WithBuf(s, b, buf))
  {
    var s' := WithBuf(s, b, buf);
    forall c | l.Home(c) ensures Current(l, s', c) == Current(l, s, c) {}
  }

  lemma RecycleCache(l: Layout, s: Sys, b: nat)
    requires WellFormed(l, s.disk) && CacheOk(l, s)
    requires b in s.cache && s.cache[b].refs == {} && !s.cache[b].dirty
    ensures CacheOk(l, s.(cache := s.cache - {b}))
  {
    assert Pinned(s.(cache := s.cache - {b})) == Pinned(s);
  }

  lemma CleanUnpinned(l: Layout, s: Sys, b: nat)
    requires WellFormed(l, s.disk) && CacheOk(l, s) && b in s.cache && !s.cache[b].dirty
    ensures b !in Pinned(s)
  {}

  lemma RecyclePhase(l: Layout, s: Sys, b: nat)
    requires WellFormed(l, s.disk) && CacheOk(l, s) && PhaseOk(l, s)
    requires b in s.cache && !s.cache[b].dirty
    ensures PhaseOk(l, s.(cache := s.cache - {b}))
  {
    hide CacheOk;
    CleanUnpinned(l, s, b);
    if s.phase.Installing? {
      forall i | s.phase.tail <= i < |s.g.lh| ensures s.g.lh[i] != b {
        assert s.g.lh[s.phase.tail..][i - s.phase.tail] == s.g.lh[i];
        assert s.g.lh[i] in Pinned(s);
      }
    } else if s.phase.Copying? {
      forall i | 0 <= i < |s.g.lh| ensures s.g.lh[i] != b { assert s.g.lh[i] in Pinned(s); }
    }
  }

  lemma RecycleHist(l: Layout, base: Image, s: Sys, b: nat)
    requires WellFormed(l, s.disk) && CacheOk(l, s) && PhaseOk(l, s) && HistOk(l, base, s)
    requires b in s.cache && s.cache[b].refs == {} && !s.cache[b].dirty
    ensures HistOk(l, base, s.(cache := s.cache - {b}))
  {
    var s' := s.(cache := s.cache - {b});
    UnpinnedIsHome(l, s, b);
    forall c | l.Home(c) ensures Current(l, s', c) == Current(l, s, c) {}
  }

  lemma FillCache(l: Layout, s: Sys, b: nat)
    requires WellFormed(l, s.disk) && CacheOk(l, s)
    requires b in s.cache && !s.cache[b].valid
    ensures CacheOk(l, WithBuf(s, b, s.cache[b].(valid := true, data := s.disk[b])))
  {
    assert Pinned(WithBuf(s, b, s.cache[b].(valid := true, data := s.disk[b]))) == Pinned(s);
  }

  lemma FillPhase(l: Layout, s: Sys, b: nat)
    requires WellFormed(l, s.disk) && CacheOk(l, s) && PhaseOk(l, s)
    requires b in s.cache && !s.cache[b].valid
    ensures PhaseOk(l, WithBuf(s, b, s.cache[b].(valid := true, data := s.disk[b])))
  {
    hide CacheOk;
    InvalidUnpinned(l, s, b);
    if s.phase.Installing? {
      forall i | s.phase.tail <= i < |s.g.lh| ensures s.g.lh[i] != b {
        assert s.g.lh[s.phase.tail..][i - s.phase.tail] == s.g.lh[i];
      }
    }
  }

  lemma InvalidUnpinned(l: Layout, s: Sys, b: nat)
    requires WellFormed(l, s.disk) && CacheOk(l, s) && b in s.cache && !s.cache[b].valid
    ensures b !in Pinned(s) && !s.cache[b].dirty && l.Home(b) && b < |s.disk|
  {}

  lemma NotRecovering(l: Layout, s: Sys, b: nat)
    requires WellFormed(l, s.disk) && PhaseOk(l, s) && b in s.cache
    ensures !s.phase.Recovering?
  {}

  lemma FillHist(l: Layout, base: Image, s: Sys, b: nat)
    requires WellFormed(l, s.disk) && CacheOk(l, s) && PhaseOk(l, s) && HistOk(l, base, s)
    requires b in s.cache && !s.cache[b].valid
    ensures HistOk(l, base, WithBuf(s, b, s.cache[b].(valid := true, data := s.disk[b])))
  {
    hide CacheOk, PhaseOk;
    InvalidUnpinned(l, s, b);
    var s' := WithBuf(s, b, s.cache[b].(valid := true, data := s.disk[b]));
    NotRecovering(l, s, b);
    UnpinnedIsHome(l, s, b);
    forall c | l.Home(c) ensures Current(l, s', c) == Current(l, s, c) {}
  }

  // ---- Commit ----

  lemma CopyNext(l: Layout, d: Image, cache: map<int, Buf>, lh: seq<int>, t: nat)
    requires WellFormed(l, d) && CopyingOk(l, d, cache, lh, t) && t < |lh| <= l.size - 1 && lh[t] in cache
    ensures var e := d[l.start + 1 + t := cache[lh[t]].data];
      WellFormed(l, e) && CopyingOk(l, e, cache, lh, t + 1) && SameLogical(l, d, e)
  {
    LogBlockWrite(l, d, t, cache[lh[t]].data);
  }

  /** Writing a block of the log touches neither the cache nor any logical contents. */
  lemma LogRegionOnly(l: Layout, base: Image, s: Sys, s': Sys)
    requires WellFormed(l, s.disk) && CacheOk(l, s) && HistOk(l, base, s)
    requires s' == s.(disk := s'.disk, phase := s'.phase) && Pinned(s') == Pinned(s)
    requires WellFormed(l, s'.disk) && SameLogical(l, s.disk, s'.disk)
    requires forall b :: l.Home(b) ==> s'.disk[b] == s.disk[b]
    ensures CacheOk(l, s') && HistOk(l, base, s')
  {
    forall c | l.Home(c) ensures Current(l, s', c) == Current(l, s, c) {}
  }

  lemma CopyKeeps(l: Layout, base: Image, s: Sys, t: nat)
    requires Inv(l, base, s) && s.phase == Copying(t) && Ready(s, t) && l.start + 1 + t < |s.disk| && Spare(s)
    ensures Inv(l, base, Copied(l, s, t))
  {
    hide G.Inv, CacheOk, HistOk, InsideOk;
    SpareMeansFits(l, s);
    CommitInside(l, s, Copied(l, s, t));
    CopyNext(l, s.disk, s.cache, s.g.lh, t);
    LogRegionOnly(l, base, s, Copied(l, s, t));
  }

  /** During a commit nobody is inside log_write. */
  lemma CommitInside(l: Layout, s: Sys, s': Sys)
    requires WellFormed(l, s.disk) && CacheOk(l, s) && G.Inv(s.g) && s.g.committing && s'.g.passed == s.g.passed
    ensures InsideOk(s') && s.g.passed == map[] && s.unlogged == {} && s.g.left == map[]
  {
    NoUnloggedInCommit(l, s);
    CommitNobodyInside(s);
    NobodyInside(s');
  }

  lemma HeadWrittenDisk(l: Layout, s: Sys)
    requires WellFormed(l, s.disk) && PhaseOk(l, s) && s.phase == Copying(|s.g.lh|) && GoodHead(l, s.g.lh)
    ensures var e := HeadWritten(l, s).disk;
      && WellFormed(l, e) && Head(l, e) == s.g.lh
      && (forall i :: 0 <= i < |s.g.lh| ==> Logical(l, e, s.g.lh[i]) == s.cache[s.g.lh[i]].data)
      && (forall b :: l.Home(b) && b !in s.g.lh ==> Logical(l, e, b) == Logical(l, s.disk, b))
      && (forall b :: l.Home(b) ==> e[b] == s.disk[b])
  {
    HeadWrite(l, s.disk, s.g.lh);
  }

  lemma WriteHeadParts(l: Layout, s: Sys)
    requires WellFormed(l, s.disk) && CacheOk(l, s) && PhaseOk(l, s)
    requires s.phase == Copying(|s.g.lh|) && GoodHead(l, s.g.lh)
    ensures WellFormed(l, HeadWritten(l, s).disk) && CacheOk(l, HeadWritten(l, s)) && PhaseOk(l, HeadWritten(l, s))
  {
    HeadWrittenDisk(l, s);
    assert s.g.lh[0..] == s.g.lh;
    assert Pinned(HeadWritten(l, s)) == Pinned(s);
  }

  /** The commit point: what becomes durable is exactly what processes currently see. */
  lemma WriteHeadCommits(l: Layout, s: Sys)
    requires WellFormed(l, s.disk) && CacheOk(l, s) && PhaseOk(l, s) && s.unlogged == {}
    requires s.phase == Copying(|s.g.lh|) && GoodHead(l, s.g.lh)
    ensures WellFormed(l, HeadWritten(l, s).disk)
    ensures forall b :: l.Home(b) ==>
      && Logical(l, HeadWritten(l, s).disk, b) == Current(l, s, b)
      && Current(l, HeadWritten(l, s), b) == Current(l, s, b)
  {
    HeadWrittenDisk(l, s);
    var e := HeadWritten(l, s).disk;
    forall b | l.Home(b) ensures Logical(l, e, b) == Current(l, s, b) {
      var i := IndexOf(s.g.lh, b);
      if i < |s.g.lh| {
        assert s.g.lh[i] in Pinned(s);
      } else {
        UnpinnedIsHome(l, s, b);
      }
    }
  }

  lemma WriteHeadHist(l: Layout, base: Image, s: Sys)
    requires WellFormed(l, s.disk) && CacheOk(l, s) && PhaseOk(l, s) && HistOk(l, base, s) && s.unlogged == {}
    requires s.phase == Copying(|s.g.lh|) && GoodHead(l, s.g.lh) && s.g.left == map[]
    ensures WellFormed(l, HeadWritten(l, s).disk) && HistOk(l, base, HeadWritten(l, s))
  {
    hide CacheOk, PhaseOk, GoodHead;
    WriteHeadCommits(l, s);
    assert s.hist[..|s.hist|] == s.hist;
  }

  lemma WriteHeadKeeps(l: Layout, base: Image, s: Sys)
    requires Inv(l, base, s) && s.phase == Copying(|s.g.lh|)
    ensures |s.g.lh| <= LOGSIZE && Inv(l, base, HeadWritten(l, s))
  {
    hide G.Inv, CacheOk, HistOk, InsideOk;
    CommitInside(l, s, s);
    CommitInside(l, s, HeadWritten(l, s));
    WriteHeadParts(l, s);
    WriteHeadHist(l, base, s);
  }

  lemma InstallDisk(l: Layout, d: Image, lh: seq<int>, t: nat)
    requires WellFormed(l, d) && Head(l, d) == lh && t < |lh|
    ensures 0 <= lh[t] < |d| && l.start + 1 + t < |d|
    ensures WellFormed(l, d[lh[t] := d[l.start + 1 + t]])
    ensures Head(l, d[lh[t] := d[l.start + 1 + t]]) == lh
    ensures SameLogical(l, d, d[lh[t] := d[l.start + 1 + t]])
    ensures l.Home(lh[t])
  {
    InstallWrite(l, d, t);
  }

  /** The cache after log block t has been copied home. */
  function InstalledCache(cache: map<int, Buf>, b: int, x: Block): map<int, Buf>
    requires b in cache
  {
    cache[b := cache[b].(dirty := false, data := x)]
  }

  lemma InstallNext(l: Layout, d: Image, cache: map<int, Buf>, lh: seq<int>, t: nat)
    requires WellFormed(l, d) && InstallingOk(l, d, cache, lh, t) && t < |lh|
    ensures var x := d[l.start + 1 + t];
      WellFormed(l, d[lh[t] := x]) && InstallingOk(l, d[lh[t] := x], InstalledCache(cache, lh[t], x), lh, t + 1)
  {
    InstallDisk(l, d, lh, t);
  }

  lemma InstallPinned(lh: seq<int>, t: nat)
    requires Distinct(lh) && t < |lh|
    ensures forall b :: b in lh[t + 1..] <==> b in lh[t..] && b != lh[t]
  {
    assert lh[t..] == [lh[t]] + lh[t + 1..];
  }

  lemma InstallCache(l: Layout, s: Sys, s': Sys, b: int, x: Block)
    requires WellFormed(l, s.disk) && CacheOk(l, s) && s.unlogged == {} && b in s.cache
    requires s'.disk == s.disk[b := x] && s'.cache == InstalledCache(s.cache, b, x) && s'.unlogged == s.unlogged
    requires WellFormed(l, s'.disk)
    requires forall c :: c in Pinned(s') <==> c in Pinned(s) && c != b
    ensures CacheOk(l, s')
  {}

  lemma InstallHist(l: Layout, base: Image, s: Sys, s': Sys, b: int, x: Block)
    requires WellFormed(l, s.disk) && HistOk(l, base, s) && 0 <= b < |s.disk|
    requires b in s.cache && s.cache[b].data == x
    requires s'.disk == s.disk[b := x] && s'.cache == InstalledCache(s.cache, b, x)
    requires s'.hist == s.hist && s'.durable == s.durable && s'.g == s.g
    requires WellFormed(l, s'.disk) && SameLogical(l, s.disk, s'.disk)
    ensures HistOk(l, base, s')
  {
    forall c | l.Home(c) ensures Current(l, s', c) == Current(l, s, c) {}
  }

  lemma InstallKeeps(l: Layout, base: Image, s: Sys, t: nat)
    requires Inv(l, base, s) && s.phase == Installing(t) && Ready(s, t) && l.start + 1 + t < |s.disk|
    ensures Inv(l, base, InstalledOne(l, s, t))
  {
    hide G.Inv, HistOk, CacheOk, WellFormed, Distinct, InsideOk, ListOk;
    var s' := InstalledOne(l, s, t);
    InstallList(l, s.nbuf, s.g.lh, t, t + 1);
    var b, x := s.g.lh[t], s.disk[l.start + 1 + t];
    CommitInside(l, s, s');
    InstallDisk(l, s.disk, s.g.lh, t);
    InstallNext(l, s.disk, s.cache, s.g.lh, t);
    InstallPinned(s.g.lh, t);
    InstallCache(l, s, s', b, x);
    InstallHist(l, base, s, s', b, x);
  }

  lemma ClearCache(l: Layout, s: Sys, s': Sys)
    requires WellFormed(l, s.disk) && CacheOk(l, s) && Pinned(s) == [] == Pinned(s')
    requires s'.cache == s.cache && s'.unlogged == s.unlogged && s'.g.left == s.g.left
    requires WellFormed(l, s'.disk) && forall b :: l.Home(b) ==> s'.disk[b] == s.disk[b]
    ensures CacheOk(l, s')
  {}

  lemma ClearHist(l: Layout, base: Image, s: Sys, s': Sys)
    requires WellFormed(l, s.disk) && HistOk(l, base, s)
    requires s'.cache == s.cache && s'.hist == s.hist && s'.durable == s.durable && s'.g.left == s.g.left
    requires WellFormed(l, s'.disk) && SameLogical(l, s.disk, s'.disk)
    ensures HistOk(l, base, s')
  {
    forall c | l.Home(c) ensures Current(l, s', c) == Current(l, s, c) {}
  }

  /** Clearing the header once everything is installed, after a commit or after a recovery. */
  lemma ClearKeeps(l: Layout, base: Image, s: Sys)
    requires Inv(l, base, s)
    requires s.phase == Installing(|s.g.lh|) || s.phase == Recovering(|Head(l, s.disk)|)
    ensures Inv(l, base, Cleared(l, s))
  {
    hide G.Inv, HistOk, CacheOk, InsideOk, Distinct, Logical;
    if s.phase.Recovering? {
      RecoveringIsEmpty(l, s);
      NobodyInside(Cleared(l, s));
    } else {
      CommitInside(l, s, Cleared(l, s));
    }
    ClearWrite(l, s.disk);
    ClearCache(l, s, Cleared(l, s));
    ClearHist(l, base, s, Cleared(l, s));
    ClearCounters(s.g);
  }

  lemma ClearCounters(g: G.State)
    requires G.Inv(g) && (g.committing || g == G.Init)
    ensures G.Inv(g.(lh := []))
  {}

  lemma RecoveringIsEmpty(l: Layout, s: Sys)
    requires WellFormed(l, s.disk) && CacheOk(l, s) && PhaseOk(l, s) && s.phase.Recovering?
    ensures s.cache == map[] && s.unlogged == {} && s.g == G.Init && G.Inv(s.g)
  {
    forall b ensures b !in s.unlogged {}
    assert G.Init.left.Keys == {};
  }

  // ---- Crash and recovery ----

  lemma CrashKeeps(l: Layout, base: Image, s: Sys)
    requires Inv(l, base, s)
    ensures s.durable <= |s.hist| && Inv(l, base, Crashed(s))
  {
    hide CacheOk, InsideOk;
    NobodyInside(Crashed(s));
    assert s.hist[..s.durable][..s.durable] == s.hist[..s.durable];
    assert G.Init.left.Keys == {};
    EmptyCache(l, Crashed(s));
  }

  lemma EmptyCache(l: Layout, s: Sys)
    requires WellFormed(l, s.disk) && s.cache == map[] && s.g.lh == [] && s.unlogged == {} && !s.phase.Installing?
    ensures CacheOk(l, s)
  {}

  lemma ReplayNext(l: Layout, d: Image, t: nat)
    requires WellFormed(l, d) && ReplayingOk(l, d, t) && t < |Head(l, d)|
    ensures var e := d[Head(l, d)[t] := d[l.start + 1 + t]];
      WellFormed(l, e) && ReplayingOk(l, e, t + 1) && SameLogical(l, d, e)
  {
    InstallDisk(l, d, Head(l, d), t);
  }

  lemma ReplayHist(l: Layout, base: Image, s: Sys, s': Sys)
    requires WellFormed(l, s.disk) && HistOk(l, base, s) && s.cache == map[] == s'.cache
    requires s'.hist == s.hist && s'.durable == s.durable && s'.g == s.g
    requires WellFormed(l, s'.disk) && SameLogical(l, s.disk, s'.disk)
    ensures HistOk(l, base, s')
  {}

  lemma ReplayKeeps(l: Layout, base: Image, s: Sys, t: nat)
    requires Inv(l, base, s) && s.phase == Recovering(t) && t < |Head(l, s.disk)|
    ensures Inv(l, base, ReplayedOne(l, s, t))
  {
    hide G.Inv, HistOk, CacheOk, ListOk, SameLogical, InsideOk;
    RecoveringIsEmpty(l, s);
    EmptyList(l, s.nbuf, Recovering(t + 1));
    NobodyInside(ReplayedOne(l, s, t));
    ReplayNext(l, s.disk, t);
    EmptyCache(l, ReplayedOne(l, s, t));
    ReplayHist(l, base, s, ReplayedOne(l, s, t));
  }

  // ---- Whole runs ----

  lemma OpStepKeeps(l: Layout, base: Image, s: Sys, step: Step)
    requires Inv(l, base, s) && Enabled(l, s, step)
    requires step.BeginOp? || step.EndOp? || step.FinishCommit? || step.Modify? || step.LogTest? || step.LogAppend?
    ensures Inv(l, base, Do(l, s, step))
  {
    hide Inv;
    match step
    case BeginOp(p) => BeginKeeps(l, base, s, p);
    case EndOp(p) => EndKeeps(l, base, s, p);
    case FinishCommit => FinishKeeps(l, base, s);
    case Modify(p, b, x) => ModifyKeeps(l, base, s, p, b, x);
    case LogTest(p, b) => LogTestKeeps(l, base, s, p, b);
    case LogAppend(p) => LogAppendKeeps(l, base, s, p);
  }

  lemma ClaimKeeps(l: Layout, base: Image, s: Sys, b: nat, buf: Buf)
    requires Inv(l, base, s) && !s.phase.Recovering? && l.Home(b) && b !in s.cache && !buf.valid && !buf.dirty && buf.holder == None
    ensures Inv(l, base, WithBuf(s, b, buf))
  {
    hide G.Inv, ListOk, CacheOk, PhaseOk, HistOk, InsideOk;
    InsideKeys(s);
    ClaimNewCache(l, s, b, buf);
    ClaimNewPhase(l, s, b, buf);
    ClaimNewHist(l, base, s, b, buf);
    NotCached(s, b);
    InsideBuf(s, WithBuf(s, b, buf), b);
  }

  lemma RecycleKeeps(l: Layout, base: Image, s: Sys, b: nat)
    requires Inv(l, base, s) && b in s.cache && s.cache[b].refs == {} && !s.cache[b].dirty
    ensures Inv(l, base, s.(cache := s.cache - {b}))
  {
    hide G.Inv, ListOk, CacheOk, PhaseOk, HistOk, InsideOk;
    InsideKeys(s);
    RecycleCache(l, s, b);
    RecyclePhase(l, s, b);
    RecycleHist(l, base, s, b);
    HolderHasRef(l, s, b);
    NotInside(s, b);
    InsideBuf(s, s.(cache := s.cache - {b}), b);
  }

  lemma CacheStepKeeps(l: Layout, base: Image, s: Sys, step: Step)
    requires Inv(l, base, s) && Enabled(l, s, step)
    requires step.Claim? || step.Recycle? || step.Lock? || step.Fill? || step.Release?
    ensures Inv(l, base, Do(l, s, step))
  {
    hide G.Inv, ListOk, CacheOk, PhaseOk, HistOk, InsideOk;
    InsideKeys(s);
    match step
    case Claim(p, b) =>
      if b in s.cache {
        HolderHasRef(l, s, b);
        LockChange(l, base, s, b, s.cache[b].(refs := s.cache[b].refs + {p}));
      } else {
        ClaimKeeps(l, base, s, b, Buf(false, false, {p}, None, s.disk[l.start]));
      }
    case Recycle(b) => RecycleKeeps(l, base, s, b);
    case Lock(p, b) =>
      HolderHasRef(l, s, b);
      NotInside(s, b);
      LockChange(l, base, s, b, s.cache[b].(holder := Some(p)));
    case Fill(p, b) =>
      FillCache(l, s, b); FillPhase(l, s, b); FillHist(l, base, s, b);
      NotInside(s, b);
      InsideBuf(s, WithBuf(s, b, s.cache[b].(valid := true, data := s.disk[b])), b);
    case Release(p, b) =>
      NotInside(s, b);
      LockChange(l, base, s, b, s.cache[b].(holder := None, refs := s.cache[b].refs - {p}));
  }

  lemma HolderHasRef(l: Layout, s: Sys, b: nat)
    requires WellFormed(l, s.disk) && CacheOk(l, s) && b in s.cache
    ensures s.cache[b].holder.Some? ==> s.cache[b].holder.value in s.cache[b].refs
    ensures b in s.unlogged ==> s.cache[b].holder.Some?
  {}

  lemma DiskStepKeeps(l: Layout, base: Image, s: Sys, step: Step)
    requires Inv(l, base, s) && Enabled(l, s, step)
    requires step.CopyBlock? || step.WriteHead? || step.InstallBlock? || step.ClearHead?
          || step.Crash? || step.ReplayBlock? || step.ClearAfterCrash?
    ensures Inv(l, base, Do(l, s, step))
  {
    hide Inv;
    match step
    case CopyBlock => CopyKeeps(l, base, s, s.phase.tail);
    case WriteHead => WriteHeadKeeps(l, base, s);
    case InstallBlock => InstallKeeps(l, base, s, s.phase.tail);
    case ClearHead => ClearKeeps(l, base, s);
    case Crash => CrashKeeps(l, base, s);
    case ReplayBlock => ReplayKeeps(l, base, s, s.phase.tail);
    case ClearAfterCrash => ClearKeeps(l, base, s);
  }

  /** Every step, by any process or by a crash, keeps the invariant. */
  lemma StepKeeps(l: Layout, base: Image, s: Sys, step: Step)
    requires Inv(l, base, s) && Enabled(l, s, step)
    ensures Inv(l, base, Do(l, s, step))
  {
    hide Inv, Do;
    if step.BeginOp? || step.EndOp? || step.FinishCommit? || step.Modify? || step.LogTest? || step.LogAppend? {
      OpStepKeeps(l, base, s, step);
    } else if step.Claim? || step.Recycle? || step.Lock? || step.Fill? || step.Release? {
      CacheStepKeeps(l, base, s, step);
    } else {
      DiskStepKeeps(l, base, s, step);
    }
  }

  lemma BootInv(l: Layout, n: nat, d: Image)
    requires WellFormed(l, d) && Room(l, n)
    ensures Inv(l, Recover(l, d), Boot(n, d))
  {
    RecoverAfterCrashes(l, d, []);
    assert G.Init.left.Keys == {};
  }

  lemma {:induction false} RunKeeps(l: Layout, n: nat, d: Image, steps: seq<Step>)
    requires WellFormed(l, d) && Room(l, n)
    ensures var o := Run(l, n, d, steps); o.Some? ==> Inv(l, Recover(l, d), o.value)
    decreases |steps|
  {
    hide Inv, Do, Enabled;
    if steps == [] {
      BootInv(l, n, d);
    } else {
      var front, last := steps[..|steps| - 1], steps[|steps| - 1];
      RunKeeps(l, n, d, front);
      var o := Run(l, n, d, front);
      if o.Some? && Enabled(l, o.value, last) { StepKeeps(l, Recover(l, d), o.value, last); }
    }
  }

  /** The whole-run theorem, for a log with room: boot any well-formed disk, run any interleaving of processes and
      crashes, then crash and recover, the recovery itself crashing any number of times. */
  lemma AtomicAndDurable(l: Layout, n: nat, d: Image, steps: seq<Step>, cuts: seq<nat>)
    requires WellFormed(l, d) && Room(l, n) && Run(l, n, d, steps).Some?
    ensures Survives(l, n, d, steps, cuts)
  {
    RunKeeps(l, n, d, steps);
    RecoverAfterCrashes(l, Run(l, n, d, steps).value.disk, cuts);
  }

  /** Once every operation has ended and its commit has finished, nothing can be lost:
      the durable contents are everything the processes have seen. */
  lemma QuiescentIsDurable(l: Layout, n: nat, d: Image, steps: seq<Step>)
    requires WellFormed(l, d) && Room(l, n) && Run(l, n, d, steps).Some?
    requires var s := Run(l, n, d, steps).value; !s.phase.Recovering? && !s.g.committing && s.g.left == map[]
    ensures var s := Run(l, n, d, steps).value;
      && WellFormed(l, s.disk)
      && forall b :: l.Home(b) ==> s.disk[b] == Logical(l, s.disk, b) == Current(l, s, b)
  {
    RunKeeps(l, n, d, steps);
    var s := Run(l, n, d, steps).value;
    forall b | l.Home(b) ensures s.disk[b] == Logical(l, s.disk, b) == Current(l, s, b) {
      UnpinnedIsHome(l, s, b);
    }
  }

  lemma PinnedFacts(l: Layout, s: Sys, b: nat)
    requires WellFormed(l, s.disk) && CacheOk(l, s) && PhaseOk(l, s) && b in Pinned(s)
    ensures l.Home(b) && b in s.cache && s.cache[b].valid && s.cache[b].dirty
    ensures !s.phase.Installing? ==> s.disk[b] == Logical(l, s.disk, b)
  {}

  /** A logged block that has not reached its home is pinned: its buffer is valid, dirty and
      cannot be recycled; and before the header write its home on disk is the old contents. */
  lemma LoggedIsPinned(l: Layout, n: nat, d: Image, steps: seq<Step>, b: nat)
    requires WellFormed(l, d) && Room(l, n) && Run(l, n, d, steps).Some?
    requires b in Pinned(Run(l, n, d, steps).value)
    ensures var s := Run(l, n, d, steps).value;
      && WellFormed(l, s.disk) && l.Home(b) && s.durable <= |s.hist| && |Recover(l, d)| == l.disksize
      && b in s.cache && s.cache[b].valid && !Enabled(l, s, Recycle(b))
      && (!s.phase.Installing? ==> s.disk[b] == Replay(Recover(l, d), s.hist[..s.durable])[b])
  {
    hide CacheOk, PhaseOk, G.Inv, ListOk;
    RunKeeps(l, n, d, steps);
    PinnedFacts(l, Run(l, n, d, steps).value, b);
  }
}

/** The whole storage stack of `log.c` over `bio.c` as one step system: any number of processes
    running transactions through the buffer cache, a commit that writes one block at a time,
    and a crash that may strike between any two steps, recovery included.
    The main result is that what survives is always a replay of whole operations. */
module LogSystem {
  import opened Counting
  import opened DiskModel
  import opened LogRecovery
  import opened Options
  import G = GroupCommit

  type Pid = nat

  /** A claimed buffer: B_VALID, B_DIRTY, who has a reference, who holds its sleep lock. */
  datatype Buf = Buf(valid: bool, dirty: bool, refs: set<Pid>, holder: Option<Pid>, data: Block)

  /** Where the committing (or recovering) process stands. */
  datatype Phase = Running | Copying(tail: nat) | Installing(tail: nat) | Recovering(tail: nat)

  datatype Event = EBegin(p: Pid) | EWrite(p: Pid, b: nat, x: Block) | EEnd(p: Pid)

  /** `unlogged`: blocks changed in their buffer and not yet passed to log_write.
      `hist`, `durable`: what has happened since boot and is still remembered, and how much
      of it had happened when the last header write reached the disk.
      `nbuf` is the number of buffers, of which `cache` holds those claimed for home blocks. */
  datatype Sys = Sys(disk: Image, cache: map<int, Buf>, nbuf: nat, g: G.State, unlogged: set<int>,
                     phase: Phase, hist: seq<Event>, durable: nat)

  datatype Step =
    | BeginOp(p: Pid) | EndOp(p: Pid) | FinishCommit
    | Claim(p: Pid, b: nat) | Recycle(b: nat) | Lock(p: Pid, b: nat) | Fill(p: Pid, b: nat)
    | Modify(p: Pid, b: nat, x: Block) | LogTest(p: Pid, b: nat) | LogAppend(p: Pid) | Release(p: Pid, b: nat)
    | CopyBlock | WriteHead | InstallBlock | ClearHead
    | Crash | ReplayBlock | ClearAfterCrash

  // ---- Steps ----

  predicate Holds(s: Sys, p: Pid, b: nat) {
    b in s.cache && s.cache[b].holder == Some(p)
  }

  /** p is inside log_write, between its tests and its append, and so takes no other step. */
  predicate Inside(s: Sys, p: Pid) { p in s.g.passed }

  /** p can append: it is inside log_write with a block it holds. */
  predicate CanAppend(s: Sys, p: Pid) {
    Inside(s, p) && p in s.g.left && Holds(s, p, s.g.passed[p]) && s.cache[s.g.passed[p]].valid
  }

  /** The block the commit is working on is cached, valid and not locked by a reader. */
  predicate Ready(s: Sys, t: nat) {
    && t < |s.g.lh|
    && 0 <= s.g.lh[t] < |s.disk|
    && s.g.lh[t] in s.cache
    && s.cache[s.g.lh[t]].valid
    && s.cache[s.g.lh[t]].holder == None
  }

  /** bget finds a buffer for a block that has none; those of log blocks are given up again within the step. Without
      one it panics, and only a crash is left. */
  predicate Spare(s: Sys) { |s.cache| < s.nbuf }

  predicate Enabled(l: Layout, s: Sys, step: Step) {
    && WellFormed(l, s.disk)
    && match step
       case BeginOp(p) => !s.phase.Recovering? && G.Exec(l.size, G.NewBlocks(), s.g, G.Begin(p)).Goes?
       case EndOp(p) =>
         && G.Exec(l.size, G.NewBlocks(), s.g, G.End(p)).Goes?
         && forall b :: b in s.unlogged ==> !Holds(s, p, b)
       case FinishCommit => s.phase == Running && G.Exec(l.size, G.NewBlocks(), s.g, G.Finish).Goes?
       case Claim(p, b) => !Inside(s, p) && !s.phase.Recovering? && l.Home(b) && if b in s.cache then p !in s.cache[b].refs else Spare(s)
       case Recycle(b) => b in s.cache && s.cache[b].refs == {} && !s.cache[b].dirty
       case Lock(p, b) => !Inside(s, p) && b in s.cache && p in s.cache[b].refs && s.cache[b].holder == None
       case Fill(p, b) => !Inside(s, p) && Holds(s, p, b) && !s.cache[b].valid && b < |s.disk|
       case Modify(p, b, x) => !Inside(s, p) && Holds(s, p, b) && s.cache[b].valid && p in s.g.left
       case LogTest(p, b) =>
         Holds(s, p, b) && s.cache[b].valid && G.Exec(l.size, G.NewBlocks(), s.g, G.LogTest(p, b)).Goes?
       case LogAppend(p) => CanAppend(s, p)
       case Release(p, b) => !Inside(s, p) && Holds(s, p, b) && b !in s.unlogged
       case CopyBlock => Spare(s) && s.phase.Copying? && Ready(s, s.phase.tail) && l.start + 1 + s.phase.tail < |s.disk|
       case WriteHead => Spare(s) && s.phase.Copying? && s.phase.tail == |s.g.lh| <= LOGSIZE
       case InstallBlock => Spare(s) && s.phase.Installing? && Ready(s, s.phase.tail) && l.start + 1 + s.phase.tail < |s.disk|
       case ClearHead => Spare(s) && s.phase.Installing? && s.phase.tail == |s.g.lh| && s.g.committing
       case Crash => s.durable <= |s.hist|
       case ReplayBlock => |s.cache| + 1 < s.nbuf && s.phase.Recovering? && s.phase.tail < |Head(l, s.disk)|
       case ClearAfterCrash => Spare(s) && s.phase.Recovering? && s.phase.tail == |Head(l, s.disk)|
  }

  function WithBuf(s: Sys, b: nat, buf: Buf): Sys { s.(cache := s.cache[b := buf]) }

  /** Log block t is written: write_log. */
  function Copied(l: Layout, s: Sys, t: nat): Sys
    requires WellFormed(l, s.disk) && Ready(s, t) && l.start + 1 + t < |s.disk|
  {
    s.(disk := s.disk[l.start + 1 + t := s.cache[s.g.lh[t]].data], phase := Copying(t + 1))
  }

  /** The header is written: write_head, the commit point. */
  function HeadWritten(l: Layout, s: Sys): Sys
    requires WellFormed(l, s.disk) && |s.g.lh| <= LOGSIZE
  {
    s.(disk := s.disk[l.start := EncodeHead(s.disk[l.start], s.g.lh)], phase := Installing(0), durable := |s.hist|)
  }

  /** Block t is copied home through its buffer: install_trans. */
  function InstalledOne(l: Layout, s: Sys, t: nat): Sys
    requires WellFormed(l, s.disk) && Ready(s, t) && l.start + 1 + t < |s.disk|
  {
    var b, x := s.g.lh[t], s.disk[l.start + 1 + t];
    s.(disk := s.disk[b := x], cache := s.cache[b := s.cache[b].(dirty := false, data := x)], phase := Installing(t + 1))
  }

  function Cleared(l: Layout, s: Sys): Sys
    requires WellFormed(l, s.disk)
  {
    s.(disk := s.disk[l.start := EncodeHead(s.disk[l.start], [])], g := s.g.(lh := []), phase := Running)
  }

  /** Memory is lost; what was not durable is forgotten. */
  function Crashed(s: Sys): Sys
    requires s.durable <= |s.hist|
  {
    s.(cache := map[], g := G.Init, unlogged := {}, phase := Recovering(0), hist := s.hist[..s.durable])
  }

  function ReplayedOne(l: Layout, s: Sys, t: nat): Sys
    requires WellFormed(l, s.disk) && t < |Head(l, s.disk)|
  {
    s.(disk := s.disk[Head(l, s.disk)[t] := s.disk[l.start + 1 + t]], phase := Recovering(t + 1))
  }

  function Do(l: Layout, s: Sys, step: Step): Sys
    requires Enabled(l, s, step)
  {
    match step
    case BeginOp(p) =>
      s.(g := G.Exec(l.size, G.NewBlocks(), s.g, G.Begin(p)).s, hist := s.hist + [EBegin(p)])
    case EndOp(p) =>
      var g := G.Exec(l.size, G.NewBlocks(), s.g, G.End(p)).s;
      s.(g := g, hist := s.hist + [EEnd(p)],
         phase := if g.committing && |g.lh| > 0 then Copying(0) else s.phase)
    case FinishCommit => s.(g := G.Exec(l.size, G.NewBlocks(), s.g, G.Finish).s)
    case Claim(p, b) =>
      if b in s.cache then WithBuf(s, b, s.cache[b].(refs := s.cache[b].refs + {p}))
      else WithBuf(s, b, Buf(false, false, {p}, None, s.disk[l.start]))
    case Recycle(b) => s.(cache := s.cache - {b})
    case Lock(p, b) => WithBuf(s, b, s.cache[b].(holder := Some(p)))
    case Fill(p, b) => WithBuf(s, b, s.cache[b].(valid := true, data := s.disk[b]))
    case Modify(p, b, x) =>
      WithBuf(s, b, s.cache[b].(data := x)).(unlogged := s.unlogged + {b}, hist := s.hist + [EWrite(p, b, x)])
    case LogTest(p, b) => s.(g := G.Exec(l.size, G.NewBlocks(), s.g, G.LogTest(p, b)).s)
    case LogAppend(p) =>
      var b := s.g.passed[p];
      WithBuf(s, b, s.cache[b].(dirty := true)).(unlogged := s.unlogged - {b}, g := G.Appended(s.g, p))
    case Release(p, b) => WithBuf(s, b, s.cache[b].(holder := None, refs := s.cache[b].refs - {p}))
    case CopyBlock => Copied(l, s, s.phase.tail)
    case WriteHead => HeadWritten(l, s)
    case InstallBlock => InstalledOne(l, s, s.phase.tail)
    case ClearHead => Cleared(l, s)
    case Crash => Crashed(s)
    case ReplayBlock => ReplayedOne(l, s, s.phase.tail)
    case ClearAfterCrash => Cleared(l, s)
  }

  /** The machine with n buffers as it comes up on disk `d`: nothing cached, recovery about to start. */
  function Boot(n: nat, d: Image): Sys { Sys(d, map[], n, G.Init, {}, Recovering(0), [], 0) }

  function Run(l: Layout, n: nat, d: Image, steps: seq<Step>): Option<Sys>
    decreases |steps|
  {
    if steps == [] then Some(Boot(n, d)) else
    var o := Run(l, n, d, steps[..|steps| - 1]);
    var step := steps[|steps| - 1];
    if o.Some? && Enabled(l, o.value, step) then Some(Do(l, o.value, step)) else None
  }

  // ---- The plain map the stack is meant to be ----

  /** All writes of a history, applied to a plain array of blocks. */
  function Replay(base: Image, hist: seq<Event>): (r: Image)
    ensures |r| == |base|
    decreases |hist|
  {
    if hist == [] then base else
    var r := Replay(base, hist[..|hist| - 1]);
    var e := hist[|hist| - 1];
    if e.EWrite? && e.b < |r| then r[e.b := e.x] else r
  }

  /** The operations begun and not ended within a history. */
  function OpenOps(hist: seq<Event>): set<Pid>
    decreases |hist|
  {
    if hist == [] then {} else
    var o := OpenOps(hist[..|hist| - 1]);
    match hist[|hist| - 1]
    case EBegin(p) => o + {p}
    case EEnd(p) => o - {p}
    case EWrite(_, _, _) => o
  }

  /** What a bread of `b` would return now. */
  function Current(l: Layout, s: Sys, b: nat): Block
    requires WellFormed(l, s.disk) && l.Home(b)
  {
    if b in s.cache && s.cache[b].valid then s.cache[b].data else Logical(l, s.disk, b)
  }

  /** What a run leaves, crashed here and recovered by a recovery that is itself interrupted by `cuts`: every home block
      holds the replay of a prefix of the history, that prefix contains no operation half done, and up to the crash
      every bread agreed with the replay of the full history. */
  ghost predicate Survives(l: Layout, n: nat, d: Image, steps: seq<Step>, cuts: seq<nat>)
    requires WellFormed(l, d) && Run(l, n, d, steps).Some?
  {
    var s := Run(l, n, d, steps).value;
    && WellFormed(l, s.disk) && s.durable <= |s.hist|
    && OpenOps(s.hist[..s.durable]) == {}
    && var e := Recover(l, Interrupted(l, s.disk, cuts));
    && |e| == l.disksize == |Recover(l, d)|
    && (forall b :: l.Home(b) ==> e[b] == Replay(Recover(l, d), s.hist[..s.durable])[b])
    && (forall b :: l.Home(b) ==> Current(l, s, b) == Replay(Recover(l, d), s.hist)[b])
  }

  // ---- The invariant ----

  /** Blocks logged in memory whose home copy on disk is still out of date. */
  function Pinned(s: Sys): seq<int> {
    if s.phase.Installing? && s.phase.tail <= |s.g.lh| then s.g.lh[s.phase.tail..] else s.g.lh
  }

  ghost predicate CacheOk(l: Layout, s: Sys)
    requires WellFormed(l, s.disk)
  {
    && (forall b :: b in s.cache ==> l.Home(b))
    && (forall b :: b in s.cache && s.cache[b].holder.Some? ==> s.cache[b].holder.value in s.cache[b].refs)
    && (forall b :: b in s.cache ==> (s.cache[b].dirty <==> b in Pinned(s)))
    && (forall b :: b in Pinned(s) ==> b in s.cache && s.cache[b].valid)
    && (forall b :: b in s.cache && s.cache[b].valid && !s.cache[b].dirty && b !in s.unlogged ==> s.cache[b].data == s.disk[b])
    && (forall b :: b in s.unlogged ==>
          b in s.cache && s.cache[b].valid && s.cache[b].holder.Some? && s.cache[b].holder.value in s.g.left)
  }

  /** Before the commit point: t log blocks written, home blocks and header untouched. */
  predicate CopyingOk(l: Layout, d: Image, cache: map<int, Buf>, lh: seq<int>, t: nat)
    requires WellFormed(l, d)
  {
    && Head(l, d) == []
    && t <= |lh| && (t > 0 ==> |lh| <= l.size - 1)
    && forall i :: 0 <= i < t ==> lh[i] in cache && d[l.start + 1 + i] == cache[lh[i]].data
  }

  /** Past the commit point: t blocks installed, the others still pinned with their logged contents. */
  predicate InstallingOk(l: Layout, d: Image, cache: map<int, Buf>, lh: seq<int>, t: nat)
    requires WellFormed(l, d)
  {
    && Head(l, d) == lh
    && t <= |lh|
    && (forall i :: 0 <= i < t ==> d[lh[i]] == d[l.start + 1 + i])
    && (forall i :: t <= i < |lh| ==> lh[i] in cache && cache[lh[i]].data == d[l.start + 1 + i])
  }

  predicate ReplayingOk(l: Layout, d: Image, t: nat)
    requires WellFormed(l, d)
  {
    t <= |Head(l, d)| && forall i :: 0 <= i < t ==> d[Head(l, d)[i]] == d[l.start + 1 + i]
  }

  ghost predicate PhaseOk(l: Layout, s: Sys)
    requires WellFormed(l, s.disk)
  {
    && match s.phase
       case Running => Head(l, s.disk) == []
       case Copying(t) =>
         s.g.committing && CopyingOk(l, s.disk, s.cache, s.g.lh, t)
       case Installing(t) =>
         s.g.committing && InstallingOk(l, s.disk, s.cache, s.g.lh, t)
       case Recovering(t) =>
         s.g == G.Init && s.cache == map[] && ReplayingOk(l, s.disk, t)
  }

  ghost predicate HistOk(l: Layout, base: Image, s: Sys)
    requires WellFormed(l, s.disk)
  {
    && |base| == l.disksize
    && s.durable <= |s.hist|
    && OpenOps(s.hist[..s.durable]) == {}
    && OpenOps(s.hist) == s.g.left.Keys
    && (forall b :: l.Home(b) ==> Logical(l, s.disk, b) == Replay(base, s.hist[..s.durable])[b])
    && (forall b :: l.Home(b) ==> Current(l, s, b) == Replay(base, s.hist)[b])
  }

  /** Whoever is inside log_write still holds its block. */
  ghost predicate InsideOk(s: Sys) {
    forall p :: p in s.g.passed ==> CanAppend(s, p)
  }

  /** The log has room for every append, or for every list that leaves a buffer to write it with. Without it two
      processes can pass log_write's test on the same length and the commit run past the log. */
  predicate Room(l: Layout, n: nat) { l.size <= 1 || l.size > LOGSIZE || l.size >= n }

  /** The list fits the log, or it pins every buffer and the commit that would write it has not begun to. */
  predicate ListOk(l: Layout, n: nat, lh: seq<int>, phase: Phase) {
    && |lh| <= LOGSIZE && Distinct(lh) && (forall i :: 0 <= i < |lh| ==> l.Home(lh[i]))
    && (|lh| <= l.size - 1 || (|lh| >= n && (phase == Running || phase == Copying(0))))
  }

  ghost predicate Inv(l: Layout, base: Image, s: Sys) {
    && Room(l, s.nbuf) && InsideOk(s) && (l.size <= 1 ==> s.g.passed == map[])
    && WellFormed(l, s.disk) && G.Inv(s.g) && ListOk(l, s.nbuf, s.g.lh, s.phase)
    && CacheOk(l, s) && PhaseOk(l, s) && HistOk(l, base, s)
  }

  // ---- Consequences of the invariant ----

  lemma NoUnloggedInCommit(l: Layout, s: Sys)
    requires WellFormed(l, s.disk) && CacheOk(l, s) && G.Inv(s.g) && s.g.committing
    ensures s.unlogged == {} && s.g.left == map[]
  {
    forall b ensures b !in s.unlogged {}
  }

  /** Where a buffer is to be had the list fits the log. */
  lemma SpareMeansFits(l: Layout, s: Sys)
    requires WellFormed(l, s.disk) && CacheOk(l, s) && ListOk(l, s.nbuf, s.g.lh, s.phase) && Spare(s)
    ensures GoodHead(l, s.g.lh)
  {
    if |s.g.lh| > l.size - 1 {
      var listed := CardDistinct(s.g.lh);
      forall b | b in listed ensures b in s.cache.Keys { assert b in Pinned(s); }
      CardSubset(listed, s.cache.Keys);
    }
  }

  /** Away from the pinned blocks the home copy on disk is up to date. */
  lemma UnpinnedIsHome(l: Layout, s: Sys, b: nat)
    requires WellFormed(l, s.disk) && PhaseOk(l, s) && l.Home(b) && b !in Pinned(s) && !s.phase.Recovering?
    ensures Logical(l, s.disk, b) == s.disk[b]
  {
    var i := IndexOf(Head(l, s.disk), b);
  }
}

/** begin_op, log_write and end_op (`log.c`) as steps of any number of processes: when a commit may run,
    how full the log can get, and exactly when log_write panics. log_write tests the length of the log before
    it takes log.lock, so its test and its append are two steps. */
module GroupCommit {
  import opened Counting
  import opened LogRecovery

  type Pid = nat

  /** Which calls of log_write operations make: whether one with so many new blocks left of its MAXOPBLOCKS
      calls log_write on a block that is, or is not, already in the log. */
  type Discipline = (nat, bool) -> bool

  /** No operation logs more than MAXOPBLOCKS blocks; repeated blocks are free. */
  function NewBlocks(): Discipline { (left: nat, isNew: bool) => left > 0 || !isNew }

  /** Every call, repeated block or not, is made with room for a new one. */
  function WithRoom(): Discipline { (left: nat, isNew: bool) => left > 0 }

  /** `left` maps each process between begin_op and end_op to what remains of its reservation; `passed` those
      inside log_write, between the tests and the append, to the block they log. */
  datatype State = State(lh: seq<int>, outstanding: int, committing: bool, left: map<Pid, nat>, passed: map<Pid, nat>)

  datatype Step =
    | Begin(p: Pid)
    | LogTest(p: Pid, b: nat)  // both tests of log_write, without the lock
    | LogAppend(p: Pid)        // the rest of log_write, under log.lock
    | End(p: Pid)
    | Clear                    // commit() sets lh.n = 0
    | Finish                   // end_op clears `committing`

  datatype Outcome = Blocked | Panic | Goes(s: State)

  const Init := State([], 0, false, map[], map[])

  /** The reservation test of begin_op. */
  predicate Fits(s: State) {
    |s.lh| + (s.outstanding + 1) * MAXOPBLOCKS <= LOGSIZE
  }

  /** Both panics of log_write; note that they are tested before absorption is. */
  predicate WouldPanic(size: nat, s: State) {
    |s.lh| >= LOGSIZE || |s.lh| >= size - 1 || s.outstanding < 1
  }

  function Absorb(lh: seq<int>, b: nat): seq<int> {
    if b in lh then lh else lh + [b]
  }

  function Spend(n: nat): nat { if n == 0 then 0 else n - 1 }

  /** The append: a new block uses up one of the operation's reservation. */
  function Appended(s: State, p: Pid): State
    requires p in s.passed && p in s.left
  {
    s.(lh := Absorb(s.lh, s.passed[p]), passed := s.passed - {p},
       left := if s.passed[p] in s.lh then s.left else s.left[p := Spend(s.left[p])])
  }

  function Exec(size: nat, may: Discipline, s: State, step: Step): Outcome {
    match step
    case Begin(p) =>
      if p in s.left || s.committing || !Fits(s) then Blocked
      else Goes(s.(outstanding := s.outstanding + 1, left := s.left[p := MAXOPBLOCKS]))
    case LogTest(p, b) =>
      if p !in s.left || p in s.passed || !may(s.left[p], b !in s.lh) then Blocked
      else if WouldPanic(size, s) then Panic
      else Goes(s.(passed := s.passed[p := b]))
    case LogAppend(p) => if p in s.passed && p in s.left then Goes(Appended(s, p)) else Blocked
    case End(p) =>
      if p !in s.left || p in s.passed then Blocked
      else if s.committing then Panic
      else
        Goes(s.(outstanding := s.outstanding - 1, left := s.left - {p},
                committing := s.outstanding - 1 == 0))
    case Clear => if s.committing then Goes(s.(lh := [])) else Blocked
    case Finish => if s.committing && s.lh == [] then Goes(s.(committing := false)) else Blocked
  }

  /** The outcome of a whole interleaving, from boot. */
  function Run(size: nat, may: Discipline, steps: seq<Step>): Outcome
    decreases |steps|
  {
    if steps == [] then Goes(Init) else
    var o := Run(size, may, steps[..|steps| - 1]);
    if o.Goes? then Exec(size, may, o.s, steps[|steps| - 1]) else o
  }

  // ---- Reserved space ----

  /** What the operations may still log, when each stops at f left. */
  ghost function Sum(m: map<Pid, nat>, f: nat): int {
    if m.Keys == {} then 0 else
    var p :| p in m.Keys;
    m[p] - f + Sum(m - {p}, f)
  }

  lemma {:induction false} SumRemove(m: map<Pid, nat>, f: nat, p: Pid)
    requires p in m
    ensures Sum(m, f) == m[p] - f + Sum(m - {p}, f)
  {
    var q :| q in m.Keys && Sum(m, f) == m[q] - f + Sum(m - {q}, f);
    if q != p {
      SumRemove(m - {q}, f, p);
      SumRemove(m - {p}, f, q);
      assert m - {q} - {p} == m - {p} - {q};
    }
  }

  lemma SumUpdate(m: map<Pid, nat>, f: nat, p: Pid, n: nat)
    ensures Sum(m[p := n], f) == n - f + Sum(m - {p}, f)
  {
    SumRemove(m[p := n], f, p);
    assert m[p := n] - {p} == m - {p};
  }

  /** Every operation has between f and MAXOPBLOCKS left. */
  predicate Capped(m: map<Pid, nat>, f: nat) { forall p :: p in m ==> f <= m[p] <= MAXOPBLOCKS }

  lemma {:induction false} SumCapped(m: map<Pid, nat>, f: nat)
    requires Capped(m, f) && f <= MAXOPBLOCKS
    ensures Sum(m, f) >= 0
    ensures |m| <= 1 ==> Sum(m, f) <= MAXOPBLOCKS - f
    ensures |m| <= 2 ==> Sum(m, f) <= 2 * (MAXOPBLOCKS - f)
  {
    if m.Keys != {} {
      var p :| p in m.Keys && Sum(m, f) == m[p] - f + Sum(m - {p}, f);
      SumCapped(m - {p}, f);
      assert (m - {p}).Keys == m.Keys - {p};
      if |m| == 1 { assert (m - {p}).Keys == {}; }
    }
  }

  // ---- What every interleaving keeps ----

  /** An operation that has passed the tests for a block not in the log has something left to spend on it. */
  predicate PassedOk(s: State, f: nat) {
    s.passed.Keys <= s.left.Keys && forall p :: p in s.passed && s.passed[p] !in s.lh ==> s.left[p] > f
  }

  /** With operations that stop logging new blocks at f left, the log never holds more than LOGSIZE - 2f blocks,
      counting what the open operations may still log. */
  ghost predicate InvAt(s: State, f: nat) {
    && s.outstanding == |s.left|
    && (s.committing ==> s.left == map[])
    && Capped(s.left, f) && PassedOk(s, f)
    && |s.lh| + Sum(s.left, f) <= LOGSIZE - 2 * f
    && Distinct(s.lh)
    && (s.left == map[] && !s.committing ==> s.lh == [])
    && (f == MAXOPBLOCKS ==> s.lh == [])
  }

  ghost predicate Inv(s: State) { InvAt(s, 0) }

  /** No new block is logged with just f left, hence with less. */
  predicate Keeps(may: Discipline, f: nat) { f <= MAXOPBLOCKS && !may(f, true) }

  lemma BeginRoom(left: map<Pid, nat>, f: nat, n: nat, p: Pid)
    requires Capped(left, f) && f <= MAXOPBLOCKS && p !in left && n + (|left| + 1) * MAXOPBLOCKS <= LOGSIZE
    requires left == map[] ==> n == 0
    ensures |left[p := MAXOPBLOCKS]| == |left| + 1 && n + Sum(left[p := MAXOPBLOCKS], f) <= LOGSIZE - 2 * f
  {
    hide Sum, Capped;
    SumUpdate(left, f, p, MAXOPBLOCKS);
    assert left - {p} == left;
    SumCapped(left, f);
    assert left[p := MAXOPBLOCKS].Keys == left.Keys + {p};
    if |left| == 0 { assert left.Keys == {}; }
  }

  lemma BeginKeeps(s: State, p: Pid, f: nat)
    requires InvAt(s, f) && f <= MAXOPBLOCKS && p !in s.left && !s.committing && Fits(s)
    ensures InvAt(s.(outstanding := s.outstanding + 1, left := s.left[p := MAXOPBLOCKS]), f)
  {
    hide Sum, Distinct;
    BeginRoom(s.left, f, |s.lh|, p);
  }

  lemma EndKeeps(s: State, p: Pid, f: nat)
    requires InvAt(s, f) && p in s.left && p !in s.passed
    ensures !s.committing
    ensures InvAt(s.(outstanding := s.outstanding - 1, left := s.left - {p}, committing := s.outstanding - 1 == 0), f)
  {
    SumRemove(s.left, f, p);
    var t := s.left - {p};
    assert t.Keys == s.left.Keys - {p};
    assert |t| == |s.left| - 1;
    if |t| == 0 { assert t.Keys == {}; }
  }

  lemma AppendKeeps(s: State, p: Pid, f: nat)
    requires InvAt(s, f) && p in s.passed && p in s.left
    ensures InvAt(Appended(s, p), f) && Appended(s, p).left.Keys == s.left.Keys
  {
    hide Sum;
    SumRemove(s.left, f, p);
    if s.passed[p] !in s.lh {
      SumUpdate(s.left, f, p, s.left[p] - 1);
      assert s.left[p := s.left[p] - 1].Keys == s.left.Keys;
    }
  }

  lemma TestKeeps(s: State, may: Discipline, p: Pid, b: nat, f: nat)
    requires InvAt(s, f) && Keeps(may, f) && p in s.left && p !in s.passed && may(s.left[p], b !in s.lh)
    ensures InvAt(s.(passed := s.passed[p := b]), f)
  {
    hide Sum, Distinct;
  }

  lemma ClearKeeps(s: State, f: nat)
    requires InvAt(s, f) && s.committing
    ensures InvAt(s.(lh := []), f) && (s.lh == [] ==> InvAt(s.(committing := false), f))
  {
    hide Sum;
  }

  lemma ExecKeeps(size: nat, may: Discipline, s: State, step: Step, f: nat)
    requires InvAt(s, f) && Keeps(may, f)
    ensures var o := Exec(size, may, s, step); o.Goes? ==> InvAt(o.s, f)
  {
    hide InvAt, Fits, Appended, WouldPanic;
    match step
    case Begin(p) => if p !in s.left && !s.committing && Fits(s) { BeginKeeps(s, p, f); }
    case LogTest(p, b) => if p in s.left && p !in s.passed && may(s.left[p], b !in s.lh) { TestKeeps(s, may, p, b, f); }
    case LogAppend(p) => if p in s.passed && p in s.left { AppendKeeps(s, p, f); }
    case End(p) => if p in s.left && p !in s.passed { EndKeeps(s, p, f); }
    case Clear => if s.committing { ClearKeeps(s, f); }
    case Finish => if s.committing { ClearKeeps(s, f); }
  }

  lemma {:induction false} RunKeeps(size: nat, may: Discipline, steps: seq<Step>, f: nat)
    requires Keeps(may, f)
    ensures var o := Run(size, may, steps); o.Goes? ==> InvAt(o.s, f)
    decreases |steps|
  {
    if steps != [] {
      RunKeeps(size, may, steps[..|steps| - 1], f);
      var o := Run(size, may, steps[..|steps| - 1]);
      if o.Goes? { ExecKeeps(size, may, o.s, steps[|steps| - 1], f); }
    }
  }

  /** After any interleaving of operations that log at most MAXOPBLOCKS blocks each: a commit runs only with no
      operation open, end_op's own panic is unreachable, every append of a new block finds room in the header's
      list, and so does any operation still within its reservation. */
  lemma GroupCommitSafety(size: nat, may: Discipline, steps: seq<Step>, p: Pid)
    requires Run(size, may, steps).Goes? && !may(0, true)
    ensures var s := Run(size, may, steps).s;
      && (s.committing ==> s.outstanding == 0 && s.left == map[])
      && s.outstanding == |s.left|
      && Exec(size, may, s, End(p)) != Panic
      && (p in s.passed && s.passed[p] !in s.lh ==> |s.lh| < LOGSIZE)
      && (p in s.left && s.left[p] > 0 ==> |s.lh| < LOGSIZE)
      && (p in s.left ==> s.outstanding >= 1)
  {
    RunKeeps(size, may, steps, 0);
    var s := Run(size, may, steps).s;
    if p in s.left {
      SumRemove(s.left, 0, p);
      SumCapped(s.left - {p}, 0);
    }
  }

  // ---- When log_write can panic ----

  /** No interleaving of operations of this discipline panics. */
  ghost predicate PanicFree(size: nat, may: Discipline) {
    forall steps :: Run(size, may, steps) != Panic
  }

  /** Where operations of this discipline stop logging new blocks: what is left of a reservation then. */
  function FloorFrom(may: Discipline, n: nat): (f: nat)
    ensures f <= n && (f > 0 ==> !may(f, true)) && forall k :: f < k <= n ==> may(k, true)
  {
    if n == 0 then 0 else if !may(n, true) then n else FloorFrom(may, n - 1)
  }

  function Floor(may: Discipline): nat { FloorFrom(may, MAXOPBLOCKS) }

  /** Whether a call is made by an operation that has stopped logging new blocks. */
  predicate CallsAtFloor(may: Discipline) {
    may(Floor(may), false) || (Floor(may) == 0 && may(0, true))
  }

  /** The longest log at which such operations call log_write. */
  function Peak(may: Discipline): int {
    LOGSIZE - 2 * Floor(may) - (if CallsAtFloor(may) then 0 else 1)
  }

  /** A call is made with the log no longer than the peak. */
  lemma CallBelowPeak(s: State, may: Discipline, p: Pid, b: nat)
    requires InvAt(s, Floor(may)) && p in s.left && may(s.left[p], b !in s.lh) && (Floor(may) == 0 ==> !may(0, true))
    ensures |s.lh| <= Peak(may) && Floor(may) < MAXOPBLOCKS
  {
    hide Sum, Distinct;
    var f := Floor(may);
    SumRemove(s.left, f, p);
    SumCapped(s.left - {p}, f);
  }

  lemma {:induction false} NoPanicBelowPeak(size: nat, may: Discipline, steps: seq<Step>)
    requires Floor(may) == MAXOPBLOCKS || (Peak(may) < LOGSIZE && Peak(may) < size - 1)
    ensures Run(size, may, steps) != Panic
    decreases |steps|
  {
    if steps != [] {
      var front, last := steps[..|steps| - 1], steps[|steps| - 1];
      NoPanicBelowPeak(size, may, front);
      RunKeeps(size, may, front, Floor(may));
      if Run(size, may, front).Goes? {
        var s := Run(size, may, front).s;
        if last.LogTest? && last.p in s.left && last.p !in s.passed && may(s.left[last.p], last.b !in s.lh) {
          CallBelowPeak(s, may, last.p, last.b);
        }
      }
    }
  }

  // ---- A run to the peak ----

  /** One whole log_write call by p on block b. */
  function Call(p: Pid, b: nat): seq<Step> { [LogTest(p, b), LogAppend(p)] }

  /** The first ten blocks are logged by operations of process 1 that log one block each while process 0's is open;
      then one operation of process 1, and after it process 0's, log all they will. Block k is the k-th logged. */
  function PeakRun(may: Discipline, k: nat): seq<Step> {
    if k == 0 then [Begin(0), Begin(1)]
    else if k <= 10 then PeakRun(may, k - 1) + Call(1, k - 1) + [End(1), Begin(1)]
    else PeakRun(may, k - 1) + Call(Caller(may, k - 1), k - 1)
  }

  /** Who logs block k. */
  function Caller(may: Discipline, k: nat): Pid { if k < 20 - Floor(may) then 1 else 0 }

  function PeakState(may: Discipline, k: nat): State
    requires k <= LOGSIZE - 2 * Floor(may) && Floor(may) <= MAXOPBLOCKS
  {
    var f := Floor(may);
    State(seq(k, i => i), 2, false, map[
      0 := if k <= 20 - f then 10 else 30 - f - k,
      1 := if k <= 10 then 10 else if k <= 20 - f then 20 - k else f], map[])
  }

  lemma RunSnoc(size: nat, may: Discipline, steps: seq<Step>, step: Step)
    ensures Run(size, may, steps + [step]) ==
      var o := Run(size, may, steps); if o.Goes? then Exec(size, may, o.s, step) else o
  {
    assert (steps + [step])[..|steps|] == steps;
  }

  lemma RunPair(size: nat, may: Discipline, steps: seq<Step>, a: Step, b: Step, s: State, t: State)
    requires Run(size, may, steps) == Goes(s) && Exec(size, may, s, a) == Goes(t)
    ensures Run(size, may, steps + [a, b]) == Exec(size, may, t, b)
  {
    RunSnoc(size, may, steps, a);
    RunSnoc(size, may, steps + [a], b);
    assert steps + [a] + [b] == steps + [a, b];
  }

  lemma PeakStart(size: nat, may: Discipline)
    ensures Run(size, may, PeakRun(may, 0)) == Goes(PeakState(may, 0))
  {
    assert [] + [Begin(0), Begin(1)] == PeakRun(may, 0);
    var s := State([], 1, false, map[0 := 10], map[]);
    assert Run(size, may, []) == Goes(Init);
    RunPair(size, may, [], Begin(0), Begin(1), Init, s);
    assert PeakState(may, 0).lh == [];
  }

  /** What process `Caller` has left when it logs block k is above the floor. */
  lemma CallerMay(may: Discipline, k: nat)
    requires Floor(may) < MAXOPBLOCKS && k < LOGSIZE - 2 * Floor(may)
    ensures var s, p := PeakState(may, k), Caller(may, k);
      p in s.left && Floor(may) < s.left[p] <= MAXOPBLOCKS && may(s.left[p], k !in s.lh) && k !in s.lh
  {}

  function Tested(may: Discipline, k: nat): State
    requires k < LOGSIZE - 2 * Floor(may) && Floor(may) <= MAXOPBLOCKS
  {
    PeakState(may, k).(passed := map[Caller(may, k) := k])
  }

  /** After the call, before process 1 starts anew if it does. */
  lemma CallDone(may: Discipline, k: nat)
    requires Floor(may) < MAXOPBLOCKS && k < LOGSIZE - 2 * Floor(may)
    ensures var s, t := Appended(Tested(may, k), Caller(may, k)), PeakState(may, k + 1);
      && s.lh == t.lh && s.passed == map[] && s.outstanding == 2 && !s.committing
      && (k >= 10 ==> s.left == t.left) && (k < 10 ==> s.left == map[0 := 10, 1 := 9])
  {
    CallerMay(may, k);
    assert PeakState(may, k).lh + [k] == PeakState(may, k + 1).lh;
  }

  lemma Renewed(size: nat, may: Discipline, k: nat)
    requires k < 10 && Floor(may) < MAXOPBLOCKS
    ensures var s := Appended(Tested(may, k), Caller(may, k));
      var t := s.(outstanding := 1, left := map[0 := 10]);
      Exec(size, may, s, End(1)) == Goes(t) && Exec(size, may, t, Begin(1)) == Goes(PeakState(may, k + 1))
  {
    CallDone(may, k);
    assert map[0 := 10, 1 := 9] - {1} == map[0 := 10];
  }

  lemma CallRun(size: nat, may: Discipline, steps: seq<Step>, k: nat)
    requires PanicFree(size, may) && Floor(may) < MAXOPBLOCKS && k < LOGSIZE - 2 * Floor(may)
    requires Run(size, may, steps) == Goes(PeakState(may, k))
    ensures Caller(may, k) in Tested(may, k).left
    ensures Run(size, may, steps + Call(Caller(may, k), k)) == Goes(Appended(Tested(may, k), Caller(may, k)))
  {
    hide PeakState, Exec, Run, Appended, PanicFree, Caller, Floor;
    var p := Caller(may, k);
    NotPanic(size, may, steps + [LogTest(p, k)]);
    RunSnoc(size, may, steps, LogTest(p, k));
    TestGoes(size, may, k);
    RunPair(size, may, steps, LogTest(p, k), LogAppend(p), PeakState(may, k), Tested(may, k));
    AppendGoes(size, may, k);
  }

  lemma {:induction false} PeakReached(size: nat, may: Discipline, k: nat)
    requires PanicFree(size, may) && Floor(may) < MAXOPBLOCKS && k <= LOGSIZE - 2 * Floor(may)
    ensures Run(size, may, PeakRun(may, k)) == Goes(PeakState(may, k))
  {
    hide PeakState, Exec, Run, Appended, PanicFree;
    if k == 0 {
      PeakStart(size, may);
    } else {
      PeakReached(size, may, k - 1);
      var p, steps := Caller(may, k - 1), PeakRun(may, k - 1);
      CallRun(size, may, steps, k - 1);
      if k <= 10 {
        Renewed(size, may, k - 1);
        var t := Appended(Tested(may, k - 1), p);
        RunPair(size, may, steps + Call(p, k - 1), End(1), Begin(1), t, t.(outstanding := 1, left := map[0 := 10]));
      } else {
        CallLast(may, k - 1);
      }
    }
  }

  lemma NotPanic(size: nat, may: Discipline, steps: seq<Step>)
    requires PanicFree(size, may)
    ensures Run(size, may, steps) != Panic
  {}

  lemma TestGoes(size: nat, may: Discipline, k: nat)
    requires Floor(may) < MAXOPBLOCKS && k < LOGSIZE - 2 * Floor(may)
    ensures var o := Exec(size, may, PeakState(may, k), LogTest(Caller(may, k), k));
      if WouldPanic(size, PeakState(may, k)) then o == Panic else o == Goes(Tested(may, k))
  {
    CallerMay(may, k);
  }

  lemma AppendGoes(size: nat, may: Discipline, k: nat)
    requires Floor(may) < MAXOPBLOCKS && k < LOGSIZE - 2 * Floor(may)
    ensures Caller(may, k) in Tested(may, k).left
    ensures Exec(size, may, Tested(may, k), LogAppend(Caller(may, k))) == Goes(Appended(Tested(may, k), Caller(may, k)))
  {
    CallerMay(may, k);
  }

  lemma CallLast(may: Discipline, k: nat)
    requires 10 <= k && Floor(may) < MAXOPBLOCKS && k < LOGSIZE - 2 * Floor(may)
    ensures Appended(Tested(may, k), Caller(may, k)) == PeakState(may, k + 1)
  {
    CallDone(may, k);
  }

  /** The call made at the peak. */
  function LastStraw(may: Discipline): Step {
    if !CallsAtFloor(may) then LogTest(Caller(may, LOGSIZE - 2 * Floor(may) - 1), LOGSIZE - 2 * Floor(may) - 1)
    else LogTest(0, if may(Floor(may), false) then 0 else LOGSIZE)
  }

  lemma LastStrawPanics(size: nat, may: Discipline)
    requires Floor(may) < MAXOPBLOCKS && (Peak(may) >= LOGSIZE || Peak(may) >= size - 1)
    ensures Peak(may) >= 0 && Exec(size, may, PeakState(may, Peak(may)), LastStraw(may)) == Panic
  {
    var k := Peak(may);
    assert |PeakState(may, k).lh| == k;
    if CallsAtFloor(may) {
      assert PeakState(may, k).lh[0] == 0;
    } else {
      CallerMay(may, k);
    }
  }

  /** log_write never panics exactly when operations of the discipline log nothing, or make their calls only at log
      lengths below LOGSIZE and below size - 1. This takes for granted that bget finds a buffer for every block logged,
      which with NBUF buffers it does not for a block after the first LOGSIZE. */
  lemma PanicFreeExactly(size: nat, may: Discipline)
    ensures PanicFree(size, may) <==> Floor(may) == MAXOPBLOCKS || (Peak(may) < LOGSIZE && Peak(may) < size - 1)
  {
    if Floor(may) == MAXOPBLOCKS || (Peak(may) < LOGSIZE && Peak(may) < size - 1) {
      forall steps ensures Run(size, may, steps) != Panic { NoPanicBelowPeak(size, may, steps); }
    } else if PanicFree(size, may) {
      PeakReached(size, may, Peak(may));
      LastStrawPanics(size, may);
      RunSnoc(size, may, PeakRun(may, Peak(may)), LastStraw(may));
      assert false;
    }
  }

  /** For operations that use their whole reservation: no panic exactly when the log has more than LOGSIZE blocks and
      no call is made with nothing left, not even one for a block already in the log. mkfs makes the log LOGSIZE
      blocks, so there they do panic. */
  lemma PanicFreeFullUse(size: nat, may: Discipline)
    requires forall n :: 1 <= n <= MAXOPBLOCKS ==> may(n, true)
    ensures PanicFree(size, may) <==> size > LOGSIZE && !may(0, false) && !may(0, true)
  {
    PanicFreeExactly(size, may);
  }

  /** filewrite makes every call with fewer than MAXOPBLOCKS blocks of its own logged: then a log of more than LOGSIZE
      blocks suffices. An operation that only logs no more than MAXOPBLOCKS blocks can panic with any log. */
  lemma PanicFreeWithRoom(size: nat)
    ensures PanicFree(size, WithRoom()) <==> size > LOGSIZE
    ensures !PanicFree(size, NewBlocks())
  {
    PanicFreeFullUse(size, WithRoom());
    PanicFreeFullUse(size, NewBlocks());
  }
}

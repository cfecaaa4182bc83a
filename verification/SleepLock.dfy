/** `sleeplock.c` over sleep and wakeup of `proc.c`, interleaved at every lock operation and every
    write: any number of processes take and release one sleep lock, and may be killed while asleep. */
module SleepLock {

  /** Where a process is, and which spinlocks it holds there: lk (lk->lk), ptable (ptable.lock). */
  datatype Pc =
    | Idle
    // acquiresleep
    | WantLk          // spinning for lk->lk
    | Test            // lk: about to test locked
    | WantPt          // lk: in sleep, spinning for ptable.lock
    | Both            // lk and ptable: about to release lk->lk
    | Falling         // ptable: about to mark itself SLEEPING
    | Asleep          // SLEEPING, off the processor
    | Woken           // RUNNABLE, off the processor
    | Resumed         // ptable: back from sched
    | WantLkAgain     // spinning for lk->lk at the end of sleep
    | Took            // lk: locked is set, about to release lk->lk
    | Holder          // has the sleep lock
    // releasesleep
    | WantRel         // spinning for lk->lk
    | Rel             // lk: about to clear locked
    | Cleared         // lk: locked is clear, in wakeup, spinning for ptable.lock
    | Waking          // lk and ptable: about to run wakeup1
    | Woke            // lk and ptable: about to release ptable.lock
    | Done            // lk: about to release lk->lk

  const FREE := -1
  const SCHED := -2

  /** `lk` and `pt` name the holders of the two spinlocks: a process, nobody, or the scheduler. */
  datatype State = State(pcs: seq<Pc>, lk: int, pt: int, locked: bool, owner: int)

  predicate HasLk(c: Pc) {
    c.Test? || c.WantPt? || c.Both? || c.Took? || c.Rel? || c.Cleared? || c.Waking? || c.Woke? || c.Done?
  }

  predicate HasPt(c: Pc) { c.Both? || c.Falling? || c.Resumed? || c.Waking? || c.Woke? }

  /** Between a successful acquiresleep and the clearing of locked. */
  predicate HasSleepLock(c: Pc) { c.Took? || c.Holder? || c.WantRel? || c.Rel? }

  /** Steps: a process moves on, the scheduler takes and gives back ptable.lock or dispatches a runnable
      process, and kill makes a sleeper runnable. */
  datatype Step = Move(i: nat) | Take | Give | Dispatch(i: nat) | Kill(i: nat)

  predicate Enabled(s: State, e: Step) {
    match e
    case Move(i) => i < |s.pcs| && MoveEnabled(s, s.pcs[i])
    case Take => s.pt == FREE
    case Give => s.pt == SCHED
    case Dispatch(i) => i < |s.pcs| && s.pt == SCHED && s.pcs[i] == Woken
    case Kill(i) => i < |s.pcs| && s.pt == FREE && s.pcs[i] == Asleep
  }

  predicate MoveEnabled(s: State, c: Pc) {
    match c
    case WantLk => s.lk == FREE
    case WantLkAgain => s.lk == FREE
    case WantRel => s.lk == FREE
    case WantPt => s.pt == FREE
    case Cleared => s.pt == FREE
    case Asleep => false
    case Woken => false
    case _ => true
  }

  function At(s: State, i: nat, c: Pc): State
    requires i < |s.pcs|
  {
    s.(pcs := s.pcs[i := c])
  }

  function WakeAll(pcs: seq<Pc>): seq<Pc> {
    seq(|pcs|, j requires 0 <= j < |pcs| => if pcs[j] == Asleep then Woken else pcs[j])
  }

  function MoveOn(s: State, i: nat): State
    requires i < |s.pcs| && MoveEnabled(s, s.pcs[i])
  {
    match s.pcs[i]
    case Idle => At(s, i, WantLk)
    case WantLk => At(s, i, Test).(lk := i)
    case Test => if s.locked then At(s, i, WantPt) else At(s, i, Took).(locked := true, owner := i)
    case WantPt => At(s, i, Both).(pt := i)
    case Both => At(s, i, Falling).(lk := FREE)
    case Falling => At(s, i, Asleep).(pt := SCHED)
    case Resumed => At(s, i, WantLkAgain).(pt := FREE)
    case WantLkAgain => At(s, i, Test).(lk := i)
    case Took => At(s, i, Holder).(lk := FREE)
    case Holder => At(s, i, WantRel)
    case WantRel => At(s, i, Rel).(lk := i)
    case Rel => At(s, i, Cleared).(locked := false, owner := FREE)
    case Cleared => At(s, i, Waking).(pt := i)
    case Waking => At(s.(pcs := WakeAll(s.pcs)), i, Woke)
    case Woke => At(s, i, Done).(pt := FREE)
    case Done => At(s, i, Idle).(lk := FREE)
    case Asleep => s
    case Woken => s
  }

  function Do(s: State, e: Step): State
    requires Enabled(s, e)
  {
    match e
    case Move(i) => MoveOn(s, i)
    case Take => s.(pt := SCHED)
    case Give => s.(pt := FREE)
    case Dispatch(i) => At(s, i, Resumed).(pt := i)
    case Kill(i) => At(s, i, Woken)
  }

  // ---- Invariant ----

  /** Some releaser has cleared locked and not yet run wakeup1. */
  predicate WakeupPending(s: State) {
    0 <= s.lk < |s.pcs| && (s.pcs[s.lk].Cleared? || s.pcs[s.lk].Waking?)
  }

  predicate ProcOk(s: State, i: nat)
    requires i < |s.pcs|
  {
    && (HasLk(s.pcs[i]) <==> s.lk == i)
    && (HasPt(s.pcs[i]) <==> s.pt == i)
    && (HasSleepLock(s.pcs[i]) <==> s.locked && s.owner == i)
    && (s.pcs[i].WantPt? || s.pcs[i].Both? ==> s.locked)
    && (s.pcs[i].Falling? || s.pcs[i].Asleep? ==> s.locked || WakeupPending(s))
  }

  ghost predicate Inv(s: State) {
    && -1 <= s.lk < |s.pcs| && -2 <= s.pt < |s.pcs|
    && (s.locked ==> 0 <= s.owner < |s.pcs|)
    && (forall i :: 0 <= i < |s.pcs| ==> ProcOk(s, i))
  }

  lemma MoveKeeps(s: State, i: nat)
    requires Inv(s) && i < |s.pcs| && MoveEnabled(s, s.pcs[i])
    ensures Inv(MoveOn(s, i))
  {
    var t := MoveOn(s, i);
    assert ProcOk(s, i);
    forall j | 0 <= j < |t.pcs| ensures ProcOk(t, j) {
      if j == i { MoveSelf(s, i); } else { MoveOther(s, i, j); }
    }
  }

  lemma MoveSelf(s: State, i: nat)
    requires Inv(s) && i < |s.pcs| && MoveEnabled(s, s.pcs[i])
    ensures |MoveOn(s, i).pcs| == |s.pcs| && ProcOk(MoveOn(s, i), i)
  {
    assert ProcOk(s, i);
  }

  lemma MoveOther(s: State, i: nat, j: nat)
    requires Inv(s) && i < |s.pcs| && MoveEnabled(s, s.pcs[i]) && j < |s.pcs| && j != i
    ensures |MoveOn(s, i).pcs| == |s.pcs| && ProcOk(MoveOn(s, i), j)
  {
    assert ProcOk(s, i) && ProcOk(s, j);
  }

  lemma StepKeeps(s: State, e: Step)
    requires Inv(s) && Enabled(s, e)
    ensures Inv(Do(s, e))
  {
    if e.Move? {
      MoveKeeps(s, e.i);
    } else {
      forall j | 0 <= j < |s.pcs| ensures ProcOk(Do(s, e), j) { assert ProcOk(s, j); }
    }
  }

  // ---- Runs ----

  ghost predicate Run(s: State, es: seq<Step>, t: State)
    decreases |es|
  {
    if es == [] then t == s else Enabled(s, es[0]) && Run(Do(s, es[0]), es[1..], t)
  }

  predicate Initial(s: State) {
    s.lk == FREE && s.pt == FREE && !s.locked && s.owner == FREE && forall i :: 0 <= i < |s.pcs| ==> s.pcs[i] == Idle
  }

  lemma {:induction false} RunKeeps(s: State, es: seq<Step>, t: State)
    requires Inv(s) && Run(s, es, t)
    ensures Inv(t)
    decreases |es|
  {
    if es != [] {
      StepKeeps(s, es[0]);
      RunKeeps(Do(s, es[0]), es[1..], t);
    }
  }

  /** At most one process has the sleep lock. */
  lemma MutualExclusion(s: State, es: seq<Step>, t: State, i: nat, j: nat)
    requires Initial(s) && Run(s, es, t) && i < |t.pcs| && j < |t.pcs|
    ensures HasSleepLock(t.pcs[i]) && HasSleepLock(t.pcs[j]) ==> i == j
  {
    RunKeeps(s, es, t);
    assert ProcOk(t, i) && ProcOk(t, j);
  }

  /** No wakeup is lost: once lk->lk is free and the sleep lock is not taken, nobody is asleep on it or on
      the way to sleep. */
  lemma NoLostWakeup(s: State, es: seq<Step>, t: State, i: nat)
    requires Initial(s) && Run(s, es, t) && i < |t.pcs|
    ensures t.lk == FREE && !t.locked ==> t.pcs[i] !in {WantPt, Both, Falling, Asleep}
  {
    RunKeeps(s, es, t);
    assert ProcOk(t, i);
  }

  /** sched is entered with ptable.lock held and no other lock, and neither spinlock is ever held twice. */
  lemma SchedHoldsOnlyPtable(s: State, es: seq<Step>, t: State, i: nat, j: nat)
    requires Initial(s) && Run(s, es, t) && i < |t.pcs| && j < |t.pcs|
    ensures t.pcs[i] == Falling ==> t.pt == i && t.lk != i
    ensures i != j ==> !(HasLk(t.pcs[i]) && HasLk(t.pcs[j])) && !(HasPt(t.pcs[i]) && HasPt(t.pcs[j]))
  {
    RunKeeps(s, es, t);
    assert ProcOk(t, i) && ProcOk(t, j);
  }

  // ---- While the lock is held ----

  /** A process on its way to wake the others has the lock free. */
  predicate PendingClear(s: State) {
    forall i :: 0 <= i < |s.pcs| && (s.pcs[i].Cleared? || s.pcs[i].Waking?) ==> !s.locked
  }

  lemma StepPending(s: State, e: Step)
    requires Inv(s) && PendingClear(s) && Enabled(s, e)
    ensures PendingClear(Do(s, e))
  {
    var t := Do(s, e);
    forall j | 0 <= j < |t.pcs| && (t.pcs[j].Cleared? || t.pcs[j].Waking?) ensures !t.locked {
      assert ProcOk(s, j);
      if e.Move? { assert ProcOk(s, e.i); }
    }
  }

  lemma StepHeld(s: State, e: Step, h: nat, p: nat)
    requires Inv(s) && PendingClear(s) && Enabled(s, e) && e != Move(h) && e != Kill(p)
    requires s.locked && s.owner == h && p < |s.pcs| && s.pcs[p] == Asleep
    ensures var t := Do(s, e); t.locked && t.owner == h && |t.pcs| == |s.pcs| && t.pcs[p] == Asleep
  {
    if e.Move? { assert ProcOk(s, e.i); }
  }

  lemma {:induction false} RunHeld(s: State, es: seq<Step>, t: State, h: nat, p: nat)
    requires Inv(s) && PendingClear(s) && Run(s, es, t) && Move(h) !in es && Kill(p) !in es
    requires s.locked && s.owner == h && p < |s.pcs| && s.pcs[p] == Asleep
    ensures t.locked && t.owner == h && p < |t.pcs| && t.pcs[p] == Asleep
    decreases |es|
  {
    hide Inv, PendingClear;
    if es != [] {
      StepKeeps(s, es[0]);
      StepPending(s, es[0]);
      StepHeld(s, es[0], h, p);
      RunHeld(Do(s, es[0]), es[1..], t, h, p);
    }
  }

  lemma {:induction false} RunPending(s: State, es: seq<Step>, t: State)
    requires Inv(s) && PendingClear(s) && Run(s, es, t)
    ensures PendingClear(t)
    decreases |es|
  {
    hide Inv, PendingClear;
    if es != [] {
      StepKeeps(s, es[0]);
      StepPending(s, es[0]);
      RunPending(Do(s, es[0]), es[1..], t);
    }
  }

  /** From any state of any run in which h has the sleep lock: however the others go on, while h does not, the lock
      stays its own and whoever sleeps on it sleeps on unless killed. */
  lemma SleepsWhileHeld(s: State, es: seq<Step>, m: State, more: seq<Step>, t: State, h: nat, p: nat)
    requires Initial(s) && Run(s, es, m) && Run(m, more, t) && Move(h) !in more && Kill(p) !in more
    requires m.locked && m.owner == h && p < |m.pcs| && m.pcs[p] == Asleep
    ensures t.locked && t.owner == h && p < |t.pcs| && t.pcs[p] == Asleep
  {
    RunKeeps(s, es, m);
    RunPending(s, es, m);
    RunHeld(m, more, t, h, p);
  }

  // ---- No deadlock ----

  /** Unless every process is idle, some process or the scheduler can move on: spinlocks are never waited
      for in a cycle, and a sleeper always has a holder or a pending wakeup to wait for. */
  lemma NotStuck(s: State, es: seq<Step>, t: State, i: nat)
    requires Initial(s) && Run(s, es, t) && i < |t.pcs| && t.pcs[i] != Idle
    ensures exists e :: Enabled(t, e) && Useful(t, e)
  {
    RunKeeps(s, es, t);
    assert ProcOk(t, i);
    if t.pt == SCHED {
      assert Enabled(t, Give) && Useful(t, Give);
    } else if t.pt >= 0 {
      assert ProcOk(t, t.pt);
      assert Enabled(t, Move(t.pt)) && Useful(t, Move(t.pt));
    } else if t.lk >= 0 {
      assert ProcOk(t, t.lk);
      assert Enabled(t, Move(t.lk)) && Useful(t, Move(t.lk));
    } else if t.pcs[i] == Asleep {
      assert ProcOk(t, t.owner);
      assert Enabled(t, Move(t.owner)) && Useful(t, Move(t.owner));
    } else if t.pcs[i] == Woken {
      assert Enabled(t, Take) && Useful(t, Take);
    } else {
      assert Enabled(t, Move(i)) && Useful(t, Move(i));
    }
  }

  /** A step that gets somebody further: not a new request, and the scheduler takes ptable.lock only with a
      process to run. */
  ghost predicate Useful(s: State, e: Step) {
    match e
    case Move(i) => i < |s.pcs| && s.pcs[i] != Idle
    case Take => exists j :: 0 <= j < |s.pcs| && s.pcs[j] == Woken
    case Give => true
    case Dispatch(i) => true
    case Kill(i) => false
  }
}

/** Waiting for log space (`log.c`): begin_op's sleep and the wakeups of end_op, with any number of processes. A step is
    one critical section of log.lock, up to its return or its sleep, or one of the log's other steps. */
module LogWaits {
  import opened LogRecovery
  import opened Options
  import G = GroupCommit

  type Pid = nat

  /** Processes asleep in begin_op, and those made runnable that have not gone round its loop again. */
  datatype State = State(g: G.State, asleep: set<Pid>, woken: set<Pid>)

  datatype Step =
    | Enter(p: Pid)      // begin_op from its start
    | Retry(p: Pid)      // begin_op after its sleep
    | Kill(p: Pid)       // kill makes a sleeper runnable
    | Log(e: G.Step)     // log_write, end_op and the commit

  const Init := State(G.Init, {}, {})

  /** begin_op's loop, once: sleep while a commit runs or the reservation does not fit. */
  function Try(s: State, p: Pid): State {
    if s.g.committing || !G.Fits(s.g) then State(s.g, s.asleep + {p}, s.woken - {p})
    else State(s.g.(outstanding := s.g.outstanding + 1, left := s.g.left[p := MAXOPBLOCKS]), s.asleep, s.woken - {p})
  }

  /** wakeup(&log): by an end_op that is not the last, and when the commit is over. */
  predicate Wakes(e: G.Step, g: G.State) { e.Finish? || (e.End? && g.outstanding != 0) }

  /** None when the step cannot be taken, log_write's panic included. */
  function Exec(size: nat, may: G.Discipline, s: State, step: Step): Option<State> {
    match step
    case Enter(p) => if p in s.g.left || p in s.asleep || p in s.woken then None else Some(Try(s, p))
    case Retry(p) => if p in s.woken && p !in s.g.left then Some(Try(s, p)) else None
    case Kill(p) => if p in s.asleep then Some(State(s.g, s.asleep - {p}, s.woken + {p})) else None
    case Log(e) =>
      var o := G.Exec(size, may, s.g, e);
      if e.Begin? || !o.Goes? then None
      else if Wakes(e, o.s) then Some(State(o.s, {}, s.woken + s.asleep))
      else Some(State(o.s, s.asleep, s.woken))
  }

  function Run(size: nat, may: G.Discipline, s: State, steps: seq<Step>): Option<State>
    decreases |steps|
  {
    if steps == [] then Some(s) else
    var o := Exec(size, may, s, steps[0]);
    if o.Some? then Run(size, may, o.value, steps[1..]) else None
  }

  // ---- Why a sleeper sleeps ----

  /** The counters agree with the open operations, and without any the log is empty or being committed. */
  ghost predicate Counts(g: G.State) {
    && g.outstanding == |g.left| && g.passed.Keys <= g.left.Keys
    && (g.committing ==> g.left == map[])
    && (g.left == map[] && !g.committing ==> g.lh == [])
  }

  /** And whoever sleeps in begin_op would sleep again. */
  ghost predicate Inv(s: State) {
    Counts(s.g) && (s.asleep != {} ==> s.g.committing || !G.Fits(s.g))
  }

  lemma BeginCounts(g: G.State, p: Pid)
    requires Counts(g) && p !in g.left && !g.committing
    ensures Counts(g.(outstanding := g.outstanding + 1, left := g.left[p := MAXOPBLOCKS]))
  {
    assert g.left[p := MAXOPBLOCKS].Keys == g.left.Keys + {p};
  }

  /** Somebody who gets in leaves the others asleep for the same reason. */
  lemma TryKeeps(s: State, p: Pid)
    requires Inv(s) && p !in s.g.left
    ensures Inv(Try(s, p))
  {
    hide Counts;
    if !s.g.committing { BeginCounts(s.g, p); }
  }

  lemma EndCounts(g: G.State, p: Pid)
    requires Counts(g) && p in g.left && p !in g.passed
    ensures !g.committing
    ensures Counts(g.(outstanding := g.outstanding - 1, left := g.left - {p}, committing := g.outstanding - 1 == 0))
  {
    var t := g.left - {p};
    assert t.Keys == g.left.Keys - {p};
    if |t| == 0 { assert t.Keys == {}; }
  }

  lemma AppendCounts(g: G.State, p: Pid)
    requires Counts(g) && p in g.passed && p in g.left
    ensures Counts(G.Appended(g, p)) && (G.Fits(G.Appended(g, p)) ==> G.Fits(g))
    ensures G.Appended(g, p).left.Keys == g.left.Keys && G.Appended(g, p).committing == g.committing && p !in G.Appended(g, p).passed
  {
    assert G.Appended(g, p).left.Keys == g.left.Keys;
  }

  lemma PassCounts(g: G.State, p: Pid, b: nat)
    requires Counts(g) && p in g.left
    ensures Counts(g.(passed := g.passed[p := b])) && (G.Fits(g.(passed := g.passed[p := b])) <==> G.Fits(g))
  {}

  lemma CommitCounts(g: G.State)
    requires Counts(g) && g.committing
    ensures Counts(g.(lh := [])) && (g.lh == [] ==> Counts(g.(committing := false)))
  {}

  lemma LogKeeps(size: nat, may: G.Discipline, s: State, e: G.Step)
    requires Inv(s) && Exec(size, may, s, Log(e)).Some?
    ensures Inv(Exec(size, may, s, Log(e)).value)
  {
    hide Counts, G.Fits, G.Appended, G.WouldPanic;
    match e
    case LogTest(p, b) => PassCounts(s.g, p, b);
    case LogAppend(p) => AppendCounts(s.g, p);
    case End(p) => EndCounts(s.g, p);
    case Clear => CommitCounts(s.g);
    case Finish => CommitCounts(s.g);
    case Begin(_) =>
  }

  lemma StepKeeps(size: nat, may: G.Discipline, s: State, step: Step)
    requires Inv(s) && Exec(size, may, s, step).Some?
    ensures Inv(Exec(size, may, s, step).value)
  {
    match step
    case Enter(p) => TryKeeps(s, p);
    case Retry(p) => TryKeeps(s, p);
    case Kill(p) =>
    case Log(e) => LogKeeps(size, may, s, e);
  }

  lemma {:induction false} RunKeeps(size: nat, may: G.Discipline, s: State, steps: seq<Step>)
    requires Inv(s) && Run(size, may, s, steps).Some?
    ensures Inv(Run(size, may, s, steps).value)
    decreases |steps|
  {
    if steps != [] {
      StepKeeps(size, may, s, steps[0]);
      RunKeeps(size, may, Exec(size, may, s, steps[0]).value, steps[1..]);
    }
  }

  /** No wakeup is lost: in every run, whatever calls operations make, a process asleep in begin_op has a commit in
      progress, or no room for its reservation and an open operation to wait for. */
  lemma NoLostWakeup(size: nat, may: G.Discipline, steps: seq<Step>, p: Pid)
    requires Run(size, may, Init, steps).Some? && p in Run(size, may, Init, steps).value.asleep
    ensures var g := Run(size, may, Init, steps).value.g;
      (g.committing && g.left == map[]) || (!G.Fits(g) && g.left != map[] && g.outstanding == |g.left| > 0)
  {
    RunKeeps(size, may, Init, steps);
    var g := Run(size, may, Init, steps).value.g;
    if !g.committing {
      assert g.left != map[];
      assert g.left.Keys != {};
    }
  }

  /** No operation ends, no commit ends, and p is not killed. */
  predicate Quiet(steps: seq<Step>, p: Pid) {
    forall i :: 0 <= i < |steps| ==> steps[i] != Kill(p) && (steps[i].Log? ==> !steps[i].e.End? && !steps[i].e.Finish?)
  }

  /** Over every such run a sleeper in begin_op sleeps on. */
  lemma {:induction false} StaysAsleep(size: nat, may: G.Discipline, s: State, steps: seq<Step>, p: Pid)
    requires Run(size, may, s, steps).Some? && Quiet(steps, p) && p in s.asleep && p !in s.woken
    ensures p in Run(size, may, s, steps).value.asleep
    decreases |steps|
  {
    if steps != [] {
      assert steps[0] != Kill(p);
      StaysAsleep(size, may, Exec(size, may, s, steps[0]).value, steps[1..], p);
    }
  }

  /** Nobody is both asleep and woken. */
  lemma {:induction false} AsleepOrWoken(size: nat, may: G.Discipline, s: State, steps: seq<Step>)
    requires Run(size, may, s, steps).Some? && s.asleep !! s.woken
    ensures Run(size, may, s, steps).value.asleep !! Run(size, may, s, steps).value.woken
    decreases |steps|
  {
    if steps != [] { AsleepOrWoken(size, may, Exec(size, may, s, steps[0]).value, steps[1..]); }
  }

  // ---- The log itself ----

  /** Sleeping and waking aside, every run is one of GroupCommit: begin_op lets in exactly whom the reservation
      allows, so what is shown there of every interleaving holds here. */
  lemma {:induction false} Projects(size: nat, may: G.Discipline, s: State, steps: seq<Step>, sofar: seq<G.Step>) returns (gs: seq<G.Step>)
    requires Run(size, may, s, steps).Some? && G.Run(size, may, sofar) == G.Goes(s.g)
    ensures G.Run(size, may, gs) == G.Goes(Run(size, may, s, steps).value.g)
    decreases |steps|
  {
    hide G.Run;
    gs := sofar;
    if steps != [] {
      var t := Exec(size, may, s, steps[0]).value;
      if steps[0].Log? {
        gs := ProjectStep(size, may, s.g, sofar, steps[0].e);
      } else if t.g != s.g {
        gs := ProjectStep(size, may, s.g, sofar, G.Begin(steps[0].p));
      }
      gs := Projects(size, may, t, steps[1..], gs);
    }
  }

  lemma ProjectStep(size: nat, may: G.Discipline, g: G.State, sofar: seq<G.Step>, e: G.Step) returns (gs: seq<G.Step>)
    requires G.Run(size, may, sofar) == G.Goes(g)
    ensures gs == sofar + [e] && G.Run(size, may, gs) == G.Exec(size, may, g, e)
  {
    gs := sofar + [e];
    assert gs[..|gs| - 1] == sofar;
  }

  // ---- Somebody can always wake it ----

  /** The end of a commit. */
  lemma CommitWakes(size: nat, may: G.Discipline, s: State)
    requires s.g.committing
    ensures var o := Run(size, may, s, [Log(G.Clear), Log(G.Finish)]); o.Some? && o.value.asleep == {}
  {
    var steps := [Log(G.Clear), Log(G.Finish)];
    var t := Exec(size, may, s, steps[0]).value;
    assert steps[1..] == [Log(G.Finish)];
    var u := Exec(size, may, t, Log(G.Finish)).value;
    assert [Log(G.Finish)][1..] == [] && Run(size, may, u, []) == Some(u);
  }

  /** The end of an operation that is not in log_write. */
  lemma EndWakes(size: nat, may: G.Discipline, s: State, p: Pid) returns (steps: seq<Step>)
    requires Inv(s) && p in s.g.left && p !in s.g.passed && !s.g.committing
    ensures OnlyLog(steps)
    ensures var o := Run(size, may, s, steps); o.Some? && o.value.asleep == {}
  {
    var t := Exec(size, may, s, Log(G.End(p))).value;
    var rest := if t.g.committing then [Log(G.Clear), Log(G.Finish)] else [];
    if t.g.committing { CommitWakes(size, may, t); } else { assert Run(size, may, t, []) == Some(t); }
    steps := [Log(G.End(p))] + rest;
    assert steps[1..] == rest;
  }

  /** No new operation, no retry and no kill. */
  predicate OnlyLog(steps: seq<Step>) { forall i :: 0 <= i < |steps| ==> steps[i].Log? && !steps[i].e.LogTest? && !steps[i].e.Begin? }

  lemma InvWakes(size: nat, may: G.Discipline, s: State) returns (steps: seq<Step>)
    requires Inv(s) && s.asleep != {}
    ensures OnlyLog(steps)
    ensures var o := Run(size, may, s, steps); o.Some? && o.value.asleep == {}
  {
    if s.g.committing {
      steps := [Log(G.Clear), Log(G.Finish)];
      CommitWakes(size, may, s);
    } else {
      assert s.g.left != map[];
      var p :| p in s.g.left;
      if p in s.g.passed {
        AppendCounts(s.g, p);
        LogKeeps(size, may, s, G.LogAppend(p));
        var t := Exec(size, may, s, Log(G.LogAppend(p))).value;
        var rest := EndWakes(size, may, t, p);
        steps := [Log(G.LogAppend(p))] + rest;
        assert steps[1..] == rest;
      } else {
        steps := EndWakes(size, may, s, p);
      }
    }
  }

  /** From every state of every run with a sleeper, the operations and the commit already under way can go on by
      themselves until everybody is woken. */
  lemma SleepersCanBeWoken(size: nat, may: G.Discipline, steps: seq<Step>) returns (more: seq<Step>)
    requires Run(size, may, Init, steps).Some? && Run(size, may, Init, steps).value.asleep != {}
    ensures OnlyLog(more)
    ensures var o := Run(size, may, Run(size, may, Init, steps).value, more); o.Some? && o.value.asleep == {}
  {
    RunKeeps(size, may, Init, steps);
    more := InvWakes(size, may, Run(size, may, Init, steps).value);
  }
}

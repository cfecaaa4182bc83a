/** Who is woken, over every run of the process table: a sleeping process goes on sleeping, on the same channel,
    until a wakeup on that channel or a kill, and then it is runnable. */
module ProcSleep {
  import opened ProcTable
  import opened ProcRuns

  predicate Sleeps(t: Table, i: nat, c: Chan) { In(t, i, SLEEPING) && t.procs[i].chan == c }

  /** The child of i, or a process whose zombies init inherits, exits: what wait sleeps for. */
  ghost predicate Bereaves(t: Table, e: Event, i: nat) {
    e.Exit? && e.p < |t.procs| && (t.procs[e.p].parent == i || (i == t.init && HasZombieChild(t.procs, e.p, |t.procs|)))
  }

  /** The steps that wake process i, asleep on c. */
  ghost predicate Wakes(t: Table, e: Event, i: nat, c: Chan) {
    || e == Kill(i)
    || match c
       case Other(k) => e == WakeOn(k)
       case OnProc(j) => Bereaves(t, e, j)
       case NoChan => false
  }

  /** Each step wakes exactly whom it should: they become runnable, and every other sleeper is as it was but for
      its parent. */
  lemma WokenExactly(t: Table, e: Event, i: nat, c: Chan)
    requires Enabled(t, e) && Sleeps(t, i, c) && c != NoChan
    ensures if Wakes(t, e, i, c) then In(Do(t, e), i, RUNNABLE) else Sleeps(Do(t, e), i, c)
    ensures Do(t, e).procs[i].pid == t.procs[i].pid && (Do(t, e).procs[i].killed <==> t.procs[i].killed || e == Kill(i))
  {}

  /** No step of the run wakes process i from c. */
  ghost predicate Undisturbed(t: Table, es: seq<Event>, u: Table, i: nat, c: Chan)
    requires Run(t, es, u)
    decreases |es|
  {
    es != [] ==> !Wakes(t, es[0], i, c) && Undisturbed(Do(t, es[0]), es[1..], u, i, c)
  }

  /** Over every run, a process sleeps on as long as nothing that should wake it happens. Asleep in wait, that is:
      no child of it exits, it inherits no zombie, and it is not killed. */
  lemma {:induction false} StaysAsleep(t: Table, es: seq<Event>, u: Table, i: nat, c: Chan)
    requires Run(t, es, u) && Sleeps(t, i, c) && c != NoChan && Undisturbed(t, es, u, i, c)
    ensures Sleeps(u, i, c) && u.procs[i].pid == t.procs[i].pid && u.procs[i].killed == t.procs[i].killed
    decreases |es|
  {
    if es != [] {
      WokenExactly(t, es[0], i, c);
      StaysAsleep(Do(t, es[0]), es[1..], u, i, c);
    }
  }

  /** A process asleep in sleep(k) sleeps on through every run without wakeup(k) and without its being killed. */
  lemma {:induction false} SleepsUntilWoken(t: Table, es: seq<Event>, u: Table, i: nat, k: nat)
    requires Run(t, es, u) && Sleeps(t, i, Other(k)) && WakeOn(k) !in es && Kill(i) !in es
    ensures Sleeps(u, i, Other(k)) && u.procs[i].killed == t.procs[i].killed
    decreases |es|
  {
    if es != [] {
      WokenExactly(t, es[0], i, Other(k));
      SleepsUntilWoken(Do(t, es[0]), es[1..], u, i, k);
    }
  }

  /** And the first step that should wake a process leaves it runnable: the run up to it, and the step. */
  lemma WokenAtLast(t: Table, es: seq<Event>, m: Table, e: Event, i: nat, c: Chan)
    requires Run(t, es, m) && Sleeps(t, i, c) && c != NoChan && Undisturbed(t, es, m, i, c)
    requires Enabled(m, e) && Wakes(m, e, i, c)
    ensures In(Do(m, e), i, RUNNABLE) && Do(m, e).procs[i].pid == t.procs[i].pid
  {
    StaysAsleep(t, es, m, i, c);
    WokenExactly(m, e, i, c);
  }

  /** Every sleeper has something to wake it: itself, in wait, or a channel. */
  predicate SleeperOk(t: Table, i: nat) { In(t, i, SLEEPING) ==> t.procs[i].chan == OnProc(i) || t.procs[i].chan.Other? }

  lemma {:induction false} SleepersHaveChannels(t: Table, es: seq<Event>, u: Table, i: nat)
    requires Run(t, es, u) && SleeperOk(t, i)
    ensures SleeperOk(u, i)
    decreases |es|
  {
    if es != [] { SleepersHaveChannels(Do(t, es[0]), es[1..], u, i); }
  }

  predicate Reaps(e: Event, i: nat) { e.WaitReap? && e.slot == i }

  lemma KilledStep(t: Table, e: Event, i: nat)
    requires Enabled(t, e) && i < |t.procs| && !Reaps(e, i)
    ensures |Do(t, e).procs| == |t.procs| && (Do(t, e).procs[i].killed <==> t.procs[i].killed || e == Kill(i))
    ensures e == Kill(i) ==> Do(t, e).procs[i].state != SLEEPING
  {}

  /** Over every run until it is reaped, a process is marked killed exactly if it was or someone killed it. */
  lemma {:induction false} KilledExactly(t: Table, es: seq<Event>, u: Table, i: nat)
    requires Run(t, es, u) && i < |t.procs| && forall n :: 0 <= n < |es| ==> !Reaps(es[n], i)
    ensures |u.procs| == |t.procs| && (u.procs[i].killed <==> t.procs[i].killed || Kill(i) in es)
    decreases |es|
  {
    if es != [] {
      KilledStep(t, es[0], i);
      KilledExactly(Do(t, es[0]), es[1..], u, i);
      assert es == [es[0]] + es[1..];
    }
  }
}

/** The process table of `proc.c`: allocproc, wakeup1, sleep, exit, wait and kill, each a critical
    section of ptable.lock. */
module ProcTable {

  datatype PState = UNUSED | EMBRYO | SLEEPING | RUNNABLE | RUNNING | ZOMBIE

  /** What a process sleeps on: a process, as in wait, or something else in the kernel. */
  datatype Chan = NoChan | OnProc(i: nat) | Other(k: nat)

  /** `parent` is an index into the table, -1 for none. */
  datatype Proc = Proc(state: PState, pid: int, parent: int, chan: Chan, killed: bool)

  datatype Table = Table(procs: seq<Proc>, nextpid: int, init: nat)

  datatype Waited = Reaped(slot: nat, pid: int) | NoChildren | Asleep

  // ---- Entries after each section ----

  function ChanOf(i: int): Chan { if i < 0 then NoChan else OnProc(i) }

  function Wake(p: Proc, c: Chan): Proc {
    if p.state == SLEEPING && p.chan == c then p.(state := RUNNABLE) else p
  }

  /** wakeup1 on every entry. */
  function Woken(ps: seq<Proc>, c: Chan): seq<Proc> {
    seq(|ps|, i requires 0 <= i < |ps| => Wake(ps[i], c))
  }

  predicate ZombieChild(ps: seq<Proc>, cur: nat, i: nat) {
    i < |ps| && ps[i].parent == cur && ps[i].state == ZOMBIE
  }

  ghost predicate HasZombieChild(ps: seq<Proc>, cur: nat, upto: nat) {
    exists i: nat :: i < upto && ZombieChild(ps, cur, i)
  }

  /** Entry i while exit is at index k of its pass over the children. */
  ghost function Abandoned(ps: seq<Proc>, init: nat, cur: nat, i: nat, k: nat): Proc
    requires i < |ps| && cur < |ps|
  {
    var p := Wake(ps[i], ChanOf(ps[cur].parent));
    var q := if i < k && p.parent == cur then p.(parent := init) else p;
    if HasZombieChild(ps, cur, k) then Wake(q, OnProc(init)) else q
  }

  /** Entry i after cur exited. */
  ghost function ExitEntry(ps: seq<Proc>, init: nat, cur: nat, i: nat): Proc
    requires i < |ps| && cur < |ps|
  {
    var p := Abandoned(ps, init, cur, i, |ps|);
    if i == cur then p.(state := ZOMBIE) else p
  }

  /** The table after cur exited. */
  ghost function Exited(ps: seq<Proc>, init: nat, cur: nat): seq<Proc>
    requires cur < |ps|
  {
    seq(|ps|, i requires 0 <= i < |ps| => ExitEntry(ps, init, cur, i))
  }

  predicate Child(ps: seq<Proc>, cur: nat, i: nat) { i < |ps| && ps[i].parent == cur }

  /** A reaped entry: pid, parent and killed cleared; chan is what it was. */
  function Freed(p: Proc): Proc { Proc(UNUSED, 0, -1, p.chan, false) }

  class ProcessTable {
    var procs: seq<Proc>
    var nextpid: int
    const init: nat

    constructor (procs: seq<Proc>, nextpid: int, init: nat)
      ensures St() == Table(procs, nextpid, init)
    {
      this.procs, this.nextpid, this.init := procs, nextpid, init;
    }

    function St(): Table
      reads this
    {
      Table(procs, nextpid, init)
    }

    /** allocproc takes the first unused entry and gives it the next pid. */
    method AllocProc() returns (slot: int)
      modifies this
      ensures slot == -1 ==> procs == old(procs) && nextpid == old(nextpid) && forall i :: 0 <= i < |procs| ==> procs[i].state != UNUSED
      ensures slot != -1 ==> 0 <= slot < |old(procs)| && old(procs)[slot].state == UNUSED
      ensures slot != -1 ==> procs == old(procs)[slot := old(procs)[slot].(state := EMBRYO, pid := old(nextpid))]
      ensures slot != -1 ==> nextpid == old(nextpid) + 1
    {
      var p := 0;
      while p < |procs|
        invariant p <= |procs| && procs == old(procs) && nextpid == old(nextpid)
        invariant forall i :: 0 <= i < p ==> procs[i].state != UNUSED
      {
        if procs[p].state == UNUSED {
          procs := procs[p := procs[p].(state := EMBRYO, pid := nextpid)];
          nextpid := nextpid + 1;
          return p;
        }
        p := p + 1;
      }
      return -1;
    }

    /** wakeup1 makes every process sleeping on the channel runnable and touches no other. */
    method Wakeup1(c: Chan)
      modifies this`procs
      ensures procs == Woken(old(procs), c)
    {
      var p := 0;
      while p < |procs|
        invariant p <= |procs| == |old(procs)|
        invariant forall i :: 0 <= i < |procs| ==> procs[i] == (if i < p then Wake(old(procs)[i], c) else old(procs)[i])
      {
        if procs[p].state == SLEEPING && procs[p].chan == c {
          procs := procs[p := procs[p].(state := RUNNABLE)];
        }
        p := p + 1;
      }
    }

    /** exit: wakes the parent, hands the children to init, waking it when one has already exited, and
        leaves a zombie. Not ok is the panic of init exiting. */
    method Exit(cur: nat) returns (ok: bool)
      requires cur < |procs| && init < |procs|
      modifies this`procs
      ensures ok == (cur != init)
      ensures procs == (if ok then Exited(old(procs), init, cur) else old(procs))
    {
      if cur == init { return false; }
      ghost var ps := procs;
      Wakeup1(ChanOf(procs[cur].parent));
      var p := 0;
      while p < |procs|
        invariant p <= |procs| == |ps|
        invariant forall i :: 0 <= i < |procs| ==> procs[i] == Abandoned(ps, init, cur, i, p)
      {
        ghost var qs := procs;
        if procs[p].parent == cur {
          procs := procs[p := procs[p].(parent := init)];
          if procs[p].state == ZOMBIE { Wakeup1(OnProc(init)); }
        }
        forall i | 0 <= i < |procs| ensures procs[i] == Abandoned(ps, init, cur, i, p + 1) {
          AbandonStep(ps, init, cur, i, p);
          AbandonStep(ps, init, cur, p, p);
        }
        p := p + 1;
      }
      procs := procs[cur := procs[cur].(state := ZOMBIE)];
      return true;
    }

    /** One pass of wait: reap the first zombie child, or report that there is nothing to wait for, or go
        to sleep on the process itself. */
    method Wait(cur: nat) returns (r: Waited)
      requires cur < |procs|
      modifies this`procs
      ensures r.Reaped? <==> exists i :: ZombieChild(old(procs), cur, i)
      ensures r.Reaped? ==> ZombieChild(old(procs), cur, r.slot) && r.pid == old(procs)[r.slot].pid
      ensures r.Reaped? ==> forall i :: 0 <= i < r.slot ==> !ZombieChild(old(procs), cur, i)
      ensures r.Reaped? ==> procs == old(procs)[r.slot := Freed(old(procs)[r.slot])]
      ensures r.NoChildren? ==> procs == old(procs) && (old(procs)[cur].killed || forall i: nat :: !Child(old(procs), cur, i))
      ensures r.Asleep? ==> procs == old(procs)[cur := old(procs)[cur].(state := SLEEPING, chan := OnProc(cur))]
      ensures r.Asleep? ==> !old(procs)[cur].killed && exists i: nat :: Child(old(procs), cur, i)
    {
      var havekids := false;
      var p := 0;
      while p < |procs|
        invariant p <= |procs| && procs == old(procs)
        invariant forall i :: 0 <= i < p ==> !ZombieChild(procs, cur, i)
        invariant havekids <==> exists i :: 0 <= i < p && Child(procs, cur, i)
      {
        if procs[p].parent == cur {
          assert Child(procs, cur, p);
          havekids := true;
          if procs[p].state == ZOMBIE {
            var pid := procs[p].pid;
            assert ZombieChild(procs, cur, p);
            procs := procs[p := procs[p].(pid := 0, parent := -1, killed := false, state := UNUSED)];
            return Reaped(p, pid);
          }
        }
        p := p + 1;
      }
      if !havekids || procs[cur].killed { return NoChildren; }
      procs := procs[cur := procs[cur].(chan := OnProc(cur), state := SLEEPING)];
      return Asleep;
    }

    /** kill marks the first entry with the pid and makes it runnable if it sleeps. */
    method Kill(pid: int) returns (r: int)
      modifies this`procs
      ensures r == -1 ==> procs == old(procs) && forall i :: 0 <= i < |procs| ==> procs[i].pid != pid
      ensures r != -1 ==> r == 0 && exists i :: 0 <= i < |old(procs)| && FirstWith(old(procs), pid, i) && procs == old(procs)[i := Struck(old(procs)[i])]
    {
      var p := 0;
      while p < |procs|
        invariant p <= |procs| && procs == old(procs) && forall i :: 0 <= i < p ==> procs[i].pid != pid
      {
        if procs[p].pid == pid {
          procs := procs[p := procs[p].(killed := true)];
          if procs[p].state == SLEEPING { procs := procs[p := procs[p].(state := RUNNABLE)]; }
          assert FirstWith(old(procs), pid, p) && procs == old(procs)[p := Struck(old(procs)[p])];
          return 0;
        }
        p := p + 1;
      }
      return -1;
    }
  }

  predicate FirstWith(ps: seq<Proc>, pid: int, i: nat) {
    i < |ps| && ps[i].pid == pid && forall j :: 0 <= j < i ==> ps[j].pid != pid
  }

  function Struck(p: Proc): Proc {
    p.(killed := true, state := if p.state == SLEEPING then RUNNABLE else p.state)
  }

  /** One step of exit's pass. */
  lemma AbandonStep(ps: seq<Proc>, init: nat, cur: nat, i: nat, k: nat)
    requires i < |ps| && cur < |ps| && k < |ps|
    ensures HasZombieChild(ps, cur, k + 1) == (HasZombieChild(ps, cur, k) || ZombieChild(ps, cur, k))
    ensures Abandoned(ps, init, cur, i, k).state == ZOMBIE <==> ps[i].state == ZOMBIE
    ensures i >= k ==> Abandoned(ps, init, cur, i, k).parent == ps[i].parent
  {
    if HasZombieChild(ps, cur, k) {
      var j: nat :| j < k && ZombieChild(ps, cur, j);
      assert j < k + 1 && ZombieChild(ps, cur, j);
    }
  }
}

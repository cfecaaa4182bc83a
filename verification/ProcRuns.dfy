/** Every run of fork, exit, wait, kill, sleep and the scheduler over any number of processes: no
    wakeup of a waiting parent is lost, and every process that exits is reaped at most once, by the
    process that forked it or by init. */
module ProcRuns {
  import opened ProcTable

  /** Critical sections of ptable.lock; fork is Alloc, then Abandon or Adopt and Ready. */
  datatype Event =
    | Alloc(slot: nat) | Abandon(slot: nat) | Adopt(p: nat, slot: nat) | Ready(slot: nat)
    | Exit(p: nat) | WaitReap(p: nat, slot: nat) | WaitSleep(p: nat)
    | SleepOn(p: nat, k: nat) | WakeOn(k: nat) | Kill(slot: nat) | Dispatch(p: nat) | Yield(p: nat)

  datatype Reap = Reap(pid: int, reaper: int)

  /** What has happened: pids that exited, pids wait returned and to whom, and who forked whom. */
  datatype Hist = Hist(exited: set<int>, reaped: seq<Reap>, origin: map<int, int>, initpid: int)

  predicate Alive(p: Proc) { p.state in {SLEEPING, RUNNABLE, RUNNING} }

  predicate In(t: Table, i: nat, s: PState) { i < |t.procs| && t.procs[i].state == s }

  ghost predicate Enabled(t: Table, e: Event) {
    match e
    case Alloc(s) => In(t, s, UNUSED)
    case Abandon(s) => In(t, s, EMBRYO) && t.procs[s].parent == -1
    case Adopt(p, s) => In(t, p, RUNNING) && In(t, s, EMBRYO) && t.procs[s].parent == -1
    case Ready(s) => In(t, s, EMBRYO) && t.procs[s].parent != -1
    case Exit(p) => In(t, p, RUNNING) && p != t.init
    case WaitReap(p, s) => In(t, p, RUNNING) && ZombieChild(t.procs, p, s)
    case WaitSleep(p) => In(t, p, RUNNING) && !HasZombieChild(t.procs, p, |t.procs|)
    case SleepOn(p, k) => In(t, p, RUNNING)
    case WakeOn(k) => true
    case Kill(s) => s < |t.procs|
    case Dispatch(p) => In(t, p, RUNNABLE)
    case Yield(p) => In(t, p, RUNNING)
  }

  function Set(t: Table, i: nat, p: Proc): Table
    requires i < |t.procs|
  {
    t.(procs := t.procs[i := p])
  }

  ghost function ExitTable(t: Table, cur: nat): Table
    requires cur < |t.procs|
  {
    t.(procs := Exited(t.procs, t.init, cur))
  }

  ghost function Do(t: Table, e: Event): Table
    requires Enabled(t, e)
  {
    match e
    case Alloc(s) => Set(t, s, t.procs[s].(state := EMBRYO, pid := t.nextpid)).(nextpid := t.nextpid + 1)
    case Abandon(s) => Set(t, s, t.procs[s].(state := UNUSED))
    case Adopt(p, s) => Set(t, s, t.procs[s].(parent := p))
    case Ready(s) => Set(t, s, t.procs[s].(state := RUNNABLE))
    case Exit(p) => ExitTable(t, p)
    case WaitReap(p, s) => Set(t, s, Freed(t.procs[s]))
    case WaitSleep(p) => Set(t, p, t.procs[p].(state := SLEEPING, chan := OnProc(p)))
    case SleepOn(p, k) => Set(t, p, t.procs[p].(state := SLEEPING, chan := Other(k)))
    case WakeOn(k) => t.(procs := Woken(t.procs, Other(k)))
    case Kill(s) => Set(t, s, Struck(t.procs[s]))
    case Dispatch(p) => Set(t, p, t.procs[p].(state := RUNNING, chan := NoChan))
    case Yield(p) => Set(t, p, t.procs[p].(state := RUNNABLE))
  }

  ghost function Note(t: Table, h: Hist, e: Event): Hist
    requires Enabled(t, e)
  {
    match e
    case Adopt(p, s) => h.(origin := h.origin[t.procs[s].pid := t.procs[p].pid])
    case Exit(p) => h.(exited := h.exited + {t.procs[p].pid})
    case WaitReap(p, s) => h.(reaped := h.reaped + [Reap(t.procs[s].pid, t.procs[p].pid)])
    case _ => h
  }

  // ---- The invariant ----

  /** The parent is another process, alive, and init or the one that forked this process. */
  predicate ParentOk(t: Table, h: Hist, i: nat)
    requires i < |t.procs|
  {
    && 0 <= t.procs[i].parent < |t.procs| && t.procs[i].parent != i && Alive(t.procs[t.procs[i].parent])
    && t.procs[i].pid in h.origin
    && (t.procs[i].parent == t.init || t.procs[t.procs[i].parent].pid == h.origin[t.procs[i].pid])
  }

  /** Entry i is consistent with its parent and with what has happened. */
  predicate EntryOk(t: Table, h: Hist, i: nat)
    requires i < |t.procs|
  {
    var p := t.procs[i];
    && (p.state == UNUSED ==> p.parent == -1)
    && (p.state != UNUSED ==> 0 < p.pid < t.nextpid)
    && (i != t.init && (Alive(p) || p.state == ZOMBIE) ==> p.parent != -1)
    && (p.parent != -1 ==> ParentOk(t, h, i))
    && (p.state == ZOMBIE ==> p.pid in h.exited)
    && (p.state == EMBRYO || Alive(p) ==> p.pid !in h.exited)
  }

  /** A process asleep in wait has no zombie child. */
  predicate NoLostWakeup(t: Table, i: nat, c: nat)
    requires i < |t.procs| && c < |t.procs|
  {
    t.procs[i].state == SLEEPING && t.procs[i].chan == OnProc(i) ==> !ZombieChild(t.procs, i, c)
  }

  predicate PidsApart(t: Table, i: nat, j: nat)
    requires i < |t.procs| && j < |t.procs|
  {
    i != j && t.procs[i].state != UNUSED && t.procs[j].state != UNUSED ==> t.procs[i].pid != t.procs[j].pid
  }

  predicate HeldBy(t: Table, pid: int, i: nat) { In(t, i, ZOMBIE) && t.procs[i].pid == pid }

  ghost predicate IsZombie(t: Table, pid: int) { exists i: nat :: HeldBy(t, pid, i) }

  predicate WasReaped(h: Hist, pid: int) { exists k :: 0 <= k < |h.reaped| && h.reaped[k].pid == pid }

  /** An exited process is a zombie in the table or has been reaped, and not both. */
  ghost predicate Accounted(t: Table, h: Hist, pid: int) {
    pid < t.nextpid && (IsZombie(t, pid) <==> !WasReaped(h, pid))
  }

  /** Reaped entries: distinct, exited before, by the forker or init. */
  predicate ReapOk(h: Hist, k: nat)
    requires k < |h.reaped|
  {
    && h.reaped[k].pid in h.exited && h.reaped[k].pid in h.origin
    && (h.reaped[k].reaper == h.initpid || h.reaped[k].reaper == h.origin[h.reaped[k].pid])
    && (forall j :: 0 <= j < k ==> h.reaped[j].pid != h.reaped[k].pid)
  }

  ghost predicate Inv(t: Table, h: Hist) {
    && t.init < |t.procs| && Alive(t.procs[t.init]) && t.procs[t.init].pid == h.initpid && t.procs[t.init].parent == -1
    && (forall i :: 0 <= i < |t.procs| ==> EntryOk(t, h, i))
    && (forall i, c :: 0 <= i < |t.procs| && 0 <= c < |t.procs| ==> NoLostWakeup(t, i, c))
    && (forall i, j :: 0 <= i < |t.procs| && 0 <= j < |t.procs| ==> PidsApart(t, i, j))
    && (forall pid :: pid in h.exited ==> Accounted(t, h, pid))
    && (forall k :: 0 <= k < |h.reaped| ==> ReapOk(h, k))
  }

  /** One entry changed, not to or from a zombie: exactly what has to be checked. */
  lemma SetKeeps(t: Table, h: Hist, i: nat, p: Proc)
    requires Inv(t, h) && i < |t.procs| && (p.state == ZOMBIE <==> t.procs[i].state == ZOMBIE)
    requires p.state != UNUSED ==> t.procs[i].state != UNUSED && p.pid == t.procs[i].pid
    requires p.parent == t.procs[i].parent && (Alive(t.procs[i]) ==> Alive(p))
    requires EntryOk(Set(t, i, p), h, i)
    requires p.state == SLEEPING && p.chan == OnProc(i) ==> forall c :: 0 <= c < |t.procs| ==> !ZombieChild(t.procs, i, c)
    ensures Inv(Set(t, i, p), h)
  {
    var u := Set(t, i, p);
    forall j | 0 <= j < |u.procs| ensures EntryOk(u, h, j) { assert EntryOk(t, h, j); }
    forall j, c | 0 <= j < |u.procs| && 0 <= c < |u.procs| ensures NoLostWakeup(u, j, c) {
      assert NoLostWakeup(t, j, c) && ZombieChild(u.procs, j, c) == ZombieChild(t.procs, j, c);
    }
    forall j, c | 0 <= j < |u.procs| && 0 <= c < |u.procs| ensures PidsApart(u, j, c) { assert PidsApart(t, j, c); }
    forall pid | pid in h.exited ensures Accounted(u, h, pid) {
      assert Accounted(t, h, pid);
      SameZombies(t, u, pid);
    }
  }

  lemma SameZombies(t: Table, u: Table, pid: int)
    requires |u.procs| == |t.procs|
    requires forall j :: 0 <= j < |t.procs| ==> (t.procs[j].state == ZOMBIE <==> u.procs[j].state == ZOMBIE)
    requires forall j :: 0 <= j < |t.procs| && t.procs[j].state == ZOMBIE ==> u.procs[j].pid == t.procs[j].pid
    ensures IsZombie(t, pid) == IsZombie(u, pid)
  {
    if IsZombie(t, pid) {
      var j: nat :| HeldBy(t, pid, j);
      assert HeldBy(u, pid, j);
    }
    if IsZombie(u, pid) {
      var j: nat :| HeldBy(u, pid, j);
      assert HeldBy(t, pid, j);
    }
  }

  lemma AllocKeeps(t: Table, h: Hist, s: nat)
    requires Inv(t, h) && Enabled(t, Alloc(s))
    ensures Inv(Do(t, Alloc(s)), h)
  {
    var u := Do(t, Alloc(s));
    assert EntryOk(t, h, s);
    forall j | 0 <= j < |u.procs| ensures EntryOk(u, h, j) {
      assert EntryOk(t, h, j);
      assert t.nextpid in h.exited ==> Accounted(t, h, t.nextpid);
      assert EntryOk(t, h, t.init);
    }
    forall j, c | 0 <= j < |u.procs| && 0 <= c < |u.procs| ensures NoLostWakeup(u, j, c) { assert NoLostWakeup(t, j, c); }
    forall j, c | 0 <= j < |u.procs| && 0 <= c < |u.procs| ensures PidsApart(u, j, c) {
      assert PidsApart(t, j, c) && EntryOk(t, h, j) && EntryOk(t, h, c);
    }
    forall pid | pid in h.exited ensures Accounted(u, h, pid) {
      assert Accounted(t, h, pid);
      SameZombies(t, u, pid);
    }
  }

  /** Adopting: the child's entry gets its parent, its pid an origin. */
  lemma AdoptKeeps(t: Table, h: Hist, p: nat, s: nat)
    requires Inv(t, h) && Enabled(t, Adopt(p, s))
    ensures Inv(Do(t, Adopt(p, s)), Note(t, h, Adopt(p, s)))
  {
    var u, g := Do(t, Adopt(p, s)), Note(t, h, Adopt(p, s));
    assert EntryOk(t, h, s);
    forall j | 0 <= j < |u.procs| ensures EntryOk(u, g, j) { assert EntryOk(t, h, j) && PidsApart(t, j, s); }
    forall j, c | 0 <= j < |u.procs| && 0 <= c < |u.procs| ensures NoLostWakeup(u, j, c) { assert NoLostWakeup(t, j, c); }
    forall j, c | 0 <= j < |u.procs| && 0 <= c < |u.procs| ensures PidsApart(u, j, c) { assert PidsApart(t, j, c); }
    forall pid | pid in g.exited ensures Accounted(u, g, pid) {
      assert Accounted(t, h, pid);
      SameZombies(t, u, pid);
    }
    forall k | 0 <= k < |g.reaped| ensures ReapOk(g, k) { assert ReapOk(h, k); }
  }

  lemma WakeOnKeeps(t: Table, h: Hist, k: nat)
    requires Inv(t, h)
    ensures Inv(t.(procs := Woken(t.procs, Other(k))), h)
  {
    var u := t.(procs := Woken(t.procs, Other(k)));
    forall j | 0 <= j < |u.procs| ensures EntryOk(u, h, j) { assert EntryOk(t, h, j); }
    forall j, c | 0 <= j < |u.procs| && 0 <= c < |u.procs| ensures NoLostWakeup(u, j, c) { assert NoLostWakeup(t, j, c); }
    forall j, c | 0 <= j < |u.procs| && 0 <= c < |u.procs| ensures PidsApart(u, j, c) { assert PidsApart(t, j, c); }
    forall pid | pid in h.exited ensures Accounted(u, h, pid) {
      assert Accounted(t, h, pid);
      SameZombies(t, u, pid);
    }
  }

  // ---- Reaping ----

  lemma ReapedNow(h: Hist, g: Hist, r: Reap, pid: int)
    requires g == h.(reaped := h.reaped + [r])
    ensures WasReaped(g, pid) == (WasReaped(h, pid) || pid == r.pid)
  {
    assert g.reaped[|h.reaped|] == r;
    assert forall k :: 0 <= k < |h.reaped| ==> g.reaped[k] == h.reaped[k];
  }

  lemma ZombiesAfterReap(t: Table, s: nat, pid: int)
    requires In(t, s, ZOMBIE) && (forall i, j :: 0 <= i < |t.procs| && 0 <= j < |t.procs| ==> PidsApart(t, i, j))
    ensures IsZombie(Set(t, s, Freed(t.procs[s])), pid) == (IsZombie(t, pid) && pid != t.procs[s].pid)
  {
    var u := Set(t, s, Freed(t.procs[s]));
    if IsZombie(t, pid) && pid != t.procs[s].pid {
      var j: nat :| HeldBy(t, pid, j);
      assert HeldBy(u, pid, j);
    }
    if IsZombie(u, pid) {
      var j: nat :| HeldBy(u, pid, j);
      assert HeldBy(t, pid, j) && PidsApart(t, j, s);
    }
  }

  lemma ReapHist(t: Table, h: Hist, p: nat, s: nat)
    requires Inv(t, h) && Enabled(t, WaitReap(p, s))
    ensures var u, g := Do(t, WaitReap(p, s)), Note(t, h, WaitReap(p, s));
      (forall pid :: pid in g.exited ==> Accounted(u, g, pid)) && (forall k :: 0 <= k < |g.reaped| ==> ReapOk(g, k))
  {
    var u, g := Do(t, WaitReap(p, s)), Note(t, h, WaitReap(p, s));
    var r := Reap(t.procs[s].pid, t.procs[p].pid);
    assert EntryOk(t, h, s);
    assert Accounted(t, h, r.pid);
    assert HeldBy(t, r.pid, s);
    forall pid | pid in g.exited ensures Accounted(u, g, pid) {
      assert Accounted(t, h, pid);
      ReapedNow(h, g, r, pid);
      ZombiesAfterReap(t, s, pid);
    }
    forall k | 0 <= k < |g.reaped| ensures ReapOk(g, k) {
      if k < |h.reaped| { assert ReapOk(h, k); }
    }
  }

  /** wait's reaping: the child's pid is returned for the first time. */
  lemma WaitReapKeeps(t: Table, h: Hist, p: nat, s: nat)
    requires Inv(t, h) && Enabled(t, WaitReap(p, s))
    ensures Inv(Do(t, WaitReap(p, s)), Note(t, h, WaitReap(p, s)))
  {
    var u, g := Do(t, WaitReap(p, s)), Note(t, h, WaitReap(p, s));
    ReapHist(t, h, p, s);
    forall j | 0 <= j < |u.procs| ensures EntryOk(u, g, j) { assert EntryOk(t, h, j); }
    forall j, c | 0 <= j < |u.procs| && 0 <= c < |u.procs| ensures NoLostWakeup(u, j, c) { assert NoLostWakeup(t, j, c); }
    forall j, c | 0 <= j < |u.procs| && 0 <= c < |u.procs| ensures PidsApart(u, j, c) { assert PidsApart(t, j, c); }
  }

  // ---- Exiting ----

  lemma ZombiesAfterExit(t: Table, p: nat, pid: int)
    requires In(t, p, RUNNING)
    ensures IsZombie(ExitTable(t, p), pid) == (IsZombie(t, pid) || pid == t.procs[p].pid)
  {
    var u := ExitTable(t, p);
    if IsZombie(t, pid) {
      var j: nat :| HeldBy(t, pid, j);
      assert HeldBy(u, pid, j);
    }
    if pid == t.procs[p].pid { assert HeldBy(u, pid, p); }
    if IsZombie(u, pid) {
      var j: nat :| HeldBy(u, pid, j);
      assert j != p ==> HeldBy(t, pid, j);
    }
  }

  lemma ExitEntryOk(t: Table, h: Hist, p: nat, j: nat)
    requires Inv(t, h) && Enabled(t, Exit(p)) && j < |t.procs|
    ensures EntryOk(ExitTable(t, p), Note(t, h, Exit(p)), j)
  {
    assert EntryOk(t, h, j) && EntryOk(t, h, p) && PidsApart(t, j, p);
    if j != p && t.procs[j].parent >= 0 { assert PidsApart(t, t.procs[j].parent, p); }
  }

  /** Nobody is left asleep in wait with a zombie child: the parent was woken, and init if it inherits one. */
  lemma ExitNoLost(t: Table, h: Hist, p: nat, i: nat, c: nat)
    requires Inv(t, h) && Enabled(t, Exit(p)) && i < |t.procs| && c < |t.procs|
    ensures NoLostWakeup(ExitTable(t, p), i, c)
  {
    assert NoLostWakeup(t, i, c) && EntryOk(t, h, p) && EntryOk(t, h, c);
    if ZombieChild(t.procs, p, c) { assert HasZombieChild(t.procs, p, |t.procs|); }
  }

  lemma ExitKeeps(t: Table, h: Hist, p: nat)
    requires Inv(t, h) && Enabled(t, Exit(p))
    ensures Inv(Do(t, Exit(p)), Note(t, h, Exit(p)))
  {
    var u, g := Do(t, Exit(p)), Note(t, h, Exit(p));
    forall j | 0 <= j < |u.procs| ensures EntryOk(u, g, j) { ExitEntryOk(t, h, p, j); }
    forall j, c | 0 <= j < |u.procs| && 0 <= c < |u.procs| ensures NoLostWakeup(u, j, c) { ExitNoLost(t, h, p, j, c); }
    forall j, c | 0 <= j < |u.procs| && 0 <= c < |u.procs| ensures PidsApart(u, j, c) { assert PidsApart(t, j, c); }
    assert EntryOk(t, h, p);
    forall pid | pid in g.exited ensures Accounted(u, g, pid) {
      ZombiesAfterExit(t, p, pid);
      if pid in h.exited { assert Accounted(t, h, pid); }
      else { NotYetReaped(h, pid); }
    }
    forall k | 0 <= k < |g.reaped| ensures ReapOk(g, k) { assert ReapOk(h, k); }
  }

  lemma NotYetReaped(h: Hist, pid: int)
    requires (forall k :: 0 <= k < |h.reaped| ==> ReapOk(h, k)) && pid !in h.exited
    ensures !WasReaped(h, pid)
  {
    forall k | 0 <= k < |h.reaped| ensures h.reaped[k].pid != pid { assert ReapOk(h, k); }
  }

  // ---- Runs ----

  lemma StepKeeps(t: Table, h: Hist, e: Event)
    requires Inv(t, h) && Enabled(t, e)
    ensures Inv(Do(t, e), Note(t, h, e))
  {
    hide Inv, EntryOk;
    match e
    case Alloc(s) => AllocKeeps(t, h, s);
    case Adopt(p, s) => AdoptKeeps(t, h, p, s);
    case Exit(p) => ExitKeeps(t, h, p);
    case WaitReap(p, s) => WaitReapKeeps(t, h, p, s);
    case WakeOn(k) => WakeOnKeeps(t, h, k);
    case Abandon(s) => LocalKeeps(t, h, e, s);
    case Ready(s) => LocalKeeps(t, h, e, s);
    case WaitSleep(p) => LocalKeeps(t, h, e, p);
    case SleepOn(p, k) => LocalKeeps(t, h, e, p);
    case Kill(s) => LocalKeeps(t, h, e, s);
    case Dispatch(p) => LocalKeeps(t, h, e, p);
    case Yield(p) => LocalKeeps(t, h, e, p);
  }

  /** The steps that change one entry only. */
  predicate Local(e: Event, i: nat) {
    e == Abandon(i) || e == Ready(i) || e == WaitSleep(i) || (e.SleepOn? && e.p == i) || e == Kill(i) || e == Dispatch(i) || e == Yield(i)
  }

  lemma LocalKeeps(t: Table, h: Hist, e: Event, i: nat)
    requires Inv(t, h) && Enabled(t, e) && Local(e, i)
    ensures Inv(Do(t, e), h)
  {
    assert EntryOk(t, h, i);
    if e.WaitSleep? {
      forall c | 0 <= c < |t.procs| ensures !ZombieChild(t.procs, i, c) { assert c < |t.procs|; }
    }
    SetKeeps(t, h, i, Do(t, e).procs[i]);
  }

  ghost predicate Run(t: Table, es: seq<Event>, u: Table)
    decreases |es|
  {
    if es == [] then u == t else Enabled(t, es[0]) && Run(Do(t, es[0]), es[1..], u)
  }

  ghost function Record(t: Table, h: Hist, es: seq<Event>, u: Table): Hist
    requires Run(t, es, u)
    decreases |es|
  {
    if es == [] then h else Record(Do(t, es[0]), Note(t, h, es[0]), es[1..], u)
  }

  lemma {:induction false} RunKeeps(t: Table, h: Hist, es: seq<Event>, u: Table)
    requires Inv(t, h) && Run(t, es, u)
    ensures Inv(u, Record(t, h, es, u))
    decreases |es|
  {
    if es != [] {
      StepKeeps(t, h, es[0]);
      RunKeeps(Do(t, es[0]), Note(t, h, es[0]), es[1..], u);
    }
  }

  /** The table once userinit has made init: one runnable process, everything else unused. */
  predicate Booted(t: Table) {
    && t.init < |t.procs| && t.procs[t.init] == Proc(RUNNABLE, 1, -1, NoChan, false) && t.nextpid == 2
    && (forall i :: 0 <= i < |t.procs| && i != t.init ==> t.procs[i] == Proc(UNUSED, 0, -1, NoChan, false))
  }

  const START := Hist({}, [], map[], 1)

  lemma BootedOk(t: Table)
    requires Booted(t)
    ensures Inv(t, START)
  {}

  /** Every run from boot: a process asleep in wait has no zombie child; the pids returned by wait are
      distinct, belonged to processes that exited, and went to the forker or to init; and every process
      that exited and was not reaped is a zombie whose parent is alive to reap it. */
  lemma WaitSafety(t: Table, es: seq<Event>, u: Table)
    requires Booted(t) && Run(t, es, u)
    ensures var h := Record(t, START, es, u);
      && (forall i, c :: 0 <= i < |u.procs| && 0 <= c < |u.procs| ==> NoLostWakeup(u, i, c))
      && (forall k :: 0 <= k < |h.reaped| ==> ReapOk(h, k))
      && (forall pid :: pid in h.exited ==> (WasReaped(h, pid) <==> !IsZombie(u, pid)))
      && (forall i :: 0 <= i < |u.procs| && u.procs[i].state == ZOMBIE ==> HasReaper(u, i))
  {
    BootedOk(t);
    RunKeeps(t, START, es, u);
    var h := Record(t, START, es, u);
    forall pid | pid in h.exited ensures WasReaped(h, pid) <==> !IsZombie(u, pid) { assert Accounted(u, h, pid); }
    forall i | 0 <= i < |u.procs| && u.procs[i].state == ZOMBIE ensures HasReaper(u, i) { assert EntryOk(u, h, i); }
  }

  /** The zombie's parent is alive and would find it in wait. */
  predicate HasReaper(t: Table, i: nat) {
    i < |t.procs| && 0 <= t.procs[i].parent < |t.procs| && Alive(t.procs[t.procs[i].parent]) && ZombieChild(t.procs, t.procs[i].parent, i)
  }
}

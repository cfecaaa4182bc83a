/** One pipe and any number of readers and writers, with the sleeping and waking of `pipe.c`: who is left asleep.
    A step is one critical section of the pipe's lock, up to its return or its sleep. */
module PipeRuns {
  import opened Pipe

  /** A writer with `left` bytes to write, a reader of up to n bytes: asleep in the call, or made runnable again. */
  datatype Pc = Out | WriterAsleep(left: nat) | WriterWoken(left: nat) | ReaderAsleep(n: nat) | ReaderWoken(n: nat)

  /** `inflight` counts the bytes in the ring. */
  datatype State = State(pcs: seq<Pc>, killed: seq<bool>, inflight: nat, readopen: bool, writeopen: bool)

  datatype Step =
    | Write(i: nat, left: nat)   // pipewrite from its start
    | Rewrite(i: nat)            // pipewrite after its sleep
    | Read(i: nat, n: nat)       // piperead from its start
    | Reread(i: nat)             // piperead after its sleep
    | CloseWrite                 // the last close of the write end
    | CloseRead                  // the last close of the read end
    | Kill(i: nat)

  predicate Writing(c: Pc) { c.WriterAsleep? || c.WriterWoken? }

  predicate Reading(c: Pc) { c.ReaderAsleep? || c.ReaderWoken? }

  /** A process in a call has that end open, so the end is not closed under it. */
  predicate Enabled(s: State, e: Step) {
    match e
    case Write(i, left) => i < |s.pcs| == |s.killed| && s.pcs[i] == Out && s.writeopen && s.inflight <= PIPESIZE
    case Rewrite(i) => i < |s.pcs| == |s.killed| && s.pcs[i].WriterWoken? && s.inflight <= PIPESIZE
    case Read(i, n) => i < |s.pcs| == |s.killed| && s.pcs[i] == Out && s.readopen
    case Reread(i) => i < |s.pcs| == |s.killed| && s.pcs[i].ReaderWoken?
    case CloseWrite => s.writeopen && forall j :: 0 <= j < |s.pcs| ==> !Writing(s.pcs[j])
    case CloseRead => s.readopen && forall j :: 0 <= j < |s.pcs| ==> !Reading(s.pcs[j])
    case Kill(i) => i < |s.pcs| == |s.killed|
  }

  /** wakeup(&p->nread) and wakeup(&p->nwrite). */
  function WakeReaders(pcs: seq<Pc>): (r: seq<Pc>)
    ensures |r| == |pcs|
  {
    seq(|pcs|, j requires 0 <= j < |pcs| => if pcs[j].ReaderAsleep? then ReaderWoken(pcs[j].n) else pcs[j])
  }

  function WakeWriters(pcs: seq<Pc>): (r: seq<Pc>)
    ensures |r| == |pcs|
  {
    seq(|pcs|, j requires 0 <= j < |pcs| => if pcs[j].WriterAsleep? then WriterWoken(pcs[j].left) else pcs[j])
  }

  /** The writer stops with bytes left because nobody will read or it has been killed. */
  predicate GivesUp(s: State, i: nat, left: nat)
    requires i < |s.killed| && s.inflight <= PIPESIZE
  {
    Puts(left, s.inflight) < left && (!s.readopen || s.killed[i])
  }

  /** pipewrite, from its start or its sleep: giving up, it wakes nobody. */
  function WriteSection(s: State, i: nat, left: nat): State
    requires i < |s.pcs| == |s.killed| && s.inflight <= PIPESIZE
  {
    var k := Puts(left, s.inflight);
    if GivesUp(s, i, left) then s.(inflight := s.inflight + k, pcs := s.pcs[i := Out])
    else s.(inflight := s.inflight + k, pcs := WakeReaders(s.pcs)[i := if k == left then Out else WriterAsleep(left - k)])
  }

  function ReadSection(s: State, i: nat, n: nat): State
    requires i < |s.pcs| == |s.killed|
  {
    if s.inflight == 0 && s.writeopen then s.(pcs := s.pcs[i := if s.killed[i] then Out else ReaderAsleep(n)])
    else s.(inflight := s.inflight - Takes(n, s.inflight), pcs := WakeWriters(s.pcs)[i := Out])
  }

  function Do(s: State, e: Step): State
    requires Enabled(s, e)
  {
    match e
    case Write(i, left) => WriteSection(s, i, left)
    case Rewrite(i) => WriteSection(s, i, s.pcs[i].left)
    case Read(i, n) => ReadSection(s, i, n)
    case Reread(i) => ReadSection(s, i, s.pcs[i].n)
    case CloseWrite => s.(writeopen := false, pcs := WakeReaders(s.pcs))
    case CloseRead => s.(readopen := false, pcs := WakeWriters(s.pcs))
    case Kill(i) => s.(killed := s.killed[i := true],
      pcs := s.pcs[i := match s.pcs[i] case WriterAsleep(l) => WriterWoken(l) case ReaderAsleep(n) => ReaderWoken(n) case c => c])
  }

  // ---- Who sleeps ----

  /** A sleeping writer has a full ring before it and a reader to hope for; whoever is in a call has its end open. */
  predicate ProcOk(s: State, i: nat)
    requires i < |s.pcs|
  {
    && (s.pcs[i].WriterAsleep? ==> s.inflight == PIPESIZE)
    && (Writing(s.pcs[i]) ==> s.writeopen)
    && (s.pcs[i].WriterAsleep? || Reading(s.pcs[i]) ==> s.readopen)
  }

  predicate Inv(s: State) {
    |s.killed| == |s.pcs| && s.inflight <= PIPESIZE && forall i :: 0 <= i < |s.pcs| ==> ProcOk(s, i)
  }

  /** A sleeping reader has an empty pipe before it and a writer to hope for. */
  predicate Fed(s: State) {
    forall i :: 0 <= i < |s.pcs| && s.pcs[i].ReaderAsleep? ==> s.inflight == 0 && s.writeopen
  }

  predicate ReaderSleeps(s: State) { exists i :: 0 <= i < |s.pcs| && s.pcs[i].ReaderAsleep? }

  /** A writer that has been killed, with more to write than the ring holds, while a reader sleeps. */
  predicate Loses(s: State, e: Step)
    requires Enabled(s, e)
  {
    && ReaderSleeps(s) && s.inflight == 0
    && match e
       case Write(i, left) => s.killed[i] && left > PIPESIZE
       case Rewrite(i) => s.killed[i] && s.pcs[i].left > PIPESIZE
       case _ => false
  }

  lemma StepKeeps(s: State, e: Step)
    requires Inv(s) && Enabled(s, e)
    ensures Inv(Do(s, e))
  {
    var t := Do(s, e);
    assert |t.pcs| == |s.pcs|;
    forall j | 0 <= j < |t.pcs| ensures ProcOk(t, j) { StepProc(s, e, j); }
  }

  lemma StepProc(s: State, e: Step, j: nat)
    requires Inv(s) && Enabled(s, e) && j < |s.pcs|
    ensures |Do(s, e).pcs| == |s.pcs| && ProcOk(Do(s, e), j)
  {
    assert ProcOk(s, j);
    if e.Rewrite? || e.Reread? { assert ProcOk(s, e.i); }
  }

  /** Sleeping readers stay without bytes exactly when the step is not one that loses them. */
  lemma StepFed(s: State, e: Step)
    requires Inv(s) && Fed(s) && Enabled(s, e)
    ensures Fed(Do(s, e)) <==> !Loses(s, e)
  {
    var t := Do(s, e);
    if Loses(s, e) {
      var r :| 0 <= r < |s.pcs| && s.pcs[r].ReaderAsleep?;
      assert t.pcs[r].ReaderAsleep?;
    } else {
      forall j | 0 <= j < |t.pcs| && t.pcs[j].ReaderAsleep? ensures t.inflight == 0 && t.writeopen { ReaderFed(s, e, j); }
    }
  }

  lemma ReaderFed(s: State, e: Step, j: nat)
    requires Inv(s) && Fed(s) && Enabled(s, e) && !Loses(s, e) && j < |Do(s, e).pcs| && Do(s, e).pcs[j].ReaderAsleep?
    ensures Do(s, e).inflight == 0 && Do(s, e).writeopen
  {
    assert j < |s.pcs| && ProcOk(s, j);
    if e.Rewrite? || e.Reread? { assert ProcOk(s, e.i); }
    if s.pcs[j].ReaderAsleep? { assert ReaderSleeps(s); }
  }

  // ---- Runs ----

  predicate Initial(s: State) {
    && |s.killed| == |s.pcs| && s.inflight == 0 && s.readopen && s.writeopen
    && forall i :: 0 <= i < |s.pcs| ==> s.pcs[i] == Out
  }

  predicate Runs(s: State, es: seq<Step>)
    decreases |es|
  {
    es == [] || (Enabled(s, es[0]) && Runs(Do(s, es[0]), es[1..]))
  }

  function After(s: State, es: seq<Step>): State
    requires Runs(s, es)
    decreases |es|
  {
    if es == [] then s else After(Do(s, es[0]), es[1..])
  }

  /** At every point of the run, sleeping readers have no bytes to take. */
  predicate AlwaysFed(s: State, es: seq<Step>)
    requires Runs(s, es)
    decreases |es|
  {
    Fed(s) && (es != [] ==> AlwaysFed(Do(s, es[0]), es[1..]))
  }

  predicate SomeLoss(s: State, es: seq<Step>)
    requires Runs(s, es)
    decreases |es|
  {
    es != [] && (Loses(s, es[0]) || SomeLoss(Do(s, es[0]), es[1..]))
  }

  lemma {:induction false} RunKeeps(s: State, es: seq<Step>)
    requires Inv(s) && Runs(s, es)
    ensures Inv(After(s, es))
    decreases |es|
  {
    if es != [] {
      StepKeeps(s, es[0]);
      RunKeeps(Do(s, es[0]), es[1..]);
    }
  }

  lemma InitialOk(s: State)
    requires Initial(s)
    ensures Inv(s) && Fed(s)
  {}

  /** No writer is left asleep: in every run, one that sleeps has a full ring and the read end open. */
  lemma NoWriterLost(s: State, es: seq<Step>, i: nat)
    requires Initial(s) && Runs(s, es) && i < |After(s, es).pcs| && After(s, es).pcs[i].WriterAsleep?
    ensures After(s, es).inflight == PIPESIZE && After(s, es).readopen
  {
    InitialOk(s);
    RunKeeps(s, es);
    assert ProcOk(After(s, es), i);
  }

  lemma {:induction false} FedExactly(s: State, es: seq<Step>)
    requires Inv(s) && Fed(s) && Runs(s, es)
    ensures AlwaysFed(s, es) <==> !SomeLoss(s, es)
    decreases |es|
  {
    if es != [] {
      StepKeeps(s, es[0]);
      StepFed(s, es[0]);
      if !Loses(s, es[0]) { FedExactly(Do(s, es[0]), es[1..]); }
      else { NotFed(Do(s, es[0]), es[1..]); }
    }
  }

  lemma NotFed(s: State, es: seq<Step>)
    requires Runs(s, es) && !Fed(s)
    ensures !AlwaysFed(s, es)
  {}

  /** No reader is left asleep with bytes in the ring, in exactly the runs in which no killed writer gives up on a ring
      it has just filled while a reader sleeps. */
  lemma NoReaderLostExactly(s: State, es: seq<Step>)
    requires Initial(s) && Runs(s, es)
    ensures AlwaysFed(s, es) <==> !SomeLoss(s, es)
  {
    InitialOk(s);
    FedExactly(s, es);
  }

  /** Nobody writes, the write end stays open, and process r is not killed. */
  predicate Quiet(es: seq<Step>, r: nat) {
    forall k :: 0 <= k < |es| ==> !es[k].Write? && !es[k].Rewrite? && !es[k].CloseWrite? && es[k] != Kill(r)
  }

  /** A sleeping reader then stays asleep, whatever is in the ring. */
  lemma {:induction false} StaysAsleep(s: State, es: seq<Step>, r: nat)
    requires Runs(s, es) && Quiet(es, r) && r < |s.pcs| && s.pcs[r].ReaderAsleep?
    ensures r < |After(s, es).pcs| && After(s, es).pcs[r] == s.pcs[r]
    decreases |es|
  {
    if es != [] {
      assert !es[0].Write? && !es[0].Rewrite? && !es[0].CloseWrite? && es[0] != Kill(r);
      StaysAsleep(Do(s, es[0]), es[1..], r);
    }
  }

  /** And a sleeping writer stays asleep while nobody reads, the read end stays open and it is not killed. */
  lemma {:induction false} WriterStaysAsleep(s: State, es: seq<Step>, w: nat)
    requires Runs(s, es) && w < |s.pcs| && s.pcs[w].WriterAsleep?
    requires forall k :: 0 <= k < |es| ==> !es[k].Read? && !es[k].Reread? && !es[k].CloseRead? && es[k] != Kill(w)
    ensures w < |After(s, es).pcs| && After(s, es).pcs[w] == s.pcs[w]
    decreases |es|
  {
    if es != [] {
      assert !es[0].Read? && !es[0].Reread? && !es[0].CloseRead? && es[0] != Kill(w);
      WriterStaysAsleep(Do(s, es[0]), es[1..], w);
    }
  }

  /** The reader asleep, 512 bytes to read, and the killed writer gone. */
  function Lost(): State { State([ReaderAsleep(1), Out, Out], [false, true, false], PIPESIZE, true, true) }

  /** One reader and two writers suffice: the reader sleeps on the empty pipe, one writer is killed and writes 513 bytes;
      512 are in the ring and it has returned -1. When it exits the other writer still has the write end open, and
      until that one writes or closes it, or the reader is killed, the reader is asleep. */
  lemma LostReader(es: seq<Step>)
    requires Runs(Lost(), es) && Quiet(es, 0)
    ensures var s := State([Out, Out, Out], [false, false, false], 0, true, true);
      var loss := [Read(0, 1), Kill(1), Write(1, 513)];
      && Initial(s) && Runs(s, loss) && After(s, loss) == Lost()
      && |After(Lost(), es).pcs| > 0 && After(Lost(), es).pcs[0] == ReaderAsleep(1)
  {
    var s := State([Out, Out, Out], [false, false, false], 0, true, true);
    var loss := [Read(0, 1), Kill(1), Write(1, 513)];
    var a := Do(s, loss[0]);
    var b := Do(a, loss[1]);
    var c := Do(b, loss[2]);
    assert loss[1..] == [Kill(1), Write(1, 513)] && loss[1..][1..] == [Write(1, 513)] && loss[1..][1..][1..] == [];
    assert c.pcs == [ReaderAsleep(1), Out, Out] && c.killed == [false, true, false];
    assert c == Lost();
    assert Runs(c, []) && Runs(b, [Write(1, 513)]) && Runs(a, loss[1..]);
    assert After(b, [Write(1, 513)]) == c;
    StaysAsleep(Lost(), es, 0);
  }
}

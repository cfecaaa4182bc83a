/** The redo log on disk (`log.c`): what the header means, the exact sequence of single-block
    writes a commit and a recovery perform, and why cutting either anywhere is harmless. */
module LogRecovery {
  import opened Counting
  import opened DiskModel

  const MAXOPBLOCKS := 10
  const LOGSIZE := 30

  /** Where the log lies: header at `start`, log blocks after it, `size` blocks in all. */
  datatype Layout = Layout(start: nat, size: nat, disksize: nat) {
    predicate Valid() { 1 <= size && start + size <= disksize }
    predicate InLog(b: int) { start <= b < start + size }
    predicate Home(b: int) { 0 <= b < disksize && !InLog(b) }
  }

  /** A list of logged block numbers that fits the log and never names the log itself. */
  predicate GoodHead(l: Layout, lh: seq<int>) {
    && |lh| <= LOGSIZE
    && |lh| <= l.size - 1
    && Distinct(lh)
    && forall i :: 0 <= i < |lh| ==> l.Home(lh[i])
  }

  /** The position of `b` in the list, or its length: the absorption scan of log_write. */
  function IndexOf(lh: seq<int>, b: int): (i: nat)
    ensures i <= |lh|
    ensures i < |lh| ==> lh[i] == b
    ensures i == |lh| <==> b !in lh
  {
    if lh == [] then 0 else if lh[0] == b then 0 else 1 + IndexOf(lh[1..], b)
  }

  lemma IndexOfAt(lh: seq<int>, i: nat)
    requires Distinct(lh) && i < |lh|
    ensures IndexOf(lh, lh[i]) == i
  {
    assert lh[IndexOf(lh, lh[i])] == lh[i];
  }

  // ---- The header block ----

  function HeadBlocks(hb: Block): (lh: seq<int>)
    requires 0 <= hb[0] <= LOGSIZE
  {
    hb[1..1 + hb[0]]
  }

  /** write_head overwrites n and the first n entries of the old header block. */
  function EncodeHead(hb: Block, lh: seq<int>): (r: Block)
    requires |lh| <= LOGSIZE
    ensures r[0] == |lh|
    ensures HeadBlocks(r) == lh
    ensures forall i :: |lh| < i < 128 ==> r[i] == hb[i]
  {
    [|lh|] + lh + hb[1 + |lh|..]
  }

  predicate WellFormed(l: Layout, d: Image) {
    && l.Valid()
    && |d| == l.disksize
    && 0 <= d[l.start][0] <= LOGSIZE
    && GoodHead(l, HeadBlocks(d[l.start]))
  }

  function Head(l: Layout, d: Image): (lh: seq<int>)
    requires WellFormed(l, d)
    ensures GoodHead(l, lh)
  {
    HeadBlocks(d[l.start])
  }

  /** What block `b` holds once the log is taken into account. */
  function Logical(l: Layout, d: Image, b: nat): Block
    requires WellFormed(l, d) && l.Home(b)
  {
    var i := IndexOf(Head(l, d), b);
    if i < |Head(l, d)| then d[l.start + 1 + i] else d[b]
  }

  ghost predicate SameLogical(l: Layout, d: Image, e: Image)
    requires WellFormed(l, d) && WellFormed(l, e)
  {
    forall b :: l.Home(b) ==> Logical(l, e, b) == Logical(l, d, b)
  }

  // ---- The four kinds of disk write ----

  lemma LogBlockWrite(l: Layout, d: Image, i: nat, x: Block)
    requires WellFormed(l, d) && Head(l, d) == [] && i < l.size - 1
    ensures WellFormed(l, d[l.start + 1 + i := x]) && Head(l, d[l.start + 1 + i := x]) == []
    ensures SameLogical(l, d, d[l.start + 1 + i := x])
  {}

  lemma HeadWrite(l: Layout, d: Image, lh: seq<int>)
    requires WellFormed(l, d) && Head(l, d) == [] && GoodHead(l, lh)
    ensures var e := d[l.start := EncodeHead(d[l.start], lh)];
      && WellFormed(l, e) && Head(l, e) == lh
      && (forall i :: 0 <= i < |lh| ==> Logical(l, e, lh[i]) == d[l.start + 1 + i])
      && (forall b :: l.Home(b) && b !in lh ==> Logical(l, e, b) == Logical(l, d, b))
  {
    var e := d[l.start := EncodeHead(d[l.start], lh)];
    forall i | 0 <= i < |lh| ensures Logical(l, e, lh[i]) == d[l.start + 1 + i] {
      IndexOfAt(lh, i);
    }
  }

  lemma InstallWrite(l: Layout, d: Image, i: nat)
    requires WellFormed(l, d) && i < |Head(l, d)|
    ensures var e := d[Head(l, d)[i] := d[l.start + 1 + i]];
      WellFormed(l, e) && Head(l, e) == Head(l, d) && SameLogical(l, d, e)
  {}

  /** Every logged block has reached its home. */
  predicate Installed(l: Layout, d: Image)
    requires WellFormed(l, d)
  {
    forall i :: 0 <= i < |Head(l, d)| ==> d[Head(l, d)[i]] == d[l.start + 1 + i]
  }

  lemma ClearWrite(l: Layout, d: Image)
    requires WellFormed(l, d) && Installed(l, d)
    ensures var e := d[l.start := EncodeHead(d[l.start], [])];
      WellFormed(l, e) && Head(l, e) == [] && SameLogical(l, d, e)
      && forall b :: l.Home(b) ==> e[b] == Logical(l, e, b)
  {
    var e := d[l.start := EncodeHead(d[l.start], [])];
    forall b | l.Home(b) ensures Logical(l, e, b) == Logical(l, d, b) {
      var i := IndexOf(Head(l, d), b);
    }
  }

  // ---- Recovery ----

  /** install_trans copies log block i to its home, for i = 0, 1, ... */
  function InstallWrites(lh: seq<int>, contents: seq<Block>): (ws: seq<Write>)
    requires |lh| == |contents|
    requires forall i :: 0 <= i < |lh| ==> 0 <= lh[i]
    ensures |ws| == |lh|
  {
    seq(|lh|, i requires 0 <= i < |lh| => Write(lh[i], contents[i]))
  }

  function LogContents(l: Layout, d: Image): (c: seq<Block>)
    requires WellFormed(l, d)
    ensures |c| == |Head(l, d)|
  {
    d[l.start + 1..l.start + 1 + |Head(l, d)|]
  }

  /** recover_from_log: read_head, install_trans, then write_head with n = 0. */
  function RecoverWrites(l: Layout, d: Image): (ws: seq<Write>)
    requires WellFormed(l, d)
    ensures |ws| == |Head(l, d)| + 1
    ensures InRange(d, ws)
  {
    InstallWrites(Head(l, d), LogContents(l, d)) + [Write(l.start, EncodeHead(d[l.start], []))]
  }

  /** After k installs: log region intact, k homes written, all else as before. */
  ghost predicate PartlyInstalled(l: Layout, d: Image, e: Image, k: nat)
    requires WellFormed(l, d) && k <= |Head(l, d)|
  {
    && WellFormed(l, e)
    && Head(l, e) == Head(l, d)
    && e[l.start] == d[l.start]
    && LogContents(l, e) == LogContents(l, d)
    && SameLogical(l, d, e)
    && forall i :: 0 <= i < k ==> e[Head(l, d)[i]] == LogContents(l, d)[i]
  }

  lemma {:induction false} InstallPrefix(l: Layout, d: Image, k: nat)
    requires WellFormed(l, d) && k <= |Head(l, d)|
    ensures InRange(d, RecoverWrites(l, d)[..k])
    ensures PartlyInstalled(l, d, Apply(d, RecoverWrites(l, d)[..k]), k)
  {
    var ws := RecoverWrites(l, d);
    if k > 0 {
      InstallPrefix(l, d, k - 1);
      var e := Apply(d, ws[..k - 1]);
      ApplyNext(d, ws, k - 1);
      InstallStep(l, d, e, k);
    } else {
      assert ws[..0] == [];
    }
  }

  lemma InstallStep(l: Layout, d: Image, e: Image, k: nat)
    requires WellFormed(l, d) && 0 < k <= |Head(l, d)|
    requires PartlyInstalled(l, d, e, k - 1)
    ensures PartlyInstalled(l, d, e[Head(l, d)[k - 1] := LogContents(l, d)[k - 1]], k)
  {
    hide Logical;
    var lh := Head(l, d);
    assert LogContents(l, e)[k - 1] == e[l.start + 1 + (k - 1)];
    InstallWrite(l, e, k - 1);
    assert l.Home(lh[k - 1]);
    ContentsKept(l, e, lh[k - 1], LogContents(l, d)[k - 1]);
  }

  /** Writing a home block leaves header and log blocks alone. */
  lemma ContentsKept(l: Layout, e: Image, b: nat, x: Block)
    requires WellFormed(l, e) && l.Home(b)
    ensures var f := e[b := x]; WellFormed(l, f) && Head(l, f) == Head(l, e) && LogContents(l, f) == LogContents(l, e)
  {
    var f := e[b := x];
    assert f[l.start] == e[l.start];
  }

  lemma InstalledAfterAll(l: Layout, d: Image, e: Image)
    requires WellFormed(l, d) && PartlyInstalled(l, d, e, |Head(l, d)|)
    ensures Installed(l, e)
  {
    forall i | 0 <= i < |Head(l, e)| ensures e[Head(l, e)[i]] == e[l.start + 1 + i] {
      assert LogContents(l, e)[i] == e[l.start + 1 + i];
    }
  }

  lemma RecoverComplete(l: Layout, d: Image)
    requires WellFormed(l, d)
    ensures var e := Apply(d, RecoverWrites(l, d));
      && WellFormed(l, e) && SameLogical(l, d, e) && Head(l, e) == []
      && forall b :: l.Home(b) ==> e[b] == Logical(l, d, b)
  {
    var ws, n := RecoverWrites(l, d), |Head(l, d)|;
    InstallPrefix(l, d, n);
    var e := Apply(d, ws[..n]);
    ApplyNext(d, ws, n);
    assert ws[..n + 1] == ws;
    InstalledAfterAll(l, d, e);
    ClearWrite(l, e);
  }

  /** A recovery cut after any number of its writes leaves the same logical contents;
      a complete one leaves an empty log with every home block up to date. */
  lemma RecoverPrefix(l: Layout, d: Image, k: nat)
    requires WellFormed(l, d) && k <= |RecoverWrites(l, d)|
    ensures InRange(d, RecoverWrites(l, d)[..k])
    ensures var e := Apply(d, RecoverWrites(l, d)[..k]);
      && WellFormed(l, e) && SameLogical(l, d, e)
      && (k == |RecoverWrites(l, d)| ==>
            Head(l, e) == [] && forall b :: l.Home(b) ==> e[b] == Logical(l, d, b))
  {
    var ws := RecoverWrites(l, d);
    if k < |ws| {
      InstallPrefix(l, d, k);
    } else {
      RecoverComplete(l, d);
      assert ws[..k] == ws;
    }
  }

  /** The disk after |cuts| recoveries, each cut short by a crash after cuts[i] of its writes. */
  ghost function Interrupted(l: Layout, d: Image, cuts: seq<nat>): (e: Image)
    requires WellFormed(l, d)
    ensures WellFormed(l, e) && SameLogical(l, d, e)
    decreases |cuts|
  {
    if cuts == [] then d else
    var ws := RecoverWrites(l, d);
    var k := if cuts[0] <= |ws| then cuts[0] else |ws|;
    RecoverPrefix(l, d, k);
    Interrupted(l, Apply(d, ws[..k]), cuts[1..])
  }

  function Recover(l: Layout, d: Image): (e: Image)
    requires WellFormed(l, d)
  {
    Apply(d, RecoverWrites(l, d))
  }

  /** However often recovery itself crashes, the recovery that completes leaves
      exactly the logical contents, and an empty log. */
  lemma RecoverAfterCrashes(l: Layout, d: Image, cuts: seq<nat>)
    requires WellFormed(l, d)
    ensures var e := Recover(l, Interrupted(l, d, cuts));
      && WellFormed(l, e) && Head(l, e) == []
      && forall b :: l.Home(b) ==> e[b] == Logical(l, d, b)
  {
    var m := Interrupted(l, d, cuts);
    var ws := RecoverWrites(l, m);
    RecoverPrefix(l, m, |ws|);
    assert ws[..|ws|] == ws;
  }

  /** Recovery is idempotent: recovering a recovered disk changes no home block. */
  lemma RecoverIdempotent(l: Layout, d: Image)
    requires WellFormed(l, d)
    ensures WellFormed(l, Recover(l, d))
    ensures forall b :: l.Home(b) ==>
      b < |Recover(l, Recover(l, d))| && Recover(l, Recover(l, d))[b] == Recover(l, d)[b]
  {
    RecoverAfterCrashes(l, d, []);
    RecoverAfterCrashes(l, Recover(l, d), []);
  }

  // ---- Commit ----

  /** commit: write_log, write_head (the commit point), install_trans, write_head with n = 0. */
  function CommitWrites(l: Layout, hb: Block, lh: seq<int>, contents: seq<Block>): (ws: seq<Write>)
    requires |contents| == |lh| <= LOGSIZE
    requires forall i :: 0 <= i < |lh| ==> 0 <= lh[i]
    ensures |ws| == 2 * |lh| + 2
  {
    LogWrites(l, contents)
    + [Write(l.start, EncodeHead(hb, lh))]
    + InstallWrites(lh, contents)
    + [Write(l.start, EncodeHead(EncodeHead(hb, lh), []))]
  }

  function LogWrites(l: Layout, contents: seq<Block>): (ws: seq<Write>)
    ensures |ws| == |contents|
  {
    seq(|contents|, i requires 0 <= i < |contents| => Write(l.start + 1 + i, contents[i]))
  }

  /** What commit starts from: an empty on-disk log and a good in-memory list. */
  predicate CommitReady(l: Layout, d: Image, lh: seq<int>, contents: seq<Block>) {
    WellFormed(l, d) && Head(l, d) == [] && GoodHead(l, lh) && |contents| == |lh|
  }

  /** The home contents a commit is meant to produce. */
  function Updated(l: Layout, d: Image, lh: seq<int>, contents: seq<Block>, b: nat): Block
    requires WellFormed(l, d) && l.Home(b) && |contents| == |lh|
  {
    var i := IndexOf(lh, b);
    if i < |lh| then contents[i] else Logical(l, d, b)
  }

  lemma CommitInRange(l: Layout, d: Image, lh: seq<int>, contents: seq<Block>)
    requires CommitReady(l, d, lh, contents)
    ensures InRange(d, CommitWrites(l, d[l.start], lh, contents))
  {
    forall i | 0 <= i < |lh| ensures l.Home(lh[i]) {}
  }

  lemma {:induction false} LogPrefix(l: Layout, d: Image, contents: seq<Block>, k: nat)
    requires WellFormed(l, d) && Head(l, d) == [] && k <= |contents| <= l.size - 1
    ensures InRange(d, LogWrites(l, contents)[..k])
    ensures var e := Apply(d, LogWrites(l, contents)[..k]);
      && WellFormed(l, e) && Head(l, e) == [] && SameLogical(l, d, e) && e[l.start] == d[l.start]
      && forall i :: 0 <= i < k ==> e[l.start + 1 + i] == contents[i]
  {
    var ws := LogWrites(l, contents);
    if k > 0 {
      LogPrefix(l, d, contents, k - 1);
      var e := Apply(d, ws[..k - 1]);
      ApplyNext(d, ws, k - 1);
      LogBlockWrite(l, e, k - 1, contents[k - 1]);
    } else {
      assert ws[..0] == [];
    }
  }

  /** The header write over a fully written log: the logical contents become the new ones. */
  lemma HeadWriteCommits(l: Layout, d: Image, m: Image, lh: seq<int>, contents: seq<Block>)
    requires CommitReady(l, d, lh, contents)
    requires WellFormed(l, m) && Head(l, m) == [] && SameLogical(l, d, m)
    requires forall i :: 0 <= i < |lh| ==> m[l.start + 1 + i] == contents[i]
    ensures var e := m[l.start := EncodeHead(m[l.start], lh)];
      && WellFormed(l, e) && Head(l, e) == lh && LogContents(l, e) == contents
      && forall b :: l.Home(b) ==> Logical(l, e, b) == Updated(l, d, lh, contents, b)
  {
    HeadWrite(l, m, lh);
    var e := m[l.start := EncodeHead(m[l.start], lh)];
    forall b | l.Home(b) ensures Logical(l, e, b) == Updated(l, d, lh, contents, b) {
      var i := IndexOf(lh, b);
      if i < |lh| {
        assert Logical(l, e, lh[i]) == m[l.start + 1 + i];
      }
    }
  }

  /** The disk right after the commit point: everything logged, nothing installed yet. */
  lemma CommitPoint(l: Layout, d: Image, lh: seq<int>, contents: seq<Block>) returns (e: Image)
    requires CommitReady(l, d, lh, contents)
    ensures InRange(d, CommitWrites(l, d[l.start], lh, contents)[..|lh| + 1])
    ensures e == Apply(d, CommitWrites(l, d[l.start], lh, contents)[..|lh| + 1])
    ensures WellFormed(l, e) && Head(l, e) == lh && LogContents(l, e) == contents
    ensures e[l.start] == EncodeHead(d[l.start], lh)
    ensures forall b :: l.Home(b) ==> Logical(l, e, b) == Updated(l, d, lh, contents, b)
  {
    var ws, n := CommitWrites(l, d[l.start], lh, contents), |lh|;
    LogPrefix(l, d, contents, n);
    assert ws[..n] == LogWrites(l, contents)[..n];
    var m := Apply(d, ws[..n]);
    ApplyNext(d, ws, n);
    e := m[l.start := EncodeHead(d[l.start], lh)];
    HeadWriteCommits(l, d, m, lh, contents);
  }

  /** From the commit point on, a commit's writes are those of a recovery. */
  lemma CommitEnds(l: Layout, d: Image, lh: seq<int>, contents: seq<Block>, e: Image, k: nat)
    requires CommitReady(l, d, lh, contents) && |lh| < k <= |CommitWrites(l, d[l.start], lh, contents)|
    requires WellFormed(l, e) && Head(l, e) == lh && LogContents(l, e) == contents && e[l.start] == EncodeHead(d[l.start], lh)
    ensures |RecoverWrites(l, e)| >= k - (|lh| + 1)
    ensures var ws := CommitWrites(l, d[l.start], lh, contents);
      ws[..k] == ws[..|lh| + 1] + RecoverWrites(l, e)[..k - (|lh| + 1)]
  {
    var ws, rs := CommitWrites(l, d[l.start], lh, contents), RecoverWrites(l, e);
    assert ws == ws[..|lh| + 1] + rs;
  }

  lemma CommitTail(l: Layout, d: Image, lh: seq<int>, contents: seq<Block>, k: nat)
    requires CommitReady(l, d, lh, contents)
    requires |lh| < k <= |CommitWrites(l, d[l.start], lh, contents)|
    ensures InRange(d, CommitWrites(l, d[l.start], lh, contents)[..k])
    ensures var e := Apply(d, CommitWrites(l, d[l.start], lh, contents)[..k]);
      && WellFormed(l, e)
      && (forall b :: l.Home(b) ==> Logical(l, e, b) == Updated(l, d, lh, contents, b))
      && (k == 2 * |lh| + 2 ==> Head(l, e) == [])
  {
    hide Updated, Logical, Head, RecoverWrites, LogContents;
    CommitInRange(l, d, lh, contents);
    var e := CommitPoint(l, d, lh, contents);
    CommitEnds(l, d, lh, contents, e, k);
    var ws, rs := CommitWrites(l, d[l.start], lh, contents), RecoverWrites(l, e);
    var j := k - (|lh| + 1);
    ApplyAppend(d, ws[..|lh| + 1], rs[..j]);
    RecoverPrefix(l, e, j);
  }

  /** Cut a commit after any k of its writes: the disk stays well formed, and its logical
      contents are all old up to the header write and all new from it on. */
  lemma CommitPrefix(l: Layout, d: Image, lh: seq<int>, contents: seq<Block>, k: nat)
    requires CommitReady(l, d, lh, contents)
    requires k <= |CommitWrites(l, d[l.start], lh, contents)|
    ensures InRange(d, CommitWrites(l, d[l.start], lh, contents)[..k])
    ensures var e := Apply(d, CommitWrites(l, d[l.start], lh, contents)[..k]);
      && WellFormed(l, e)
      && (k <= |lh| ==> SameLogical(l, d, e))
      && (k > |lh| ==> forall b :: l.Home(b) ==> Logical(l, e, b) == Updated(l, d, lh, contents, b))
      && (k == 2 * |lh| + 2 ==> Head(l, e) == [])
  {
    CommitInRange(l, d, lh, contents);
    var ws := CommitWrites(l, d[l.start], lh, contents);
    if k <= |lh| {
      LogPrefix(l, d, contents, k);
      assert ws[..k] == LogWrites(l, contents)[..k];
    } else {
      CommitTail(l, d, lh, contents, k);
    }
  }

  /** Crash atomicity. A commit cut after any k of its disk writes, followed by any number of
      recoveries that crash, followed by one that completes, leaves every home block old when
      the header write was not reached and every home block new when it was. */
  lemma CrashAtomicity(l: Layout, d: Image, lh: seq<int>, contents: seq<Block>, k: nat, cuts: seq<nat>)
    requires CommitReady(l, d, lh, contents)
    requires k <= |CommitWrites(l, d[l.start], lh, contents)|
    ensures InRange(d, CommitWrites(l, d[l.start], lh, contents)[..k])
    ensures WellFormed(l, Apply(d, CommitWrites(l, d[l.start], lh, contents)[..k]))
    ensures var e := Recover(l, Interrupted(l, Apply(d, CommitWrites(l, d[l.start], lh, contents)[..k]), cuts));
      && WellFormed(l, e) && Head(l, e) == []
      && (k <= |lh| ==> forall b :: l.Home(b) ==> e[b] == d[b])
      && (k > |lh| ==> forall b :: l.Home(b) ==> e[b] == Updated(l, d, lh, contents, b))
  {
    CommitPrefix(l, d, lh, contents, k);
    RecoverAfterCrashes(l, Apply(d, CommitWrites(l, d[l.start], lh, contents)[..k]), cuts);
  }
}

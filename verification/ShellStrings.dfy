/** parsecmd as a whole: the printed form of every command parses back to it, and NUL termination in place turns
    every word of the tree into the C string it was in the input. */
module ShellStrings {
  import opened ShellGrammar
  import opened ShellMap
  import opened ShellTokens
  import opened ShellParser

  // ---- Printing to a string ----

  predicate AllPrintable(ts: seq<Tok<string>>) { forall i :: 0 <= i < |ts| ==> Printable(ts[i]) }

  /** Words as the lexer knows them, and at most nine in each exec. */
  predicate WellFormed(c: Cmd<string>) {
    match c
    case Exec(ws) => |ws| < MAXARGS && forall i :: 0 <= i < |ws| ==> Printable(Word(ws[i]))
    case Redir(d, r) => WellFormed(d) && Printable(Word(r.file))
    case Pipe(l, r) => WellFormed(l) && WellFormed(r)
    case List(l, r) => WellFormed(l) && WellFormed(r)
    case Back(d) => WellFormed(d)
  }

  lemma {:induction false} WellFormedSized(c: Cmd<string>)
    requires WellFormed(c)
    ensures Sized(c)
    decreases c
  {
    match c
    case Exec(ws) =>
    case Redir(d, r) => WellFormedSized(d);
    case Pipe(l, r) => WellFormedSized(l); WellFormedSized(r);
    case List(l, r) => WellFormedSized(l); WellFormedSized(r);
    case Back(d) => WellFormedSized(d);
  }

  lemma {:induction false} WordsPrintable(ws: seq<string>)
    requires forall i :: 0 <= i < |ws| ==> Printable(Word(ws[i]))
    ensures AllPrintable(WordToks(ws))
    decreases |ws|
  {
    if ws != [] { WordsPrintable(ws[1..]); }
  }

  lemma {:induction false} PrintedPrintable(c: Cmd<string>)
    requires WellFormed(c)
    ensures AllPrintable(PrintExec(c)) && AllPrintable(PrintPipe(c)) && AllPrintable(PrintBack(c)) && AllPrintable(PrintLine(c))
    decreases c
  {
    match c
    case Exec(ws) => WordsPrintable(ws);
    case Redir(d, r) => PrintedPrintable(d);
    case Pipe(l, r) =>
      PrintedPrintable(l);
      PrintedPrintable(r);
      assert AllPrintable(PrintPipe(c));
    case List(l, r) =>
      PrintedPrintable(l);
      PrintedPrintable(r);
      assert AllPrintable(PrintLine(c));
    case Back(d) =>
      PrintedPrintable(d);
      assert AllPrintable(PrintBack(c));
  }

  lemma Layout(s: string, p: nat, w: string, tail: string)
    requires p <= |s| && s[p..] == w + " " + tail
    ensures p + |w| < |s| && s[p..p + |w|] == w && s[p + |w|] == ' ' && s[p + |w| + 1..] == tail
    ensures forall k :: p <= k < p + |w| ==> s[k] == w[k - p]
  {
    assert s[p..p + |w|] == s[p..][..|w|] == w;
    assert s[p + |w|] == s[p..][|w|];
    assert s[p + |w| + 1..] == s[p..][|w| + 1..];
    assert forall k :: p <= k < p + |w| ==> s[k] == s[p..p + |w|][k - p];
  }

  /** A token spelled at p, with a space after it, is what is lexed there. */
  lemma FirstToken(s: string, p: nat, t: Tok<string>)
    requires Printable(t) && p + |Spelling(t)| < |s| && s[p..p + |Spelling(t)|] == Spelling(t) && s[p + |Spelling(t)|] == ' '
    requires forall k :: p <= k < p + |Spelling(t)| ==> s[k] == Spelling(t)[k - p]
    ensures Skip(s, p) == p && TokEnd(s, p) == p + |Spelling(t)| && MapTok(TextOf(s), TokAt(s, p)) == t
  {
    var w := Spelling(t);
    assert s[p] == w[0];
    if t.Word? { WordEndUnique(s, p, p + |w|); }
  }

  lemma LexStep(s: string, p: nat)
    requires p < |s| && Skip(s, p) == p && TokEnd(s, p) < |s| && s[TokEnd(s, p)] == ' '
    ensures Lex(s, p) == [TokAt(s, p)] + Lex(s, TokEnd(s, p) + 1)
  {
    var e := TokEnd(s, p);
    assert Skip(s, e) == Skip(s, e + 1);
    assert Lex(s, e) == Lex(s, e + 1);
  }

  /** The tokens of the rendered string are the tokens rendered. */
  lemma {:induction false} LexRender(s: string, p: nat, ts: seq<Tok<string>>)
    requires p <= |s| && s[p..] == Render(ts) && AllPrintable(ts)
    ensures MapToks(TextOf(s), Lex(s, p)) == ts
    decreases |ts|
  {
    hide TokEnd, TokAt, Spelling, Printable, Lex, Skip, TextOf, MapTok;
    if ts == [] {
      LexEmpty(s, |s|);
    } else {
      var t := ts[0];
      Layout(s, p, Spelling(t), Render(ts[1..]));
      FirstToken(s, p, t);
      LexStep(s, p);
      var e := p + |Spelling(t)|;
      LexRender(s, e + 1, ts[1..]);
      assert ts == [t] + ts[1..];
      MapCons(TextOf(s), TokAt(s, p), Lex(s, e + 1));
    }
  }

  function Print(c: Cmd<string>): string { Render(PrintLine(c)) }

  /** Every command with at most nine words per exec: printed and parsed again, it is the same command. */
  lemma RoundTripText(c: Cmd<string>)
    requires WellFormed(c)
    ensures var s := Print(c);
      var r := ParseAll(Lex(s, 0));
      r.Ok? && MapCmd(TextOf(s), r.value) == c
  {
    var s := Print(c);
    assert s[0..] == s;
    PrintedPrintable(c);
    LexRender(s, 0, PrintLine(c));
    WellFormedSized(c);
    RoundTrip(c);
    ParseMap(TextOf(s), Lex(s, 0));
  }

  // ---- Words of a tree ----

  ghost predicate AllWords(c: Cmd<Span>, s: string) {
    match c
    case Exec(ws) => forall i :: 0 <= i < |ws| ==> IsWordSpan(s, ws[i])
    case Redir(d, r) => AllWords(d, s) && IsWordSpan(s, r.file)
    case Pipe(l, r) => AllWords(l, s) && AllWords(r, s)
    case List(l, r) => AllWords(l, s) && AllWords(r, s)
    case Back(d) => AllWords(d, s)
  }

  /** Keeps whole words and sends everything else to d. */
  function Keep(s: string, d: Span): Span -> Span { (w: Span) => if IsWordSpan(s, w) then w else d }

  lemma {:induction false} FixedAreWords(s: string, c: Cmd<Span>, d: Span, e: Span)
    requires d != e && MapCmd(Keep(s, d), c) == c && MapCmd(Keep(s, e), c) == c
    ensures AllWords(c, s)
    decreases c
  {
    match c
    case Exec(ws) =>
      assert MapWords(Keep(s, d), ws) == ws && MapWords(Keep(s, e), ws) == ws;
      forall i | 0 <= i < |ws| ensures IsWordSpan(s, ws[i]) {
        assert MapWords(Keep(s, d), ws)[i] == Keep(s, d)(ws[i]) && MapWords(Keep(s, e), ws)[i] == Keep(s, e)(ws[i]);
      }
    case Redir(b, r) =>
      FixedAreWords(s, b, d, e);
      assert MapRedir(Keep(s, d), r) == r && MapRedir(Keep(s, e), r) == r;
    case Pipe(l, r) => FixedAreWords(s, l, d, e); FixedAreWords(s, r, d, e);
    case List(l, r) => FixedAreWords(s, l, d, e); FixedAreWords(s, r, d, e);
    case Back(b) => FixedAreWords(s, b, d, e);
  }

  /** Every word of the tree is a whole word of the buffer. */
  lemma ParsedWords(s: string)
    ensures var r := ParseAll(Lex(s, 0)); r.Ok? ==> AllWords(r.value, s)
  {
    hide ParseLine;
    var ts := Lex(s, 0);
    LexWords(s, 0);
    var d, e := Span(0, 0), Span(0, 1);
    assert MapToks(Keep(s, d), ts) == ts by { KeepToks(s, d, ts); }
    assert MapToks(Keep(s, e), ts) == ts by { KeepToks(s, e, ts); }
    ParseMap(Keep(s, d), ts);
    ParseMap(Keep(s, e), ts);
    var r := ParseAll(ts);
    if r.Ok? { FixedAreWords(s, r.value, d, e); }
  }

  lemma KeepToks(s: string, d: Span, ts: seq<Tok<Span>>)
    requires forall i :: 0 <= i < |ts| ==> TokOk(s, ts[i])
    ensures MapToks(Keep(s, d), ts) == ts
  {
    forall i | 0 <= i < |ts| ensures MapTok(Keep(s, d), ts[i]) == ts[i] { assert TokOk(s, ts[i]); }
  }

  // ---- NUL termination ----

  /** Some word of the tree ends at k. */
  predicate EndsAt(c: Cmd<Span>, k: nat) {
    match c
    case Exec(ws) => exists i :: 0 <= i < |ws| && ws[i].eq == k
    case Redir(d, r) => EndsAt(d, k) || r.file.eq == k
    case Pipe(l, r) => EndsAt(l, k) || EndsAt(r, k)
    case List(l, r) => EndsAt(l, k) || EndsAt(r, k)
    case Back(d) => EndsAt(d, k)
  }

  /** nulterminate writes a NUL at the end of every word of the tree, and nowhere else. */
  method NulTerminate(c: Cmd<Span>, s: string, buf: array<char>)
    requires AllWords(c, s) && buf.Length == |s| + 1
    modifies buf
    ensures forall k :: 0 <= k < buf.Length ==> buf[k] == (if EndsAt(c, k) then '\0' else old(buf[k]))
    decreases c
  {
    match c
    case Exec(ws) =>
      var i := 0;
      while i < |ws|
        invariant i <= |ws|
        invariant forall k :: 0 <= k < buf.Length ==> buf[k] == (if EndsAt(Exec(ws[..i]), k) then '\0' else old(buf[k]))
      {
        forall k: nat ensures EndsAt(Exec(ws[..i + 1]), k) == (EndsAt(Exec(ws[..i]), k) || ws[i].eq == k) {
          EndsMore(ws, i, k);
        }
        buf[ws[i].eq] := '\0';
        i := i + 1;
      }
      assert ws[..|ws|] == ws;
    case Redir(d, r) =>
      NulTerminate(d, s, buf);
      buf[r.file.eq] := '\0';
    case Pipe(l, r) =>
      NulTerminate(l, s, buf);
      NulTerminate(r, s, buf);
    case List(l, r) =>
      NulTerminate(l, s, buf);
      NulTerminate(r, s, buf);
    case Back(d) =>
      NulTerminate(d, s, buf);
  }

  lemma EndsMore(ws: seq<Span>, i: nat, k: nat)
    requires i < |ws|
    ensures EndsAt(Exec(ws[..i + 1]), k) == (EndsAt(Exec(ws[..i]), k) || ws[i].eq == k)
  {
    var a, b := ws[..i], ws[..i + 1];
    assert b[i] == ws[i] && forall j :: 0 <= j < i ==> a[j] == b[j];
  }

  lemma {:induction false} EndsOutside(c: Cmd<Span>, s: string, k: nat)
    requires AllWords(c, s) && EndsAt(c, k)
    ensures k <= |s| && (k < |s| ==> !IsWordChar(s[k]))
    decreases c
  {
    match c
    case Exec(ws) =>
    case Redir(d, r) => if EndsAt(d, k) { EndsOutside(d, s, k); }
    case Pipe(l, r) => if EndsAt(l, k) { EndsOutside(l, s, k); } else { EndsOutside(r, s, k); }
    case List(l, r) => if EndsAt(l, k) { EndsOutside(l, s, k); } else { EndsOutside(r, s, k); }
    case Back(d) => EndsOutside(d, s, k);
  }

  /** The C string at q is t. */
  predicate CString(b: seq<char>, q: nat, t: string) {
    q + |t| < |b| && b[q..q + |t|] == t && b[q + |t|] == '\0' && '\0' !in t
  }

  ghost predicate HasWord(c: Cmd<Span>, w: Span) {
    match c
    case Exec(ws) => w in ws
    case Redir(d, r) => HasWord(d, w) || r.file == w
    case Pipe(l, r) => HasWord(l, w) || HasWord(r, w)
    case List(l, r) => HasWord(l, w) || HasWord(r, w)
    case Back(d) => HasWord(d, w)
  }

  lemma {:induction false} WordOfTree(c: Cmd<Span>, s: string, w: Span)
    requires AllWords(c, s) && HasWord(c, w)
    ensures IsWordSpan(s, w) && EndsAt(c, w.eq)
    decreases c
  {
    match c
    case Exec(ws) =>
      var i :| 0 <= i < |ws| && ws[i] == w;
      assert ws[i].eq == w.eq;
    case Redir(d, r) => if HasWord(d, w) { WordOfTree(d, s, w); }
    case Pipe(l, r) => if HasWord(l, w) { WordOfTree(l, s, w); } else { WordOfTree(r, s, w); }
    case List(l, r) => if HasWord(l, w) { WordOfTree(l, s, w); } else { WordOfTree(r, s, w); }
    case Back(d) => WordOfTree(d, s, w);
  }

  /** No write lands inside a word, so each word of the tree is terminated and intact. */
  lemma WordsIntact(c: Cmd<Span>, s: string, b: seq<char>, w: Span)
    requires AllWords(c, s) && HasWord(c, w) && |b| == |s| + 1 && '\0' !in s
    requires forall k :: 0 <= k < |b| ==> b[k] == (if EndsAt(c, k) || k == |s| then '\0' else s[k])
    ensures CString(b, w.q, TextOf(s)(w))
  {
    WordOfTree(c, s, w);
    var t := s[w.q..w.eq];
    forall k | w.q <= k < w.eq ensures b[k] == s[k] {
      if EndsAt(c, k) { EndsOutside(c, s, k); }
    }
    assert b[w.q..w.eq] == t;
  }

  /** parsecmd: a panic leaves the buffer alone; otherwise the tree is the grammar's, and each of its words is, in the
      buffer, the C string it was in the input. */
  method ParseCmd(buf: array<char>) returns (r: Parsed<Cmd<Span>>)
    requires buf.Length > 0 && buf[buf.Length - 1] == '\0' && '\0' !in buf[..buf.Length - 1]
    modifies buf
    ensures var s := old(buf[..buf.Length - 1]);
      var spec := ParseAll(Lex(s, 0));
      && (r.Failed? ==> spec.Panic? && buf[..] == old(buf[..]))
      && (r.Got? ==> spec == Ok(r.value, []) && forall w :: HasWord(r.value, w) ==> CString(buf[..], w.q, TextOf(s)(w)))
  {
    hide ParseAll, Lex;
    var s := buf[..buf.Length - 1];
    var parser := new Parser(s);
    r := parser.ParseCommand();
    if r.Failed? { return; }
    ParsedWords(s);
    NulTerminate(r.value, s, buf);
    ghost var b := buf[..];
    forall w | HasWord(r.value, w) ensures CString(b, w.q, TextOf(s)(w)) { WordsIntact(r.value, s, b, w); }
  }
}

/** The grammar of `sh.c`'s parser on a list of tokens: a recursive descent with the code's precedence, and a
    printer that it inverts. `W` is what stands for a word: its text, or its place in the buffer. */
module ShellGrammar {

  const MAXARGS := 10

  datatype Tok<W> = Sym(c: char) | Word(w: W)

  /** `out` tells output redirections, which `>` and `>>` alike become, from input ones. */
  datatype Redirection<W> = Redirection(file: W, out: bool)

  datatype Cmd<W> =
    | Exec(argv: seq<W>)
    | Redir(cmd: Cmd<W>, r: Redirection<W>)
    | Pipe(left: Cmd<W>, right: Cmd<W>)
    | List(left: Cmd<W>, right: Cmd<W>)
    | Back(cmd: Cmd<W>)

  /** A panic, or what was parsed and the tokens after it. */
  datatype Result<V, W> = Panic | Ok(value: V, rest: seq<Tok<W>>)

  predicate NextIs<W>(ts: seq<Tok<W>>, cs: string) { |ts| > 0 && ts[0].Sym? && ts[0].c in cs }

  /** The redirections wrapped around a command, the first one innermost. */
  function Wrap<W>(c: Cmd<W>, rs: seq<Redirection<W>>): Cmd<W>
    decreases |rs|
  {
    if rs == [] then c else Redir(Wrap(c, rs[..|rs| - 1]), rs[|rs| - 1])
  }

  // ---- The parser ----

  /** parseredirs. */
  function Redirs<W>(ts: seq<Tok<W>>): (r: Result<seq<Redirection<W>>, W>)
    ensures r.Ok? ==> |r.rest| <= |ts| && !NextIs(r.rest, "<>+")
    decreases |ts|
  {
    if !NextIs(ts, "<>+") then Ok([], ts)
    else if |ts| < 2 || !ts[1].Word? then Panic
    else
      var more := Redirs(ts[2..]);
      if more.Panic? then Panic
      else Ok([Redirection(ts[1].w, ts[0].c != '<')] + more.value, more.rest)
  }

  /** The words and redirections of one exec. */
  datatype Simple<W> = Simple(argv: seq<W>, redirs: seq<Redirection<W>>)

  /** parseexec's loop, with what it has collected. */
  function ExecLoop<W>(sofar: Simple<W>, ts: seq<Tok<W>>): (r: Result<Simple<W>, W>)
    ensures r.Ok? ==> |r.rest| <= |ts| && (r.rest == [] || NextIs(r.rest, "|)&;"))
    decreases |ts|
  {
    if ts == [] || NextIs(ts, "|)&;") then Ok(sofar, ts)
    else if !ts[0].Word? then Panic
    else if |sofar.argv| + 1 >= MAXARGS then Panic
    else
      var more := Redirs(ts[1..]);
      if more.Panic? then Panic
      else ExecLoop(Simple(sofar.argv + [ts[0].w], sofar.redirs + more.value), more.rest)
  }

  function ParseExec<W>(ts: seq<Tok<W>>): (r: Result<Cmd<W>, W>)
    ensures r.Ok? ==> |r.rest| <= |ts|
    decreases |ts|, 1
  {
    if NextIs(ts, "(") then ParseBlock(ts)
    else
      var first := Redirs(ts);
      if first.Panic? then Panic
      else
        var all := ExecLoop(Simple([], first.value), first.rest);
        if all.Panic? then Panic else Ok(Wrap(Exec(all.value.argv), all.value.redirs), all.rest)
  }

  function ParseBlock<W>(ts: seq<Tok<W>>): (r: Result<Cmd<W>, W>)
    requires NextIs(ts, "(")
    ensures r.Ok? ==> |r.rest| < |ts|
    decreases |ts|, 0
  {
    var line := ParseLine(ts[1..]);
    if line.Panic? || !NextIs(line.rest, ")") then Panic
    else
      var rs := Redirs(line.rest[1..]);
      if rs.Panic? then Panic else Ok(Wrap(line.value, rs.value), rs.rest)
  }

  function ParsePipe<W>(ts: seq<Tok<W>>): (r: Result<Cmd<W>, W>)
    ensures r.Ok? ==> |r.rest| <= |ts|
    decreases |ts|, 2
  {
    var left := ParseExec(ts);
    if left.Panic? || !NextIs(left.rest, "|") then left
    else
      var right := ParsePipe(left.rest[1..]);
      if right.Panic? then Panic else Ok(Pipe(left.value, right.value), right.rest)
  }

  /** parseline's loop over `&`. */
  function Backs<W>(c: Cmd<W>, ts: seq<Tok<W>>): (r: Result<Cmd<W>, W>)
    ensures r.Ok? && |r.rest| <= |ts| && !NextIs(r.rest, "&")
    decreases |ts|
  {
    if NextIs(ts, "&") then Backs(Back(c), ts[1..]) else Ok(c, ts)
  }

  function ParseLine<W>(ts: seq<Tok<W>>): (r: Result<Cmd<W>, W>)
    ensures r.Ok? ==> |r.rest| <= |ts|
    decreases |ts|, 4
  {
    var pipe := ParsePipe(ts);
    if pipe.Panic? then Panic else AfterBacks(ts, Backs(pipe.value, pipe.rest))
  }

  /** parseline's end: a `;` and another line, or nothing. */
  function AfterBacks<W>(ts: seq<Tok<W>>, left: Result<Cmd<W>, W>): (r: Result<Cmd<W>, W>)
    requires left.Ok? && |left.rest| <= |ts|
    ensures r.Ok? ==> |r.rest| <= |ts|
    decreases |ts|, 3
  {
    if !NextIs(left.rest, ";") then left
    else
      var right := ParseLine(left.rest[1..]);
      if right.Panic? then Panic else Ok(List(left.value, right.value), right.rest)
  }

  /** parsecmd, on the tokens of the whole buffer. */
  function ParseAll<W>(ts: seq<Tok<W>>): Result<Cmd<W>, W> {
    var r := ParseLine(ts);
    if r.Ok? && r.rest == [] then r else Panic
  }

  // ---- The printer ----

  function WordToks<W>(ws: seq<W>): seq<Tok<W>> { if ws == [] then [] else [Word(ws[0])] + WordToks(ws[1..]) }

  function RedirToks<W>(r: Redirection<W>): seq<Tok<W>> { [Sym(if r.out then '>' else '<'), Word(r.file)] }

  /** A command where an exec or a block may stand, with its redirections. */
  function PrintExec<W>(c: Cmd<W>): seq<Tok<W>>
    decreases c, 1
  {
    match c
    case Exec(ws) => WordToks(ws)
    case Redir(d, r) => PrintExec(d) + RedirToks(r)
    case Pipe(l, r) => [Sym('(')] + (PrintPipe(c) + [Sym(')')])
    case Back(d) => [Sym('(')] + (PrintBack(c) + [Sym(')')])
    case List(l, r) => [Sym('(')] + (PrintBack(l) + ([Sym(';')] + PrintLine(r)) + [Sym(')')])
  }

  function PrintPipe<W>(c: Cmd<W>): seq<Tok<W>>
    decreases c, if c.Pipe? then 0 else 2
  {
    if c.Pipe? then PrintExec(c.left) + ([Sym('|')] + PrintPipe(c.right)) else PrintExec(c)
  }

  function PrintBack<W>(c: Cmd<W>): seq<Tok<W>>
    decreases c, if c.Back? then 0 else 3
  {
    if c.Back? then PrintBack(c.cmd) + [Sym('&')] else PrintPipe(c)
  }

  function PrintLine<W>(c: Cmd<W>): seq<Tok<W>>
    decreases c, 4
  {
    if c.List? then PrintBack(c.left) + ([Sym(';')] + PrintLine(c.right)) else PrintBack(c)
  }

  /** Every exec has room for its words. */
  predicate Sized<W>(c: Cmd<W>) {
    match c
    case Exec(ws) => |ws| < MAXARGS
    case Redir(d, r) => Sized(d)
    case Pipe(l, r) => Sized(l) && Sized(r)
    case List(l, r) => Sized(l) && Sized(r)
    case Back(d) => Sized(d)
  }

  predicate Ends<W>(ts: seq<Tok<W>>, cs: string) { ts == [] || NextIs(ts, cs) }

  lemma PrintExecIs<W>(c: Cmd<W>)
    requires c.Pipe? || c.Back? || c.List?
    ensures PrintExec(c) == [Sym('(')] + (PrintLine(c) + [Sym(')')])
  {}

  // ---- The parser inverts the printer ----

  /** The redirections around a command, and what they are around. */
  function Inside<W>(c: Cmd<W>): Cmd<W> { if c.Redir? then Inside(c.cmd) else c }

  function Around<W>(c: Cmd<W>): seq<Redirection<W>> { if c.Redir? then Around(c.cmd) + [c.r] else [] }

  function AllRedirToks<W>(rs: seq<Redirection<W>>): seq<Tok<W>> {
    if rs == [] then [] else RedirToks(rs[0]) + AllRedirToks(rs[1..])
  }

  lemma {:induction false} AllRedirAppend<W>(rs: seq<Redirection<W>>, r: Redirection<W>)
    ensures AllRedirToks(rs + [r]) == AllRedirToks(rs) + RedirToks(r)
    decreases |rs|
  {
    if rs == [] {
      assert [] + [r] == [r] && [r][1..] == [];
    } else {
      assert (rs + [r])[1..] == rs[1..] + [r];
      AllRedirAppend(rs[1..], r);
    }
  }

  lemma {:induction false} Unwrapped<W>(c: Cmd<W>)
    ensures Wrap(Inside(c), Around(c)) == c && !Inside(c).Redir?
    ensures PrintExec(c) == PrintExec(Inside(c)) + AllRedirToks(Around(c))
    ensures Sized(c) ==> Sized(Inside(c))
    decreases c
  {
    if c.Redir? {
      Unwrapped(c.cmd);
      AllRedirAppend(Around(c.cmd), c.r);
      assert Around(c)[..|Around(c)| - 1] == Around(c.cmd);
    }
  }

  lemma {:induction false} RedirsPrinted<W>(rs: seq<Redirection<W>>, rest: seq<Tok<W>>)
    requires !NextIs(rest, "<>+")
    ensures Redirs(AllRedirToks(rs) + rest) == Ok(rs, rest)
    decreases |rs|
  {
    if rs == [] {
      assert AllRedirToks(rs) + rest == rest;
    } else {
      RedirsPrinted(rs[1..], rest);
      assert AllRedirToks(rs) + rest == RedirToks(rs[0]) + (AllRedirToks(rs[1..]) + rest);
      RedirsCons(rs[0], AllRedirToks(rs[1..]) + rest);
      assert [rs[0]] + rs[1..] == rs;
    }
  }

  lemma RedirsCons<W>(r: Redirection<W>, ts: seq<Tok<W>>)
    requires Redirs(ts).Ok?
    ensures Redirs(RedirToks(r) + ts) == Ok([r] + Redirs(ts).value, Redirs(ts).rest)
  {
    var us := RedirToks(r) + ts;
    assert us[0] == RedirToks(r)[0] && us[1] == Word(r.file) && us[2..] == ts;
  }

  lemma NoRedirs<W>(ts: seq<Tok<W>>)
    requires !NextIs(ts, "<>+")
    ensures Redirs(ts) == Ok([], ts)
  {}

  /** Words, then redirections, are collected in order. */
  lemma {:induction false} ExecLoopPrinted<W>(a: seq<W>, ws: seq<W>, rs: seq<Redirection<W>>, rest: seq<Tok<W>>)
    requires |a| + |ws| < MAXARGS && Ends(rest, "|)&;") && |ws| > 0
    ensures ExecLoop(Simple(a, []), WordToks(ws) + (AllRedirToks(rs) + rest)) == Ok(Simple(a + ws, rs), rest)
    decreases |ws|
  {
    var ts := WordToks(ws) + (AllRedirToks(rs) + rest);
    assert ts[0] == Word(ws[0]) && ts[1..] == WordToks(ws[1..]) + (AllRedirToks(rs) + rest);
    assert a + ws == (a + [ws[0]]) + ws[1..];
    if |ws| == 1 {
      assert ts[1..] == AllRedirToks(rs) + rest;
      RedirsPrinted(rs, rest);
      assert a + ws == a + [ws[0]] && [] + rs == rs;
    } else {
      assert ts[1] == Word(ws[1]);
      NoRedirs(ts[1..]);
      ExecLoopPrinted(a + [ws[0]], ws[1..], rs, rest);
      var e: seq<Redirection<W>> := [];
      assert e + e == e;
    }
  }

  lemma ExecBody<W>(ts: seq<Tok<W>>, first: seq<Redirection<W>>, mid: seq<Tok<W>>, all: Simple<W>, rest: seq<Tok<W>>)
    requires !NextIs(ts, "(") && Redirs(ts) == Ok(first, mid) && ExecLoop(Simple([], first), mid) == Ok(all, rest)
    ensures ParseExec(ts) == Ok(Wrap(Exec(all.argv), all.redirs), rest)
  {
    hide Redirs, ExecLoop, Wrap;
  }

  lemma SimplePrinted<W>(ws: seq<W>, rs: seq<Redirection<W>>, rest: seq<Tok<W>>)
    requires |ws| < MAXARGS && Ends(rest, "|)&;")
    ensures ParseExec(WordToks(ws) + AllRedirToks(rs) + rest) == Ok(Wrap(Exec(ws), rs), rest)
  {
    hide Redirs, ExecLoop, Wrap, ParseExec, AllRedirToks;
    var ts := WordToks(ws) + AllRedirToks(rs) + rest;
    assert ts == WordToks(ws) + (AllRedirToks(rs) + rest);
    if ws == [] {
      assert ts == AllRedirToks(rs) + rest;
      FirstRedir(rs, rest);
      RedirsPrinted(rs, rest);
      LoopStops(Simple([], rs), rest);
      ExecBody(ts, rs, rest, Simple(ws, rs), rest);
    } else {
      assert ts[0] == Word(ws[0]);
      NoRedirs(ts);
      ExecLoopPrinted([], ws, rs, rest);
      assert [] + ws == ws;
      ExecBody(ts, [], ts, Simple(ws, rs), rest);
    }
  }

  lemma LoopStops<W>(sofar: Simple<W>, ts: seq<Tok<W>>)
    requires Ends(ts, "|)&;")
    ensures ExecLoop(sofar, ts) == Ok(sofar, ts)
  {}

  lemma FirstRedir<W>(rs: seq<Redirection<W>>, rest: seq<Tok<W>>)
    requires Ends(rest, "|)&;")
    ensures !NextIs(AllRedirToks(rs) + rest, "(")
  {
    if rs != [] { assert (AllRedirToks(rs) + rest)[0] == RedirToks(rs[0])[0]; }
    else { assert AllRedirToks(rs) + rest == rest; }
  }

  /** A block: the line inside is parsed and the redirections wrapped around it. */
  lemma BlockPrinted<W>(c: Cmd<W>, rs: seq<Redirection<W>>, rest: seq<Tok<W>>)
    requires Ends(rest, "|)&;")
    requires var after := [Sym(')')] + (AllRedirToks(rs) + rest); ParseLine(PrintLine(c) + after) == Ok(c, after)
    ensures ParseExec([Sym('(')] + (PrintLine(c) + [Sym(')')]) + AllRedirToks(rs) + rest) == Ok(Wrap(c, rs), rest)
  {
    hide Redirs, AllRedirToks, PrintLine, ParseLine, Wrap;
    var after := [Sym(')')] + (AllRedirToks(rs) + rest);
    var ts := [Sym('(')] + (PrintLine(c) + [Sym(')')]) + AllRedirToks(rs) + rest;
    assert ts == [Sym('(')] + (PrintLine(c) + after);
    assert ts[0] == Sym('(') && ts[1..] == PrintLine(c) + after;
    assert after[0] == Sym(')') && after[1..] == AllRedirToks(rs) + rest;
    RedirsPrinted(rs, rest);
  }

  lemma {:induction false} ExecPrinted<W>(c: Cmd<W>, rest: seq<Tok<W>>)
    requires Sized(c) && Ends(rest, "|)&;")
    ensures ParseExec(PrintExec(c) + rest) == Ok(c, rest)
    decreases c, 1
  {
    Unwrapped(c);
    var d, rs := Inside(c), Around(c);
    if d.Exec? {
      SimplePrinted(d.argv, rs, rest);
    } else {
      var after := [Sym(')')] + (AllRedirToks(rs) + rest);
      InsideSmaller(c);
      if d.List? {
        BackPrinted(d.left, [Sym(';')] + (PrintLine(d.right) + after));
        LinePrinted(d.right, after);
        ListJoin(d, after);
      } else if d.Back? {
        BackPrinted(d.cmd, [Sym('&')] + after);
        BackJoin(d, after);
      } else {
        ExecPrinted(d.left, [Sym('|')] + (PrintPipe(d.right) + after));
        PipePrinted(d.right, after);
        PipeJoin(d, after);
        LineOfPipe(d, after);
      }
      PrintExecIs(d);
      BlockPrinted(d, rs, rest);
    }
  }

  lemma {:induction false} InsideSmaller<W>(c: Cmd<W>)
    ensures Inside(c) == c || Inside(c) < c
    decreases c
  {
    if c.Redir? { InsideSmaller(c.cmd); }
  }

  lemma PipeJoin<W>(c: Cmd<W>, rest: seq<Tok<W>>)
    requires c.Pipe? && ParsePipe(PrintPipe(c.right) + rest) == Ok(c.right, rest)
    requires var bar := [Sym('|')] + (PrintPipe(c.right) + rest); ParseExec(PrintExec(c.left) + bar) == Ok(c.left, bar)
    ensures ParsePipe(PrintPipe(c) + rest) == Ok(c, rest)
  {
    var bar := [Sym('|')] + (PrintPipe(c.right) + rest);
    assert PrintPipe(c) + rest == PrintExec(c.left) + bar;
    assert bar[1..] == PrintPipe(c.right) + rest;
  }

  lemma {:induction false} PipePrinted<W>(c: Cmd<W>, rest: seq<Tok<W>>)
    requires Sized(c) && Ends(rest, ")&;")
    ensures ParsePipe(PrintPipe(c) + rest) == Ok(c, rest)
    decreases c, 2
  {
    if c.Pipe? {
      ExecPrinted(c.left, [Sym('|')] + (PrintPipe(c.right) + rest));
      PipePrinted(c.right, rest);
      PipeJoin(c, rest);
    } else {
      ExecPrinted(c, rest);
    }
  }

  /** parsepipe followed by the loop over `&`. */
  function PipeBacks<W>(ts: seq<Tok<W>>): Result<Cmd<W>, W> {
    var p := ParsePipe(ts);
    if p.Panic? then Panic else Backs(p.value, p.rest)
  }

  lemma BackJoin<W>(c: Cmd<W>, rest: seq<Tok<W>>)
    requires c.Back? && !NextIs(rest, ";") && PipeBacks(PrintBack(c.cmd) + ([Sym('&')] + rest)) == Backs(c.cmd, [Sym('&')] + rest)
    ensures PipeBacks(PrintBack(c) + rest) == Backs(c, rest)
    ensures !NextIs(rest, "&") ==> ParseLine(PrintLine(c) + rest) == Ok(c, rest)
  {
    var amp := [Sym('&')] + rest;
    assert PrintBack(c) + rest == PrintBack(c.cmd) + amp;
    assert amp[0] == Sym('&') && amp[1..] == rest;
  }

  lemma {:induction false} BackPrinted<W>(c: Cmd<W>, rest: seq<Tok<W>>)
    requires Sized(c) && Ends(rest, ")&;")
    ensures PipeBacks(PrintBack(c) + rest) == Backs(c, rest)
    decreases c, 3
  {
    if c.Back? {
      var amp := [Sym('&')] + rest;
      BackPrinted(c.cmd, amp);
      assert PrintBack(c) + rest == PrintBack(c.cmd) + amp;
      assert amp[0] == Sym('&') && amp[1..] == rest;
    } else {
      PipePrinted(c, rest);
    }
  }

  lemma LineOfPipe<W>(c: Cmd<W>, rest: seq<Tok<W>>)
    requires !c.List? && !c.Back? && ParsePipe(PrintPipe(c) + rest) == Ok(c, rest) && Ends(rest, ")")
    ensures ParseLine(PrintLine(c) + rest) == Ok(c, rest)
  {}

  lemma ListJoin<W>(c: Cmd<W>, rest: seq<Tok<W>>)
    requires c.List? && ParseLine(PrintLine(c.right) + rest) == Ok(c.right, rest)
    requires var semi := [Sym(';')] + (PrintLine(c.right) + rest); PipeBacks(PrintBack(c.left) + semi) == Backs(c.left, semi)
    ensures ParseLine(PrintLine(c) + rest) == Ok(c, rest)
  {
    var semi := [Sym(';')] + (PrintLine(c.right) + rest);
    assert PrintLine(c) + rest == PrintBack(c.left) + semi;
    assert semi[0] == Sym(';') && semi[1..] == PrintLine(c.right) + rest;
  }

  /** Printing a command and parsing the tokens gives the command back, before any closing parenthesis. */
  lemma {:induction false} LinePrinted<W>(c: Cmd<W>, rest: seq<Tok<W>>)
    requires Sized(c) && Ends(rest, ")")
    ensures ParseLine(PrintLine(c) + rest) == Ok(c, rest)
    decreases c, 4
  {
    if c.List? {
      BackPrinted(c.left, [Sym(';')] + (PrintLine(c.right) + rest));
      LinePrinted(c.right, rest);
      ListJoin(c, rest);
    } else if c.Back? {
      BackPrinted(c.cmd, [Sym('&')] + rest);
      BackJoin(c, rest);
    } else {
      PipePrinted(c, rest);
      LineOfPipe(c, rest);
    }
  }

  /** parsecmd inverts the printer on every command with at most nine words in each exec. */
  lemma RoundTrip<W>(c: Cmd<W>)
    requires Sized(c)
    ensures ParseAll(PrintLine(c)) == Ok(c, [])
  {
    LinePrinted(c, []);
    assert PrintLine(c) + [] == PrintLine(c);
  }
}

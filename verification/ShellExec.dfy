/** One exec of the shell as it may be typed: words and redirections in any order, each redirection spelled
    `<`, `>` or `>>`. */
module ShellExec {
  import opened ShellGrammar

  datatype Item<W> = Arg(w: W) | Into(op: char, file: W)

  predicate Spelled<W>(items: seq<Item<W>>) { forall i :: 0 <= i < |items| && items[i].Into? ==> items[i].op in "<>+" }

  function ItemTok<W>(x: Item<W>): seq<Tok<W>> { if x.Arg? then [Word(x.w)] else [Sym(x.op), Word(x.file)] }

  function Typed<W>(items: seq<Item<W>>): seq<Tok<W>> {
    if items == [] then [] else ItemTok(items[0]) + Typed(items[1..])
  }

  /** The words, in order. */
  function Words<W>(items: seq<Item<W>>): seq<W> {
    if items == [] then [] else (if items[0].Arg? then [items[0].w] else []) + Words(items[1..])
  }

  /** The redirections, in order: `<` reads, the other two write. */
  function Redirections<W>(items: seq<Item<W>>): seq<Redirection<W>> {
    if items == [] then []
    else (if items[0].Into? then [Redirection(items[0].file, items[0].op != '<')] else []) + Redirections(items[1..])
  }

  /** How many redirections come before the first word. */
  function Lead<W>(items: seq<Item<W>>): (n: nat)
    ensures n <= |items| && (n < |items| ==> items[n].Arg?)
  {
    if items == [] || items[0].Arg? then 0 else 1 + Lead(items[1..])
  }

  lemma TypedFirst<W>(items: seq<Item<W>>, rest: seq<Tok<W>>)
    requires items != []
    ensures Typed(items) + rest == ItemTok(items[0]) + (Typed(items[1..]) + rest)
  {}

  lemma EndsNoRedir<W>(rest: seq<Tok<W>>)
    requires Ends(rest, "|)&;")
    ensures !NextIs(rest, "<>+") && !NextIs(rest, "(")
  {}

  /** parseredirs takes the redirections up to the next word. */
  lemma {:induction false} LeadParsed<W>(items: seq<Item<W>>, rest: seq<Tok<W>>)
    requires Spelled(items) && Ends(rest, "|)&;")
    ensures var n := Lead(items);
      Redirs(Typed(items) + rest) == Ok(Redirections(items[..n]), Typed(items[n..]) + rest)
    decreases |items|
  {
    var n := Lead(items);
    if items == [] {
      EndsNoRedir(rest);
      assert Typed(items) + rest == rest;
    } else if items[0].Arg? {
      TypedFirst(items, rest);
      assert items[n..] == items;
    } else {
      LeadParsed(items[1..], rest);
      TypedFirst(items, rest);
      var ts := Typed(items) + rest;
      assert ts[0] == Sym(items[0].op) && ts[1] == Word(items[0].file) && ts[2..] == Typed(items[1..]) + rest;
      assert items[1..][..n - 1] == items[..n][1..] && items[1..][n - 1..] == items[n..];
    }
  }

  /** The redirections before the first word are not words. */
  lemma {:induction false} LeadSplit<W>(items: seq<Item<W>>)
    ensures var n := Lead(items);
      Words(items) == Words(items[n..]) && Redirections(items) == Redirections(items[..n]) + Redirections(items[n..])
    decreases |items|
  {
    var n := Lead(items);
    if n == 0 {
      assert items[n..] == items;
    } else {
      LeadSplit(items[1..]);
      assert items[1..][..n - 1] == items[..n][1..] && items[1..][n - 1..] == items[n..];
    }
  }

  /** What parseexec's loop makes of the items, given what it has. */
  function Collected<W>(sofar: Simple<W>, items: seq<Item<W>>, rest: seq<Tok<W>>): Result<Simple<W>, W> {
    if |sofar.argv| + |Words(items)| >= MAXARGS then Panic
    else Ok(Simple(sofar.argv + Words(items), sofar.redirs + Redirections(items)), rest)
  }

  lemma LoopWord<W>(sofar: Simple<W>, w: W, ts: seq<Tok<W>>, more: seq<Redirection<W>>, rest: seq<Tok<W>>)
    requires Redirs(ts) == Ok(more, rest)
    ensures ExecLoop(sofar, [Word(w)] + ts) ==
      if |sofar.argv| + 1 >= MAXARGS then Panic else ExecLoop(Simple(sofar.argv + [w], sofar.redirs + more), rest)
  {
    hide Redirs;
    var us := [Word(w)] + ts;
    assert us[0] == Word(w) && us[1..] == ts;
  }

  lemma CollectedWord<W>(sofar: Simple<W>, w: W, tail: seq<Item<W>>, rest: seq<Tok<W>>)
    ensures var n := Lead(tail);
      var next := Simple(sofar.argv + [w], sofar.redirs + Redirections(tail[..n]));
      Collected(sofar, [Arg(w)] + tail, rest) == Collected(next, tail[n..], rest)
  {
    hide Lead;
    LeadSplit(tail);
    var n, items := Lead(tail), [Arg(w)] + tail;
    assert items[0] == Arg(w) && items[1..] == tail;
    assert sofar.argv + [w] + Words(tail) == sofar.argv + Words(items);
    assert sofar.redirs + Redirections(tail[..n]) + Redirections(tail[n..]) == sofar.redirs + Redirections(items);
  }

  lemma {:induction false} LoopParsed<W>(sofar: Simple<W>, items: seq<Item<W>>, rest: seq<Tok<W>>)
    requires Spelled(items) && Ends(rest, "|)&;") && Lead(items) == 0 && |sofar.argv| < MAXARGS
    ensures ExecLoop(sofar, Typed(items) + rest) == Collected(sofar, items, rest)
    decreases |items|, 0
  {
    hide ExecLoop, Redirs, Ends;
    if items == [] {
      assert Typed(items) + rest == rest && Simple(sofar.argv + [], sofar.redirs + []) == sofar;
      LoopStops(sofar, rest);
    } else {
      var w, tail, n := items[0].w, items[1..], Lead(items[1..]);
      assert items == [Arg(w)] + tail;
      TypedFirst(items, rest);
      LeadParsed(tail, rest);
      LoopWord(sofar, w, Typed(tail) + rest, Redirections(tail[..n]), Typed(tail[n..]) + rest);
      if |sofar.argv| + 1 < MAXARGS { LoopRest(sofar, w, tail, rest); }
    }
  }

  lemma {:induction false} LoopRest<W>(sofar: Simple<W>, w: W, tail: seq<Item<W>>, rest: seq<Tok<W>>)
    requires Spelled(tail) && Ends(rest, "|)&;") && |sofar.argv| + 1 < MAXARGS
    ensures var n := Lead(tail);
      var next := Simple(sofar.argv + [w], sofar.redirs + Redirections(tail[..n]));
      ExecLoop(next, Typed(tail[n..]) + rest) == Collected(sofar, [Arg(w)] + tail, rest)
    decreases |tail|, 1
  {
    hide ExecLoop, Collected, Ends, Typed, Words, Redirections;
    var n := Lead(tail);
    LeadZero(tail);
    CollectedWord(sofar, w, tail, rest);
    LoopParsed(Simple(sofar.argv + [w], sofar.redirs + Redirections(tail[..n])), tail[n..], rest);
  }

  lemma LeadZero<W>(items: seq<Item<W>>)
    ensures Lead(items[Lead(items)..]) == 0
  {}

  /** For words and redirections in any order, the tree is the exec of the words in order inside the redirections
      in order; ten words are too many. */
  lemma ExecTyped<W>(items: seq<Item<W>>, rest: seq<Tok<W>>)
    requires Spelled(items) && Ends(rest, "|)&;")
    ensures ParseExec(Typed(items) + rest) ==
      if |Words(items)| >= MAXARGS then Panic else Ok(Wrap(Exec(Words(items)), Redirections(items)), rest)
  {
    hide Redirs, ExecLoop, Wrap;
    var ts, n := Typed(items) + rest, Lead(items);
    NoBlock(items, rest);
    LeadParsed(items, rest);
    LeadSplit(items);
    LeadZero(items);
    LoopParsed(Simple([], Redirections(items[..n])), items[n..], rest);
    assert [] + Words(items) == Words(items);
  }

  lemma NoBlock<W>(items: seq<Item<W>>, rest: seq<Tok<W>>)
    requires Spelled(items) && Ends(rest, "|)&;")
    ensures !NextIs(Typed(items) + rest, "(")
  {
    if items == [] { assert Typed(items) + rest == rest; } else { TypedFirst(items, rest); }
  }

  /** A command that is one exec. */
  lemma ExecAlone<W>(ts: seq<Tok<W>>)
    requires ParseExec(ts).Panic? || ParseExec(ts).rest == []
    ensures ParseAll(ts) == ParseExec(ts)
  {
    hide ParseExec;
    var e := ParseExec(ts);
    assert ParsePipe(ts) == e;
    assert ParseLine(ts) == e;
  }

  /** The same for a whole command line. */
  lemma LineTyped<W>(items: seq<Item<W>>)
    requires Spelled(items)
    ensures ParseAll(Typed(items)) ==
      if |Words(items)| >= MAXARGS then Panic else Ok(Wrap(Exec(Words(items)), Redirections(items)), [])
  {
    hide ParseExec, Wrap, ParseAll;
    ExecTyped(items, []);
    assert Typed(items) + [] == Typed(items);
    ExecAlone(Typed(items));
  }
}

/** What the parser does not look at: replacing every word by another value before parsing or after it is the
    same, and so is spelling any `>>` as `>`. */
module ShellMap {
  import opened ShellGrammar

  function MapTok<A, B>(f: A -> B, t: Tok<A>): Tok<B> { if t.Sym? then Sym(t.c) else Word(f(t.w)) }

  function MapToks<A, B>(f: A -> B, ts: seq<Tok<A>>): (r: seq<Tok<B>>)
    ensures |r| == |ts| && forall i :: 0 <= i < |ts| ==> r[i] == MapTok(f, ts[i])
  {
    seq(|ts|, i requires 0 <= i < |ts| => MapTok(f, ts[i]))
  }

  function MapWords<A, B>(f: A -> B, ws: seq<A>): (r: seq<B>)
    ensures |r| == |ws| && forall i :: 0 <= i < |ws| ==> r[i] == f(ws[i])
  {
    seq(|ws|, i requires 0 <= i < |ws| => f(ws[i]))
  }

  function MapRedir<A, B>(f: A -> B, r: Redirection<A>): Redirection<B> { Redirection(f(r.file), r.out) }

  function MapRedirs<A, B>(f: A -> B, rs: seq<Redirection<A>>): (m: seq<Redirection<B>>)
    ensures |m| == |rs| && forall i :: 0 <= i < |rs| ==> m[i] == MapRedir(f, rs[i])
  {
    seq(|rs|, i requires 0 <= i < |rs| => MapRedir(f, rs[i]))
  }

  function MapCmd<A, B>(f: A -> B, c: Cmd<A>): Cmd<B> {
    match c
    case Exec(ws) => Exec(MapWords(f, ws))
    case Redir(d, r) => Redir(MapCmd(f, d), MapRedir(f, r))
    case Pipe(l, r) => Pipe(MapCmd(f, l), MapCmd(f, r))
    case List(l, r) => List(MapCmd(f, l), MapCmd(f, r))
    case Back(d) => Back(MapCmd(f, d))
  }

  function MapSimple<A, B>(f: A -> B, s: Simple<A>): Simple<B> { Simple(MapWords(f, s.argv), MapRedirs(f, s.redirs)) }

  /** Token u stands for t: the word f gives, or the same symbol, where `>` and `>>` are one. */
  predicate AlikeTok<A, B(==)>(f: A -> B, t: Tok<A>, u: Tok<B>) {
    if t.Word? then u == Word(f(t.w)) else u.Sym? && (u.c == t.c || (t.c in ">+" && u.c in ">+"))
  }

  predicate Alike<A, B(==)>(f: A -> B, ts: seq<Tok<A>>, us: seq<Tok<B>>) {
    |us| == |ts| && forall i :: 0 <= i < |ts| ==> AlikeTok(f, ts[i], us[i])
  }

  lemma MapAlike<A, B>(f: A -> B, ts: seq<Tok<A>>)
    ensures Alike(f, ts, MapToks(f, ts))
  {}

  lemma MapCons<A, B>(f: A -> B, t: Tok<A>, ts: seq<Tok<A>>)
    ensures MapToks(f, [t] + ts) == [MapTok(f, t)] + MapToks(f, ts)
  {}

  lemma AlikeNext<A, B>(f: A -> B, ts: seq<Tok<A>>, us: seq<Tok<B>>, cs: string)
    requires Alike(f, ts, us) && ('>' in cs <==> '+' in cs)
    ensures NextIs(us, cs) == NextIs(ts, cs)
  {
    if ts != [] { assert AlikeTok(f, ts[0], us[0]); }
  }

  lemma AlikeDrop<A, B>(f: A -> B, ts: seq<Tok<A>>, us: seq<Tok<B>>, n: nat)
    requires Alike(f, ts, us) && n <= |ts|
    ensures Alike(f, ts[n..], us[n..])
  {
    forall i | 0 <= i < |ts[n..]| ensures AlikeTok(f, ts[n..][i], us[n..][i]) { assert AlikeTok(f, ts[n + i], us[n + i]); }
  }

  lemma {:induction false} MapWrap<A, B>(f: A -> B, c: Cmd<A>, rs: seq<Redirection<A>>)
    ensures MapCmd(f, Wrap(c, rs)) == Wrap(MapCmd(f, c), MapRedirs(f, rs))
    decreases |rs|
  {
    if rs != [] {
      var init := rs[..|rs| - 1];
      MapWrap(f, c, init);
      assert MapRedirs(f, rs)[..|rs| - 1] == MapRedirs(f, init);
    }
  }

  lemma {:induction false} RedirsMap<A, B>(f: A -> B, ts: seq<Tok<A>>, us: seq<Tok<B>>)
    requires Alike(f, ts, us)
    ensures var r, m := Redirs(ts), Redirs(us);
      if r.Panic? then m.Panic? else m.Ok? && m.value == MapRedirs(f, r.value) && Alike(f, r.rest, m.rest)
    decreases |ts|
  {
    AlikeNext(f, ts, us, "<>+");
    if NextIs(ts, "<>+") && |ts| >= 2 {
      assert AlikeTok(f, ts[0], us[0]) && AlikeTok(f, ts[1], us[1]);
      if ts[1].Word? {
        AlikeDrop(f, ts, us, 2);
        RedirsMap(f, ts[2..], us[2..]);
        var r := Redirs(ts[2..]);
        if r.Ok? {
          var one := Redirection(ts[1].w, ts[0].c != '<');
          assert MapRedirs(f, [one] + r.value) == [MapRedir(f, one)] + MapRedirs(f, r.value);
        }
      }
    } else {
      assert MapRedirs(f, []) == [];
    }
  }

  lemma {:induction false} ExecLoopMap<A, B>(f: A -> B, s: Simple<A>, ts: seq<Tok<A>>, us: seq<Tok<B>>)
    requires Alike(f, ts, us)
    ensures var r, m := ExecLoop(s, ts), ExecLoop(MapSimple(f, s), us);
      if r.Panic? then m.Panic? else m.Ok? && m.value == MapSimple(f, r.value) && Alike(f, r.rest, m.rest)
    decreases |ts|
  {
    hide Redirs;
    AlikeNext(f, ts, us, "|)&;");
    if ts != [] && !NextIs(ts, "|)&;") {
      assert AlikeTok(f, ts[0], us[0]);
      if ts[0].Word? && |s.argv| + 1 < MAXARGS {
        AlikeDrop(f, ts, us, 1);
        RedirsMap(f, ts[1..], us[1..]);
        var more := Redirs(ts[1..]);
        if more.Ok? {
          var s' := Simple(s.argv + [ts[0].w], s.redirs + more.value);
          assert MapSimple(f, s') == Simple(MapWords(f, s.argv) + [f(ts[0].w)], MapRedirs(f, s.redirs) + MapRedirs(f, more.value));
          ExecLoopMap(f, s', more.rest, Redirs(us[1..]).rest);
        }
      }
    }
  }

  /** r is what parsing gave, m what parsing the tokens alike gave. */
  predicate Agrees<A, B(==)>(f: A -> B, r: Result<Cmd<A>, A>, m: Result<Cmd<B>, B>) {
    if r.Panic? then m.Panic? else m.Ok? && m.value == MapCmd(f, r.value) && Alike(f, r.rest, m.rest)
  }

  lemma SimpleMap<A, B>(f: A -> B, ts: seq<Tok<A>>, us: seq<Tok<B>>)
    requires Alike(f, ts, us) && !NextIs(ts, "(")
    ensures Agrees(f, ParseExec(ts), ParseExec(us))
  {
    hide Redirs, ExecLoop, Wrap, Alike;
    AlikeNext(f, ts, us, "(");
    RedirsMap(f, ts, us);
    var first := Redirs(ts);
    if first.Ok? {
      var s := Simple([], first.value);
      assert MapSimple(f, s) == Simple([], MapRedirs(f, first.value));
      ExecLoopMap(f, s, first.rest, Redirs(us).rest);
      var all := ExecLoop(s, first.rest);
      if all.Ok? { MapWrap(f, Exec(all.value.argv), all.value.redirs); }
    }
  }

  lemma BlockMap<A, B>(f: A -> B, ts: seq<Tok<A>>, us: seq<Tok<B>>)
    requires Alike(f, ts, us) && |us| == |ts| && NextIs(ts, "(") && Agrees(f, ParseLine(ts[1..]), ParseLine(us[1..]))
    ensures Agrees(f, ParseExec(ts), ParseExec(us))
  {
    hide Redirs, Wrap, ParseLine, Alike;
    AlikeNext(f, ts, us, "(");
    var line, mine := ParseLine(ts[1..]), ParseLine(us[1..]);
    if line.Ok? {
      AlikeNext(f, line.rest, mine.rest, ")");
      if NextIs(line.rest, ")") {
        AlikeDrop(f, line.rest, mine.rest, 1);
        RedirsMap(f, line.rest[1..], mine.rest[1..]);
        var rs := Redirs(line.rest[1..]);
        if rs.Ok? { MapWrap(f, line.value, rs.value); }
      }
    }
  }

  lemma {:induction false} ExecMap<A, B>(f: A -> B, ts: seq<Tok<A>>, us: seq<Tok<B>>)
    requires Alike(f, ts, us)
    ensures Agrees(f, ParseExec(ts), ParseExec(us))
    decreases |ts|, 1
  {
    if NextIs(ts, "(") {
      AlikeDrop(f, ts, us, 1);
      LineMap(f, ts[1..], us[1..]);
      BlockMap(f, ts, us);
    } else {
      SimpleMap(f, ts, us);
    }
  }

  lemma {:induction false} PipeMap<A, B>(f: A -> B, ts: seq<Tok<A>>, us: seq<Tok<B>>)
    requires Alike(f, ts, us)
    ensures Agrees(f, ParsePipe(ts), ParsePipe(us))
    decreases |ts|, 2
  {
    hide ParseExec, Alike;
    ExecMap(f, ts, us);
    var left, mine := ParseExec(ts), ParseExec(us);
    if left.Ok? {
      AlikeNext(f, left.rest, mine.rest, "|");
      if NextIs(left.rest, "|") {
        AlikeDrop(f, left.rest, mine.rest, 1);
        PipeMap(f, left.rest[1..], mine.rest[1..]);
      }
    }
  }

  lemma {:induction false} BacksMap<A, B>(f: A -> B, c: Cmd<A>, ts: seq<Tok<A>>, us: seq<Tok<B>>)
    requires Alike(f, ts, us)
    ensures Agrees(f, Backs(c, ts), Backs(MapCmd(f, c), us))
    decreases |ts|
  {
    AlikeNext(f, ts, us, "&");
    if NextIs(ts, "&") {
      AlikeDrop(f, ts, us, 1);
      BacksMap(f, Back(c), ts[1..], us[1..]);
    }
  }

  lemma {:induction false} LineMap<A, B>(f: A -> B, ts: seq<Tok<A>>, us: seq<Tok<B>>)
    requires Alike(f, ts, us)
    ensures Agrees(f, ParseLine(ts), ParseLine(us))
    decreases |ts|, 4
  {
    hide ParsePipe, Backs, Alike;
    PipeMap(f, ts, us);
    var pipe, mine := ParsePipe(ts), ParsePipe(us);
    if pipe.Ok? {
      BacksMap(f, pipe.value, pipe.rest, mine.rest);
      var left, ours := Backs(pipe.value, pipe.rest), Backs(mine.value, mine.rest);
      AlikeNext(f, left.rest, ours.rest, ";");
      if NextIs(left.rest, ";") {
        AlikeDrop(f, left.rest, ours.rest, 1);
        LineMap(f, left.rest[1..], ours.rest[1..]);
      }
    }
  }

  /** The whole parse, word by word. */
  lemma ParseAlike<A, B>(f: A -> B, ts: seq<Tok<A>>, us: seq<Tok<B>>)
    requires Alike(f, ts, us)
    ensures ParseAll(us) == if ParseAll(ts).Panic? then Panic else Ok(MapCmd(f, ParseAll(ts).value), [])
  {
    hide ParseLine;
    LineMap(f, ts, us);
  }

  lemma ParseMap<A, B>(f: A -> B, ts: seq<Tok<A>>)
    ensures ParseAll(MapToks(f, ts)) == if ParseAll(ts).Panic? then Panic else Ok(MapCmd(f, ParseAll(ts).value), [])
  {
    MapAlike(f, ts);
    ParseAlike(f, ts, MapToks(f, ts));
  }

  // ---- Spelling ----

  /** us is ts with some `>>` written `>`. */
  predicate Respelled<W(==)>(ts: seq<Tok<W>>, us: seq<Tok<W>>) {
    |us| == |ts| && forall i :: 0 <= i < |ts| ==> us[i] == ts[i] || (ts[i] == Sym('+') && us[i] == Sym('>'))
  }

  lemma {:induction false} MapSame<W>(f: W -> W, c: Cmd<W>)
    requires forall w :: f(w) == w
    ensures MapCmd(f, c) == c
    decreases c
  {
    match c
    case Exec(ws) => assert MapWords(f, ws) == ws;
    case Redir(d, r) => MapSame(f, d);
    case Pipe(l, r) => MapSame(f, l); MapSame(f, r);
    case List(l, r) => MapSame(f, l); MapSame(f, r);
    case Back(d) => MapSame(f, d);
  }

  /** `>>` is `>`: writing any of the one as the other leaves the parse as it is, tree or panic. */
  lemma AppendIsOverwrite<W>(ts: seq<Tok<W>>, us: seq<Tok<W>>)
    requires Respelled(ts, us)
    ensures ParseAll(us) == ParseAll(ts)
  {
    hide ParseAll;
    var same := (w: W) => w;
    ParseAlike(same, ts, us);
    AllPanicOrDone(ts);
    if ParseAll(ts).Ok? { MapSame(same, ParseAll(ts).value); }
  }

  lemma AllPanicOrDone<W>(ts: seq<Tok<W>>)
    ensures ParseAll(ts).Panic? || ParseAll(ts).rest == []
  {}
}

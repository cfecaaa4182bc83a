/** The recursive descent of `sh.c` over a shared cursor, each routine against the grammar on the tokens that
    remain. */
module ShellParser {
  import opened ShellGrammar
  import opened ShellTokens

  datatype Parsed<V> = Failed | Got(value: V)

  class Parser {
    const s: string
    var pos: nat

    ghost predicate Valid()
      reads this
    {
      pos <= |s|
    }

    /** The tokens not yet consumed. */
    ghost function Rest(): seq<Tok<Span>>
      requires Valid()
      reads this
    {
      Lex(s, pos)
    }

    constructor (s: string)
      ensures Valid() && this.s == s && pos == 0
    {
      this.s, pos := s, 0;
    }

    /** The loops over white space. */
    method SkipSpace(p: nat) returns (r: nat)
      requires p <= |s|
      ensures r == Skip(s, p)
    {
      r := p;
      while r < |s| && IsSpace(s[r])
        invariant p <= r <= |s| && forall k :: p <= k < r ==> IsSpace(s[k])
      {
        r := r + 1;
      }
      SkipUnique(s, p, r);
    }

    /** peek: whether the next token starts with one of the characters; only white space is consumed. */
    method Peek(toks: string) returns (r: bool)
      requires Valid() && forall k :: 0 <= k < |toks| ==> IsSymbol(toks[k])
      modifies this
      ensures Valid() && pos >= old(pos) && Rest() == old(Rest()) && r == Starts(Rest(), toks)
    {
      LexSkip(s, pos);
      pos := SkipSpace(pos);
      SkipUnique(s, pos, pos);
      r := pos < |s| && s[pos] in toks;
      PeekIs(s, pos, toks);
    }

    /** gettoken's switch, for the token that starts at q. */
    method Scan(q: nat) returns (ret: char, eq: nat)
      requires q < |s| && !IsSpace(s[q])
      ensures ret == Kind(s, q) && eq == TokEnd(s, q)
    {
      eq := q;
      if s[q] == '>' {
        ret := s[q];
        eq := eq + 1;
        if eq < |s| && s[eq] == '>' {
          ret := '+';
          eq := eq + 1;
        }
      } else if s[q] in "|();&<" {
        ret := s[q];
        eq := eq + 1;
      } else {
        ret := 'a';
        while eq < |s| && !IsSpace(s[eq]) && !IsSymbol(s[eq])
          invariant q <= eq <= |s| && forall k :: q <= k < eq ==> IsWordChar(s[k])
        {
          eq := eq + 1;
        }
        WordEndUnique(s, q, eq);
      }
    }

    /** gettoken: the next token and its place, 0 at the end of the buffer; the token is consumed. */
    method GetToken() returns (ret: char, q: nat, eq: nat)
      requires Valid()
      modifies this
      ensures Valid() && pos >= old(pos)
      ensures old(Rest()) == [] ==> ret == '\0' && Rest() == []
      ensures old(Rest()) != [] ==> Rest() == old(Rest())[1..] && pos > old(pos)
      ensures old(Rest()) != [] ==> old(Rest())[0] == (if ret == 'a' then Word(Span(q, eq)) else Sym(ret)) && ret != '\0'
    {
      hide Kind, TokEnd;
      q := SkipSpace(pos);
      if q == |s| {
        ret, eq := '\0', q;
      } else {
        ret, eq := Scan(q);
        KindNotNul(s, q);
      }
      LexSkip(s, eq);
      pos := SkipSpace(eq);
    }

    // ---- Grammar ----

    /** parseredirs: the redirections that follow, in order. */
    method ParseRedirs() returns (r: Parsed<seq<Redirection<Span>>>)
      requires Valid()
      modifies this
      ensures Valid() && pos >= old(pos)
      ensures if r.Failed? then Redirs(old(Rest())).Panic? else Redirs(old(Rest())) == Ok(r.value, Rest())
    {
      hide Lex;
      var rs: seq<Redirection<Span>> := [];
      var more := Peek("<>");
      StartsRedir(Rest());
      AddNone(Redirs(Rest()));
      while more
        invariant Valid() && pos >= old(pos) && more == NextIs(Rest(), "<>+")
        invariant Redirs(old(Rest())) == Added(rs, Redirs(Rest()))
        decreases |s| - pos
      {
        ghost var ts := Rest();
        var tok, q, eq;
        tok, q, eq := GetToken();
        var ret;
        ret, q, eq := GetToken();
        if ret != 'a' { return Failed; }
        assert ts[2..] == Rest();
        AddOne(rs, Redirection(Span(q, eq), tok != '<'), Redirs(Rest()));
        rs := rs + [Redirection(Span(q, eq), tok != '<')];
        more := Peek("<>");
        StartsRedir(Rest());
      }
      assert rs + [] == rs;
      return Got(rs);
    }

    /** parseexec's loop over words and redirections; argv never overflows. */
    method ParseWords(first: seq<Redirection<Span>>) returns (r: Parsed<Simple<Span>>)
      requires Valid()
      modifies this
      ensures Valid() && pos >= old(pos)
      ensures var spec := ExecLoop(Simple([], first), old(Rest()));
        if r.Failed? then spec.Panic? else spec == Ok(r.value, Rest()) && |r.value.argv| < MAXARGS
    {
      hide Lex, Redirs;
      var sofar: Simple<Span> := Simple([], first);
      var stop := Peek("|)&;");
      StartsEnd(Rest());
      while !stop
        invariant Valid() && pos >= old(pos) && stop == NextIs(Rest(), "|)&;") && |sofar.argv| < MAXARGS
        invariant ExecLoop(Simple([], first), old(Rest())) == ExecLoop(sofar, Rest())
        decreases |s| - pos
      {
        var tok, q, eq;
        tok, q, eq := GetToken();
        if tok == '\0' { break; }
        if tok != 'a' { return Failed; }
        var argv := sofar.argv + [Span(q, eq)];
        if |argv| >= MAXARGS { return Failed; }
        var more := ParseRedirs();
        if more.Failed? { return Failed; }
        sofar := Simple(argv, sofar.redirs + more.value);
        stop := Peek("|)&;");
        StartsEnd(Rest());
      }
      return Got(sofar);
    }

    /** parseexec. */
    method ParseExecCmd() returns (r: Parsed<Cmd<Span>>)
      requires Valid()
      modifies this
      ensures Valid() && pos >= old(pos)
      ensures if r.Failed? then ParseExec(old(Rest())).Panic? else ParseExec(old(Rest())) == Ok(r.value, Rest())
      decreases |s| - pos, 1
    {
      hide Lex, Redirs, ExecLoop, ParseBlock;
      var block := Peek("(");
      StartsOne(Rest(), '(');
      if block {
        r := ParseBlockCmd();
        return;
      }
      var first := ParseRedirs();
      if first.Failed? { return Failed; }
      var all := ParseWords(first.value);
      if all.Failed? { return Failed; }
      return Got(Wrap(Exec(all.value.argv), all.value.redirs));
    }

    /** parseblock. */
    method ParseBlockCmd() returns (r: Parsed<Cmd<Span>>)
      requires Valid() && NextIs(Rest(), "(")
      modifies this
      ensures Valid() && pos >= old(pos)
      ensures if r.Failed? then ParseBlock(old(Rest())).Panic? else ParseBlock(old(Rest())) == Ok(r.value, Rest())
      decreases |s| - pos, 0
    {
      hide Lex, Redirs, ParseLine;
      var tok, q, eq;
      tok, q, eq := GetToken();
      var line := ParseLineCmd();
      if line.Failed? { return Failed; }
      var close := Peek(")");
      StartsOne(Rest(), ')');
      if !close { return Failed; }
      tok, q, eq := GetToken();
      var rs := ParseRedirs();
      if rs.Failed? { return Failed; }
      return Got(Wrap(line.value, rs.value));
    }

    /** parsepipe. */
    method ParsePipeCmd() returns (r: Parsed<Cmd<Span>>)
      requires Valid()
      modifies this
      ensures Valid() && pos >= old(pos)
      ensures if r.Failed? then ParsePipe(old(Rest())).Panic? else ParsePipe(old(Rest())) == Ok(r.value, Rest())
      decreases |s| - pos, 2
    {
      hide Lex, ParseExec;
      r := ParseExecCmd();
      if r.Failed? { return; }
      var bar := Peek("|");
      StartsOne(Rest(), '|');
      if bar {
        var tok, q, eq;
        tok, q, eq := GetToken();
        var right := ParsePipeCmd();
        if right.Failed? { return Failed; }
        return Got(Pipe(r.value, right.value));
      }
    }

    /** parseline's loop over `&`. */
    method ParseBacks(c: Cmd<Span>) returns (r: Cmd<Span>)
      requires Valid()
      modifies this
      ensures Valid() && pos >= old(pos) && Backs(c, old(Rest())) == Ok(r, Rest())
    {
      hide Lex;
      r := c;
      var more := Peek("&");
      StartsOne(Rest(), '&');
      while more
        invariant Valid() && pos >= old(pos) && more == NextIs(Rest(), "&") && Backs(c, old(Rest())) == Backs(r, Rest())
        decreases |s| - pos
      {
        var tok, q, eq;
        tok, q, eq := GetToken();
        r := Back(r);
        more := Peek("&");
        StartsOne(Rest(), '&');
      }
    }

    /** parseline. */
    method ParseLineCmd() returns (r: Parsed<Cmd<Span>>)
      requires Valid()
      modifies this
      ensures Valid() && pos >= old(pos)
      ensures if r.Failed? then ParseLine(old(Rest())).Panic? else ParseLine(old(Rest())) == Ok(r.value, Rest())
      decreases |s| - pos, 3
    {
      hide Lex, ParsePipe, Backs;
      r := ParsePipeCmd();
      if r.Failed? { return; }
      var left := ParseBacks(r.value);
      var semi := Peek(";");
      StartsOne(Rest(), ';');
      r := Got(left);
      if semi {
        var tok, q, eq;
        tok, q, eq := GetToken();
        var right := ParseLineCmd();
        if right.Failed? { return Failed; }
        return Got(List(left, right.value));
      }
    }

    /** parsecmd up to nulterminate: every string is either refused or parsed to its end. */
    method ParseCommand() returns (r: Parsed<Cmd<Span>>)
      requires pos == 0
      modifies this
      ensures var spec := ParseAll(Lex(s, 0)); if r.Failed? then spec.Panic? else spec == Ok(r.value, [])
    {
      hide ParseLine;
      r := ParseLineCmd();
      if r.Failed? { return; }
      LexSkip(s, pos);
      LexEmpty(s, Skip(s, pos));
      pos := SkipSpace(pos);
      if pos != |s| { return Failed; }
    }
  }

  function First(c: char): char { if c == '+' then '>' else c }

  /** What peek tests: the first character of the next token. */
  predicate Starts(ts: seq<Tok<Span>>, toks: string) {
    |ts| > 0 && ts[0].Sym? && First(ts[0].c) in toks
  }

  lemma PeekIs(s: string, p: nat, toks: string)
    requires p <= |s| && Skip(s, p) == p && forall k :: 0 <= k < |toks| ==> IsSymbol(toks[k])
    ensures Starts(Lex(s, p), toks) <==> p < |s| && s[p] in toks
  {}

  lemma KindNotNul(s: string, q: nat)
    requires q < |s|
    ensures Kind(s, q) != '\0'
  {}

  lemma StartsOne(ts: seq<Tok<Span>>, c: char)
    requires c in "|()&;"
    ensures Starts(ts, [c]) == NextIs(ts, [c])
  {}

  lemma StartsRedir(ts: seq<Tok<Span>>)
    ensures Starts(ts, "<>") == NextIs(ts, "<>+")
  {}

  lemma StartsEnd(ts: seq<Tok<Span>>)
    ensures Starts(ts, "|)&;") == NextIs(ts, "|)&;")
  {}

  lemma LexEmpty(s: string, p: nat)
    requires p <= |s| && (p < |s| ==> Skip(s, p) == p)
    ensures Lex(s, p) == [] <==> p == |s|
  {}

  /** Redirections collected before those of r. */
  function Added(rs: seq<Redirection<Span>>, r: Result<seq<Redirection<Span>>, Span>): Result<seq<Redirection<Span>>, Span> {
    if r.Panic? then Panic else Ok(rs + r.value, r.rest)
  }

  lemma AddNone(r: Result<seq<Redirection<Span>>, Span>)
    ensures Added([], r) == r
  {
    if r.Ok? { assert [] + r.value == r.value; }
  }

  lemma AddOne(rs: seq<Redirection<Span>>, one: Redirection<Span>, r: Result<seq<Redirection<Span>>, Span>)
    ensures Added(rs, Added([one], r)) == Added(rs + [one], r)
  {
    if r.Ok? { assert rs + ([one] + r.value) == rs + [one] + r.value; }
  }
}

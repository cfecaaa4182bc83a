/** The lexical level of `sh.c`: the tokens of a buffer from a position on, with the place of every word. The buffer
    is the string before its terminating NUL. */
module ShellTokens {
  import opened ShellGrammar

  /** A word's place: q and eq of gettoken. */
  datatype Span = Span(q: nat, eq: nat)

  predicate IsSpace(c: char) { c == ' ' || c == '\t' || c == '\r' || c == '\n' || c == '\U{000B}' }

  predicate IsSymbol(c: char) { c in "<|>&;()" }

  predicate IsWordChar(c: char) { !IsSpace(c) && !IsSymbol(c) }

  /** The first position from p on that is not white space. */
  function Skip(s: string, p: nat): (r: nat)
    requires p <= |s|
    ensures p <= r <= |s| && (r < |s| ==> !IsSpace(s[r])) && forall k :: p <= k < r ==> IsSpace(s[k])
    decreases |s| - p
  {
    if p < |s| && IsSpace(s[p]) then Skip(s, p + 1) else p
  }

  /** The first position from p on that is not in a word. */
  function WordEnd(s: string, p: nat): (r: nat)
    requires p <= |s|
    ensures p <= r <= |s| && (r < |s| ==> !IsWordChar(s[r])) && forall k :: p <= k < r ==> IsWordChar(s[k])
    decreases |s| - p
  {
    if p < |s| && IsWordChar(s[p]) then WordEnd(s, p + 1) else p
  }

  /** gettoken's return value for the token that starts at q: its symbol, '+' for `>>`, 'a' for a word. */
  function Kind(s: string, q: nat): char
    requires q < |s|
  {
    if s[q] == '>' && q + 1 < |s| && s[q + 1] == '>' then '+'
    else if IsSymbol(s[q]) then s[q]
    else 'a'
  }

  function TokEnd(s: string, q: nat): (r: nat)
    requires q < |s| && !IsSpace(s[q])
    ensures q < r <= |s|
  {
    if Kind(s, q) == '+' then q + 2
    else if Kind(s, q) != 'a' then q + 1
    else WordEnd(s, q)
  }

  function TokAt(s: string, q: nat): Tok<Span>
    requires q < |s| && !IsSpace(s[q])
  {
    if Kind(s, q) == 'a' then Word(Span(q, TokEnd(s, q))) else Sym(Kind(s, q))
  }

  /** The tokens from position p on. */
  function Lex(s: string, p: nat): seq<Tok<Span>>
    requires p <= |s|
    decreases |s| - p
  {
    var q := Skip(s, p);
    if q == |s| then [] else [TokAt(s, q)] + Lex(s, TokEnd(s, q))
  }

  lemma {:induction false} SkipUnique(s: string, p: nat, r: nat)
    requires p <= r <= |s| && (r < |s| ==> !IsSpace(s[r])) && forall k :: p <= k < r ==> IsSpace(s[k])
    ensures Skip(s, p) == r
    decreases r - p
  {
    if p < r { SkipUnique(s, p + 1, r); }
  }

  lemma {:induction false} WordEndUnique(s: string, p: nat, r: nat)
    requires p <= r <= |s| && (r < |s| ==> !IsWordChar(s[r])) && forall k :: p <= k < r ==> IsWordChar(s[k])
    ensures WordEnd(s, p) == r
    decreases r - p
  {
    if p < r { WordEndUnique(s, p + 1, r); }
  }

  lemma LexSkip(s: string, p: nat)
    requires p <= |s|
    ensures Lex(s, Skip(s, p)) == Lex(s, p)
  {
    SkipUnique(s, Skip(s, p), Skip(s, p));
  }

  // ---- Words in the buffer ----

  /** A whole word: word characters only, and none right after it. */
  predicate IsWordSpan(s: string, w: Span) {
    w.q < w.eq <= |s| && (forall k :: w.q <= k < w.eq ==> IsWordChar(s[k])) && (w.eq < |s| ==> !IsWordChar(s[w.eq]))
  }

  predicate TokOk(s: string, t: Tok<Span>) { t.Word? ==> IsWordSpan(s, t.w) }

  lemma {:induction false} LexWords(s: string, p: nat)
    requires p <= |s|
    ensures forall i :: 0 <= i < |Lex(s, p)| ==> TokOk(s, Lex(s, p)[i])
    decreases |s| - p
  {
    var q := Skip(s, p);
    if q < |s| { LexWords(s, TokEnd(s, q)); }
  }

  // ---- Printing tokens ----

  function TextOf(s: string): Span -> string { (w: Span) => if w.q <= w.eq <= |s| then s[w.q..w.eq] else "" }

  function Spelling(t: Tok<string>): string { if t.Word? then t.w else if t.c == '+' then ">>" else [t.c] }

  /** Tokens the printer emits: symbols other than `>>`, and words of word characters. */
  predicate Printable(t: Tok<string>) {
    if t.Word? then t.w != "" && forall k :: 0 <= k < |t.w| ==> IsWordChar(t.w[k]) else IsSymbol(t.c)
  }

  /** Every token followed by a space. */
  function Render(ts: seq<Tok<string>>): string { if ts == [] then "" else Spelling(ts[0]) + " " + Render(ts[1..]) }
}

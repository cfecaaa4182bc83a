/** The regular expression matcher of `grep.c`, against the language its patterns denote. Strings are the
    characters before the terminating NUL. */
module Grep {

  /** A pattern as the matcher reads it: a star binds before anything else, and a dollar is an anchor only as the
      last character. */
  datatype Regex = Accept | AtEnd | One(c: char, rest: Regex) | StarOf(c: char, rest: Regex)

  function Parse(re: string): Regex {
    if re == "" then Accept
    else if |re| >= 2 && re[1] == '*' then StarOf(re[0], Parse(re[2..]))
    else if re == "$" then AtEnd
    else One(re[0], Parse(re[1..]))
  }

  predicate Fits(c: char, x: char) { c == '.' || c == x }

  predicate AllFit(c: char, w: string) { forall i :: 0 <= i < |w| ==> Fits(c, w[i]) }

  /** The words of the pattern's language. */
  ghost predicate Words(r: Regex, w: string)
    decreases r
  {
    match r
    case Accept => w == ""
    case AtEnd => w == ""
    case One(c, rest) => |w| > 0 && Fits(c, w[0]) && Words(rest, w[1..])
    case StarOf(c, rest) => exists j :: 0 <= j <= |w| && AllFit(c, w[..j]) && Words(rest, w[j..])
  }

  /** Whether a match has to reach the end of the text. */
  predicate Anchored(r: Regex) {
    match r
    case Accept => false
    case AtEnd => true
    case One(_, rest) => Anchored(rest)
    case StarOf(_, rest) => Anchored(rest)
  }

  /** text[..k] is a match. */
  ghost predicate PrefixIs(r: Regex, text: string, k: nat) {
    k <= |text| && Words(r, text[..k]) && (Anchored(r) ==> k == |text|)
  }

  ghost predicate Prefix(r: Regex, text: string) { exists k: nat :: PrefixIs(r, text, k) }

  /** text[i..j] is a match: a word of the language, at the end if the pattern says so. */
  ghost predicate Occurs(r: Regex, text: string, i: nat, j: nat) {
    i <= j <= |text| && Words(r, text[i..j]) && (Anchored(r) ==> j == |text|)
  }

  /** What match promises: a substring in the language, starting at the beginning after a caret. */
  ghost predicate Found(re: string, text: string) {
    if re != "" && re[0] == '^' then exists j: nat :: Occurs(Parse(re[1..]), text, 0, j)
    else exists i: nat, j: nat :: Occurs(Parse(re), text, i, j)
  }

  // ---- Prefixes, pattern item by pattern item ----

  lemma PrefixOne(c: char, rest: Regex, text: string)
    ensures Prefix(One(c, rest), text) <==> |text| > 0 && Fits(c, text[0]) && Prefix(rest, text[1..])
  {
    var r := One(c, rest);
    if Prefix(r, text) {
      var k: nat :| PrefixIs(r, text, k);
      assert text[..k][1..] == text[1..][..k - 1];
      assert PrefixIs(rest, text[1..], k - 1);
    }
    if |text| > 0 && Fits(c, text[0]) && Prefix(rest, text[1..]) {
      var k: nat :| PrefixIs(rest, text[1..], k);
      assert text[..k + 1][1..] == text[1..][..k];
      assert PrefixIs(r, text, k + 1);
    }
  }

  ghost predicate StarSplit(c: char, rest: Regex, text: string, j: nat) {
    j <= |text| && AllFit(c, text[..j]) && Prefix(rest, text[j..])
  }

  lemma PrefixStar(c: char, rest: Regex, text: string)
    ensures Prefix(StarOf(c, rest), text) <==> exists j: nat :: StarSplit(c, rest, text, j)
  {
    var r := StarOf(c, rest);
    if Prefix(r, text) {
      var k: nat :| PrefixIs(r, text, k);
      var w := text[..k];
      var j: nat :| j <= |w| && AllFit(c, w[..j]) && Words(rest, w[j..]);
      assert w[..j] == text[..j] && w[j..] == text[j..][..k - j];
      assert PrefixIs(rest, text[j..], k - j);
      assert StarSplit(c, rest, text, j);
    }
    if j: nat :| StarSplit(c, rest, text, j) {
      var k: nat :| PrefixIs(rest, text[j..], k);
      var w := text[..j + k];
      assert w[..j] == text[..j] && w[j..] == text[j..][..k];
      assert PrefixIs(r, text, j + k);
    }
  }

  lemma PrefixEnds(text: string)
    ensures Prefix(Accept, text) && (Prefix(AtEnd, text) <==> text == "")
  {
    assert PrefixIs(Accept, text, 0);
    if text == "" { assert PrefixIs(AtEnd, text, 0); }
  }

  lemma PrefixOccurs(r: Regex, text: string, i: nat)
    requires i <= |text|
    ensures Prefix(r, text[i..]) <==> exists j: nat :: Occurs(r, text, i, j)
  {
    if Prefix(r, text[i..]) {
      var k: nat :| PrefixIs(r, text[i..], k);
      assert text[i..][..k] == text[i..i + k];
      assert Occurs(r, text, i, i + k);
    }
    if j: nat :| Occurs(r, text, i, j) {
      assert text[i..][..j - i] == text[i..j];
      assert PrefixIs(r, text[i..], j - i);
    }
  }

  // ---- The matcher ----

  /** matchhere: whether the text begins with a match. */
  method MatchHere(re: string, text: string) returns (r: bool)
    ensures r <==> Prefix(Parse(re), text)
    decreases |re|, 1
  {
    PrefixEnds(text);
    if re == "" { return true; }
    if |re| >= 2 && re[1] == '*' {
      r := MatchStar(re[0], re[2..], text);
      return;
    }
    if re == "$" { return text == ""; }
    PrefixOne(re[0], Parse(re[1..]), text);
    if text != "" && (re[0] == '.' || re[0] == text[0]) {
      r := MatchHere(re[1..], text[1..]);
      return;
    }
    return false;
  }

  /** matchstar: shortest first, whether the text begins with some c's and then a match of re. */
  method MatchStar(c: char, re: string, text: string) returns (r: bool)
    ensures r <==> Prefix(StarOf(c, Parse(re)), text)
    decreases |re|, 2
  {
    PrefixStar(c, Parse(re), text);
    var p := 0;
    while true
      invariant p <= |text| && AllFit(c, text[..p])
      invariant forall j: nat :: j < p ==> !StarSplit(c, Parse(re), text, j)
      decreases |text| - p
    {
      var here := MatchHere(re, text[p..]);
      if here {
        assert StarSplit(c, Parse(re), text, p);
        return true;
      }
      if !(p < |text| && (text[p] == c || c == '.')) {
        forall j: nat ensures !StarSplit(c, Parse(re), text, j) { NoLonger(c, text, p, j); }
        return false;
      }
      p := p + 1;
    }
  }

  lemma NoLonger(c: char, text: string, p: nat, j: nat)
    requires p <= |text| && (p < |text| ==> !Fits(c, text[p]))
    ensures p < j <= |text| ==> !AllFit(c, text[..j])
  {
    if p < j <= |text| { assert text[..j][p] == text[p]; }
  }

  /** match returns 1 exactly when the text has a substring in the pattern's language. */
  method Match(re: string, text: string) returns (r: bool)
    ensures r <==> Found(re, text)
  {
    if re != "" && re[0] == '^' {
      r := MatchHere(re[1..], text);
      assert text[0..] == text;
      PrefixOccurs(Parse(re[1..]), text, 0);
      return;
    }
    var p := 0;
    while true
      invariant p <= |text| && forall i: nat, j: nat :: i < p ==> !Occurs(Parse(re), text, i, j)
      decreases |text| - p
    {
      var here := MatchHere(re, text[p..]);
      PrefixOccurs(Parse(re), text, p);
      if here { return true; }
      if p == |text| { return false; }
      p := p + 1;
    }
  }
}

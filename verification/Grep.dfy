/** user/grep.c: the regular-expression matcher, against a denotational
    semantics.  A C string is a sequence; reading its terminating NUL is
    reaching the end of the sequence. */
module Grep {

  // ---------- semantics ----------

  /** One character, or any number of them; '.' stands for every character. */
  datatype Item = One(c: char) | Star(c: char)

  /** A pattern without its '^': items, and whether an unstarred '$' ends it. */
  datatype Pattern = Pattern(items: seq<Item>, toEnd: bool)

  function Parse(re: string): Pattern {
    if re == "" then Pattern([], false)
    else if |re| > 1 && re[1] == '*' then
      var p := Parse(re[2..]); Pattern([Star(re[0])] + p.items, p.toEnd)
    else if re == "$" then Pattern([], true)
    else
      var p := Parse(re[1..]); Pattern([One(re[0])] + p.items, p.toEnd)
  }

  predicate CharIn(c: char, x: char) { c == '.' || c == x }

  predicate InItem(it: Item, w: string) {
    match it
    case One(c) => |w| == 1 && CharIn(c, w[0])
    case Star(c) => forall k :: 0 <= k < |w| ==> CharIn(c, w[k])
  }

  /** The language of a sequence of items: concatenations of their languages. */
  ghost predicate InLang(items: seq<Item>, w: string) {
    if items == [] then w == ""
    else exists k: nat :: SplitAt(items, w, k)
  }

  ghost predicate SplitAt(items: seq<Item>, w: string, k: nat)
    requires items != []
    decreases items, w, 0
  {
    k <= |w| && InItem(items[0], w[..k]) && InLang(items[1..], w[k..])
  }

  /** text[..j] is in the language of p, reaching the end if p says so. */
  ghost predicate MatchesUpTo(p: Pattern, text: string, j: nat) {
    j <= |text| && InLang(p.items, text[..j]) && (p.toEnd ==> j == |text|)
  }

  ghost predicate Here(re: string, text: string) {
    exists j: nat :: MatchesUpTo(Parse(re), text, j)
  }

  ghost predicate HereFrom(re: string, text: string, i: nat) {
    i <= |text| && Here(re, text[i..])
  }

  /** Some substring of text is in the language of re; after '^' it starts at
      the beginning. */
  ghost predicate Matches(re: string, text: string) {
    if re != "" && re[0] == '^' then HereFrom(re[1..], text, 0)
    else exists i: nat :: HereFrom(re, text, i)
  }

  /** The characters of text before k are all in c, and re matches from there. */
  ghost predicate StarUpTo(c: char, re: string, text: string, k: nat) {
    k <= |text| && InItem(Star(c), text[..k]) && Here(re, text[k..])
  }

  // ---------- how the semantics unfolds ----------

  lemma HereOne(re: string, text: string)
    requires re != "" && !(|re| > 1 && re[1] == '*') && re != "$"
    ensures Here(re, text) <==> text != "" && CharIn(re[0], text[0]) && Here(re[1..], text[1..])
  {
    var p, q := Parse(re), Parse(re[1..]);
    assert p.items[1..] == q.items;
    if Here(re, text) {
      var j: nat :| MatchesUpTo(p, text, j);
      assert InLang(p.items, text[..j]);
      var k: nat :| SplitAt(p.items, text[..j], k);
      assert text[..j][..k] == text[..1] && text[..j][k..] == text[1..][..j - 1];
      assert MatchesUpTo(q, text[1..], j - 1);
    }
    if text != "" && CharIn(re[0], text[0]) && Here(re[1..], text[1..]) {
      var j: nat :| MatchesUpTo(q, text[1..], j);
      assert text[..j + 1][..1] == [text[0]] && text[..j + 1][1..] == text[1..][..j];
      assert SplitAt(p.items, text[..j + 1], 1);
      assert MatchesUpTo(p, text, j + 1);
    }
  }

  lemma HereStar(re: string, text: string)
    requires |re| > 1 && re[1] == '*'
    ensures Here(re, text) <==> exists k: nat :: StarUpTo(re[0], re[2..], text, k)
  {
    var p, q := Parse(re), Parse(re[2..]);
    assert p.items[1..] == q.items;
    if Here(re, text) {
      var j: nat :| MatchesUpTo(p, text, j);
      assert InLang(p.items, text[..j]);
      var k: nat :| SplitAt(p.items, text[..j], k);
      assert text[..j][..k] == text[..k] && text[..j][k..] == text[k..][..j - k];
      assert MatchesUpTo(q, text[k..], j - k);
      assert StarUpTo(re[0], re[2..], text, k);
    }
    if k: nat :| StarUpTo(re[0], re[2..], text, k) {
      var j: nat :| MatchesUpTo(q, text[k..], j);
      assert text[..k + j][..k] == text[..k] && text[..k + j][k..] == text[k..][..j];
      assert SplitAt(p.items, text[..k + j], k);
      assert MatchesUpTo(p, text, k + j);
    }
  }

  // ---------- the matcher ----------

  /** match */
  method Match(re: string, text: string) returns (b: bool)
    ensures b <==> Matches(re, text)
  {
    if |re| > 0 && re[0] == '^' {
      assert text[0..] == text;
      b := MatchHere(re[1..], text);
      return;
    }
    var i := 0;
    while true
      invariant 0 <= i <= |text|
      invariant forall j: nat :: j < i ==> !HereFrom(re, text, j)
      decreases |text| - i
    {
      b := MatchHere(re, text[i..]);
      if b {
        assert HereFrom(re, text, i);
        return;
      }
      if i == |text| {
        return;
      }
      i := i + 1;
    }
  }

  /** matchhere: search for re at the beginning of text */
  method MatchHere(re: string, text: string) returns (b: bool)
    ensures b <==> Here(re, text)
    decreases |re|, 1
  {
    if re == "" {
      assert MatchesUpTo(Parse(re), text, 0);
      return true;
    }
    if |re| > 1 && re[1] == '*' {
      HereStar(re, text);
      b := MatchStar(re[0], re[2..], text);
      return;
    }
    if re == "$" {
      assert text[..0] == "";
      assert text == "" ==> MatchesUpTo(Parse(re), text, 0);
      return text == "";
    }
    HereOne(re, text);
    if text != "" && (re[0] == '.' || re[0] == text[0]) {
      b := MatchHere(re[1..], text[1..]);
      return;
    }
    return false;
  }

  /** matchstar: search for c*re at the beginning of text */
  method MatchStar(c: char, re: string, text: string) returns (b: bool)
    ensures b <==> exists k: nat :: StarUpTo(c, re, text, k)
    decreases |re|, 2
  {
    var k := 0;
    while true
      invariant 0 <= k <= |text|
      invariant InItem(Star(c), text[..k])
      invariant forall j: nat :: j < k ==> !StarUpTo(c, re, text, j)
      decreases |text| - k
    {
      b := MatchHere(re, text[k..]);
      if b {
        assert StarUpTo(c, re, text, k);
        return;
      }
      if k == |text| || !(text[k] == c || c == '.') {
        forall j: nat | j > k ensures !StarUpTo(c, re, text, j) {
          assert j <= |text| ==> text[..j][k] == text[k];
        }
        return;
      }
      k := k + 1;
    }
  }
}

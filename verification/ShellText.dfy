/** Texts and tokens of user/sh.c: which tokens a line has, and trees of places
    in a line. */
module ShellText {
  import opened Prelude
  import opened ShellGrammar
  import opened ShellProof

  const WHITESPACE: set<char> := {' ', '\t', '\r', '\n', '\U{0B}'}
  const SYMBOLS: set<char> := {'<', '|', '>', '&', ';', '(', ')'}

  /** Where a word is: its first character and its end. */
  datatype Span = Span(lo: nat, hi: nat)

  predicate IsWordChar(c: char) { c != '\0' && c !in WHITESPACE && c !in SYMBOLS }

  // ---------- Tokens of a text ----------

  function SkipSpace(t: string, i: nat): (j: nat)
    requires i <= |t|
    ensures i <= j <= |t| && (j < |t| ==> t[j] !in WHITESPACE)
    decreases |t| - i
  {
    if i < |t| && t[i] in WHITESPACE then SkipSpace(t, i + 1) else i
  }

  function WordEnd(t: string, i: nat): (j: nat)
    requires i <= |t|
    ensures i <= j <= |t| && (j < |t| ==> !IsWordChar(t[j]))
    ensures forall k :: i <= k < j ==> IsWordChar(t[k])
    decreases |t| - i
  {
    if i < |t| && IsWordChar(t[i]) then WordEnd(t, i + 1) else i
  }

  /** The first token at place i, which is not a space, and where it ends. */
  function TokenAt(t: string, i: nat): (r: (Token<Span>, nat))
    requires i < |t| && '\0' !in t && t[i] !in WHITESPACE
    ensures i < r.1 <= |t|
  {
    if t[i] == '>' && i + 1 < |t| && t[i + 1] == '>' then (Append, i + 2)
    else if t[i] in SYMBOLS then (Sym(t[i]), i + 1)
    else (Word(Span(i, WordEnd(t, i))), WordEnd(t, i))
  }

  function Lex(t: string, i: nat): seq<Token<Span>>
    requires i <= |t| && '\0' !in t
    decreases |t| - i
  {
    var j := SkipSpace(t, i);
    if j == |t| then [] else [TokenAt(t, j).0] + Lex(t, TokenAt(t, j).1)
  }

  // ---------- Texts of tokens ----------

  function TokenText(k: Token<string>): string {
    match k case Sym(c) => [c] case Append => ">>" case Word(w) => w
  }

  /** Each token followed by a space. */
  function Render(ts: seq<Token<string>>): string {
    if ts == [] then "" else TokenText(ts[0]) + " " + Render(ts[1..])
  }

  predicate WordOk(w: string) { w != "" && forall i :: 0 <= i < |w| ==> IsWordChar(w[i]) }

  predicate TokenOk(k: Token<string>) {
    match k
    case Sym(c) => c in SYMBOLS
    case Append => true
    case Word(w) => WordOk(w)
  }

  function Slice(t: string, sp: Span): string {
    if sp.lo <= sp.hi <= |t| then t[sp.lo..sp.hi] else ""
  }

  function Text(t: string, k: Token<Span>): Token<string> {
    match k case Sym(c) => Sym(c) case Append => Append case Word(sp) => Word(Slice(t, sp))
  }

  function TextOf(t: string, ts: seq<Token<Span>>): (r: seq<Token<string>>)
    ensures |r| == |ts| && forall i :: 0 <= i < |ts| ==> r[i] == Text(t, ts[i])
  {
    seq(|ts|, i requires 0 <= i < |ts| => Text(t, ts[i]))
  }

  function Words(t: string, sps: seq<Span>): (r: seq<string>)
    ensures |r| == |sps| && forall i :: 0 <= i < |sps| ==> r[i] == Slice(t, sps[i])
  {
    seq(|sps|, i requires 0 <= i < |sps| => Slice(t, sps[i]))
  }

  /** A tree of places, read as a tree of strings. */
  function Resolve(t: string, c: Cmd<Span>): Cmd<string> {
    match c
    case Exec(args) => Exec(Words(t, args))
    case Redir(d, file, mode, fd) => Redir(Resolve(t, d), Slice(t, file), mode, fd)
    case Pipe(l, r) => Pipe(Resolve(t, l), Resolve(t, r))
    case List(l, r) => List(Resolve(t, l), Resolve(t, r))
    case Back(d) => Back(Resolve(t, d))
  }

  function ResolveResult(t: string, r: Result<Span>): Result<string> {
    match r case Done(c, rest) => Done(Resolve(t, c), TextOf(t, rest)) case Panic(e) => Panic(e)
  }

  // ---------- Lexing what was rendered ----------

  lemma WordEndIs(t: string, i: nat, j: nat)
    requires i <= j < |t| && !IsWordChar(t[j]) && forall k :: i <= k < j ==> IsWordChar(t[k])
    ensures WordEnd(t, i) == j
    decreases j - i
  {
    if i < j { WordEndIs(t, i + 1, j); }
  }

  /** A token's text followed by a space is read as that token. */
  lemma TokenRead(t: string, i: nat, k: Token<string>)
    requires TokenOk(k) && '\0' !in t && i + |TokenText(k)| < |t|
    requires t[i..i + |TokenText(k)|] == TokenText(k) && t[i + |TokenText(k)|] == ' '
    ensures TokenText(k) != "" && t[i] !in WHITESPACE
    ensures TokenAt(t, i).1 == i + |TokenText(k)| && Text(t, TokenAt(t, i).0) == k
  {
    var w := TokenText(k);
    forall n: nat | i <= n < i + |w| ensures t[n] == w[n - i] {
      assert t[n] == t[i..i + |w|][n - i];
    }
    assert t[i] == w[0];
    if k.Word? { WordEndIs(t, i, i + |w|); }
  }

  lemma LexStep(t: string, i: nat, e: nat)
    requires i < e < |t| && '\0' !in t && t[i] !in WHITESPACE && TokenAt(t, i).1 == e && t[e] == ' '
    ensures Lex(t, i) == [TokenAt(t, i).0] + Lex(t, e + 1)
  {
    assert SkipSpace(t, e) == SkipSpace(t, e + 1);
  }

  lemma Slices(t: string, i: nat, w: string, r: string)
    requires i <= |t| && t[i..] == w + " " + r
    ensures var e := i + |w|; e < |t| && t[i..e] == w && t[e] == ' ' && t[e + 1..] == r
  {
    var u, e := t[i..], i + |w|;
    assert u[..|w|] == w && u[|w|] == ' ' && u[|w| + 1..] == r;
    assert t[i..e] == u[..|w|] && t[e] == u[|w|] && t[e + 1..] == u[|w| + 1..];
  }

  /** From place i on, the text reads as these tokens. */
  ghost predicate LexesTo(t: string, i: nat, ts: seq<Token<string>>) {
    i <= |t| && '\0' !in t && TextOf(t, Lex(t, i)) == ts
  }

  lemma RenderStep(t: string, i: nat, e: nat, k: Token<string>, ts: seq<Token<string>>)
    requires i < e < |t| && '\0' !in t && t[i] !in WHITESPACE && TokenAt(t, i).1 == e && t[e] == ' '
    requires Text(t, TokenAt(t, i).0) == k && LexesTo(t, e + 1, ts)
    ensures LexesTo(t, i, [k] + ts)
  {
    LexStep(t, i, e);
  }

  lemma LexEnd(t: string)
    requires '\0' !in t
    ensures LexesTo(t, |t|, [])
  {
    assert Lex(t, |t|) == [];
  }

  lemma {:induction false} LexRender(t: string, i: nat, ts: seq<Token<string>>)
    requires i <= |t| && '\0' !in t && t[i..] == Render(ts)
    requires forall k :: 0 <= k < |ts| ==> TokenOk(ts[k])
    ensures LexesTo(t, i, ts)
    decreases |ts|
  {
    hide LexesTo, TokenAt, Text, TokenOk;
    if ts == [] {
      assert i == |t|;
      LexEnd(t);
    } else {
      var k, more := ts[0], ts[1..];
      var e := i + |TokenText(k)|;
      Slices(t, i, TokenText(k), Render(more));
      TokenRead(t, i, k);
      LexRender(t, e + 1, more);
      RenderStep(t, i, e, k, more);
      assert ts == [k] + more;
    }
  }

  // ---------- The parser does not look inside words ----------

  /** A maximal run of word characters. */
  ghost predicate SpanOk(t: string, sp: Span) {
    && sp.lo < sp.hi <= |t|
    && (forall k :: sp.lo <= k < sp.hi ==> IsWordChar(t[k]))
    && (sp.hi < |t| ==> !IsWordChar(t[sp.hi]))
  }

  ghost predicate TokensOk(t: string, ts: seq<Token<Span>>) {
    forall k :: 0 <= k < |ts| && ts[k].Word? ==> SpanOk(t, ts[k].w)
  }

  ghost predicate CmdOk(t: string, c: Cmd<Span>) {
    match c
    case Exec(args) => forall k :: 0 <= k < |args| ==> SpanOk(t, args[k])
    case Redir(d, file, _, _) => CmdOk(t, d) && SpanOk(t, file)
    case Pipe(l, r) => CmdOk(t, l) && CmdOk(t, r)
    case List(l, r) => CmdOk(t, l) && CmdOk(t, r)
    case Back(d) => CmdOk(t, d)
  }

  /** Parsing places and then reading them is parsing the words themselves; and
      every place comes from a token. */
  ghost predicate Commutes(t: string, r: Result<Span>, q: Result<string>) {
    && q == ResolveResult(t, r)
    && (r.Done? ==> CmdOk(t, r.cmd) && TokensOk(t, r.rest))
  }

  lemma {:induction false} LexOk(t: string, i: nat)
    requires i <= |t| && '\0' !in t
    ensures TokensOk(t, Lex(t, i))
    decreases |t| - i
  {
    var j := SkipSpace(t, i);
    if j < |t| {
      assert t[j] in t;
      LexOk(t, TokenAt(t, j).1);
    }
  }

  lemma TextDrop(t: string, ts: seq<Token<Span>>, n: nat)
    requires n <= |ts|
    ensures TextOf(t, ts[n..]) == TextOf(t, ts)[n..]
    ensures TokensOk(t, ts) ==> TokensOk(t, ts[n..])
  {
  }

  lemma TextStarts(t: string, ts: seq<Token<Span>>, cs: set<char>)
    ensures Starts(TextOf(t, ts), cs) == Starts(ts, cs)
  {
  }

  lemma {:induction false} AddArgCommutes(t: string, c: Cmd<Span>, sp: Span)
    requires CmdOk(t, c) && SpanOk(t, sp)
    ensures Resolve(t, AddArg(c, sp)) == AddArg(Resolve(t, c), Slice(t, sp)) && CmdOk(t, AddArg(c, sp))
  {
    match c
    case Exec(args) => assert Words(t, args + [sp]) == Words(t, args) + [Slice(t, sp)];
    case Redir(d, _, _, _) => AddArgCommutes(t, d, sp);
    case _ =>
  }

  lemma {:induction false} RedirsCommute(t: string, c: Cmd<Span>, ts: seq<Token<Span>>)
    requires CmdOk(t, c) && TokensOk(t, ts)
    ensures Commutes(t, ParseRedirs(c, ts), ParseRedirs(Resolve(t, c), TextOf(t, ts)))
    decreases |ts|
  {
    TextStarts(t, ts, {'<', '>'});
    if Starts(ts, {'<', '>'}) && |ts| >= 2 && ts[1].Word? {
      TextDrop(t, ts, 2);
      RedirsCommute(t, Redirect(c, ts[0], ts[1].w), ts[2..]);
    }
  }

  lemma {:induction false} ItemsCommute(t: string, c: Cmd<Span>, n: nat, ts: seq<Token<Span>>)
    requires CmdOk(t, c) && TokensOk(t, ts)
    ensures Commutes(t, ParseItems(c, n, ts), ParseItems(Resolve(t, c), n, TextOf(t, ts)))
    decreases |ts|, 1
  {
    RedirsCommute(t, c, ts);
    var r := ParseRedirs(c, ts);
    if r.Done? { ArgsCommute(t, r.cmd, n, r.rest); }
  }

  lemma {:induction false} ArgsCommute(t: string, c: Cmd<Span>, n: nat, ts: seq<Token<Span>>)
    requires CmdOk(t, c) && TokensOk(t, ts)
    ensures Commutes(t, ParseArgs(c, n, ts), ParseArgs(Resolve(t, c), n, TextOf(t, ts)))
    decreases |ts|, 0
  {
    TextStarts(t, ts, {'|', ')', '&', ';'});
    if ts != [] && ts[0].Word? && n + 1 < MAXARGS {
      TextDrop(t, ts, 1);
      AddArgCommutes(t, c, ts[0].w);
      ItemsCommute(t, AddArg(c, ts[0].w), n + 1, ts[1..]);
    }
  }

  lemma {:induction false} ExecCommutes(t: string, ts: seq<Token<Span>>)
    requires TokensOk(t, ts)
    ensures Commutes(t, ParseExec(ts), ParseExec(TextOf(t, ts)))
    decreases |ts|, 1
  {
    TextStarts(t, ts, {'('});
    if Starts(ts, {'('}) {
      BlockCommutes(t, ts);
    } else {
      assert Resolve(t, Exec([])) == Exec([]);
      ItemsCommute(t, Exec([]), 0, ts);
    }
  }

  lemma {:induction false} BlockCommutes(t: string, ts: seq<Token<Span>>)
    requires TokensOk(t, ts)
    ensures Commutes(t, ParseBlock(ts), ParseBlock(TextOf(t, ts)))
    decreases |ts|, 0
  {
    TextStarts(t, ts, {'('});
    if Starts(ts, {'('}) {
      TextDrop(t, ts, 1);
      LineCommutes(t, ts[1..]);
      var r := ParseLine(ts[1..]);
      if r.Done? {
        TextStarts(t, r.rest, {')'});
        if Starts(r.rest, {')'}) {
          TextDrop(t, r.rest, 1);
          RedirsCommute(t, r.cmd, r.rest[1..]);
        }
      }
    }
  }

  lemma {:induction false} PipeCommutes(t: string, ts: seq<Token<Span>>)
    requires TokensOk(t, ts)
    ensures Commutes(t, ParsePipe(ts), ParsePipe(TextOf(t, ts)))
    decreases |ts|, 2
  {
    ExecCommutes(t, ts);
    var r := ParseExec(ts);
    if r.Done? {
      TextStarts(t, r.rest, {'|'});
      if Starts(r.rest, {'|'}) {
        TextDrop(t, r.rest, 1);
        PipeCommutes(t, r.rest[1..]);
      }
    }
  }

  lemma {:induction false} BacksCommute(t: string, c: Cmd<Span>, ts: seq<Token<Span>>)
    requires CmdOk(t, c) && TokensOk(t, ts)
    ensures Commutes(t, ParseBacks(c, ts), ParseBacks(Resolve(t, c), TextOf(t, ts)))
    decreases |ts|
  {
    TextStarts(t, ts, {'&'});
    if Starts(ts, {'&'}) {
      TextDrop(t, ts, 1);
      BacksCommute(t, Back(c), ts[1..]);
    }
  }

  lemma {:induction false} LineCommutes(t: string, ts: seq<Token<Span>>)
    requires TokensOk(t, ts)
    ensures Commutes(t, ParseLine(ts), ParseLine(TextOf(t, ts)))
    decreases |ts|, 3
  {
    PipeCommutes(t, ts);
    var r := ParsePipe(ts);
    if r.Done? {
      BacksCommute(t, r.cmd, r.rest);
      var b := ParseBacks(r.cmd, r.rest);
      TextStarts(t, b.rest, {';'});
      if Starts(b.rest, {';'}) {
        TextDrop(t, b.rest, 1);
        LineCommutes(t, b.rest[1..]);
      }
    }
  }

  // ---------- Printing a tree and parsing the text ----------

  predicate WordsOk(c: Cmd<string>) {
    match c
    case Exec(args) => forall k :: 0 <= k < |args| ==> WordOk(args[k])
    case Redir(d, file, _, _) => WordsOk(d) && WordOk(file)
    case Pipe(l, r) => WordsOk(l) && WordsOk(r)
    case List(l, r) => WordsOk(l) && WordsOk(r)
    case Back(d) => WordsOk(d)
  }

  predicate AllOk(ts: seq<Token<string>>) { forall k :: 0 <= k < |ts| ==> TokenOk(ts[k]) }

  lemma {:induction false} ArgsOk(items: seq<Item<string>>)
    requires forall k :: 0 <= k < |items| ==> items[k].Arg? && WordOk(items[k].w)
    ensures AllOk(ItemTokens(items))
  {
    if items != [] { ArgsOk(items[1..]); }
  }

  lemma AloneTokens(x: Executable<string>)
    ensures LineTokens(Alone(x)) == ExecTokens(x) && PipeTokens(Pipeline(x, None)) == ExecTokens(x)
  {
  }

  lemma {:induction false} PrintedOk(c: Cmd<string>)
    requires WordsOk(c)
    ensures AllOk(LineTokens(Full(c)))
  {
    match c
    case Exec(args) =>
      ArgsOk(Full(c).pipe.exec.items);
      AloneTokens(Full(c).pipe.exec);
    case Redir(d, file, _, _) =>
      PrintedOk(d);
      var x := Full(c).pipe.exec;
      AloneTokens(x);
      assert x.redirs[1..] == [];
      assert AllOk(RedirTokens(x.redirs));
    case Pipe(l, r) =>
      PrintedOk(l);
      PrintedOk(r);
      AloneTokens(Block(Full(r), []));
      assert AllOk(PipeTokens(Full(c).pipe));
    case List(l, r) =>
      PrintedOk(l);
      PrintedOk(r);
      AloneTokens(Block(Full(l), []));
      AloneTokens(Block(Full(r), []));
    case Back(d) =>
      PrintedOk(d);
      AloneTokens(Block(Full(d), []));
  }

  lemma {:induction false} RenderHasNoNul(ts: seq<Token<string>>)
    requires AllOk(ts)
    ensures '\0' !in Render(ts)
  {
    if ts != [] {
      assert TokenOk(ts[0]);
      RenderHasNoNul(ts[1..]);
    }
  }

  /** The text of a command, fully parenthesised. */
  function Print(c: Cmd<string>): string { Render(LineTokens(Full(c))) }

  /** The shell's parser inverts printing: for every tree it could build, parsing
      the text printed for it gives places in that text that read as the tree. */
  lemma RoundTrip(c: Cmd<string>)
    requires Fits(c) && WordsOk(c)
    ensures '\0' !in Print(c)
    ensures var r := Parse(Lex(Print(c), 0)); r.Done? && Resolve(Print(c), r.cmd) == c
    ensures Parse(TextOf(Print(c), Lex(Print(c), 0))) == Done(c, [])
  {
    var ts, t := LineTokens(Full(c)), Print(c);
    PrintedOk(c);
    RenderHasNoNul(ts);
    assert t[0..] == t;
    LexRender(t, 0, ts);
    assert LexesTo(t, 0, ts);
    ParsesPrinted(c);
    LexOk(t, 0);
    LineCommutes(t, Lex(t, 0));
  }
}

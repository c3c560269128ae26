/** The parser of user/sh.c: a cursor over the characters of a line, building a
    tree of places in it, and nulterminate, which then writes the ends. */
module Shell {
  import opened ShellGrammar
  import opened ShellProof
  import opened ShellText

  /** The character at place i; the line ends in a NUL. */
  function At(t: string, i: nat): char
    requires i <= |t|
  {
    if i < |t| then t[i] else '\0'
  }

  datatype Parsed = Parsed(cmd: Cmd<Span>) | Failed(error: Error)

  /** What a parsing routine that left the cursor at j returned agrees with the
      parser over tokens. */
  ghost predicate Agrees(t: string, spec: Result<Span>, r: Parsed, j: nat) {
    && j <= |t| && '\0' !in t
    && match spec
       case Done(c, rest) => r == Parsed(c) && Lex(t, j) == rest
       case Panic(e) => r == Failed(e)
  }

  // ---------- The scanner ----------

  method PassSpace(t: string, i: nat) returns (s: nat)
    requires i <= |t|
    ensures s == SkipSpace(t, i)
  {
    s := i;
    while s < |t| && t[s] in {' ', '\t', '\r', '\n', '\U{0B}'}
      invariant i <= s <= |t| && SkipSpace(t, s) == SkipSpace(t, i)
    {
      s := s + 1;
    }
  }

  method PassWord(t: string, i: nat) returns (s: nat)
    requires i <= |t| && '\0' !in t
    ensures s == WordEnd(t, i)
  {
    s := i;
    while s < |t| && t[s] !in WHITESPACE && t[s] !in SYMBOLS
      invariant i <= s <= |t| && WordEnd(t, s) == WordEnd(t, i)
    {
      assert t[s] in t;
      s := s + 1;
    }
  }

  /** The token a return code of gettoken and the ends it stored stand for. */
  function AsToken(ret: char, q: nat, eq: nat): Token<Span> {
    if ret == 'a' then Word(Span(q, eq)) else if ret == '+' then Append else Sym(ret)
  }

  lemma LexAfterSpace(t: string, i: nat)
    requires i <= |t| && '\0' !in t
    ensures Lex(t, SkipSpace(t, i)) == Lex(t, i)
  {
    assert SkipSpace(t, SkipSpace(t, i)) == SkipSpace(t, i);
  }

  /** gettoken: the next token and a cursor at what follows it; 0 at the end. */
  method GetToken(t: string, i: nat) returns (ret: char, q: nat, eq: nat, j: nat)
    requires i <= |t| && '\0' !in t
    ensures i <= j <= |t|
    ensures Lex(t, i) == [] <==> ret == '\0'
    ensures Lex(t, i) == [] ==> Lex(t, j) == []
    ensures Lex(t, i) != [] ==> Lex(t, i) == [AsToken(ret, q, eq)] + Lex(t, j) && i < j
  {
    var s := PassSpace(t, i);
    q := s;
    ret := At(t, s);
    assert s < |t| ==> t[s] in t;
    if ret == '\0' {
    } else if ret in {'|', '(', ')', ';', '&', '<'} {
      s := s + 1;
    } else if ret == '>' {
      s := s + 1;
      if At(t, s) == '>' {
        ret := '+';
        s := s + 1;
      }
    } else {
      ret := 'a';
      s := PassWord(t, s);
    }
    eq := s;
    j := PassSpace(t, s);
    LexAfterSpace(t, s);
  }

  /** peek: whether the next token starts with one of the symbols toks. */
  method Peek(t: string, i: nat, toks: set<char>) returns (found: bool, j: nat)
    requires i <= |t| && '\0' !in t && toks <= SYMBOLS
    ensures i <= j <= |t| && Lex(t, j) == Lex(t, i) && j == SkipSpace(t, i)
    ensures found == Starts(Lex(t, i), toks)
  {
    j := PassSpace(t, i);
    LexAfterSpace(t, i);
    found := At(t, j) != '\0' && At(t, j) in toks;
    assert j < |t| ==> t[j] in t;
  }

  // ---------- Recursive descent ----------

  /** One turn of the loop of parseredirs: a redirection sign and its file. */
  method OneRedir(cmd: Cmd<Span>, t: string, i: nat) returns (r: Parsed, j: nat)
    requires i <= |t| && '\0' !in t && Starts(Lex(t, i), {'<', '>'})
    ensures i < j <= |t|
    ensures var ts := Lex(t, i);
      if |ts| < 2 || !ts[1].Word? then r == Failed(MissingFile)
      else r == Parsed(Redirect(cmd, ts[0], ts[1].w)) && Lex(t, j) == ts[2..]
  {
    var tok, ret, q, eq;
    ghost var ts := Lex(t, i);
    tok, q, eq, j := GetToken(t, i);
    ghost var ts1 := Lex(t, j);
    assert ts == [AsToken(tok, q, eq)] + ts1;
    ret, q, eq, j := GetToken(t, j);
    hide Lex;
    if ret != 'a' {
      return Failed(MissingFile), j;
    }
    assert ts1[1..] == Lex(t, j) && ts[2..] == ts1[1..];
    match tok
    case '<' => r := Parsed(Redir(cmd, Span(q, eq), O_RDONLY, 0));
    case '>' => r := Parsed(Redir(cmd, Span(q, eq), O_WRONLY_CREATE, 1));
    case _ => r := Parsed(Redir(cmd, Span(q, eq), O_WRONLY_CREATE, 1));
  }

  method ParseRedirsAt(cmd: Cmd<Span>, t: string, i: nat) returns (r: Parsed, j: nat)
    requires i <= |t| && '\0' !in t
    ensures i <= j && Agrees(t, ParseRedirs(cmd, Lex(t, i)), r, j)
  {
    hide Lex;
    r := Parsed(cmd);
    var found;
    found, j := Peek(t, i, {'<', '>'});
    while found
      invariant i <= j <= |t| && r.Parsed? && found == Starts(Lex(t, j), {'<', '>'})
      invariant ParseRedirs(r.cmd, Lex(t, j)) == ParseRedirs(cmd, Lex(t, i))
      decreases |t| - j
    {
      r, j := OneRedir(r.cmd, t, j);
      if r.Failed? {
        return;
      }
      found, j := Peek(t, j, {'<', '>'});
    }
  }

  /** The rest of a turn of the argument loop of parseexec, after its gettoken:
      a word, and the redirections after it. */
  method OneArg(cmd: Cmd<Span>, argc: nat, ret: char, q: nat, eq: nat, t: string, i: nat) returns (r: Parsed, j: nat)
    requires i <= |t| && '\0' !in t
    ensures i <= j <= |t|
    ensures
      if ret != 'a' then r == Failed(Syntax)
      else if argc + 1 >= MAXARGS then r == Failed(TooManyArgs)
      else Agrees(t, ParseRedirs(AddArg(cmd, Span(q, eq)), Lex(t, i)), r, j)
  {
    j := i;
    if ret != 'a' {
      return Failed(Syntax), j;
    }
    if argc + 1 >= MAXARGS {
      return Failed(TooManyArgs), j;
    }
    r, j := ParseRedirsAt(AddArg(cmd, Span(q, eq)), t, j);
  }

  /** parseexec without parentheses. */
  method ParseSimpleAt(t: string, i: nat) returns (r: Parsed, j: nat)
    requires i <= |t| && '\0' !in t
    ensures i <= j && Agrees(t, ParseItems(Exec([]), 0, Lex(t, i)), r, j)
  {
    hide Lex, ParseRedirs;
    var argc := 0;
    r, j := ParseRedirsAt(Exec([]), t, i);
    if r.Failed? {
      return;
    }
    var found;
    found, j := Peek(t, j, {'|', ')', '&', ';'});
    while !found
      invariant i <= j <= |t| && r.Parsed? && found == Starts(Lex(t, j), {'|', ')', '&', ';'})
      invariant argc < MAXARGS && ParseArgs(r.cmd, argc, Lex(t, j)) == ParseItems(Exec([]), 0, Lex(t, i))
      decreases |t| - j
    {
      ghost var ts := Lex(t, j);
      var ret, q, eq;
      ret, q, eq, j := GetToken(t, j);
      if ret == '\0' {
        break;
      }
      assert ts[1..] == Lex(t, j);
      r, j := OneArg(r.cmd, argc, ret, q, eq, t, j);
      if r.Failed? {
        return;
      }
      argc := argc + 1;
      found, j := Peek(t, j, {'|', ')', '&', ';'});
    }
  }

  method ParseExecAt(t: string, i: nat) returns (r: Parsed, j: nat)
    requires i <= |t| && '\0' !in t
    ensures i <= j && Agrees(t, ParseExec(Lex(t, i)), r, j)
    decreases |t| - i, 1
  {
    var found;
    found, j := Peek(t, i, {'('});
    if found {
      r, j := ParseBlockAt(t, j);
    } else {
      r, j := ParseSimpleAt(t, j);
    }
  }

  method ParseBlockAt(t: string, i: nat) returns (r: Parsed, j: nat)
    requires i <= |t| && '\0' !in t
    ensures i <= j && Agrees(t, ParseBlock(Lex(t, i)), r, j)
    decreases |t| - i, 0
  {
    var found, ret, q, eq;
    found, j := Peek(t, i, {'('});
    if !found {
      return Failed(NoBlock), j;
    }
    ghost var ts := Lex(t, i);
    ret, q, eq, j := GetToken(t, j);
    assert ts[1..] == Lex(t, j);
    r, j := ParseLineAt(t, j);
    if r.Failed? {
      return;
    }
    found, j := Peek(t, j, {')'});
    if !found {
      return Failed(MissingParen), j;
    }
    ts := Lex(t, j);
    ret, q, eq, j := GetToken(t, j);
    assert ts[1..] == Lex(t, j);
    r, j := ParseRedirsAt(r.cmd, t, j);
  }

  method ParsePipeAt(t: string, i: nat) returns (r: Parsed, j: nat)
    requires i <= |t| && '\0' !in t
    ensures i <= j && Agrees(t, ParsePipe(Lex(t, i)), r, j)
    decreases |t| - i, 2
  {
    r, j := ParseExecAt(t, i);
    if r.Failed? {
      return;
    }
    var found, ret, q, eq;
    found, j := Peek(t, j, {'|'});
    if found {
      ghost var ts := Lex(t, j);
      ret, q, eq, j := GetToken(t, j);
      assert ts[1..] == Lex(t, j);
      var c := r.cmd;
      r, j := ParsePipeAt(t, j);
      if r.Parsed? {
        r := Parsed(Pipe(c, r.cmd));
      }
    }
  }

  method ParseLineAt(t: string, i: nat) returns (r: Parsed, j: nat)
    requires i <= |t| && '\0' !in t
    ensures i <= j && Agrees(t, ParseLine(Lex(t, i)), r, j)
    decreases |t| - i, 3
  {
    r, j := ParsePipeAt(t, i);
    if r.Failed? {
      return;
    }
    var c := r.cmd;
    var found, ret, q, eq;
    ghost var b := ParseBacks(c, Lex(t, j));
    found, j := Peek(t, j, {'&'});
    while found
      invariant i <= j <= |t| && found == Starts(Lex(t, j), {'&'}) && ParseBacks(c, Lex(t, j)) == b
      decreases |t| - j
    {
      ghost var ts := Lex(t, j);
      ret, q, eq, j := GetToken(t, j);
      assert ts[1..] == Lex(t, j);
      c := Back(c);
      found, j := Peek(t, j, {'&'});
    }
    found, j := Peek(t, j, {';'});
    r := Parsed(c);
    if found {
      ghost var ts := Lex(t, j);
      ret, q, eq, j := GetToken(t, j);
      assert ts[1..] == Lex(t, j);
      r, j := ParseLineAt(t, j);
      if r.Parsed? {
        r := Parsed(List(c, r.cmd));
      }
    }
  }

  // ---------- Ending the words ----------

  /** Where the words of a tree end. */
  ghost function Ends(c: Cmd<Span>): set<nat> {
    match c
    case Exec(args) => set k: nat | k < |args| :: args[k].hi
    case Redir(d, file, _, _) => Ends(d) + {file.hi}
    case Pipe(l, r) => Ends(l) + Ends(r)
    case List(l, r) => Ends(l) + Ends(r)
    case Back(d) => Ends(d)
  }

  /** The string a C program reads at a place: up to the next NUL. */
  function CString(b: string, i: nat): string
    decreases |b| - i
  {
    if i >= |b| || b[i] == '\0' then "" else [b[i]] + CString(b, i + 1)
  }

  /** A tree as the commands see it: each word through its pointer alone. */
  function ReadBack(b: string, c: Cmd<Span>): Cmd<string> {
    match c
    case Exec(args) => Exec(seq(|args|, k requires 0 <= k < |args| => CString(b, args[k].lo)))
    case Redir(d, file, mode, fd) => Redir(ReadBack(b, d), CString(b, file.lo), mode, fd)
    case Pipe(l, r) => Pipe(ReadBack(b, l), ReadBack(b, r))
    case List(l, r) => List(ReadBack(b, l), ReadBack(b, r))
    case Back(d) => Back(ReadBack(b, d))
  }

  method NulTerminate(cmd: Cmd<Span>, buf: array<char>)
    requires forall k :: k in Ends(cmd) ==> k < buf.Length
    modifies buf
    ensures forall k: nat :: k < buf.Length ==> buf[k] == if k in Ends(cmd) then '\0' else old(buf[k])
  {
    match cmd
    case Exec(args) =>
      assert forall k: nat :: k < |args| ==> args[k].hi in Ends(cmd);
      for i := 0 to |args|
        invariant forall k: nat :: k < buf.Length ==>
          buf[k] == if k in (set n: nat | n < i :: args[n].hi) then '\0' else old(buf[k])
      {
        buf[args[i].hi] := '\0';
      }
    case Redir(d, file, _, _) =>
      assert Ends(d) <= Ends(cmd) && file.hi in Ends(cmd);
      NulTerminate(d, buf);
      buf[file.hi] := '\0';
    case Pipe(l, r) =>
      assert Ends(l) <= Ends(cmd) && Ends(r) <= Ends(cmd);
      NulTerminate(l, buf);
      NulTerminate(r, buf);
    case List(l, r) =>
      assert Ends(l) <= Ends(cmd) && Ends(r) <= Ends(cmd);
      NulTerminate(l, buf);
      NulTerminate(r, buf);
    case Back(d) =>
      assert Ends(d) == Ends(cmd);
      NulTerminate(d, buf);
  }

  /** b is the line t with its NUL and with NULs at places that end words. */
  ghost predicate Ended(t: string, b: string, ends: set<nat>) {
    && |b| > |t| && '\0' !in t
    && (forall k :: k in ends ==> k <= |t| && (k < |t| ==> !IsWordChar(t[k])))
    && (forall k: nat :: k < |b| && k in ends ==> b[k] == '\0')
    && (forall k: nat :: k < |t| && k !in ends ==> b[k] == t[k])
  }

  /** A word whose end is written is read exactly: no end is inside a word. */
  lemma {:induction false} SpanReads(t: string, b: string, ends: set<nat>, i: nat, sp: Span)
    requires Ended(t, b, ends) && SpanOk(t, sp) && sp.hi in ends && sp.lo <= i <= sp.hi
    ensures CString(b, i) == t[i..sp.hi]
    decreases sp.hi - i
  {
    if i < sp.hi {
      assert IsWordChar(t[i]) && i !in ends;
      SpanReads(t, b, ends, i + 1, sp);
    }
  }

  lemma {:induction false} TreeReads(t: string, b: string, ends: set<nat>, c: Cmd<Span>)
    requires Ended(t, b, ends) && CmdOk(t, c) && Ends(c) <= ends
    ensures ReadBack(b, c) == Resolve(t, c)
  {
    match c
    case Exec(args) =>
      forall k: nat | k < |args| ensures CString(b, args[k].lo) == Slice(t, args[k]) {
        assert args[k].hi in Ends(c);
        SpanReads(t, b, ends, args[k].lo, args[k]);
      }
    case Redir(d, file, _, _) =>
      TreeReads(t, b, ends, d);
      SpanReads(t, b, ends, file.lo, file);
    case Pipe(l, r) => TreeReads(t, b, ends, l); TreeReads(t, b, ends, r);
    case List(l, r) => TreeReads(t, b, ends, l); TreeReads(t, b, ends, r);
    case Back(d) => TreeReads(t, b, ends, d);
  }

  lemma {:induction false} EndsOk(t: string, c: Cmd<Span>, k: nat)
    requires CmdOk(t, c) && k in Ends(c)
    ensures k <= |t| && (k < |t| ==> !IsWordChar(t[k]))
  {
    match c
    case Exec(args) =>
      var n: nat :| n < |args| && args[n].hi == k;
      assert SpanOk(t, args[n]);
    case Redir(d, file, _, _) => if k in Ends(d) { EndsOk(t, d, k); }
    case Pipe(l, r) => if k in Ends(l) { EndsOk(t, l, k); } else { EndsOk(t, r, k); }
    case List(l, r) => if k in Ends(l) { EndsOk(t, l, k); } else { EndsOk(t, r, k); }
    case Back(d) => EndsOk(t, d, k);
  }

  // ---------- parsecmd ----------

  /** The line in a buffer: what is before the first NUL. */
  ghost predicate LineIn(b: string, t: string) {
    |t| < |b| && b[..|t|] == t && '\0' !in t && b[|t|] == '\0'
  }

  method StrLen(buf: array<char>) returns (n: nat)
    requires '\0' in buf[..]
    ensures n < buf.Length && LineIn(buf[..], buf[..n])
  {
    n := 0;
    assert buf[0..] == buf[..];
    while buf[n] != '\0'
      invariant n < buf.Length && '\0' !in buf[..n] && '\0' in buf[n..]
      decreases buf.Length - n
    {
      assert buf[..n + 1] == buf[..n] + [buf[n]] && buf[n..] == [buf[n]] + buf[n + 1..];
      n := n + 1;
    }
    assert buf[..][..n] == buf[..n];
  }

  /** parsecmd: the tree, read through its pointers in the ended line, is what the
      parser over tokens makes of the words of the line; when that fails, so does
      parsecmd, with the same message and before it writes to the line. */
  method ParseCmd(buf: array<char>, ghost t: string) returns (r: Parsed)
    requires LineIn(buf[..], t)
    modifies buf
    ensures match Parse(TextOf(t, Lex(t, 0)))
      case Done(c, _) => r.Parsed? && ReadBack(buf[..], r.cmd) == c
      case Panic(e) => r == Failed(e) && buf[..] == old(buf[..])
  {
    assert buf[..][|t|] == '\0';
    var es := StrLen(buf);
    assert t == buf[..es] by {
      SameLine(buf[..], t, buf[..es]);
    }
    var line := buf[..es];
    LexOk(line, 0);
    LineCommutes(line, Lex(line, 0));
    var s;
    r, s := ParseLineAt(line, 0);
    if r.Failed? {
      return;
    }
    var found;
    found, s := Peek(line, s, {});
    assert SkipSpace(line, s) == s;
    assert Lex(line, s) == [] <==> s == |line|;
    if s != es {
      return Failed(Syntax);
    }
    forall k | k in Ends(r.cmd) ensures k <= |line| && (k < |line| ==> !IsWordChar(line[k])) {
      EndsOk(line, r.cmd, k);
    }
    NulTerminate(r.cmd, buf);
    TreeReads(line, buf[..], Ends(r.cmd), r.cmd);
  }

  lemma SameLine(b: string, t: string, u: string)
    requires LineIn(b, t) && LineIn(b, u)
    ensures t == u
  {
    assert |t| == |u|;
  }
}

/** The command language of user/sh.c: its tokens, its grammar, and a recursive
    descent parser over tokens.  W is what a word is: a string, or a place in
    the line. */
module ShellGrammar {
  import opened Prelude

  const MAXARGS := 10
  const O_RDONLY := 0
  const O_WRONLY_CREATE := 0x201

  /** Append is the token ">>". */
  datatype Token<W> = Sym(c: char) | Append | Word(w: W)

  datatype Cmd<W> =
    | Exec(args: seq<W>)
    | Redir(cmd: Cmd<W>, file: W, mode: nat, fd: nat)
    | Pipe(left: Cmd<W>, right: Cmd<W>)
    | List(left: Cmd<W>, right: Cmd<W>)
    | Back(cmd: Cmd<W>)

  datatype Error = MissingFile | NoBlock | MissingParen | Syntax | TooManyArgs

  datatype Result<W> = Done(cmd: Cmd<W>, rest: seq<Token<W>>) | Panic(error: Error)

  // ---------- The parser over tokens ----------

  /** The first token starts with one of the characters cs. */
  predicate Starts<W>(ts: seq<Token<W>>, cs: set<char>) {
    ts != [] && ((ts[0].Sym? && ts[0].c in cs) || (ts[0].Append? && '>' in cs))
  }

  function Redirect<W>(c: Cmd<W>, tok: Token<W>, file: W): Cmd<W> {
    if tok.Sym? && tok.c == '<' then Redir(c, file, O_RDONLY, 0) else Redir(c, file, O_WRONLY_CREATE, 1)
  }

  /** Add a word to the EXEC under any redirections. */
  function AddArg<W>(c: Cmd<W>, w: W): Cmd<W> {
    match c
    case Exec(args) => Exec(args + [w])
    case Redir(d, file, mode, fd) => Redir(AddArg(d, w), file, mode, fd)
    case _ => c
  }

  function ParseRedirs<W>(c: Cmd<W>, ts: seq<Token<W>>): (r: Result<W>)
    ensures r.Done? ==> |r.rest| <= |ts| && !Starts(r.rest, {'<', '>'})
    decreases |ts|
  {
    if !Starts(ts, {'<', '>'}) then Done(c, ts)
    else if |ts| < 2 || !ts[1].Word? then Panic(MissingFile)
    else ParseRedirs(Redirect(c, ts[0], ts[1].w), ts[2..])
  }

  /** The argument loop of parseexec, with n words so far: redirections, then a
      word and the loop again. */
  function ParseItems<W>(c: Cmd<W>, n: nat, ts: seq<Token<W>>): (r: Result<W>)
    ensures r.Done? ==> |r.rest| <= |ts|
    decreases |ts|, 1
  {
    var r := ParseRedirs(c, ts);
    if r.Panic? then r else ParseArgs(r.cmd, n, r.rest)
  }

  function ParseArgs<W>(c: Cmd<W>, n: nat, ts: seq<Token<W>>): (r: Result<W>)
    ensures r.Done? ==> |r.rest| <= |ts|
    decreases |ts|, 0
  {
    if Starts(ts, {'|', ')', '&', ';'}) || ts == [] then Done(c, ts)
    else if !ts[0].Word? then Panic(Syntax)
    else if n + 1 >= MAXARGS then Panic(TooManyArgs)
    else ParseItems(AddArg(c, ts[0].w), n + 1, ts[1..])
  }

  function ParseExec<W>(ts: seq<Token<W>>): (r: Result<W>)
    ensures r.Done? ==> |r.rest| <= |ts|
    decreases |ts|, 1
  {
    if Starts(ts, {'('}) then ParseBlock(ts) else ParseItems(Exec([]), 0, ts)
  }

  function ParseBlock<W>(ts: seq<Token<W>>): (r: Result<W>)
    ensures r.Done? ==> |r.rest| <= |ts|
    decreases |ts|, 0
  {
    if !Starts(ts, {'('}) then Panic(NoBlock)
    else
      var r := ParseLine(ts[1..]);
      if r.Panic? then r
      else if !Starts(r.rest, {')'}) then Panic(MissingParen)
      else ParseRedirs(r.cmd, r.rest[1..])
  }

  function ParsePipe<W>(ts: seq<Token<W>>): (r: Result<W>)
    ensures r.Done? ==> |r.rest| <= |ts|
    decreases |ts|, 2
  {
    var r := ParseExec(ts);
    if r.Panic? || !Starts(r.rest, {'|'}) then r
    else
      var q := ParsePipe(r.rest[1..]);
      if q.Panic? then q else Done(Pipe(r.cmd, q.cmd), q.rest)
  }

  /** The "&" loop of parseline. */
  function ParseBacks<W>(c: Cmd<W>, ts: seq<Token<W>>): (r: Result<W>)
    ensures r.Done? && |r.rest| <= |ts|
    decreases |ts|
  {
    if Starts(ts, {'&'}) then ParseBacks(Back(c), ts[1..]) else Done(c, ts)
  }

  function ParseLine<W>(ts: seq<Token<W>>): (r: Result<W>)
    ensures r.Done? ==> |r.rest| <= |ts|
    decreases |ts|, 3
  {
    var r := ParsePipe(ts);
    if r.Panic? then r
    else
      var b := ParseBacks(r.cmd, r.rest);
      if !Starts(b.rest, {';'}) then b
      else
        var q := ParseLine(b.rest[1..]);
        if q.Panic? then q else Done(List(b.cmd, q.cmd), q.rest)
  }

  /** parsecmd, up to nulterminate. */
  function Parse<W>(ts: seq<Token<W>>): (r: Result<W>)
    ensures r.Done? ==> r.rest == []
  {
    var r := ParseLine(ts);
    if r.Done? && r.rest != [] then Panic(Syntax) else r
  }

  // ---------- The grammar ----------

  datatype Dir = In | Out | OutAppend

  datatype Redirection<W> = Redirection(dir: Dir, file: W)

  datatype Item<W> = Arg(w: W) | Direct(r: Redirection<W>)

  /** line ::= pipe "&"* (";" line)? */
  datatype Line<W> = Line(pipe: Pipeline<W>, backs: nat, rest: Option<Line<W>>)

  /** pipe ::= exec ("|" pipe)? */
  datatype Pipeline<W> = Pipeline(exec: Executable<W>, rest: Option<Pipeline<W>>)

  /** exec ::= "(" line ")" redirection* | (word | redirection)* */
  datatype Executable<W> = Block(line: Line<W>, redirs: seq<Redirection<W>>) | Simple(items: seq<Item<W>>)

  function DirToken<W>(d: Dir): Token<W> {
    match d case In => Sym('<') case Out => Sym('>') case OutAppend => Append
  }

  function RedirTokens<W>(rs: seq<Redirection<W>>): seq<Token<W>> {
    if rs == [] then [] else [DirToken(rs[0].dir), Word(rs[0].file)] + RedirTokens(rs[1..])
  }

  function ItemTokens<W>(items: seq<Item<W>>): seq<Token<W>> {
    if items == [] then []
    else (match items[0] case Arg(w) => [Word(w)] case Direct(r) => [DirToken(r.dir), Word(r.file)]) + ItemTokens(items[1..])
  }

  function LineTokens<W>(x: Line<W>): seq<Token<W>> {
    PipeTokens(x.pipe) + seq(x.backs, i => Sym('&')) + (match x.rest case None => [] case Some(y) => [Sym(';')] + LineTokens(y))
  }

  function PipeTokens<W>(x: Pipeline<W>): seq<Token<W>> {
    ExecTokens(x.exec) + (match x.rest case None => [] case Some(y) => [Sym('|')] + PipeTokens(y))
  }

  function ExecTokens<W>(x: Executable<W>): seq<Token<W>> {
    match x
    case Block(line, redirs) => [Sym('(')] + LineTokens(line) + [Sym(')')] + RedirTokens(redirs)
    case Simple(items) => ItemTokens(items)
  }

  // What a phrase means: ";" and "|" group to the right, "|" binds tighter than
  // "&" and that tighter than ";", and redirections apply left to right.

  function Args<W>(items: seq<Item<W>>): seq<W> {
    if items == [] then [] else (if items[0].Arg? then [items[0].w] else []) + Args(items[1..])
  }

  function Redirs<W>(items: seq<Item<W>>): seq<Redirection<W>> {
    if items == [] then [] else (if items[0].Direct? then [items[0].r] else []) + Redirs(items[1..])
  }

  function Wrap<W>(c: Cmd<W>, rs: seq<Redirection<W>>): Cmd<W>
    decreases |rs|
  {
    if rs == [] then c
    else
      var d := if rs[0].dir.In? then Redir(c, rs[0].file, O_RDONLY, 0) else Redir(c, rs[0].file, O_WRONLY_CREATE, 1);
      Wrap(d, rs[1..])
  }

  function Backs<W>(c: Cmd<W>, n: nat): Cmd<W> {
    if n == 0 then c else Back(Backs(c, n - 1))
  }

  function LineCmd<W>(x: Line<W>): Cmd<W> {
    var c := Backs(PipeCmd(x.pipe), x.backs);
    match x.rest case None => c case Some(y) => List(c, LineCmd(y))
  }

  function PipeCmd<W>(x: Pipeline<W>): Cmd<W> {
    match x.rest case None => ExecCmd(x.exec) case Some(y) => Pipe(ExecCmd(x.exec), PipeCmd(y))
  }

  function ExecCmd<W>(x: Executable<W>): Cmd<W> {
    match x
    case Block(line, redirs) => Wrap(LineCmd(line), redirs)
    case Simple(items) => Wrap(Exec(Args(items)), Redirs(items))
  }

  /** No command has more words than fit an argv with its end marker. */
  predicate LineFits<W>(x: Line<W>) {
    PipeFits(x.pipe) && (x.rest.Some? ==> LineFits(x.rest.value))
  }

  predicate PipeFits<W>(x: Pipeline<W>) {
    ExecFits(x.exec) && (x.rest.Some? ==> PipeFits(x.rest.value))
  }

  predicate ExecFits<W>(x: Executable<W>) {
    match x
    case Block(line, redirs) => LineFits(line)
    case Simple(items) => |Args(items)| < MAXARGS
  }
}

/** The parser accepts exactly the grammar's phrases and builds what they mean;
    it never looks inside a word; and it inverts printing. */
module ShellProof {
  import opened Prelude
  import opened ShellGrammar

  lemma Tail<T>(a: T, xs: seq<T>, ys: seq<T>)
    ensures ([a] + xs + ys)[1..] == xs + ys && ([a] + (xs + ys)) == [a] + xs + ys
  {
  }

  lemma Assoc<T>(xs: seq<T>, ys: seq<T>, zs: seq<T>)
    ensures xs + ys + zs == xs + (ys + zs)
  {
  }

  // ---------- Redirections and words ----------

  lemma {:induction false} WrapSnoc<W>(c: Cmd<W>, rs: seq<Redirection<W>>, r: Redirection<W>)
    ensures Wrap(c, rs + [r]) == Redirect(Wrap(c, rs), DirToken(r.dir), r.file)
    decreases |rs|
  {
    if rs != [] {
      assert (rs + [r])[1..] == rs[1..] + [r];
      WrapSnoc(Redirect(c, DirToken(rs[0].dir), rs[0].file), rs[1..], r);
    }
  }

  lemma {:induction false} AddArgWrap<W>(args: seq<W>, rs: seq<Redirection<W>>, w: W)
    ensures AddArg(Wrap(Exec(args), rs), w) == Wrap(Exec(args + [w]), rs)
    decreases |rs|
  {
    if rs != [] {
      var init, last := rs[..|rs| - 1], rs[|rs| - 1];
      assert rs == init + [last];
      WrapSnoc(Exec(args), init, last);
      WrapSnoc(Exec(args + [w]), init, last);
      AddArgWrap(args, init, w);
    }
  }

  /** The tokens after a phrase do not continue a list of words. */
  predicate Stops<W>(rest: seq<Token<W>>) { rest == [] || Starts(rest, {'|', ')', '&', ';'}) }

  lemma {:induction false} RedirsComplete<W>(c: Cmd<W>, rs: seq<Redirection<W>>, rest: seq<Token<W>>)
    requires !Starts(rest, {'<', '>'})
    ensures ParseRedirs(c, RedirTokens(rs) + rest) == Done(Wrap(c, rs), rest)
    decreases |rs|
  {
    var ts := RedirTokens(rs) + rest;
    if rs == [] {
      assert ts == rest;
    } else {
      assert ts[2..] == RedirTokens(rs[1..]) + rest;
      RedirsComplete(Redirect(c, DirToken(rs[0].dir), rs[0].file), rs[1..], rest);
    }
  }

  lemma {:induction false} RedirsSound<W>(c: Cmd<W>, ts: seq<Token<W>>) returns (rs: seq<Redirection<W>>)
    requires ParseRedirs(c, ts).Done?
    ensures ts == RedirTokens(rs) + ParseRedirs(c, ts).rest && ParseRedirs(c, ts).cmd == Wrap(c, rs)
    decreases |ts|
  {
    if Starts(ts, {'<', '>'}) {
      var r := FirstRedir(ts);
      var more := RedirsSound(Redirect(c, ts[0], ts[1].w), ts[2..]);
      rs := [r] + more;
      assert rs[1..] == more;
      Assoc([DirToken(r.dir), Word(r.file)], RedirTokens(more), ParseRedirs(c, ts).rest);
    } else {
      rs := [];
    }
  }

  // One turn of the argument loop.

  lemma TurnStop<W>(c: Cmd<W>, n: nat, ts: seq<Token<W>>)
    requires Stops(ts)
    ensures ParseItems(c, n, ts) == Done(c, ts)
  {
  }

  lemma TurnWord<W>(c: Cmd<W>, n: nat, w: W, ts: seq<Token<W>>)
    requires n + 1 < MAXARGS
    ensures ParseItems(c, n, [Word(w)] + ts) == ParseItems(AddArg(c, w), n + 1, ts)
  {
    assert ParseRedirs(c, [Word(w)] + ts) == Done(c, [Word(w)] + ts);
    assert ([Word(w)] + ts)[1..] == ts;
  }

  lemma TurnRedir<W>(c: Cmd<W>, n: nat, r: Redirection<W>, ts: seq<Token<W>>)
    ensures ParseItems(c, n, [DirToken(r.dir), Word(r.file)] + ts) == ParseItems(Redirect(c, DirToken(r.dir), r.file), n, ts)
  {
    assert ([DirToken(r.dir), Word(r.file)] + ts)[2..] == ts;
  }

  lemma ItemsCons<W>(it: Item<W>, more: seq<Item<W>>)
    ensures it.Arg? ==> Args([it] + more) == [it.w] + Args(more) && Redirs([it] + more) == Redirs(more)
    ensures it.Arg? ==> ItemTokens([it] + more) == [Word(it.w)] + ItemTokens(more)
    ensures it.Direct? ==> Args([it] + more) == Args(more) && Redirs([it] + more) == [it.r] + Redirs(more)
    ensures it.Direct? ==> ItemTokens([it] + more) == [DirToken(it.r.dir), Word(it.r.file)] + ItemTokens(more)
  {
    assert ([it] + more)[1..] == more;
  }

  lemma {:induction false} ItemsComplete<W>(args: seq<W>, rs: seq<Redirection<W>>, items: seq<Item<W>>, rest: seq<Token<W>>)
    requires Stops(rest) && |args| + |Args(items)| < MAXARGS
    ensures ParseItems(Wrap(Exec(args), rs), |args|, ItemTokens(items) + rest)
         == Done(Wrap(Exec(args + Args(items)), rs + Redirs(items)), rest)
    decreases |items|
  {
    if items == [] {
      assert ItemTokens(items) + rest == rest;
      assert args + Args(items) == args && rs + Redirs(items) == rs;
      TurnStop(Wrap(Exec(args), rs), |args|, rest);
    } else {
      var more := items[1..];
      assert items == [items[0]] + more;
      ItemsCons(items[0], more);
      hide Args, Redirs, ItemTokens, Wrap, ParseItems, AddArg, Stops, Redirect;
      var ts := ItemTokens(more) + rest;
      match items[0]
      case Arg(w) =>
        Assoc([Word(w)], ItemTokens(more), rest);
        TurnWord(Wrap(Exec(args), rs), |args|, w, ts);
        AddArgWrap(args, rs, w);
        ItemsComplete(args + [w], rs, more, rest);
        Assoc(args, [w], Args(more));
      case Direct(r) =>
        Assoc([DirToken(r.dir), Word(r.file)], ItemTokens(more), rest);
        TurnRedir(Wrap(Exec(args), rs), |args|, r, ts);
        WrapSnoc(Exec(args), rs, r);
        ItemsComplete(args, rs + [r], more, rest);
        Assoc(rs, [r], Redirs(more));
    }
  }

  /** A redirection at the front of the tokens. */
  lemma FirstRedir<W>(ts: seq<Token<W>>) returns (r: Redirection<W>)
    requires Starts(ts, {'<', '>'}) && |ts| >= 2 && ts[1].Word?
    ensures ts == [DirToken(r.dir), Word(r.file)] + ts[2..]
  {
    r := Redirection(if ts[0].Append? then OutAppend else if ts[0].c == '<' then In else Out, ts[1].w);
  }

  lemma {:induction false} ItemsSound<W>(args: seq<W>, rs: seq<Redirection<W>>, ts: seq<Token<W>>) returns (items: seq<Item<W>>)
    requires |args| < MAXARGS && ParseItems(Wrap(Exec(args), rs), |args|, ts).Done?
    ensures var r := ParseItems(Wrap(Exec(args), rs), |args|, ts);
      && ts == ItemTokens(items) + r.rest && |args| + |Args(items)| < MAXARGS && Stops(r.rest)
      && r.cmd == Wrap(Exec(args + Args(items)), rs + Redirs(items))
    decreases |ts|
  {
    if Stops(ts) {
      items := [];
      TurnStop(Wrap(Exec(args), rs), |args|, ts);
      assert args + Args(items) == args && rs + Redirs(items) == rs;
    } else if Starts(ts, {'<', '>'}) {
      var r := FirstRedir(ts);
      hide Args, Redirs, ItemTokens, Wrap, ParseItems, AddArg, Stops, Redirect;
      TurnRedir(Wrap(Exec(args), rs), |args|, r, ts[2..]);
      WrapSnoc(Exec(args), rs, r);
      var more := ItemsSound(args, rs + [r], ts[2..]);
      ItemsCons(Direct(r), more);
      items := [Direct(r)] + more;
      Assoc(rs, [r], Redirs(more));
      Assoc([DirToken(r.dir), Word(r.file)], ItemTokens(more), ParseItems(Wrap(Exec(args), rs), |args|, ts).rest);
    } else {
      var w := ts[0].w;
      assert ts == [Word(w)] + ts[1..] && |args| + 1 < MAXARGS;
      hide Args, Redirs, ItemTokens, Wrap, ParseItems, AddArg, Stops, Redirect;
      TurnWord(Wrap(Exec(args), rs), |args|, w, ts[1..]);
      AddArgWrap(args, rs, w);
      var more := ItemsSound(args + [w], rs, ts[1..]);
      ItemsCons(Arg(w), more);
      items := [Arg(w)] + more;
      Assoc(args, [w], Args(more));
      Assoc([Word(w)], ItemTokens(more), ParseItems(Wrap(Exec(args), rs), |args|, ts).rest);
    }
  }

  // ---------- Completeness ----------

  lemma SimpleComplete<W>(items: seq<Item<W>>, rest: seq<Token<W>>)
    requires |Args(items)| < MAXARGS && Stops(rest)
    ensures ParseExec(ItemTokens(items) + rest) == Done(Wrap(Exec(Args(items)), Redirs(items)), rest)
  {
    ItemsComplete([], [], items, rest);
    assert !Starts(ItemTokens(items) + rest, {'('});
    assert [] + Args(items) == Args(items) && [] + Redirs(items) == Redirs(items);
    assert Wrap<W>(Exec([]), []) == Exec([]);
  }

  lemma {:induction false} ExecComplete<W>(x: Executable<W>, rest: seq<Token<W>>)
    requires ExecFits(x) && Stops(rest)
    ensures ParseExec(ExecTokens(x) + rest) == Done(ExecCmd(x), rest)
    decreases x, 0
  {
    match x
    case Simple(items) => SimpleComplete(items, rest);
    case Block(line, redirs) =>
      var ts := ExecTokens(x) + rest;
      var after := [Sym(')')] + RedirTokens(redirs) + rest;
      assert ts[0] == Sym('(') && ts[1..] == LineTokens(line) + after;
      LineComplete(line, after);
      assert after[1..] == RedirTokens(redirs) + rest;
      RedirsComplete(LineCmd(line), redirs, rest);
      assert ParseExec(ts) == ParseBlock(ts);
  }

  lemma PipeTurn<W>(ts: seq<Token<W>>, c: Cmd<W>, rest: seq<Token<W>>)
    requires ParseExec(ts) == Done(c, rest)
    ensures !Starts(rest, {'|'}) ==> ParsePipe(ts) == Done(c, rest)
    ensures Starts(rest, {'|'}) && ParsePipe(rest[1..]).Done? ==>
              ParsePipe(ts) == Done(Pipe(c, ParsePipe(rest[1..]).cmd), ParsePipe(rest[1..]).rest)
  {
  }

  lemma {:induction false} PipeComplete<W>(x: Pipeline<W>, rest: seq<Token<W>>)
    requires PipeFits(x) && (rest == [] || Starts(rest, {')', '&', ';'}))
    ensures ParsePipe(PipeTokens(x) + rest) == Done(PipeCmd(x), rest)
    decreases x, 1
  {
    hide ParsePipe, ParseExec, ExecTokens, ExecCmd, ExecFits;
    var more := match x.rest case None => [] case Some(y) => [Sym('|')] + PipeTokens(y);
    Assoc(ExecTokens(x.exec), more, rest);
    ExecComplete(x.exec, more + rest);
    if x.rest.Some? {
      Tail(Sym('|'), PipeTokens(x.rest.value), rest);
      PipeComplete(x.rest.value, rest);
    }
    PipeTurn(PipeTokens(x) + rest, ExecCmd(x.exec), more + rest);
  }

  lemma {:induction false} BacksComplete<W>(c: Cmd<W>, m: nat, n: nat, rest: seq<Token<W>>)
    requires !Starts(rest, {'&'})
    ensures ParseBacks(Backs(c, m), seq(n, i => Sym('&')) + rest) == Done(Backs(c, m + n), rest)
    decreases n
  {
    var ts := seq(n, i => Sym('&')) + rest;
    if n == 0 {
      assert ts == rest;
    } else {
      assert ts[1..] == seq(n - 1, i => Sym('&')) + rest;
      BacksComplete(c, m + 1, n - 1, rest);
    }
  }

  /** parseline after its first pipe and its "&"s. */
  lemma LineTurn<W>(ts: seq<Token<W>>, c: Cmd<W>, rest: seq<Token<W>>, d: Cmd<W>, tail: seq<Token<W>>)
    requires ParsePipe(ts) == Done(c, rest) && ParseBacks(c, rest) == Done(d, tail)
    ensures !Starts(tail, {';'}) ==> ParseLine(ts) == Done(d, tail)
    ensures Starts(tail, {';'}) && ParseLine(tail[1..]).Done? ==>
              ParseLine(ts) == Done(List(d, ParseLine(tail[1..]).cmd), ParseLine(tail[1..]).rest)
  {
  }

  lemma {:induction false} LineComplete<W>(x: Line<W>, rest: seq<Token<W>>)
    requires LineFits(x) && (rest == [] || Starts(rest, {')'}))
    ensures ParseLine(LineTokens(x) + rest) == Done(LineCmd(x), rest)
    decreases x, 2
  {
    hide ParsePipe, ParseBacks, ParseLine, PipeTokens, PipeCmd, PipeFits;
    var amps := seq(x.backs, i => Sym('&'));
    var more := match x.rest case None => [] case Some(y) => [Sym(';')] + LineTokens(y);
    var tail := more + rest;
    Assoc(PipeTokens(x.pipe), amps, more);
    Assoc(PipeTokens(x.pipe), amps + more, rest);
    Assoc(amps, more, rest);
    assert LineTokens(x) + rest == PipeTokens(x.pipe) + (amps + tail);
    PipeComplete(x.pipe, amps + tail);
    BacksComplete(PipeCmd(x.pipe), 0, x.backs, tail);
    if x.rest.Some? {
      Tail(Sym(';'), LineTokens(x.rest.value), rest);
      LineComplete(x.rest.value, rest);
    }
    LineTurn(LineTokens(x) + rest, PipeCmd(x.pipe), amps + tail, Backs(PipeCmd(x.pipe), x.backs), tail);
  }

  // ---------- Soundness ----------

  lemma SimpleSound<W>(ts: seq<Token<W>>) returns (items: seq<Item<W>>)
    requires ParseExec(ts).Done? && !Starts(ts, {'('})
    ensures ts == ItemTokens(items) + ParseExec(ts).rest && |Args(items)| < MAXARGS
    ensures ParseExec(ts).cmd == Wrap(Exec(Args(items)), Redirs(items))
  {
    assert Wrap<W>(Exec([]), []) == Exec([]);
    items := ItemsSound<W>([], [], ts);
    assert [] + Args(items) == Args(items) && [] + Redirs(items) == Redirs(items);
  }

  lemma BlockSplit<W>(ts: seq<Token<W>>, line: seq<Token<W>>, after: seq<Token<W>>, redirs: seq<Token<W>>, rest: seq<Token<W>>)
    requires Starts(ts, {'('}) && ts[1..] == line + after && Starts(after, {')'}) && after[1..] == redirs + rest
    ensures ts == [Sym('(')] + line + [Sym(')')] + redirs + rest
  {
    assert ts == [Sym('(')] + ts[1..] && after == [Sym(')')] + after[1..];
  }

  lemma {:induction false} ExecSound<W>(ts: seq<Token<W>>) returns (x: Executable<W>)
    requires ParseExec(ts).Done?
    ensures ts == ExecTokens(x) + ParseExec(ts).rest && ParseExec(ts).cmd == ExecCmd(x) && ExecFits(x)
    decreases |ts|, 0
  {
    if Starts(ts, {'('}) {
      var line := LineSound(ts[1..]);
      var r := ParseLine(ts[1..]);
      var redirs := RedirsSound(r.cmd, r.rest[1..]);
      x := Block(line, redirs);
      BlockSplit(ts, LineTokens(line), r.rest, RedirTokens(redirs), ParseExec(ts).rest);
    } else {
      var items := SimpleSound(ts);
      x := Simple(items);
    }
  }

  lemma PipeSplit<W>(e: seq<Token<W>>, y: seq<Token<W>>, tail: seq<Token<W>>, rest: seq<Token<W>>)
    requires Starts(tail, {'|'}) && tail[1..] == y + rest
    ensures e + tail == e + ([Sym('|')] + y) + rest
  {
    assert tail == [Sym('|')] + tail[1..];
  }

  lemma {:induction false} PipeSound<W>(ts: seq<Token<W>>) returns (x: Pipeline<W>)
    requires ParsePipe(ts).Done?
    ensures ts == PipeTokens(x) + ParsePipe(ts).rest && ParsePipe(ts).cmd == PipeCmd(x) && PipeFits(x)
    decreases |ts|, 1
  {
    var e := ExecSound(ts);
    var r := ParseExec(ts);
    PipeTurn(ts, r.cmd, r.rest);
    if Starts(r.rest, {'|'}) {
      var y := PipeSound(r.rest[1..]);
      x := Pipeline(e, Some(y));
      PipeSplit(ExecTokens(e), PipeTokens(y), r.rest, ParsePipe(ts).rest);
    } else {
      x := Pipeline(e, None);
      assert PipeTokens(x) == ExecTokens(e);
    }
  }

  lemma {:induction false} BacksSound<W>(c: Cmd<W>, m: nat, ts: seq<Token<W>>) returns (n: nat)
    ensures var r := ParseBacks(Backs(c, m), ts);
      ts == seq(n, i => Sym('&')) + r.rest && r.cmd == Backs(c, m + n)
    decreases |ts|
  {
    if Starts(ts, {'&'}) {
      var k := BacksSound(c, m + 1, ts[1..]);
      n := k + 1;
      assert ts == [Sym('&')] + ts[1..];
    } else {
      n := 0;
    }
  }

  lemma {:induction false} LineSound<W>(ts: seq<Token<W>>) returns (x: Line<W>)
    requires ParseLine(ts).Done?
    ensures ts == LineTokens(x) + ParseLine(ts).rest && ParseLine(ts).cmd == LineCmd(x) && LineFits(x)
    decreases |ts|, 2
  {
    var p := PipeSound(ts);
    var r := ParsePipe(ts);
    var n := BacksSound(r.cmd, 0, r.rest);
    var b := ParseBacks(r.cmd, r.rest);
    LineTurn(ts, r.cmd, r.rest, b.cmd, b.rest);
    var amps := seq(n, i => Sym('&'));
    if Starts(b.rest, {';'}) {
      var y := LineSound(b.rest[1..]);
      x := Line(p, n, Some(y));
      LineSplit(p, amps, [Sym(';')] + LineTokens(y), b.rest, ParseLine(ts).rest);
    } else {
      x := Line(p, n, None);
      LineSplit(p, amps, [], b.rest, b.rest);
    }
  }

  lemma LineSplit<W>(p: Pipeline<W>, amps: seq<Token<W>>, more: seq<Token<W>>, tail: seq<Token<W>>, rest: seq<Token<W>>)
    requires tail == more + rest
    ensures PipeTokens(p) + (amps + tail) == PipeTokens(p) + amps + more + rest
  {
  }

  /** The parser accepts a token list exactly when it is a line of the grammar in
      which every command has at most nine words, and returns what that line
      means. */
  lemma ParsesTheGrammar<W>(ts: seq<Token<W>>, c: Cmd<W>)
    ensures Parse(ts) == Done(c, []) <==> exists x: Line<W> :: LineFits(x) && LineTokens(x) == ts && LineCmd(x) == c
  {
    if Parse(ts) == Done(c, []) {
      var x := LineSound(ts);
      assert LineTokens(x) == ts;
    }
    if x: Line<W> :| LineFits(x) && LineTokens(x) == ts && LineCmd(x) == c {
      LineComplete(x, []);
      assert LineTokens(x) + [] == ts;
    }
  }

  // ---------- Printing ----------

  /** Trees the shell can build: at most nine words, and the two redirections. */
  predicate Fits<W>(c: Cmd<W>) {
    match c
    case Exec(args) => |args| < MAXARGS
    case Redir(d, _, mode, fd) => Fits(d) && ((mode == O_RDONLY && fd == 0) || (mode == O_WRONLY_CREATE && fd == 1))
    case Pipe(l, r) => Fits(l) && Fits(r)
    case List(l, r) => Fits(l) && Fits(r)
    case Back(d) => Fits(d)
  }

  function Alone<W>(x: Executable<W>): Line<W> { Line(Pipeline(x, None), 0, None) }

  /** The fully parenthesised line for a command. */
  function Full<W>(c: Cmd<W>): Line<W> {
    match c
    case Exec(args) => Alone(Simple(seq(|args|, i requires 0 <= i < |args| => Arg(args[i]))))
    case Redir(d, file, mode, fd) => Alone(Block(Full(d), [Redirection(if fd == 0 then In else Out, file)]))
    case Pipe(l, r) => Line(Pipeline(Block(Full(l), []), Some(Pipeline(Block(Full(r), []), None))), 0, None)
    case List(l, r) => Line(Pipeline(Block(Full(l), []), None), 0, Some(Alone(Block(Full(r), []))))
    case Back(d) => Line(Pipeline(Block(Full(d), []), None), 1, None)
  }

  lemma {:induction false} OnlyArgs<W>(args: seq<W>, items: seq<Item<W>>)
    requires |items| == |args| && forall i :: 0 <= i < |args| ==> items[i] == Arg(args[i])
    ensures Args(items) == args && Redirs(items) == []
    decreases |args|
  {
    if args != [] {
      OnlyArgs(args[1..], items[1..]);
    }
  }

  lemma AloneMeans<W>(x: Executable<W>)
    ensures PipeFits(Pipeline(x, None)) == ExecFits(x) && LineFits(Alone(x)) == ExecFits(x)
    ensures PipeCmd(Pipeline(x, None)) == ExecCmd(x) && LineCmd(Alone(x)) == ExecCmd(x)
  {
    assert Backs(PipeCmd(Pipeline(x, None)), 0) == PipeCmd(Pipeline(x, None));
  }

  lemma ParensMean<W>(line: Line<W>)
    ensures ExecFits(Block(line, [])) == LineFits(line) && ExecCmd(Block(line, [])) == LineCmd(line)
  {
  }

  lemma {:induction false} FullMeans<W>(c: Cmd<W>)
    requires Fits(c)
    ensures LineFits(Full(c)) && LineCmd(Full(c)) == c
  {
    match c
    case Exec(args) =>
      OnlyArgs(args, Full(c).pipe.exec.items);
      AloneMeans(Full(c).pipe.exec);
    case Redir(d, file, _, _) =>
      FullMeans(d);
      var r := Full(c).pipe.exec.redirs;
      assert Wrap(d, r) == Wrap(c, r[1..]);
      AloneMeans(Full(c).pipe.exec);
    case Pipe(l, r) =>
      FullMeans(l);
      FullMeans(r);
      ParensMean(Full(l));
      ParensMean(Full(r));
      AloneMeans(Block(Full(r), []));
      assert PipeCmd(Full(c).pipe) == c;
    case List(l, r) =>
      FullMeans(l);
      FullMeans(r);
      ParensMean(Full(l));
      ParensMean(Full(r));
      AloneMeans(Block(Full(l), []));
      AloneMeans(Block(Full(r), []));
    case Back(d) =>
      FullMeans(d);
      ParensMean(Full(d));
      AloneMeans(Block(Full(d), []));
      assert Backs(d, 1) == Back(Backs(d, 0));
  }

  /** Parsing the fully parenthesised printing of a tree returns the tree. */
  lemma ParsesPrinted<W>(c: Cmd<W>)
    requires Fits(c)
    ensures Parse(LineTokens(Full(c))) == Done(c, [])
  {
    FullMeans(c);
    LineComplete(Full(c), []);
    assert LineTokens(Full(c)) + [] == LineTokens(Full(c));
  }

  lemma {:induction false} WrapFits<W>(c: Cmd<W>, rs: seq<Redirection<W>>)
    requires Fits(c)
    ensures Fits(Wrap(c, rs))
    decreases |rs|
  {
    if rs != [] {
      WrapFits(Redirect(c, DirToken(rs[0].dir), rs[0].file), rs[1..]);
    }
  }

  lemma {:induction false} BacksFit<W>(c: Cmd<W>, n: nat)
    requires Fits(c)
    ensures Fits(Backs(c, n))
  {
    if n > 0 { BacksFit(c, n - 1); }
  }

  lemma {:induction false} LineCmdFits<W>(x: Line<W>)
    requires LineFits(x)
    ensures Fits(LineCmd(x))
    decreases x, 2
  {
    PipeCmdFits(x.pipe);
    BacksFit(PipeCmd(x.pipe), x.backs);
    if x.rest.Some? { LineCmdFits(x.rest.value); }
  }

  lemma {:induction false} PipeCmdFits<W>(x: Pipeline<W>)
    requires PipeFits(x)
    ensures Fits(PipeCmd(x))
    decreases x, 1
  {
    ExecCmdFits(x.exec);
    if x.rest.Some? { PipeCmdFits(x.rest.value); }
  }

  lemma {:induction false} ExecCmdFits<W>(x: Executable<W>)
    requires ExecFits(x)
    ensures Fits(ExecCmd(x))
    decreases x, 0
  {
    match x
    case Block(line, redirs) =>
      LineCmdFits(line);
      WrapFits(LineCmd(line), redirs);
    case Simple(items) => WrapFits(Exec(Args(items)), Redirs(items));
  }

  /** Whatever the shell parses, it can print and parse again. */
  lemma ParsedFits<W>(ts: seq<Token<W>>)
    requires Parse(ts).Done?
    ensures Fits(Parse(ts).cmd)
    ensures Parse(LineTokens(Full(Parse(ts).cmd))) == Parse(ts)
  {
    var x := LineSound(ts);
    LineCmdFits(x);
    ParsesPrinted(Parse(ts).cmd);
  }
}

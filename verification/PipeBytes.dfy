/** Whose bytes go through the pipe: every run, with the calls that the processes
    make, puts into it exactly what the writers were asked to write. */
module PipeBytes {
  import opened Prelude
  import opened Pipe
  import opened PipeProof

  /** What one process does next. */
  type Move = (nat, Step)

  ghost predicate Moved(s: State, m: Move, s': State) {
    |s.ring.data| == PIPESIZE && Enabled(s, m.0, m.1) && s' == Do(s, m.0, m.1)
  }

  /** A run together with the moves that make it. */
  ghost predicate IsTrace(run: seq<State>, moves: seq<Move>) {
    && |run| == |moves| + 1 && Init(run[0])
    && forall k: nat :: k < |moves| ==> Moved(run[k], moves[k], run[k + 1])
  }

  lemma TraceIsRun(run: seq<State>, moves: seq<Move>)
    requires IsTrace(run, moves)
    ensures IsRun(run)
  {
    forall k: nat | k + 1 < |run| ensures Next(run[k], run[k + 1]) {
      assert Moved(run[k], moves[k], run[k + 1]);
      assert Enabled(run[k], moves[k].0, moves[k].1);
    }
  }

  // ---------- one step ----------

  /** p is about to put a byte into the pipe. */
  predicate Puts(s: State, m: Move) {
    m.0 < |s.procs| && m.1.Advance? &&
    var pr := s.procs[m.0];
    pr.pc.WLoop? && pr.i < |pr.src| && !s.ring.Full()
  }

  /** The byte that a move puts into the pipe, if any. */
  function Piece(s: State, m: Move): seq<byte> {
    if Puts(s, m) then [s.procs[m.0].src[s.procs[m.0].i]] else []
  }

  /** p is about to return -1 from pipewrite, with bytes left. */
  predicate GivesUp(s: State, m: Move) {
    m.0 < |s.procs| && m.1.Advance? &&
    var pr := s.procs[m.0];
    pr.pc.WLoop? && pr.i < |pr.src| && s.ring.Full() && (pr.killed || !s.readopen)
  }

  /** p is about to take a byte out of the pipe. */
  predicate Takes(s: State, m: Move) {
    m.0 < |s.procs| && m.1.Advance? &&
    var pr := s.procs[m.0];
    pr.pc.RCopy? && |pr.got| < pr.n && !s.ring.Empty()
  }

  /** A writer has put the first i bytes that it was given, and all of them before it
      wakes the readers for the last time. */
  predicate WriteOk(pr: Proc) {
    InWrite(pr.pc) ==> pr.i <= |pr.src| && (pr.pc.WEndWake? ==> pr.i == |pr.src|)
  }

  /** What a writer still has to put. */
  function Rest(pr: Proc): seq<byte> {
    if InWrite(pr.pc) && !pr.pc.WLeave? && pr.i <= |pr.src| then pr.src[pr.i..] else []
  }

  /** The arguments and the progress of a call are its process's own. */
  ghost predicate SameCall(pr: Proc, pr': Proc) {
    pr'.pc == pr.pc && pr'.src == pr.src && pr'.i == pr.i && pr'.n == pr.n && pr'.got == pr.got && pr'.killed == pr.killed
  }

  /** Where a process is after a step of its own in pipewrite. */
  ghost predicate WriterMoves(s: State, p: nat, pr: Proc, pr': Proc) {
    && pr'.src == pr.src && pr'.n == pr.n && pr'.got == pr.got && pr'.killed == pr.killed
    && pr'.i == (if Puts(s, (p, Advance)) then pr.i + 1 else pr.i)
    && match pr.pc
       case WEnter => pr'.pc == WLoop
       case WLoop =>
         if pr.i >= |pr.src| then pr'.pc == WEndWake
         else if Puts(s, (p, Advance)) then pr'.pc == WLoop
         else if GivesUp(s, (p, Advance)) then pr'.pc == WLeave
         else pr'.pc == WFullWake && !pr.killed
       case WFullWake => pr'.pc == SleepLock(NWrite)
       case WEndWake => pr'.pc == WLeave
       case _ => pr'.pc == Idle
  }

  /** Where it is after a step of its own elsewhere. */
  ghost predicate ReaderMoves(s: State, pr: Proc, pr': Proc) {
    && pr'.src == pr.src && pr'.i == pr.i && pr'.n == pr.n && pr'.killed == pr.killed
    && match pr.pc
       case REnter => pr'.pc == RWait
       case RWait =>
         if !s.ring.Empty() || !s.writeopen then pr'.pc == RCopy && pr'.got == []
         else pr'.pc == if pr.killed then RLeave else SleepLock(NRead)
       case RCopy => pr'.pc == if |pr.got| < pr.n && !s.ring.Empty() then RCopy else RWake
       case RWake => pr'.pc == RLeave
       case RLeave => pr'.pc == Idle
       case SleepLock(c) => pr'.pc == SleepDrop(c)
       case SleepDrop(c) => pr'.pc == SleepMark(c)
       case SleepMark(c) => pr'.pc == Asleep(c)
       case CEnter(w) => pr'.pc == CWake(w)
       case CWake(_) => pr'.pc == CLeave
       case _ => pr'.pc == Idle
  }

  ghost predicate OnlyOne(s: State, s': State, p: nat) {
    |s'.procs| == |s.procs| && forall q: nat :: q < |s.procs| && q != p ==> SameCall(s.procs[q], s'.procs[q])
  }

  lemma TurnSummary(s: State, p: nat)
    requires p < |s.procs| && |s.ring.data| == PIPESIZE && s.procs[p].pc.WLoop?
    ensures var s' := WriteTurn(s, p);
            && OnlyOne(s, s', p) && WriterMoves(s, p, s.procs[p], s'.procs[p])
            && s'.readopen == s.readopen && s'.writeopen == s.writeopen
  {
    hide Ring.Full, Ring.Put, Deserts;
  }

  lemma WriteSummary(s: State, p: nat)
    requires p < |s.procs| && |s.ring.data| == PIPESIZE && InWrite(s.procs[p].pc) && !Sleeper(s.procs[p].pc)
    ensures var s' := AdvanceWrite(s, p);
            && OnlyOne(s, s', p) && WriterMoves(s, p, s.procs[p], s'.procs[p])
            && s'.readopen == s.readopen && s'.writeopen == s.writeopen
  {
    if s.procs[p].pc.WLoop? {
      TurnSummary(s, p);
      hide WriterMoves;
    }
    hide WriteTurn, Ring.Full, Ring.Put, Deserts;
  }

  lemma ReadSummary(s: State, p: nat)
    requires p < |s.procs| && |s.ring.data| == PIPESIZE && InRead(s.procs[p].pc) && !Sleeper(s.procs[p].pc)
    ensures var s' := AdvanceRead(s, p);
            && OnlyOne(s, s', p) && ReaderMoves(s, s.procs[p], s'.procs[p])
            && s'.readopen == s.readopen && s'.writeopen == s.writeopen
  {
    hide Ring.Empty, Ring.Take, Ring.Front;
  }

  lemma SleepSummary(s: State, p: nat)
    requires p < |s.procs| && Sleeper(s.procs[p].pc) && !s.procs[p].pc.Asleep?
    ensures var s' := AdvanceSleep(s, p);
            && OnlyOne(s, s', p) && ReaderMoves(s, s.procs[p], s'.procs[p])
            && s'.readopen == s.readopen && s'.writeopen == s.writeopen
  {
  }

  lemma CloseSummary(s: State, p: nat)
    requires p < |s.procs| && var pc := s.procs[p].pc; pc.CEnter? || pc.CWake? || pc.CLeave?
    ensures var s' := AdvanceClose(s, p);
            && OnlyOne(s, s', p) && ReaderMoves(s, s.procs[p], s'.procs[p])
            && s'.writeopen == (s.writeopen && s.procs[p].pc != CEnter(true))
            && s'.readopen == (s.readopen && s.procs[p].pc != CEnter(false))
  {
  }

  /** What a process's own step, or kill, does to it. */
  ghost predicate OwnStep(s: State, m: Move, pr: Proc, pr': Proc) {
    match m.1
    case StartWrite(src) => pr.pc.Idle? && pr'.pc == WEnter && pr'.src == src && pr'.i == 0
    case StartRead(n) => pr.pc.Idle? && pr'.pc == REnter && pr'.n == n
    case StartClose(w) => pr.pc.Idle? && pr'.pc == CEnter(w)
    case Kill =>
      && pr'.pc == pr.pc && pr'.src == pr.src && pr'.i == pr.i && pr'.n == pr.n
      && pr'.killed && pr'.state != SLEEPING && (pr.state != SLEEPING ==> pr'.state == pr.state)
    case Dispatch =>
      && pr.pc.Asleep? && pr'.pc == (if pr.pc.c == NWrite then WEnter else REnter)
      && pr'.src == pr.src && pr'.i == pr.i && pr'.n == pr.n && pr'.state == RUNNING
    case Advance =>
      && !pr.pc.Idle? && !pr.pc.Asleep?
      && if InWrite(pr.pc) && !Sleeper(pr.pc) then WriterMoves(s, m.0, pr, pr') else ReaderMoves(s, pr, pr')
  }

  /** One process moves, to the next place of its call; an end of the pipe is closed by
      a call of pipeclose on that end, and by nothing else. */
  lemma Summary(s: State, m: Move, s': State)
    requires Moved(s, m, s')
    ensures OnlyOne(s, s', m.0) && OwnStep(s, m, s.procs[m.0], s'.procs[m.0])
    ensures s'.writeopen == (s.writeopen && !(m.1.Advance? && s.procs[m.0].pc == CEnter(true)))
    ensures s'.readopen == (s.readopen && !(m.1.Advance? && s.procs[m.0].pc == CEnter(false)))
  {
    var pc := s.procs[m.0].pc;
    hide AdvanceWrite, AdvanceRead, AdvanceSleep, AdvanceClose, WriterMoves, ReaderMoves, Ring.Full, Ring.Empty, Deserts;
    if m.1.Advance? {
      if Sleeper(pc) {
        SleepSummary(s, m.0);
      } else if InWrite(pc) {
        WriteSummary(s, m.0);
      } else if InRead(pc) {
        ReadSummary(s, m.0);
      } else {
        CloseSummary(s, m.0);
      }
    }
  }

  /** Bytes enter the pipe one by one, each the next one of the writer's argument. */
  lemma WrittenStep(s: State, m: Move, s': State)
    requires Moved(s, m, s')
    ensures s'.ring.written == s.ring.written + Piece(s, m)
  {
  }

  /** They leave it one by one, each the oldest there, to the reader that takes it. */
  lemma TakenStep(s: State, m: Move, s': State)
    requires Moved(s, m, s') && s.ring.Fifo()
    ensures Takes(s, m) ==>
              && |s.ring.taken| < |s.ring.written| && s'.ring.taken == s.ring.taken + [s.ring.written[|s.ring.taken|]]
              && s'.procs[m.0].got == s.procs[m.0].got + [s.ring.written[|s.ring.taken|]]
    ensures !Takes(s, m) ==> s'.ring.taken == s.ring.taken
  {
    Counters(s.ring);
  }

  /** A call of pipewrite starts at the first byte of its argument, moves on by one
      with each byte it puts, and ends with all of them put unless it gives up. */
  lemma WriterStep(s: State, m: Move, s': State)
    requires Moved(s, m, s') && WriteOk(s.procs[m.0])
    ensures |s'.procs| == |s.procs| && WriteOk(s'.procs[m.0])
    ensures var rest, rest' := Rest(s.procs[m.0]), Rest(s'.procs[m.0]);
            if m.1.StartWrite? then rest == [] && rest' == m.1.src && Piece(s, m) == []
            else if GivesUp(s, m) then rest' == [] && Piece(s, m) == []
            else rest == Piece(s, m) + rest'
  {
    Summary(s, m, s');
    hide Moved, Ring.Full;
    if m.1.Advance? && InWrite(s.procs[m.0].pc) && !Sleeper(s.procs[m.0].pc) {
      TurnRest(s, m.0, s.procs[m.0], s'.procs[m.0]);
      hide WriterMoves, Rest, WriteOk, Piece;
    } else {
      OtherRest(s, m, s.procs[m.0], s'.procs[m.0]);
      hide OwnStep, Rest, WriteOk;
    }
  }

  lemma TurnRest(s: State, p: nat, pr: Proc, pr': Proc)
    requires p < |s.procs| && pr == s.procs[p] && WriterMoves(s, p, pr, pr') && WriteOk(pr) && InWrite(pr.pc) && !Sleeper(pr.pc)
    ensures WriteOk(pr')
    ensures if GivesUp(s, (p, Advance)) then Rest(pr') == [] && Piece(s, (p, Advance)) == []
            else Rest(pr) == Piece(s, (p, Advance)) + Rest(pr')
  {
    hide Ring.Full;
    assert pr.pc.WEndWake? ==> pr.src[pr.i..] == [];
  }

  lemma OtherRest(s: State, m: Move, pr: Proc, pr': Proc)
    requires m.0 < |s.procs| && pr == s.procs[m.0] && OwnStep(s, m, pr, pr') && WriteOk(pr)
    requires !(m.1.Advance? && InWrite(pr.pc) && !Sleeper(pr.pc))
    ensures WriteOk(pr') && Piece(s, m) == [] && !GivesUp(s, m)
    ensures if m.1.StartWrite? then Rest(pr) == [] && Rest(pr') == m.1.src else Rest(pr) == Rest(pr')
  {
  }

  // ---------- whole runs ----------

  /** The bytes that p has put into the pipe in the first k moves. */
  ghost function By(run: seq<State>, moves: seq<Move>, p: nat, k: nat): seq<byte>
    requires IsTrace(run, moves) && k <= |moves|
  {
    if k == 0 then []
    else By(run, moves, p, k - 1) +
         if moves[k - 1].0 == p && |run[k - 1].ring.written| <= |run[k].ring.written|
         then run[k].ring.written[|run[k - 1].ring.written|..] else []
  }

  /** What p was asked to write after one more move m, if it was asked for a and has
      rest left. */
  function AskedNext(a: seq<byte>, rest: seq<byte>, st: Step, gaveUp: bool): seq<byte> {
    if st.StartWrite? then a + st.src
    else if gaveUp && |rest| <= |a| then a[..|a| - |rest|]
    else a
  }

  /** What p was asked to write in them: the arguments of its calls one after the
      other, each cut where the call gave up. */
  ghost function Asked(run: seq<State>, moves: seq<Move>, p: nat, k: nat): seq<byte>
    requires IsTrace(run, moves) && k <= |moves|
  {
    if k == 0 then []
    else
      var a, m := Asked(run, moves, p, k - 1), moves[k - 1];
      if m.0 != p || p >= |run[k - 1].procs| then a
      else AskedNext(a, Rest(run[k - 1].procs[p]), m.1, GivesUp(run[k - 1], m))
  }

  lemma {:induction false} RunWriteOk(run: seq<State>, moves: seq<Move>, p: nat, k: nat)
    requires IsTrace(run, moves) && k <= |moves| && p < |run[0].procs|
    ensures |run[k].procs| == |run[0].procs| && WriteOk(run[k].procs[p])
  {
    if k > 0 {
      var h := k - 1;
      RunWriteOk(run, moves, p, h);
      assert Moved(run[h], moves[h], run[h + 1]);
      if moves[h].0 == p {
        WriterStep(run[h], moves[h], run[k]);
      } else {
        Summary(run[h], moves[h], run[k]);
      }
    }
  }

  lemma ByStep(run: seq<State>, moves: seq<Move>, p: nat, h: nat, k: nat)
    requires IsTrace(run, moves) && k == h + 1 <= |moves|
    ensures run[k].ring.written == run[h].ring.written + Piece(run[h], moves[h])
    ensures By(run, moves, p, k) == By(run, moves, p, h) + if moves[h].0 == p then Piece(run[h], moves[h]) else []
  {
    assert Moved(run[h], moves[h], run[h + 1]);
    WrittenStep(run[h], moves[h], run[k]);
    hide Moved, Piece;
  }

  lemma Glue(put: seq<byte>, rest: seq<byte>, piece: seq<byte>, rest': seq<byte>, st: Step, gaveUp: bool)
    requires if st.StartWrite? then rest == [] && rest' == st.src && piece == []
             else if gaveUp then rest' == [] && piece == []
             else rest == piece + rest'
    ensures put + piece + rest' == AskedNext(put + rest, rest, st, gaveUp)
  {
    assert put + (piece + rest') == put + piece + rest';
    assert (put + rest)[..|put|] == put;
  }

  lemma AskedStep(run: seq<State>, moves: seq<Move>, p: nat, h: nat, k: nat)
    requires IsTrace(run, moves) && k == h + 1 <= |moves| && moves[h].0 == p && p < |run[h].procs| && p < |run[k].procs|
    requires WriteOk(run[h].procs[p]) && By(run, moves, p, h) + Rest(run[h].procs[p]) == Asked(run, moves, p, h)
    ensures By(run, moves, p, k) + Rest(run[k].procs[p]) == Asked(run, moves, p, k)
  {
    ByStep(run, moves, p, h, k);
    assert Moved(run[h], moves[h], run[h + 1]);
    WriterStep(run[h], moves[h], run[k]);
    hide By, Moved, Rest, WriteOk, Piece, GivesUp, AskedNext;
    Glue(By(run, moves, p, h), Rest(run[h].procs[p]), Piece(run[h], moves[h]), Rest(run[k].procs[p]), moves[h].1,
         GivesUp(run[h], moves[h]));
  }

  lemma NotItsMove(run: seq<State>, moves: seq<Move>, p: nat, h: nat, k: nat)
    requires IsTrace(run, moves) && k == h + 1 <= |moves| && moves[h].0 != p && p < |run[h].procs|
    ensures By(run, moves, p, k) == By(run, moves, p, h) && Asked(run, moves, p, k) == Asked(run, moves, p, h)
    ensures p < |run[k].procs| && Rest(run[k].procs[p]) == Rest(run[h].procs[p])
  {
    ByStep(run, moves, p, h, k);
    assert Moved(run[h], moves[h], run[h + 1]);
    Summary(run[h], moves[h], run[k]);
    hide Moved, OwnStep, AskedNext, By, Piece;
  }

  lemma NothingAsked(run: seq<State>, moves: seq<Move>, p: nat)
    requires IsTrace(run, moves) && p < |run[0].procs|
    ensures By(run, moves, p, 0) == [] && Asked(run, moves, p, 0) == [] && Rest(run[0].procs[p]) == []
  {
  }

  /** In every run, what a process has put into the pipe and what it has still to
      put make up what it was asked to write, in order. */
  lemma {:induction false} WritesAsked(run: seq<State>, moves: seq<Move>, p: nat, k: nat)
    requires IsTrace(run, moves) && k <= |moves| && p < |run[0].procs|
    ensures |run[k].procs| == |run[0].procs|
    ensures By(run, moves, p, k) + Rest(run[k].procs[p]) == Asked(run, moves, p, k)
  {
    hide By, Asked, Rest, WriteOk, Moved;
    RunWriteOk(run, moves, p, k);
    if k == 0 {
      NothingAsked(run, moves, p);
    } else {
      var h := k - 1;
      WritesAsked(run, moves, p, h);
      RunWriteOk(run, moves, p, h);
      if moves[h].0 == p {
        AskedStep(run, moves, p, h, k);
      } else {
        NotItsMove(run, moves, p, h, k);
      }
    }
  }

  /** A call that comes to its last wakeup has put its whole argument. */
  lemma WriteComplete(run: seq<State>, moves: seq<Move>, p: nat, k: nat)
    requires IsTrace(run, moves) && k <= |moves| && p < |run[k].procs| && run[k].procs[p].pc.WEndWake?
    ensures By(run, moves, p, k) == Asked(run, moves, p, k)
  {
    RunSame(run, moves, k);
    RunWriteOk(run, moves, p, k);
    WritesAsked(run, moves, p, k);
  }

  lemma {:induction false} RunSame(run: seq<State>, moves: seq<Move>, k: nat)
    requires IsTrace(run, moves) && k <= |moves|
    ensures |run[k].procs| == |run[0].procs|
  {
    if k > 0 {
      RunSame(run, moves, k - 1);
      assert Moved(run[k - 1], moves[k - 1], run[k - 1 + 1]);
    }
  }

  // ---------- one writer ----------

  /** The arguments of the calls of pipewrite by p, one after the other. */
  ghost function Arguments(moves: seq<Move>, p: nat): seq<byte> {
    if moves == [] then []
    else
      var m := moves[|moves| - 1];
      Arguments(moves[..|moves| - 1], p) + if m.0 == p && m.1.StartWrite? then m.1.src else []
  }

  ghost predicate OnlyWriter(moves: seq<Move>, p: nat) {
    forall k: nat :: k < |moves| && moves[k].1.StartWrite? ==> moves[k].0 == p
  }

  /** p's calls never give up. */
  ghost predicate Persists(run: seq<State>, moves: seq<Move>, p: nat)
    requires IsTrace(run, moves)
  {
    forall k: nat :: k < |moves| && moves[k].0 == p ==> !GivesUp(run[k], moves[k])
  }

  lemma {:induction false} AskedIsArguments(run: seq<State>, moves: seq<Move>, p: nat, k: nat)
    requires IsTrace(run, moves) && k <= |moves| && Persists(run, moves, p)
    requires p < |run[0].procs|
    ensures Asked(run, moves, p, k) == Arguments(moves[..k], p)
  {
    if k > 0 {
      var h := k - 1;
      AskedIsArguments(run, moves, p, h);
      RunSame(run, moves, h);
      assert moves[..k][..h] == moves[..h];
      hide Moved, GivesUp, Rest, Init;
      assert moves[h].0 == p ==> !GivesUp(run[h], moves[h]);
    }
  }

  lemma {:induction false} AllByOne(run: seq<State>, moves: seq<Move>, p: nat, k: nat, q: nat)
    requires IsTrace(run, moves) && k <= |moves| && OnlyWriter(moves, p) && q < |run[0].procs| && q != p
    ensures |run[k].procs| == |run[0].procs| && !InWrite(run[k].procs[q].pc)
  {
    if k > 0 {
      var h := k - 1;
      AllByOne(run, moves, p, h, q);
      assert Moved(run[h], moves[h], run[h + 1]);
      if moves[h].0 == q {
        NoneBecomesWriter(run[h], moves[h], run[k]);
      } else {
        Summary(run[h], moves[h], run[k]);
      }
    }
  }

  lemma NoneBecomesWriter(s: State, m: Move, s': State)
    requires Moved(s, m, s') && !InWrite(s.procs[m.0].pc) && !m.1.StartWrite?
    ensures !InWrite(s'.procs[m.0].pc)
  {
    Summary(s, m, s');
    hide Moved;
  }

  lemma {:induction false} WrittenByOne(run: seq<State>, moves: seq<Move>, p: nat, k: nat)
    requires IsTrace(run, moves) && k <= |moves| && OnlyWriter(moves, p)
    ensures run[k].ring.written == By(run, moves, p, k)
  {
    if k > 0 {
      var h := k - 1;
      WrittenByOne(run, moves, p, h);
      RunSame(run, moves, h);
      assert Moved(run[h], moves[h], run[h + 1]);
      WrittenStep(run[h], moves[h], run[k]);
      if moves[h].0 != p {
        AllByOne(run, moves, p, h, moves[h].0);
        assert !Puts(run[h], moves[h]);
      }
    }
  }

  /** With one writer that never gives up, the bytes taken out of the pipe are, in
      order, the first ones that it was asked to write; what is in the pipe and what
      the writer still has follow them. */
  lemma OneWriter(run: seq<State>, moves: seq<Move>, p: nat, k: nat)
    requires IsTrace(run, moves) && k <= |moves| && p < |run[0].procs| && OnlyWriter(moves, p) && Persists(run, moves, p)
    ensures |run[k].procs| == |run[0].procs| && run[k].ring.taken <= run[k].ring.written
    ensures Arguments(moves[..k], p) == run[k].ring.written + Rest(run[k].procs[p])
    ensures run[k].ring.taken <= Arguments(moves[..k], p)
  {
    WritesAsked(run, moves, p, k);
    WrittenByOne(run, moves, p, k);
    AskedIsArguments(run, moves, p, k);
    TraceIsRun(run, moves);
    BoundedQueue(run, k);
  }

  // ---------- many writers ----------

  /** Who put each of the bytes written. */
  ghost function Authors(run: seq<State>, moves: seq<Move>, k: nat): seq<nat>
    requires IsTrace(run, moves) && k <= |moves|
  {
    if k == 0 then []
    else Authors(run, moves, k - 1) + if Puts(run[k - 1], moves[k - 1]) then [moves[k - 1].0] else []
  }

  /** The bytes of w whose author is p. */
  ghost function Select(w: seq<byte>, authors: seq<nat>, p: nat): seq<byte>
    requires |w| == |authors|
  {
    if w == [] then []
    else
      var n := |w| - 1;
      Select(w[..n], authors[..n], p) + if authors[n] == p then [w[n]] else []
  }

  /** The bytes written are those of all the writers, shuffled together: each byte is
      one process's, and the bytes of each process are in its order. */
  lemma {:induction false} Shuffled(run: seq<State>, moves: seq<Move>, p: nat, k: nat)
    requires IsTrace(run, moves) && k <= |moves|
    ensures |Authors(run, moves, k)| == |run[k].ring.written|
    ensures Select(run[k].ring.written, Authors(run, moves, k), p) == By(run, moves, p, k)
  {
    if k > 0 {
      var h := k - 1;
      Shuffled(run, moves, p, h);
      ByStep(run, moves, p, h, k);
      if Puts(run[h], moves[h]) {
        var w, a := run[h].ring.written, Authors(run, moves, h);
        var b := run[h].procs[moves[h].0].src[run[h].procs[moves[h].0].i];
        assert Piece(run[h], moves[h]) == [b];
        assert run[k].ring.written == w + [b] && Authors(run, moves, k) == a + [moves[h].0];
        assert (w + [b])[..|w|] == w && (a + [moves[h].0])[..|w|] == a;
      } else {
        assert run[k].ring.written == run[h].ring.written && Authors(run, moves, k) == Authors(run, moves, h);
      }
    }
  }

  // ---------- readers ----------

  /** The number of bytes that q was last asked to read. */
  ghost function AskedToRead(moves: seq<Move>, q: nat): Option<nat> {
    if moves == [] then None
    else
      var m := moves[|moves| - 1];
      if m.0 == q && m.1.StartRead? then Some(m.1.n) else AskedToRead(moves[..|moves| - 1], q)
  }

  lemma ReaderStep(s: State, m: Move, s': State)
    requires Moved(s, m, s')
    ensures InRead(s'.procs[m.0].pc) ==>
              if m.1.StartRead? then s'.procs[m.0].n == m.1.n
              else InRead(s.procs[m.0].pc) && s'.procs[m.0].n == s.procs[m.0].n
  {
    Summary(s, m, s');
    hide Moved;
  }

  lemma {:induction false} ReadsAsked(run: seq<State>, moves: seq<Move>, q: nat, k: nat)
    requires IsTrace(run, moves) && k <= |moves| && q < |run[0].procs|
    ensures |run[k].procs| == |run[0].procs|
    ensures InRead(run[k].procs[q].pc) ==> AskedToRead(moves[..k], q) == Some(run[k].procs[q].n)
  {
    if k > 0 {
      var h := k - 1;
      ReadsAsked(run, moves, q, h);
      assert Moved(run[h], moves[h], run[h + 1]);
      assert moves[..k][..h] == moves[..h];
      if moves[h].0 == q {
        ReaderStep(run[h], moves[h], run[k]);
      } else {
        Summary(run[h], moves[h], run[k]);
      }
    }
  }

  /** In every run, piperead gives its caller the oldest bytes of the pipe, as many
      as it was asked for or all there are; none only at the end. */
  lemma ReadResult(run: seq<State>, moves: seq<Move>, q: nat, k: nat)
    requires IsTrace(run, moves) && k <= |moves| && q < |run[k].procs| && run[k].procs[q].pc.RWake?
    ensures var r, got := run[k].ring, run[k].procs[q].got;
            && AskedToRead(moves[..k], q).Some? && |got| <= AskedToRead(moves[..k], q).value
            && |got| <= |r.taken| <= |r.written| && got == r.written[|r.taken| - |got|..|r.taken|]
            && (|got| < AskedToRead(moves[..k], q).value ==> r.taken == r.written)
            && (got == [] && AskedToRead(moves[..k], q).value > 0 ==> !run[k].writeopen)
  {
    TraceIsRun(run, moves);
    RunSame(run, moves, k);
    ReadsAsked(run, moves, q, k);
    RunInv(run, k);
    assert ProcOk(run[k], q);
    Counters(run[k].ring);
    hide AskedToRead, Moved, Next, LockOk, StateOk, WaitOk, EnvOk;
  }

  /** A killed process does not go to sleep in the pipe. */
  lemma KilledNotSleeping(s: State, m: Move, s': State)
    requires Moved(s, m, s') && !Sleeper(s.procs[m.0].pc) && Sleeper(s'.procs[m.0].pc)
    ensures m.1.Advance? && (s.procs[m.0].pc.WFullWake? || (s.procs[m.0].pc.RWait? && !s.procs[m.0].killed))
  {
    Summary(s, m, s');
    hide Moved;
  }
}

/** Every step keeps the invariant of the pipe, so every run has it. */
module PipeProof {
  import opened Prelude
  import opened Pipe

  // ---------- counters that wrap around ----------

  lemma AddMod(a: nat, d: nat)
    requires d < WRAP
    ensures (a + d) % WRAP == if a % WRAP + d < WRAP then a % WRAP + d else a % WRAP + d - WRAP
  {
  }

  lemma NextMod(a: nat)
    ensures (a % WRAP + 1) % WRAP == (a + 1) % WRAP
  {
    AddMod(a, 1);
  }

  lemma FullIff(r: nat, w: nat)
    requires r <= w <= r + PIPESIZE
    ensures w % WRAP == (r % WRAP + PIPESIZE) % WRAP <==> w == r + PIPESIZE
  {
    AddMod(r, w - r);
    var a := r % WRAP;
    assert (a + PIPESIZE) % WRAP == if a + PIPESIZE < WRAP then a + PIPESIZE else a + PIPESIZE - WRAP;
  }

  lemma EmptyIff(r: nat, w: nat)
    requires r <= w <= r + PIPESIZE
    ensures r % WRAP == w % WRAP <==> w == r
  {
    AddMod(r, w - r);
  }

  /** The ring size divides 2^32, so the slot of a byte survives wrap-around. */
  lemma SlotMod(a: nat)
    ensures (a % WRAP) % PIPESIZE == a % PIPESIZE
  {
    var q := a / WRAP;
    assert a % WRAP == a - PIPESIZE * (0x80_0000 * q);
  }

  lemma Counters(r: Ring)
    requires r.Fifo()
    ensures r.Full() <==> |r.written| == |r.taken| + PIPESIZE
    ensures r.Empty() <==> |r.written| == |r.taken|
    ensures r.nwrite % PIPESIZE == |r.written| % PIPESIZE
    ensures r.nread % PIPESIZE == |r.taken| % PIPESIZE
  {
    FullIff(|r.taken|, |r.written|);
    EmptyIff(|r.taken|, |r.written|);
    SlotMod(|r.written|);
    SlotMod(|r.taken|);
  }

  lemma PutKeepsFifo(r: Ring, b: byte)
    requires r.Fifo() && !r.Full()
    ensures r.Put(b).Fifo()
  {
    Counters(r);
    NextMod(|r.written|);
    var w := |r.written|;
    forall k: nat | |r.taken| <= k < w ensures k % PIPESIZE != w % PIPESIZE {
      OtherSlot(k, w);
    }
  }

  lemma OtherSlot(k: nat, w: nat)
    requires k < w < k + PIPESIZE
    ensures k % PIPESIZE != w % PIPESIZE
  {
  }

  lemma TakeKeepsFifo(r: Ring)
    requires r.Fifo() && !r.Empty()
    ensures r.Take().Fifo() && r.Front() == r.written[|r.taken|]
  {
    Counters(r);
    NextMod(|r.taken|);
  }

  // ---------- steps ----------

  ghost predicate Both(s: State, p: nat, q: nat) {
    |s.ring.data| == PIPESIZE && p < |s.procs| && q < |s.procs| && ProcOk(s, p) && ProcOk(s, q)
  }

  lemma CallKeeps(s: State, p: nat, st: Step, q: nat)
    requires Both(s, p, q) && Enabled(s, p, st) && (st.StartWrite? || st.StartRead? || st.StartClose?)
    ensures ProcOk(Do(s, p, st), q)
  {
  }

  lemma KillKeeps(s: State, p: nat, q: nat)
    requires Both(s, p, q) && Enabled(s, p, Kill)
    ensures ProcOk(Do(s, p, Kill), q)
  {
  }

  lemma DispatchKeeps(s: State, p: nat, q: nat)
    requires Both(s, p, q) && Enabled(s, p, Dispatch)
    ensures ProcOk(Do(s, p, Dispatch), q)
  {
  }

  lemma WriteWakeKeeps(s: State, p: nat, q: nat)
    requires Both(s, p, q) && Enabled(s, p, Advance) && (s.procs[p].pc.WFullWake? || s.procs[p].pc.WEndWake?)
    ensures ProcOk(AdvanceWrite(s, p), q)
  {
  }

  lemma WriteKeeps(s: State, p: nat, q: nat)
    requires Both(s, p, q) && Enabled(s, p, Advance)
    requires InWrite(s.procs[p].pc) && !Sleeper(s.procs[p].pc) && !s.procs[p].pc.WLoop?
    ensures ProcOk(AdvanceWrite(s, p), q)
  {
    if s.procs[p].pc.WFullWake? || s.procs[p].pc.WEndWake? {
      WriteWakeKeeps(s, p, q);
    }
  }

  lemma WriteTurnKeeps(s: State, p: nat, q: nat)
    requires Both(s, p, q) && s.procs[p].pc.WLoop?
    ensures ProcOk(WriteTurn(s, p), q)
  {
  }

  lemma ReadWakeKeeps(s: State, p: nat, q: nat)
    requires Both(s, p, q) && Enabled(s, p, Advance) && s.procs[p].pc.RWake?
    ensures ProcOk(AdvanceRead(s, p), q)
  {
  }

  lemma ReadKeeps(s: State, p: nat, q: nat)
    requires Both(s, p, q) && Enabled(s, p, Advance)
    requires InRead(s.procs[p].pc) && !Sleeper(s.procs[p].pc) && !s.procs[p].pc.RCopy? && !s.procs[p].pc.RWait?
    ensures ProcOk(AdvanceRead(s, p), q)
  {
    if s.procs[p].pc.RWake? {
      ReadWakeKeeps(s, p, q);
    }
  }

  lemma ReadWaitKeeps(s: State, p: nat, q: nat)
    requires Both(s, p, q) && s.procs[p].pc.RWait?
    ensures ProcOk(AdvanceRead(s, p), q)
  {
  }

  lemma ReadTurnKeeps(s: State, p: nat, q: nat)
    requires Both(s, p, q) && s.procs[p].pc.RCopy?
    ensures ProcOk(ReadTurn(s, p), q)
  {
    var pr := s.procs[p];
    if |pr.got| < pr.n && !s.ring.Empty() {
      if q == p {
        CopiedInARow(s, p);
      } else {
        OtherReader(s, p, q);
      }
    }
  }

  lemma CopiedInARow(s: State, p: nat)
    requires Both(s, p, p) && s.procs[p].pc.RCopy? && |s.procs[p].got| < s.procs[p].n && !s.ring.Empty()
    ensures ProcOk(ReadTurn(s, p), p)
  {
    hide Ring.Full;
    var got, t := s.procs[p].got, s.ring.taken;
    assert (t + [s.ring.Front()])[|t| - |got|..] == t[|t| - |got|..] + [s.ring.Front()];
  }

  lemma OtherReader(s: State, p: nat, q: nat)
    requires Both(s, p, q) && s.procs[p].pc.RCopy? && |s.procs[p].got| < s.procs[p].n && !s.ring.Empty() && q != p
    ensures ProcOk(ReadTurn(s, p), q)
  {
    hide Ring.Full;
    hide Ring.Take;
  }

  lemma SleepMarkKeeps(s: State, p: nat, q: nat)
    requires Both(s, p, q) && s.procs[p].pc.SleepMark?
    ensures ProcOk(AdvanceSleep(s, p), q)
  {
    hide Ring.Full, Ring.Empty;
  }

  lemma SleepDropKeeps(s: State, p: nat, q: nat)
    requires Both(s, p, q) && s.procs[p].pc.SleepDrop?
    ensures ProcOk(AdvanceSleep(s, p), q)
  {
    hide Ring.Full, Ring.Empty;
  }

  lemma SleepKeeps(s: State, p: nat, q: nat)
    requires Both(s, p, q) && Enabled(s, p, Advance) && Sleeper(s.procs[p].pc)
    ensures ProcOk(AdvanceSleep(s, p), q)
  {
    if s.procs[p].pc.SleepMark? {
      SleepMarkKeeps(s, p, q);
    } else if s.procs[p].pc.SleepDrop? {
      SleepDropKeeps(s, p, q);
    }
  }

  lemma CloseWakeKeeps(s: State, p: nat, q: nat)
    requires Both(s, p, q) && Enabled(s, p, Advance) && s.procs[p].pc.CWake?
    ensures ProcOk(AdvanceClose(s, p), q)
  {
  }

  lemma CloseKeeps(s: State, p: nat, q: nat)
    requires Both(s, p, q) && Enabled(s, p, Advance)
    requires var pc := s.procs[p].pc; pc.CEnter? || pc.CWake? || pc.CLeave?
    ensures ProcOk(AdvanceClose(s, p), q)
  {
    if s.procs[p].pc.CWake? {
      CloseWakeKeeps(s, p, q);
    }
  }

  lemma StepKeepsFifo(s: State, p: nat, st: Step)
    requires s.ring.Fifo() && Enabled(s, p, st)
    ensures Do(s, p, st).ring.Fifo()
  {
    var r := Do(s, p, st).ring;
    if r != s.ring {
      if b: byte :| !s.ring.Full() && r == s.ring.Put(b) {
        PutKeepsFifo(s.ring, b);
      } else {
        TakeKeepsFifo(s.ring);
      }
    }
  }

  lemma StepKeepsProc(s: State, p: nat, st: Step, q: nat)
    requires Inv(s) && Enabled(s, p, st) && q < |s.procs|
    ensures ProcOk(Do(s, p, st), q)
  {
    assert ProcOk(s, p) && ProcOk(s, q);
    hide ProcOk;
    var pc := s.procs[p].pc;
    if st.Kill? {
      KillKeeps(s, p, q);
    } else if st.Dispatch? {
      DispatchKeeps(s, p, q);
    } else if !st.Advance? {
      CallKeeps(s, p, st, q);
    } else if Sleeper(pc) {
      SleepKeeps(s, p, q);
    } else if pc.WLoop? {
      WriteTurnKeeps(s, p, q);
    } else if pc.RCopy? {
      ReadTurnKeeps(s, p, q);
    } else if InWrite(pc) {
      WriteKeeps(s, p, q);
    } else if pc.RWait? {
      ReadWaitKeeps(s, p, q);
    } else if InRead(pc) {
      ReadKeeps(s, p, q);
    } else {
      CloseKeeps(s, p, q);
    }
  }

  /** Only a full buffer is deserted, and it stays deserted only while it is not
      empty. */
  lemma StepKeepsDeserted(s: State, p: nat, st: Step)
    requires s.ring.Fifo() && (s.abandoned ==> !s.ring.Empty()) && Enabled(s, p, st)
    ensures Do(s, p, st).abandoned ==> !Do(s, p, st).ring.Empty()
  {
    Counters(s.ring);
    if b: byte :| !s.ring.Full() && Do(s, p, st).ring == s.ring.Put(b) {
      PutKeepsFifo(s.ring, b);
      Counters(s.ring.Put(b));
    }
  }

  lemma StepKeepsInv(s: State, p: nat, st: Step)
    requires Inv(s) && Enabled(s, p, st)
    ensures Inv(Do(s, p, st))
  {
    StepKeepsFifo(s, p, st);
    StepKeepsDeserted(s, p, st);
    forall q: nat | q < |s.procs| ensures ProcOk(Do(s, p, st), q) {
      StepKeepsProc(s, p, st, q);
    }
  }

  // ---------- every run ----------

  ghost predicate Next(s: State, s': State) {
    |s.ring.data| == PIPESIZE && exists p: nat, st: Step :: Enabled(s, p, st) && s' == Do(s, p, st)
  }

  ghost predicate IsRun(run: seq<State>) {
    |run| > 0 && Init(run[0]) && forall k: nat :: k + 1 < |run| ==> Next(run[k], run[k + 1])
  }

  lemma {:induction false} RunInv(run: seq<State>, k: nat)
    requires IsRun(run) && k < |run|
    ensures Inv(run[k])
  {
    if k > 0 {
      RunInv(run, k - 1);
      assert Next(run[k - 1], run[k - 1 + 1]);
      var p: nat, st: Step :| Enabled(run[k - 1], p, st) && run[k] == Do(run[k - 1], p, st);
      StepKeepsInv(run[k - 1], p, st);
    }
  }

  /** The next step is wakeup(&p->nread). */
  predicate WakesReaders(pc: Pc) { pc.WFullWake? || pc.WEndWake? || pc == CWake(true) }

  /** In this step some process wakes the readers. */
  ghost predicate Wakes(s: State, s': State) {
    exists c: nat :: c < |s.procs| && c < |s'.procs| && WakesReaders(s.procs[c].pc) && !WakesReaders(s'.procs[c].pc)
  }

  /** In this step a killed writer leaves a full buffer. */
  ghost predicate DesertStep(s: State, s': State) {
    exists c: nat :: Deserts(s, c) && c < |s'.procs| && s'.procs[c].pc.WLeave?
  }

  /** A killed writer has left the buffer full, and since then it has never been
      empty and nobody has woken the readers. */
  ghost predicate Deserted(run: seq<State>, k: nat) {
    exists j: nat :: DesertedAt(run, j, k)
  }

  ghost predicate DesertedAt(run: seq<State>, j: nat, k: nat) {
    && j < k < |run| && DesertStep(run[j], run[j + 1])
    && forall m: nat :: j < m <= k ==> !run[m].ring.Empty() && (m < k ==> !Wakes(run[m], run[m + 1]))
  }

  /** A step moves one process only. */
  lemma OnlyMover(s: State, p: nat, st: Step, c: nat)
    requires Enabled(s, p, st) && |s.ring.data| == PIPESIZE && c < |s.procs| && c != p
    ensures Do(s, p, st).procs[c].pc == s.procs[c].pc
  {
    var pc := s.procs[p].pc;
    if st.Advance? && !Sleeper(pc) && InWrite(pc) {
      WriteMoves(s, p, c);
    } else if st.Advance? && !Sleeper(pc) && InRead(pc) {
      ReadMoves(s, p, c);
    }
  }

  lemma WriteMoves(s: State, p: nat, c: nat)
    requires p < |s.procs| && |s.ring.data| == PIPESIZE && c < |s.procs| && c != p
    requires InWrite(s.procs[p].pc) && !Sleeper(s.procs[p].pc)
    ensures AdvanceWrite(s, p).procs[c].pc == s.procs[c].pc
  {
    hide Ring.Full, Ring.Put, Deserts;
    if s.procs[p].pc.WLoop? {
      TurnMoves(s, p, c);
    } else {
      hide WriteTurn;
    }
  }

  lemma TurnMoves(s: State, p: nat, c: nat)
    requires p < |s.procs| && |s.ring.data| == PIPESIZE && c < |s.procs| && c != p && s.procs[p].pc.WLoop?
    ensures WriteTurn(s, p).procs[c].pc == s.procs[c].pc
  {
    hide Ring.Full, Ring.Put, Deserts;
  }

  lemma ReadMoves(s: State, p: nat, c: nat)
    requires p < |s.procs| && |s.ring.data| == PIPESIZE && c < |s.procs| && c != p
    requires InRead(s.procs[p].pc) && !Sleeper(s.procs[p].pc)
    ensures AdvanceRead(s, p).procs[c].pc == s.procs[c].pc
  {
    hide Ring.Empty, Ring.Take, Ring.Front;
  }

  lemma MoverWakes(s: State, p: nat, st: Step)
    requires Enabled(s, p, st) && |s.ring.data| == PIPESIZE
    ensures Wakes(s, Do(s, p, st)) <==> st.Advance? && WakesReaders(s.procs[p].pc)
    ensures DesertStep(s, Do(s, p, st)) <==> st.Advance? && Deserts(s, p)
  {
    var s' := Do(s, p, st);
    forall c: nat | c < |s.procs| && c != p ensures s'.procs[c].pc == s.procs[c].pc {
      OnlyMover(s, p, st, c);
    }
    assert st.Advance? && WakesReaders(s.procs[p].pc) ==> !WakesReaders(s'.procs[p].pc);
    assert st.Advance? && Deserts(s, p) ==> s'.procs[p].pc.WLeave?;
    assert !st.Advance? ==> s'.procs[p].pc == s.procs[p].pc || !WakesReaders(s.procs[p].pc);
  }

  /** The flag says just that. */
  lemma StepFlag(s: State, s': State)
    requires Inv(s) && Inv(s') && Next(s, s')
    ensures s'.abandoned <==> !s'.ring.Empty() && (DesertStep(s, s') || (s.abandoned && !Wakes(s, s')))
  {
    var p: nat, st: Step :| Enabled(s, p, st) && s' == Do(s, p, st);
    MoverWakes(s, p, st);
    Counters(s.ring);
    hide Wakes, DesertStep;
  }

  lemma DesertedStep(run: seq<State>, h: nat, k: nat)
    requires k == h + 1 < |run|
    ensures Deserted(run, k) <==>
            !run[k].ring.Empty() && (DesertStep(run[h], run[k]) || (Deserted(run, h) && !Wakes(run[h], run[k])))
  {
    hide Wakes, DesertStep;
    if j: nat :| DesertedAt(run, j, k) {
      assert j < h ==> DesertedAt(run, j, h);
    }
    if !run[k].ring.Empty() && DesertStep(run[h], run[k]) {
      assert DesertedAt(run, h, k);
    }
    if !run[k].ring.Empty() && Deserted(run, h) && !Wakes(run[h], run[k]) {
      var j: nat :| DesertedAt(run, j, h);
      assert DesertedAt(run, j, k);
    }
  }

  lemma {:induction false} FlagIsDeserted(run: seq<State>, k: nat)
    requires IsRun(run) && k < |run|
    ensures run[k].abandoned <==> Deserted(run, k)
  {
    if k > 0 {
      FlagIsDeserted(run, k - 1);
      RunInv(run, k - 1);
      RunInv(run, k);
      assert Next(run[k - 1], run[k - 1 + 1]);
      StepFlag(run[k - 1], run[k]);
      DesertedStep(run, k - 1, k);
      hide Wakes, DesertStep, Deserted, Next;
      assert run[k].abandoned ==> !run[k].ring.Empty();
    }
  }

  /** No lost wakeups: with the pipe lock free, a writer asleep has a full buffer
      and a reader to empty it; a reader asleep has a writer to fill the buffer, and
      the buffer is empty exactly when no killed writer has deserted it. */
  lemma NoLostWakeup(run: seq<State>, k: nat, q: nat)
    requires IsRun(run) && k < |run| && run[k].pipeLock.None?
    requires q < |run[k].procs| && run[k].procs[q].state == SLEEPING
    ensures run[k].procs[q].chan == Some(NWrite) ==> run[k].ring.Full() && run[k].readopen
    ensures run[k].procs[q].chan == Some(NRead) ==> run[k].writeopen && (run[k].ring.Empty() <==> !Deserted(run, k))
  {
    RunInv(run, k);
    FlagIsDeserted(run, k);
    assert ProcOk(run[k], q);
  }

  /** Without a killed writer that finds the buffer full, with the read end open and
      bytes left, no reader is ever asleep on a buffer with something in it. */
  lemma NoneKilledNoneLost(run: seq<State>, k: nat, q: nat)
    requires IsRun(run) && k < |run| && run[k].pipeLock.None?
    requires q < |run[k].procs| && run[k].procs[q].state == SLEEPING && run[k].procs[q].chan == Some(NRead)
    requires forall j: nat, p: nat :: j < k ==> !Deserts(run[j], p)
    ensures run[k].ring.Empty() && run[k].writeopen
  {
    NoLostWakeup(run, k, q);
    forall j: nat ensures !DesertedAt(run, j, k) {
      assert j < k ==> forall p: nat :: !Deserts(run[j], p);
    }
  }

  /** A pipe is a bounded first-in first-out queue: what has been taken is a
      prefix of what was written, and the ring holds the rest, in order. */
  lemma BoundedQueue(run: seq<State>, k: nat)
    requires IsRun(run) && k < |run|
    ensures var r := run[k].ring;
            && |r.taken| <= |r.written| <= |r.taken| + PIPESIZE
            && r.taken == r.written[..|r.taken|]
            && |r.data| == PIPESIZE
            && forall i: nat :: |r.taken| <= i < |r.written| ==>
                 r.data[(r.nread + (i - |r.taken|)) % PIPESIZE] == r.written[i]
  {
    RunInv(run, k);
    var r := run[k].ring;
    SlotMod(|r.taken|);
    forall i: nat | |r.taken| <= i < |r.written|
      ensures r.data[(r.nread + (i - |r.taken|)) % PIPESIZE] == r.written[i]
    {
      SameSum(r.nread, |r.taken|, i - |r.taken|);
      assert r.data[i % PIPESIZE] == r.written[i];
    }
  }

  lemma SameSum(a: nat, b: nat, d: nat)
    requires a % PIPESIZE == b % PIPESIZE
    ensures (a + d) % PIPESIZE == (b + d) % PIPESIZE
  {
    var r, m := a % PIPESIZE, d % PIPESIZE;
    assert a + d == PIPESIZE * (a / PIPESIZE + d / PIPESIZE) + (r + m);
    assert b + d == PIPESIZE * (b / PIPESIZE + d / PIPESIZE) + (r + m);
  }

  /** A read that was asked for bytes and got none has seen the write end closed
      and every byte taken; a read that got some got them in a row. */
  lemma ReadsDrain(run: seq<State>, k: nat, q: nat)
    requires IsRun(run) && k < |run| && q < |run[k].procs| && run[k].procs[q].pc.RWake?
    ensures var r, pr := run[k].ring, run[k].procs[q];
            && |pr.got| <= |r.taken| && pr.got == r.taken[|r.taken| - |pr.got|..]
            && (pr.got == [] && pr.n > 0 ==> !run[k].writeopen && r.taken == r.written)
  {
    RunInv(run, k);
    assert ProcOk(run[k], q);
    Counters(run[k].ring);
  }

  // ---------- the wakeup a killed writer leaves out ----------

  ghost predicate Reachable(s: State) {
    exists run: seq<State> :: IsRun(run) && run[|run| - 1] == s
  }

  lemma Extend(s: State, p: nat, st: Step)
    requires Reachable(s) && Enabled(s, p, st) && |s.ring.data| == PIPESIZE
    ensures Reachable(Do(s, p, st))
  {
    var run: seq<State> :| IsRun(run) && run[|run| - 1] == s;
    var longer := run + [Do(s, p, st)];
    forall k: nat | k + 1 < |longer| ensures Next(longer[k], longer[k + 1]) {
      if k + 1 < |run| {
        assert Next(run[k], run[k + 1]);
      }
    }
    assert IsRun(longer);
  }

  /** Process 1 is a reader asleep, process 0 a writer with k bytes written. */
  ghost predicate Filling(s: State, k: nat) {
    && Reachable(s) && Inv(s) && |s.procs| == 2 && s.readopen && s.writeopen
    && s.procs[1].state == SLEEPING && s.procs[1].chan == Some(NRead)
    && s.procs[0].pc.WLoop? && s.procs[0].i == k && |s.procs[0].src| > PIPESIZE
    && s.ring.taken == [] && |s.ring.written| == k
    && s.ptLock.None? && s.pipeLock == Some(0)
  }

  lemma {:induction false} FillUp(s: State, k: nat) returns (s': State)
    requires Filling(s, k) && k <= PIPESIZE
    ensures Filling(s', PIPESIZE)
    decreases PIPESIZE - k
  {
    if k == PIPESIZE {
      s' := s;
    } else {
      Counters(s.ring);
      Extend(s, 0, Advance);
      StepKeepsInv(s, 0, Advance);
      s' := FillUp(Do(s, 0, Advance), k + 1);
    }
  }

  /** Process 1 is a reader of an empty pipe, at pc. */
  ghost predicate ReaderAt(s: State, pc: Pc, lock: Option<nat>) {
    && Reachable(s) && s.procs == [IdleProc(), IdleProc().(pc := pc, n := 1)] && s.ring == EmptyRing()
    && s.readopen && s.writeopen && s.ptLock.None? && s.pipeLock == lock
  }

  function IdleProc(): Proc { Proc(Idle, RUNNING, None, false, [], 0, 0, []) }

  function EmptyRing(): Ring { Ring(seq(PIPESIZE, _ => 0), 0, 0, [], []) }

  lemma ReaderStarts() returns (s: State)
    ensures ReaderAt(s, REnter, None)
  {
    var s0 := State(None, None, [IdleProc(), IdleProc()], EmptyRing(), true, true, false);
    assert IsRun([s0]) && [s0][|[s0]| - 1] == s0;
    s := Do(s0, 1, StartRead(1));
    Extend(s0, 1, StartRead(1));
  }

  lemma ReaderWaits() returns (s: State)
    ensures ReaderAt(s, SleepLock(NRead), Some(1))
  {
    var s1 := ReaderStarts();
    var s2 := Do(s1, 1, Advance);
    Extend(s1, 1, Advance);
    assert ReaderAt(s2, RWait, Some(1));
    s := Do(s2, 1, Advance);
    Extend(s2, 1, Advance);
  }

  /** A reader falls asleep on an empty pipe. */
  lemma ReaderSleeps() returns (s: State)
    ensures Reachable(s) && |s.procs| == 2 && s.ptLock.None? && s.pipeLock.None? && s.readopen && s.writeopen
    ensures s.procs[1].state == SLEEPING && s.procs[1].chan == Some(NRead) && s.procs[0].pc.Idle?
    ensures |s.ring.data| == PIPESIZE && s.ring.taken == [] && s.ring.written == []
  {
    var s3 := ReaderWaits();
    var s4 := Do(s3, 1, Advance);
    Extend(s3, 1, Advance);
    var s5 := Do(s4, 1, Advance);
    Extend(s4, 1, Advance);
    s := Do(s5, 1, Advance);
    Extend(s5, 1, Advance);
  }

  /** Then a writer starts. */
  lemma Begin() returns (s: State)
    ensures Filling(s, 0)
  {
    var s0 := ReaderSleeps();
    var src := seq(PIPESIZE + 1, _ => 0);
    var s1 := Do(s0, 0, StartWrite(src));
    Extend(s0, 0, StartWrite(src));
    s := Do(s1, 0, Advance);
    Extend(s1, 0, Advance);
    var run: seq<State> :| IsRun(run) && run[|run| - 1] == s;
    RunInv(run, |run| - 1);
  }

  /** The writer is killed while it finds the buffer full, and leaves. */
  lemma WriterLeaves() returns (s: State)
    ensures Reachable(s) && |s.procs| == 2 && s.pipeLock == Some(0) && s.procs[0].pc.WLeave? && s.ring.Full() && s.ring.Fifo()
    ensures s.procs[1].state == SLEEPING && s.procs[1].chan == Some(NRead)
  {
    var b := Begin();
    var full := FillUp(b, 0);
    Counters(full.ring);
    var killed := Do(full, 0, Kill);
    Extend(full, 0, Kill);
    s := Do(killed, 0, Advance);
    Extend(killed, 0, Advance);
  }

  /** The claim for readers does fail when a writer is killed: a reader can be
      left asleep although the buffer is full and the pipe lock is free. */
  lemma KilledWriterLosesWakeup()
    ensures exists s: State :: Reachable(s) && s.pipeLock.None? && |s.procs| == 2
                               && s.procs[1].state == SLEEPING && s.procs[1].chan == Some(NRead) && s.ring.Full() && !s.ring.Empty()
  {
    var s := WriterLeaves();
    Counters(s.ring);
    var s' := Do(s, 0, Advance);
    Extend(s, 0, Advance);
    assert s'.pipeLock.None? && s'.procs[1] == s.procs[1] && s'.ring == s.ring;
  }
}

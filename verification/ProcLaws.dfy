/** How processes change state, and by whom: what every step of kernel/proc.c may do
    to a slot of the table. */
module ProcLaws {
  import opened Prelude
  import opened Proc
  import opened ProcProof

  /** wakeup1: nobody sleeps on the channel afterwards; exactly its sleepers have become
      RUNNABLE, and nothing else has changed. */
  lemma WakeupLaw(t: seq<Slot>, c: Chan, i: nat)
    requires i < |t|
    ensures !Asleep(WakeAll(t, c)[i], c)
    ensures WakeAll(t, c)[i] == if Asleep(t[i], c) then t[i].(state := RUNNABLE) else t[i]
  {
  }

  /** kill: the victim is marked and not asleep, and otherwise as it was. */
  lemma KillLaw(p: Slot)
    ensures Killed(p).killed && Killed(p).state != SLEEPING
    ensures Killed(p) == if p.state == SLEEPING then p.(killed := true, state := RUNNABLE) else p.(killed := true)
  {
  }

  predicate Asleep(p: Slot, ch: Chan) { p.state == SLEEPING && p.chan == Some(ch) }

  /** The step wakes who sleeps on ch: wakeup, or exit of a child, or exit of a process
      that leaves a zombie to init. */
  ghost predicate Wakes(s: State, c: nat, st: Step, ch: Chan)
    requires Enabled(s, c, st)
  {
    match st
    case Wakeup(n) => ch == Other(n)
    case Exit =>
      var me := s.cpus[c].proc;
      || (s.t[me].parent.Some? && ch == Entry(s.t[me].parent.value))
      || (ZombieChild(s.t, me) && ch == Entry(s.init))
    case _ => false
  }

  /** The step puts process i to sleep on ch: sleep, or wait by a process on itself. */
  predicate PutsToSleep(s: State, c: nat, st: Step, i: nat, ch: Chan) {
    Current(s, c, i) && ((st.Sleep? && ch == Other(st.n)) || (st.WaitSleep? && ch == Entry(i)))
  }

  /** A process is asleep on ch after a step just if it was and was neither woken nor
      killed, or went to sleep on it. */
  ghost predicate AsleepLaw(s: State, c: nat, st: Step, i: nat, ch: Chan)
    requires Enabled(s, c, st) && i < |s.t|
  {
    var p, p' := s.t[i], Do(s, c, st).t[i];
    Asleep(p', ch) <==> PutsToSleep(s, c, st, i, ch) || (Asleep(p, ch) && !Wakes(s, c, st, ch) && st != Kill(i))
  }

  lemma LockedAsleep(s: State, c: nat, st: Step, i: nat, ch: Chan)
    requires Inv(s) && Enabled(s, c, st) && s.cpus[c].Locked? && !(st.Acquire? || st.Release? || st.Pick? || st.Switch?) && i < |s.t|
    ensures AsleepLaw(s, c, st, i, ch)
  {
    assert CpuOk(s, c);
  }

  lemma SwitchAsleep(s: State, c: nat, st: Step, i: nat, ch: Chan)
    requires Inv(s) && Enabled(s, c, st) && (st.Acquire? || st.Release? || st.Pick? || st.Switch?) && i < |s.t|
    ensures AsleepLaw(s, c, st, i, ch)
  {
    assert CpuOk(s, c);
  }

  lemma ForkAsleep(s: State, c: nat, st: Step, i: nat, ch: Chan)
    requires Inv(s) && Enabled(s, c, st) && (st.ForkStack? || st.ForkLink? || st.ForkFail? || st.ForkDone?) && i < |s.t|
    ensures AsleepLaw(s, c, st, i, ch)
  {
    assert CpuOk(s, c) && SlotOk(s.t, s.cpus[c].proc, s.init);
  }

  /** Sleeping and waking: sleep and wait put their caller to sleep, and only wakeup on
      its channel, exit of a child and kill end it. */
  lemma SleepLaw(s: State, c: nat, st: Step, i: nat, ch: Chan)
    requires Inv(s) && Enabled(s, c, st) && i < |s.t|
    ensures AsleepLaw(s, c, st, i, ch)
  {
    if st.Acquire? || st.Release? || st.Pick? || st.Switch? {
      SwitchAsleep(s, c, st, i, ch);
    } else if st.ForkStack? || st.ForkLink? || st.ForkFail? || st.ForkDone? {
      ForkAsleep(s, c, st, i, ch);
    } else {
      LockedAsleep(s, c, st, i, ch);
    }
  }

  /** How the state of a slot may change in a step of CPU c. */
  ghost predicate Allowed(s: State, c: nat, st: Step, i: nat, to: RunState)
    requires Enabled(s, c, st) && i < |s.t|
  {
    match s.t[i].state
    case UNUSED => to == EMBRYO && st == ForkAlloc(i)
    case EMBRYO => (to == UNUSED && st.ForkFail?) || (to == RUNNABLE && st.ForkDone?)
    case RUNNABLE => to == RUNNING && st == Pick(i)
    case RUNNING =>
      Current(s, c, i) &&
      ((to == RUNNABLE && st.Yield?) || (to == SLEEPING && (st.Sleep? || st.WaitSleep?)) || (to == ZOMBIE && st.Exit?))
    case SLEEPING => to == RUNNABLE && (st.Wakeup? || st.Exit? || st == Kill(i))
    case ZOMBIE => to == UNUSED && st == WaitReap(i)
  }

  lemma LockedStates(s: State, c: nat, st: Step, i: nat)
    requires Inv(s) && Enabled(s, c, st) && s.cpus[c].Locked? && !(st.Acquire? || st.Release? || st.Pick? || st.Switch?) && i < |s.t|
    ensures Do(s, c, st).t[i].state != s.t[i].state ==> Allowed(s, c, st, i, Do(s, c, st).t[i].state)
  {
    assert CpuOk(s, c);
  }

  /** The life of a process: UNUSED, EMBRYO, RUNNABLE and RUNNING by turns, with
      SLEEPING between, ZOMBIE, UNUSED; each change by the step that is for it, and
      leaving the CPU only by the process itself. */
  lemma StateLaw(s: State, c: nat, st: Step, i: nat)
    requires Inv(s) && Enabled(s, c, st) && i < |s.t|
    ensures Do(s, c, st).t[i].state != s.t[i].state ==> Allowed(s, c, st, i, Do(s, c, st).t[i].state)
    ensures (st.Pick? && st.i == i ==> Do(s, c, st).t[i].state == RUNNING)
            && (st.Yield? && Current(s, c, i) ==> Do(s, c, st).t[i].state == RUNNABLE)
            && (st.Exit? && Current(s, c, i) ==> Do(s, c, st).t[i].state == ZOMBIE)
  {
    assert CpuOk(s, c);
    if !(st.Acquire? || st.Release? || st.Pick? || st.Switch?) {
      if st.ForkStack? || st.ForkLink? || st.ForkFail? || st.ForkDone? {
        assert SlotOk(s.t, s.cpus[c].proc, s.init);
      } else {
        LockedStates(s, c, st, i);
      }
    }
  }

  /** A process's parent changes only when the parent exits, and then to init; it is
      killed only by kill. */
  lemma ParentLaw(s: State, c: nat, st: Step, i: nat)
    requires Inv(s) && Enabled(s, c, st) && i < |s.t| && Started(s.t[i]) && st != WaitReap(i)
    ensures Do(s, c, st).t[i].parent ==
            if st.Exit? && s.t[i].parent == Some(s.cpus[c].proc) then Some(s.init) else s.t[i].parent
    ensures Do(s, c, st).t[i].killed == (s.t[i].killed || st == Kill(i))
  {
    assert CpuOk(s, c);
    if st.ForkStack? || st.ForkLink? || st.ForkFail? || st.ForkDone? {
      assert SlotOk(s.t, s.cpus[c].proc, s.init);
    }
  }

  /** The child that fork makes runnable is a new process, of the caller. */
  lemma ForkedChild(s: State, c: nat)
    requires Inv(s) && Enabled(s, c, ForkDone)
    ensures var i, s' := s.t[s.cpus[c].proc].forking.value, Do(s, c, ForkDone);
            && i < |s'.t| && s'.t[i].state == RUNNABLE && s'.t[i].parent == Some(s.cpus[c].proc)
            && s'.t[i].kstack && s'.t[i].pgdir && s'.t[i].pid == s.t[i].pid > s.t[s.cpus[c].proc].pid
  {
    assert CpuOk(s, c);
    assert SlotOk(s.t, s.cpus[c].proc, s.init);
  }

  /** The lock is taken and let go by those two steps, and handed over in swtch; what a
      CPU does next is what the step says. */
  lemma LockLaw(s: State, c: nat, st: Step)
    requires Inv(s) && Enabled(s, c, st)
    ensures Do(s, c, st).lock == match st case Acquire => Some(c) case Release => None case _ => s.lock
    ensures forall d: nat :: d < |s.cpus| && d != c ==> Do(s, c, st).cpus[d] == s.cpus[d]
    ensures var cpu, cpu' := s.cpus[c], Do(s, c, st).cpus[c];
            match st
            case Acquire => cpu' == if cpu.Searching? then Scheduling else Locked(cpu.proc)
            case Release => cpu' == if cpu.Scheduling? then Searching else InProc(cpu.proc)
            case Pick(i) => cpu' == Resumed(i)
            case Switch => cpu' == Scheduling
            case Yield => cpu' == Leaving(cpu.proc)
            case Sleep(_) => cpu' == Leaving(cpu.proc)
            case WaitSleep => cpu' == Leaving(cpu.proc)
            case Exit => cpu' == Leaving(cpu.proc)
            case _ => cpu' == cpu
  {
    assert CpuOk(s, c);
  }

  /** Process numbers are given out one after the other, to what fork allocates. */
  lemma PidLaw(s: State, c: nat, st: Step, i: nat)
    requires Inv(s) && Enabled(s, c, st) && i < |s.t|
    ensures Do(s, c, st).nextpid == s.nextpid + if st.ForkAlloc? then 1 else 0
    ensures st == ForkAlloc(i) ==> Do(s, c, st).t[i].pid == s.nextpid && Do(s, c, st).t[i].state == EMBRYO
    ensures !st.ForkAlloc? || st.i != i ==> Do(s, c, st).t[i].pid == if st == WaitReap(i) then 0 else s.t[i].pid
  {
    assert CpuOk(s, c);
  }

  /** wait takes everything from the zombie it reaps: its slot is as it was before fork
      found it. */
  lemma ReapLaw(s: State, c: nat, i: nat)
    requires Inv(s) && Enabled(s, c, WaitReap(i))
    ensures var p := Do(s, c, WaitReap(i)).t[i];
            p.state == UNUSED && p.pid == 0 && p.parent.None? && !p.killed && !p.kstack && !p.pgdir
    ensures forall j: nat :: j < |s.t| && j != i ==> Do(s, c, WaitReap(i)).t[j] == s.t[j]
  {
  }

  /** A process that runs with no step of sleep half done has no channel. */
  ghost predicate ChanOk(s: State) {
    forall c: nat :: c < |s.cpus| && (s.cpus[c].InProc? || s.cpus[c].Locked?) && s.cpus[c].proc < |s.t| ==>
      s.t[s.cpus[c].proc].chan.None?
  }

  lemma ChanStep(s: State, c: nat, st: Step)
    requires Inv(s) && ChanOk(s) && Enabled(s, c, st)
    ensures ChanOk(Do(s, c, st))
  {
    var s' := Do(s, c, st);
    LockLaw(s, c, st);
    forall d: nat | d < |s'.cpus| && (s'.cpus[d].InProc? || s'.cpus[d].Locked?) && s'.cpus[d].proc < |s'.t|
      ensures s'.t[s'.cpus[d].proc].chan.None?
    {
      ChanKept(s, c, st, d);
    }
  }

  lemma ChanKept(s: State, c: nat, st: Step, d: nat)
    requires Inv(s) && ChanOk(s) && Enabled(s, c, st) && d < |s.cpus|
    requires var s' := Do(s, c, st); (s'.cpus[d].InProc? || s'.cpus[d].Locked?) && s'.cpus[d].proc < |s'.t|
    ensures var s' := Do(s, c, st); s'.t[s'.cpus[d].proc].chan.None?
  {
    LockLaw(s, c, st);
    assert CpuOk(s, c) && CpuOk(s, d);
    if c != d && HasProc(s.cpus[c]) {
      assert Current(s, c, s.cpus[c].proc) && Current(s, d, s.cpus[d].proc);
    }
  }

  /** In every run: sleep returns with the channel cleared. */
  lemma {:induction false} NoStaleChannel(run: seq<State>, k: nat)
    requires IsRun(run) && k < |run|
    ensures ChanOk(run[k])
  {
    if k > 0 {
      var h := k - 1;
      NoStaleChannel(run, h);
      RunInv(run, h);
      assert Next(run[h], run[h + 1]);
      var c: nat, st: Step :| Enabled(run[h], c, st) && run[k] == Do(run[h], c, st);
      ChanStep(run[h], c, st);
    }
  }
}

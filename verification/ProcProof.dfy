/** Every step keeps the process tree, the count of each pid, and the agreement
    between processes that run and the CPUs they run on. */
module ProcProof {
  import opened Prelude
  import opened Proc

  predicate Live(p: Slot) { p.state == SLEEPING || p.state == RUNNABLE || p.state == RUNNING }

  // ---------- the table ----------

  ghost predicate ParentOk(t: seq<Slot>, i: nat, init: nat)
    requires i < |t|
  {
    && (t[i].state == UNUSED ==> t[i].parent.None?)
    && ((Live(t[i]) || t[i].state == ZOMBIE) && i != init ==> t[i].parent.Some?)
    && (t[i].parent.Some? ==>
          var j := t[i].parent.value; j < |t| && Live(t[j]) && t[j].pid < t[i].pid)
  }

  ghost predicate ForkOk(t: seq<Slot>, i: nat)
    requires i < |t|
  {
    t[i].forking.Some? ==>
      var j := t[i].forking.value;
      && (t[i].state == RUNNING || t[i].state == RUNNABLE)
      && j < |t| && t[j].state == EMBRYO && t[i].pid < t[j].pid
      && (t[j].parent == Some(i) ==> t[j].kstack && t[j].pgdir)
      && (t[j].parent.None? || t[j].parent == Some(i))
  }

  ghost predicate MemoryOk(p: Slot) {
    && (Live(p) || p.state == ZOMBIE ==> p.kstack && p.pgdir)
    && (p.state == UNUSED || p.state == EMBRYO ==> p.forking.None?)
  }

  /** A process asleep on a process is in wait: it is the one, and has no zombie
      child. */
  ghost predicate WaitOk(t: seq<Slot>, i: nat)
    requires i < |t|
  {
    t[i].state == SLEEPING && t[i].chan.Some? && t[i].chan.value.Entry? ==>
      t[i].chan.value.i == i && !ZombieChild(t, i)
  }

  ghost predicate SlotOk(t: seq<Slot>, i: nat, init: nat)
    requires i < |t|
  {
    ParentOk(t, i, init) && ForkOk(t, i) && MemoryOk(t[i]) && WaitOk(t, i)
  }

  /** pids are never used twice. */
  ghost predicate PidsOk(t: seq<Slot>, nextpid: nat, reaped: seq<nat>) {
    && (forall i: nat :: i < |t| && t[i].state != UNUSED ==> 0 < t[i].pid < nextpid && t[i].pid !in reaped)
    && (forall i: nat, j: nat :: i < j < |t| && t[i].state != UNUSED && t[j].state != UNUSED ==> t[i].pid != t[j].pid)
    && (forall k: nat :: k < |reaped| ==> reaped[k] < nextpid)
    && (forall k: nat, l: nat :: k < l < |reaped| ==> reaped[k] != reaped[l])
  }

  /** No slot is filled by two forks. */
  ghost predicate ForksApart(t: seq<Slot>) {
    forall i: nat, j: nat :: i < j < |t| && t[i].forking.Some? ==> t[i].forking != t[j].forking
  }

  ghost predicate TableOk(s: State) {
    && s.init < |s.t| && Live(s.t[s.init]) && s.t[s.init].pid == 1 && s.t[s.init].parent.None?
    && (forall i: nat :: i < |s.t| ==> SlotOk(s.t, i, s.init))
    && PidsOk(s.t, s.nextpid, s.reaped)
    && ForksApart(s.t)
  }

  /** Changes that only move live processes between SLEEPING, RUNNABLE and
      RUNNING; who falls asleep in wait has no zombie child. */
  ghost predicate Shuffles(t: seq<Slot>, t': seq<Slot>) {
    |t'| == |t| && forall i: nat :: i < |t| ==> Shuffled(t, t[i], t'[i], i)
  }

  ghost predicate Shuffled(t: seq<Slot>, p: Slot, p': Slot, i: nat) {
    && p' == p.(state := p'.state, chan := p'.chan, killed := p'.killed)
    && (p'.state != p.state ==> Live(p) && Live(p'))
    && (p'.state == SLEEPING && !(p.state == SLEEPING && p'.chan == p.chan) ==>
          p.forking.None? && (p'.chan.Some? && p'.chan.value.Entry? ==> p'.chan.value.i == i && !ZombieChild(t, i)))
  }

  lemma ShuffleKeepsSlot(t: seq<Slot>, t': seq<Slot>, i: nat, init: nat)
    requires Shuffles(t, t') && i < |t| && SlotOk(t, i, init)
    ensures SlotOk(t', i, init)
  {
    assert Shuffled(t, t[i], t'[i], i);
    assert ZombieChild(t', i) == ZombieChild(t, i) by {
      forall j: nat | j < |t| ensures t'[j].parent == t[j].parent && (t'[j].state == ZOMBIE <==> t[j].state == ZOMBIE) {
        assert Shuffled(t, t[j], t'[j], j);
      }
    }
    if t[i].parent.Some? {
      var j := t[i].parent.value;
      assert Shuffled(t, t[j], t'[j], j);
    }
    if t[i].forking.Some? {
      var j := t[i].forking.value;
      assert Shuffled(t, t[j], t'[j], j);
    }
  }

  lemma ShuffleKeepsTable(s: State, s': State)
    requires TableOk(s) && Shuffles(s.t, s'.t)
    requires s'.init == s.init && s'.nextpid == s.nextpid && s'.reaped == s.reaped
    ensures TableOk(s')
  {
    forall i: nat | i < |s.t| ensures SlotOk(s'.t, i, s.init) {
      ShuffleKeepsSlot(s.t, s'.t, i, s.init);
    }
    forall i: nat | i < |s.t|
      ensures s'.t[i].pid == s.t[i].pid && s'.t[i].forking == s.t[i].forking && s'.t[i].parent == s.t[i].parent
      ensures s'.t[i].state == UNUSED <==> s.t[i].state == UNUSED
      ensures Live(s'.t[i]) <==> Live(s.t[i])
    {
      assert Shuffled(s.t, s.t[i], s'.t[i], i);
    }
  }

  // ---------- CPUs ----------

  ghost predicate CpuOk(s: State, c: nat)
    requires c < |s.cpus|
  {
    var cpu := s.cpus[c];
    && (HasLock(cpu) <==> s.lock == Some(c))
    && (HasProc(cpu) ==>
          && cpu.proc < |s.t|
          && var p := s.t[cpu.proc];
             if cpu.Leaving? then p.state == RUNNABLE || p.state == SLEEPING || p.state == ZOMBIE else p.state == RUNNING)
  }

  /** CPU c has process i as current. */
  predicate Current(s: State, c: nat, i: nat) { c < |s.cpus| && HasProc(s.cpus[c]) && s.cpus[c].proc == i }

  ghost predicate CpusOk(s: State) {
    && (forall c: nat :: c < |s.cpus| ==> CpuOk(s, c))
    && (forall c: nat, d: nat, i: nat :: Current(s, c, i) && Current(s, d, i) ==> c == d)
    && (forall i: nat :: i < |s.t| && s.t[i].state == RUNNING ==> exists c: nat :: Current(s, c, i))
  }

  ghost predicate Inv(s: State) { TableOk(s) && CpusOk(s) }

  // ---------- steps on the table ----------

  lemma SwitchKeepsTable(s: State, c: nat, st: Step)
    requires Inv(s) && Enabled(s, c, st) && (st.Acquire? || st.Release? || st.Pick? || st.Switch?)
    ensures TableOk(DoSwitch(s, c, st))
  {
    assert CpuOk(s, c);
    var s' := DoSwitch(s, c, st);
    assert Shuffles(s.t, s'.t);
    ShuffleKeepsTable(s, s');
  }

  lemma StateKeepsTable(s: State, c: nat, st: Step)
    requires Inv(s) && Enabled(s, c, st) && s.cpus[c].Locked?
    requires st.Yield? || st.Sleep? || st.WaitSleep? || st.Wakeup? || st.Kill?
    ensures TableOk(DoLocked(s, c, st))
  {
    assert CpuOk(s, c);
    var s' := DoLocked(s, c, st);
    forall i: nat | i < |s.t| ensures Shuffled(s.t, s.t[i], s'.t[i], i) {
      assert SlotOk(s.t, i, s.init);
    }
    ShuffleKeepsTable(s, s');
  }

  lemma ReapKeepsSlot(t: seq<Slot>, i: nat, j: nat, init: nat)
    requires i < |t| && j < |t| && t[i].state == ZOMBIE && SlotOk(t, j, init)
    ensures SlotOk(Reaped(t, i), j, init)
  {
    var t' := Reaped(t, i);
    if ZombieChild(t', j) {
      var k: nat :| k < |t'| && t'[k].parent == Some(j) && t'[k].state == ZOMBIE;
      assert t[k].parent == Some(j) && t[k].state == ZOMBIE;
    }
  }

  lemma ReapKeepsTable(s: State, c: nat, i: nat)
    requires Inv(s) && Enabled(s, c, WaitReap(i))
    ensures TableOk(DoLocked(s, c, WaitReap(i)))
  {
    var s' := DoLocked(s, c, WaitReap(i));
    forall j: nat | j < |s.t| ensures SlotOk(s'.t, j, s.init) {
      ReapKeepsSlot(s.t, i, j, s.init);
    }
    assert s.t[i].pid !in s.reaped;
  }

  lemma ExitKeepsParent(s: State, me: nat, i: nat)
    requires TableOk(s) && me < |s.t| && i < |s.t| && s.t[me].state == RUNNING && me != s.init
    requires s.t[me].forking.None?
    ensures ParentOk(Exited(s.t, me, s.init), i, s.init) && ForkOk(Exited(s.t, me, s.init), i)
  {
    assert SlotOk(s.t, i, s.init);
  }

  lemma ExitKeepsWait(s: State, me: nat, i: nat)
    requires TableOk(s) && me < |s.t| && i < |s.t|
    ensures WaitOk(Exited(s.t, me, s.init), i)
  {
    var t' := Exited(s.t, me, s.init);
    assert SlotOk(s.t, i, s.init) && SlotOk(s.t, me, s.init);
    if t'[i].state == SLEEPING && ZombieChild(t', i) {
      var k: nat :| k < |t'| && t'[k].parent == Some(i) && t'[k].state == ZOMBIE;
      assert t'[k] == ExitOne(s.t, me, s.init, k);
      assert k != me && s.t[k].parent == Some(i) ==> ZombieChild(s.t, i);
      assert k != me && s.t[k].parent == Some(me) ==> ZombieChild(s.t, me);
    }
  }

  lemma ExitKeepsSlot(s: State, me: nat, i: nat)
    requires TableOk(s) && me < |s.t| && i < |s.t| && s.t[me].state == RUNNING
    requires me != s.init && s.t[me].forking.None?
    ensures SlotOk(Exited(s.t, me, s.init), i, s.init)
  {
    ExitKeepsParent(s, me, i);
    ExitKeepsWait(s, me, i);
    assert SlotOk(s.t, i, s.init);
  }

  /** Nobody comes, goes or changes pid in exit. */
  lemma ExitKeepsPids(s: State, me: nat)
    requires TableOk(s) && me < |s.t| && s.t[me].state == RUNNING && me != s.init
    ensures var t := Exited(s.t, me, s.init);
            && Live(t[s.init]) && t[s.init].pid == 1 && t[s.init].parent.None?
            && PidsOk(t, s.nextpid, s.reaped) && ForksApart(t)
  {
    var t := Exited(s.t, me, s.init);
    forall i: nat | i < |s.t|
      ensures t[i].pid == s.t[i].pid && t[i].forking == s.t[i].forking
      ensures t[i].state == UNUSED <==> s.t[i].state == UNUSED
    {
    }
    hide SlotOk, ExitOne;
  }

  lemma ExitKeepsTable(s: State, c: nat)
    requires Inv(s) && Enabled(s, c, Exit)
    ensures TableOk(DoLocked(s, c, Exit))
  {
    assert CpuOk(s, c);
    var me := s.cpus[c].proc;
    ExitKeepsPids(s, me);
    forall i: nat | i < |s.t| ensures SlotOk(Exited(s.t, me, s.init), i, s.init) {
      ExitKeepsSlot(s, me, i);
    }
    hide SlotOk, CpusOk, ExitOne, PidsOk, ForksApart;
  }

  // ---------- fork ----------

  /** Slot i becomes an EMBRYO, filled by me. */
  ghost predicate Allocates(t: seq<Slot>, t': seq<Slot>, me: nat, i: nat, pid: nat) {
    && me < |t| && i < |t| && i != me && t[me].state == RUNNING && t[me].forking.None? && t[i].state == UNUSED
    && t' == t[i := t[i].(state := EMBRYO, pid := pid)][me := t[me].(forking := Some(i))]
  }

  lemma AllocKeepsSlot(t: seq<Slot>, t': seq<Slot>, me: nat, i: nat, pid: nat, init: nat, j: nat)
    requires Allocates(t, t', me, i, pid) && t[me].pid < pid && j < |t|
    requires SlotOk(t, j, init) && SlotOk(t, i, init) && SlotOk(t, me, init)
    ensures SlotOk(t', j, init)
  {
    if ZombieChild(t', j) {
      var k: nat :| k < |t'| && t'[k].parent == Some(j) && t'[k].state == ZOMBIE;
      assert t[k].parent == Some(j) && t[k].state == ZOMBIE;
    }
  }

  lemma ForkAllocKeepsTable(s: State, c: nat, i: nat)
    requires Inv(s) && Enabled(s, c, ForkAlloc(i))
    ensures TableOk(DoLocked(s, c, ForkAlloc(i)))
  {
    assert CpuOk(s, c);
    var s' := DoLocked(s, c, ForkAlloc(i));
    var me := s.cpus[c].proc;
    assert SlotOk(s.t, i, s.init) && SlotOk(s.t, me, s.init);
    forall j: nat | j < |s.t| ensures s.t[j].forking != Some(i) {
      assert SlotOk(s.t, j, s.init);
    }
    assert Allocates(s.t, s'.t, me, i, s.nextpid) && s.t[me].pid < s.nextpid;
    hide SlotOk, PidsOk, ForksApart;
    forall j: nat | j < |s.t| ensures SlotOk(s'.t, j, s.init) {
      assert SlotOk(s.t, j, s.init);
      AllocKeepsSlot(s.t, s'.t, me, i, s.nextpid, s.init, j);
    }
    AllocKeepsPids(s.t, s'.t, me, i, s.nextpid, s.reaped);
  }

  lemma AllocKeepsPids(t: seq<Slot>, t': seq<Slot>, me: nat, i: nat, nextpid: nat, reaped: seq<nat>)
    requires Allocates(t, t', me, i, nextpid) && PidsOk(t, nextpid, reaped) && ForksApart(t) && 0 < nextpid
    requires forall j: nat :: j < |t| ==> t[j].forking != Some(i)
    ensures PidsOk(t', nextpid + 1, reaped) && ForksApart(t')
  {
  }

  lemma FewerKeepPids(t: seq<Slot>, t': seq<Slot>, nextpid: nat, reaped: seq<nat>)
    requires |t'| == |t| && PidsOk(t, nextpid, reaped) && ForksApart(t)
    requires forall j: nat :: j < |t| ==> t'[j].pid == t[j].pid && (t[j].state == UNUSED ==> t'[j].state == UNUSED)
    requires forall j: nat :: j < |t| ==> t'[j].forking == t[j].forking || t'[j].forking.None?
    ensures PidsOk(t', nextpid, reaped) && ForksApart(t')
  {
  }

  /** The fork of me, which fills slot i, takes a step without the lock. */
  ghost predicate Fills(t: seq<Slot>, t': seq<Slot>, me: nat, i: nat, np: Slot, done: bool) {
    && me < |t| && i < |t| && i != me && t[me].state == RUNNING && t[me].forking == Some(i) && t[i].state == EMBRYO
    && t' == (if done then t[i := np][me := t[me].(forking := None)] else t[i := np])
    && np == t[i].(state := np.state, kstack := np.kstack, pgdir := np.pgdir, parent := np.parent)
    && (done <==> np.state != EMBRYO)
    && (np.state == EMBRYO || np.state == UNUSED || np.state == RUNNABLE)
    && (np.state == RUNNABLE ==> np.parent == Some(me))
    && (np.state == UNUSED ==> np.parent.None?)
    && (np.parent.None? || np.parent == Some(me))
    && (np.parent == Some(me) ==> np.kstack && np.pgdir)
  }

  lemma FillKeepsSlot(t: seq<Slot>, t': seq<Slot>, me: nat, i: nat, np: Slot, done: bool, init: nat, j: nat)
    requires Fills(t, t', me, i, np, done) && j < |t| && (j != me ==> t[j].forking != Some(i))
    requires SlotOk(t, j, init) && SlotOk(t, i, init) && SlotOk(t, me, init)
    ensures SlotOk(t', j, init)
  {
    if ZombieChild(t', j) {
      var k: nat :| k < |t'| && t'[k].parent == Some(j) && t'[k].state == ZOMBIE;
      assert t[k].parent == Some(j) && t[k].state == ZOMBIE;
    }
  }

  lemma ForkFills(s: State, c: nat, st: Step)
    requires Inv(s) && Enabled(s, c, st) && (st.ForkStack? || st.ForkLink? || st.ForkFail? || st.ForkDone?)
    ensures var me := s.cpus[c].proc; var i := s.t[me].forking.value;
            SlotOk(s.t, me, s.init) &&
            i < |s.t| && Fills(s.t, DoFork(s, c, st).t, me, i, DoFork(s, c, st).t[i], st.ForkFail? || st.ForkDone?)
  {
    assert CpuOk(s, c);
    var me := s.cpus[c].proc;
    var i := s.t[me].forking.value;
    assert SlotOk(s.t, me, s.init);
  }

  lemma ForkKeepsTable(s: State, c: nat, st: Step)
    requires Inv(s) && Enabled(s, c, st) && (st.ForkStack? || st.ForkLink? || st.ForkFail? || st.ForkDone?)
    ensures TableOk(DoFork(s, c, st))
  {
    var s' := DoFork(s, c, st);
    var me := s.cpus[c].proc;
    var i := s.t[me].forking.value;
    var done := st.ForkFail? || st.ForkDone?;
    ForkFills(s, c, st);
    forall j: nat | j < |s.t| ensures SlotOk(s'.t, j, s.init) {
      assert SlotOk(s.t, j, s.init) && SlotOk(s.t, i, s.init);
      FillKeepsSlot(s.t, s'.t, me, i, s'.t[i], done, s.init, j);
    }
    FewerKeepPids(s.t, s'.t, s.nextpid, s.reaped);
  }

  // ---------- steps on the CPUs ----------

  lemma SwitchKeepsCpus(s: State, c: nat, st: Step)
    requires CpusOk(s) && Enabled(s, c, st) && (st.Acquire? || st.Release? || st.Pick? || st.Switch?)
    ensures CpusOk(DoSwitch(s, c, st))
  {
    var s' := DoSwitch(s, c, st);
    assert CpuOk(s, c);
    forall d: nat | d < |s.cpus| ensures CpuOk(s', d) {
      assert CpuOk(s, d);
    }
    forall d: nat, i: nat | Current(s', d, i) && d != c ensures Current(s, d, i) && !Current(s', c, i) {
      assert CpuOk(s, d) && Current(s, d, i);
      assert Current(s', c, i) && !st.Pick? ==> Current(s, c, i);
    }
    forall i: nat | i < |s.t| && s'.t[i].state == RUNNING ensures exists d: nat :: Current(s', d, i) {
      if !(st.Pick? && st.i == i) {
        var d: nat :| Current(s, d, i);
        assert CpuOk(s, d) && Current(s', d, i);
      } else {
        assert Current(s', c, i);
      }
    }
  }

  /** A step of process me on CPU c that leaves the other processes' being
      RUNNING alone. */
  lemma ProcKeepsCpus(s: State, s': State, c: nat)
    requires CpusOk(s) && c < |s.cpus| && HasProc(s.cpus[c]) && |s'.t| == |s.t|
    requires s'.cpus == s.cpus || s'.cpus == s.cpus[c := Leaving(s.cpus[c].proc)]
    requires s'.lock == s.lock && (s'.cpus != s.cpus ==> s.cpus[c].Locked?)
    requires CpuOk(s', c)
    requires forall i: nat :: i < |s.t| && i != s.cpus[c].proc ==> (s'.t[i].state == RUNNING <==> s.t[i].state == RUNNING)
    requires forall d: nat, i: nat :: d != c && Current(s, d, i) && i < |s.t| ==> s'.t[i].state == s.t[i].state
    ensures CpusOk(s')
  {
    forall d: nat, i: nat ensures Current(s', d, i) <==> Current(s, d, i) {
    }
    forall d: nat | d < |s.cpus| ensures CpuOk(s', d) {
      assert CpuOk(s, d) && CpuOk(s, c);
      if d != c && HasProc(s.cpus[d]) {
        assert Current(s, d, s.cpus[d].proc);
        assert Current(s, c, s.cpus[c].proc);
      }
    }
    forall i: nat | i < |s.t| && s'.t[i].state == RUNNING ensures exists d: nat :: Current(s', d, i) {
      if i == s.cpus[c].proc {
        assert Current(s', c, i);
      } else {
        var d: nat :| Current(s, d, i);
        assert Current(s', d, i);
      }
    }
  }

  /** While c has the lock, no other CPU is between two processes. */
  lemma LockAlone(s: State, c: nat, d: nat, i: nat)
    requires CpusOk(s) && c < |s.cpus| && s.cpus[c].Locked? && d != c && Current(s, d, i)
    ensures i < |s.t| && s.t[i].state == RUNNING && i != s.cpus[c].proc
  {
    assert CpuOk(s, c) && CpuOk(s, d);
    assert Current(s, c, s.cpus[c].proc);
  }

  lemma LockedKeepsCpus(s: State, c: nat, st: Step)
    requires Inv(s) && Enabled(s, c, st) && s.cpus[c].Locked?
    requires !(st.Acquire? || st.Release? || st.Pick? || st.Switch?)
    ensures CpusOk(DoLocked(s, c, st))
  {
    var s' := DoLocked(s, c, st);
    var me := s.cpus[c].proc;
    assert CpuOk(s, c) && SlotOk(s.t, me, s.init);
    forall d: nat, i: nat | d != c && Current(s, d, i) && i < |s.t| ensures s'.t[i].state == s.t[i].state {
      LockAlone(s, c, d, i);
    }
    ProcKeepsCpus(s, s', c);
  }

  lemma ForkKeepsCpus(s: State, c: nat, st: Step)
    requires Inv(s) && Enabled(s, c, st) && (st.ForkStack? || st.ForkLink? || st.ForkFail? || st.ForkDone?)
    ensures CpusOk(DoFork(s, c, st))
  {
    var s' := DoFork(s, c, st);
    assert CpuOk(s, c);
    ForkFills(s, c, st);
    forall d: nat, i: nat | d != c && Current(s, d, i) && i < |s.t| ensures s'.t[i].state == s.t[i].state {
      assert CpuOk(s, d);
    }
    ProcKeepsCpus(s, s', c);
  }

  // ---------- every run ----------

  lemma StepKeepsInv(s: State, c: nat, st: Step)
    requires Inv(s) && Enabled(s, c, st)
    ensures Inv(Do(s, c, st))
  {
    if st.Acquire? || st.Release? || st.Pick? || st.Switch? {
      SwitchKeepsTable(s, c, st);
      SwitchKeepsCpus(s, c, st);
    } else if st.ForkStack? || st.ForkLink? || st.ForkFail? || st.ForkDone? {
      ForkKeepsTable(s, c, st);
      ForkKeepsCpus(s, c, st);
    } else {
      LockedKeepsCpus(s, c, st);
      match st {
        case WaitReap(i) => ReapKeepsTable(s, c, i);
        case Exit => ExitKeepsTable(s, c);
        case ForkAlloc(i) => ForkAllocKeepsTable(s, c, i);
        case _ => StateKeepsTable(s, c, st);
      }
    }
  }

  ghost predicate Next(s: State, s': State) {
    exists c: nat, st: Step :: Enabled(s, c, st) && s' == Do(s, c, st)
  }

  ghost predicate IsRun(run: seq<State>) {
    |run| > 0 && Init(run[0]) && forall k: nat :: k + 1 < |run| ==> Next(run[k], run[k + 1])
  }

  lemma {:induction false} RunInv(run: seq<State>, k: nat)
    requires IsRun(run) && k < |run|
    ensures Inv(run[k])
  {
    if k > 0 {
      RunInv(run, k - 1);
      assert Next(run[k - 1], run[k - 1 + 1]);
      var c: nat, st: Step :| Enabled(run[k - 1], c, st) && run[k] == Do(run[k - 1], c, st);
      StepKeepsInv(run[k - 1], c, st);
    }
  }

  /** The n-th ancestor of i. */
  function Ancestor(t: seq<Slot>, i: nat, n: nat): nat
    decreases n
  {
    if n == 0 || i >= |t| || t[i].parent.None? then i else Ancestor(t, t[i].parent.value, n - 1)
  }

  lemma {:induction false} ReachesInit(s: State, i: nat) returns (n: nat)
    requires TableOk(s) && i < |s.t| && (Live(s.t[i]) || s.t[i].state == ZOMBIE)
    ensures Ancestor(s.t, i, n) == s.init
    decreases s.t[i].pid
  {
    assert SlotOk(s.t, i, s.init);
    if i == s.init {
      n := 0;
    } else {
      var m := ReachesInit(s, s.t[i].parent.value);
      n := m + 1;
    }
  }

  /** In every reachable state the processes form a tree with init at its root:
      a parent is alive and older than its child, and the ancestors of every
      process, zombies included, end at init. */
  lemma TreeRooted(run: seq<State>, k: nat, i: nat)
    requires IsRun(run) && k < |run| && i < |run[k].t|
    ensures var t := run[k].t;
            t[i].parent.Some? ==>
              t[i].parent.value < |t| && Live(t[t[i].parent.value]) && t[t[i].parent.value].pid < t[i].pid
    ensures Live(run[k].t[i]) || run[k].t[i].state == ZOMBIE ==>
              exists n: nat :: Ancestor(run[k].t, i, n) == run[k].init
  {
    RunInv(run, k);
    assert SlotOk(run[k].t, i, run[k].init);
    if Live(run[k].t[i]) || run[k].t[i].state == ZOMBIE {
      var n := ReachesInit(run[k], i);
    }
  }

  /** No process sleeps in wait while it has a zombie child. */
  lemma NoMissedChild(run: seq<State>, k: nat, i: nat)
    requires IsRun(run) && k < |run| && i < |run[k].t|
    requires run[k].t[i].state == SLEEPING && run[k].t[i].chan == Some(Entry(i))
    ensures !ZombieChild(run[k].t, i)
  {
    RunInv(run, k);
    assert SlotOk(run[k].t, i, run[k].init);
  }

  /** wait returns every pid at most once, and never that of a process still in
      the table. */
  lemma ReapedOnce(run: seq<State>, k: nat)
    requires IsRun(run) && k < |run|
    ensures forall a: nat, b: nat :: a < b < |run[k].reaped| ==> run[k].reaped[a] != run[k].reaped[b]
    ensures forall i: nat :: i < |run[k].t| && run[k].t[i].state != UNUSED ==> run[k].t[i].pid !in run[k].reaped
  {
    RunInv(run, k);
  }

  /** fork has finished making the process. */
  predicate Started(p: Slot) { p.state != UNUSED && p.state != EMBRYO }

  /** What a step leaves of process i that it does not reap. */
  ghost predicate Stays(p: Slot, p': Slot) {
    Started(p') && p'.pid == p.pid && (p.state == ZOMBIE ==> p'.state == ZOMBIE)
  }

  lemma ForkedStays(s: State, c: nat, st: Step, i: nat)
    requires Inv(s) && Enabled(s, c, st) && (st.ForkStack? || st.ForkLink? || st.ForkFail? || st.ForkDone?)
    requires i < |s.t| && Started(s.t[i])
    ensures Stays(s.t[i], DoFork(s, c, st).t[i])
  {
    assert CpuOk(s, c) && SlotOk(s.t, s.cpus[c].proc, s.init);
  }

  lemma LockedStays(s: State, c: nat, st: Step, i: nat)
    requires Inv(s) && Enabled(s, c, st) && s.cpus[c].Locked? && !(st.Acquire? || st.Release? || st.Pick? || st.Switch?)
    requires i < |s.t| && Started(s.t[i]) && st != WaitReap(i)
    ensures Stays(s.t[i], DoLocked(s, c, st).t[i])
  {
    assert CpuOk(s, c);
  }

  /** A process stays in the table, and a zombie stays a zombie, until its parent
      takes it out in wait, which then returns its pid. */
  lemma OnlyReaped(s: State, c: nat, st: Step, i: nat)
    requires Inv(s) && Enabled(s, c, st) && i < |s.t| && Started(s.t[i])
    ensures if st == WaitReap(i)
            then s.t[i].state == ZOMBIE && s.cpus[c].Locked? && s.t[i].parent == Some(s.cpus[c].proc)
                 && Do(s, c, st).reaped == s.reaped + [s.t[i].pid]
            else Stays(s.t[i], Do(s, c, st).t[i])
    ensures !st.WaitReap? ==> Do(s, c, st).reaped == s.reaped
  {
    assert CpuOk(s, c);
    if st.ForkStack? || st.ForkLink? || st.ForkFail? || st.ForkDone? {
      ForkedStays(s, c, st, i);
    } else if !(st.Acquire? || st.Release? || st.Pick? || st.Switch?) && st != WaitReap(i) {
      LockedStays(s, c, st, i);
    }
  }

  /** Over any run, a process is in its slot exactly as long as wait has not
      returned its pid; as a zombie it waits there unchanged. */
  lemma {:induction false} KeptUntilReaped(run: seq<State>, j: nat, k: nat, i: nat)
    requires IsRun(run) && j <= k < |run| && i < |run[j].t| && Started(run[j].t[i])
    ensures |run[k].t| == |run[j].t| && run[j].reaped <= run[k].reaped
    ensures run[j].t[i].pid !in run[k].reaped <==> Started(run[k].t[i]) && run[k].t[i].pid == run[j].t[i].pid
    ensures run[j].t[i].pid !in run[k].reaped && run[j].t[i].state == ZOMBIE ==> run[k].t[i].state == ZOMBIE
    decreases k
  {
    RunInv(run, k);
    if j < k {
      var n := k - 1;
      KeptUntilReaped(run, j, n, i);
      RunInv(run, n);
      assert Next(run[n], run[n + 1]);
      var c: nat, st: Step :| Enabled(run[n], c, st) && run[k] == Do(run[n], c, st);
      hide Inv, Enabled;
      ReapedGrows(run[n], c, st);
      if run[j].t[i].pid !in run[n].reaped {
        OnlyReaped(run[n], c, st, i);
      }
    }
    NotReaped(run[k], i);
  }

  lemma NotReaped(s: State, i: nat)
    requires Inv(s) && i < |s.t|
    ensures Started(s.t[i]) ==> s.t[i].pid !in s.reaped
  {
  }

  lemma ReapedGrows(s: State, c: nat, st: Step)
    requires Enabled(s, c, st)
    ensures |Do(s, c, st).t| == |s.t| && s.reaped <= Do(s, c, st).reaped
  {
  }

  /** With ptable.lock free, a process is RUNNING exactly when some CPU has it as
      current, and then only one does. */
  lemma RunningIffCurrent(run: seq<State>, k: nat, i: nat)
    requires IsRun(run) && k < |run| && run[k].lock.None? && i < |run[k].t|
    ensures run[k].t[i].state == RUNNING <==> exists c: nat :: Current(run[k], c, i)
    ensures forall c: nat, d: nat :: Current(run[k], c, i) && Current(run[k], d, i) ==> c == d
  {
    RunInv(run, k);
    if c: nat :| Current(run[k], c, i) {
      assert CpuOk(run[k], c);
    }
  }

  /** The stack and page table that wait frees belong to a process that every
      CPU has switched away from; and a process a scheduler switches to, or that
      a CPU runs, still has both. */
  lemma FreedStackUnused(run: seq<State>, k: nat, c: nat, i: nat)
    requires IsRun(run) && k < |run|
    ensures Enabled(run[k], c, WaitReap(i)) ==> forall d: nat :: !Current(run[k], d, i)
    ensures Current(run[k], c, i) ==> i < |run[k].t| && run[k].t[i].kstack && run[k].t[i].pgdir
    ensures Enabled(run[k], c, Pick(i)) ==> run[k].t[i].kstack && run[k].t[i].pgdir
  {
    RunInv(run, k);
    var s := run[k];
    if Enabled(s, c, WaitReap(i)) {
      forall d: nat ensures !Current(s, d, i) {
        if Current(s, d, i) && d != c {
          LockAlone(s, c, d, i);
        }
        assert CpuOk(s, c);
      }
    }
    if Current(s, c, i) {
      assert CpuOk(s, c);
      assert SlotOk(s.t, i, s.init);
    }
    if Enabled(s, c, Pick(i)) {
      assert SlotOk(s.t, i, s.init);
    }
  }
}

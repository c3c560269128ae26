/** kernel/proc.c on any number of CPUs: the process table, and what processes
    and schedulers do to it, step by step.  ptable.lock is explicit, so that the
    moments between taking it, changing a state, switching stacks and letting it
    go are all there. */
module Proc {
  import opened Prelude

  datatype RunState = UNUSED | EMBRYO | SLEEPING | RUNNABLE | RUNNING | ZOMBIE

  /** What a process sleeps on: in wait, its own entry; elsewhere, anything
      else. */
  datatype Chan = Entry(i: nat) | Other(n: nat)

  /** A slot of ptable.proc.  forking is the slot that this process is filling
      in fork. */
  datatype Slot = Slot(state: RunState, pid: nat, parent: Option<nat>, chan: Option<Chan>, killed: bool,
                       kstack: bool, pgdir: bool, forking: Option<nat>)

  // ---------- what the loops over the table compute ----------

  /** wakeup1 */
  function WakeAll(t: seq<Slot>, c: Chan): (r: seq<Slot>)
    ensures |r| == |t|
    ensures forall i: nat :: i < |r| ==> r[i] == WakeOne(t[i], c)
  {
    seq(|t|, i requires 0 <= i < |t| => WakeOne(t[i], c))
  }

  function WakeOne(p: Slot, c: Chan): Slot {
    if p.state == SLEEPING && p.chan == Some(c) then p.(state := RUNNABLE) else p
  }

  /** Whether me has a child that is a zombie. */
  predicate ZombieChild(t: seq<Slot>, me: nat) {
    exists i: nat :: i < |t| && t[i].parent == Some(me) && t[i].state == ZOMBIE
  }

  /** Whether me has a child. */
  predicate HasChild(t: seq<Slot>, me: nat) {
    exists i: nat :: i < |t| && t[i].parent == Some(me)
  }

  /** What exit of me makes of slot i: its children go to init, and whoever now
      has a zombie child is woken. */
  function ExitOne(t: seq<Slot>, me: nat, init: nat, i: nat): Slot
    requires me < |t| && i < |t|
  {
    var p := t[i];
    var woken := p.state == SLEEPING &&
                 ((t[me].parent.Some? && p.chan == Some(Entry(t[me].parent.value)))
                  || (ZombieChild(t, me) && p.chan == Some(Entry(init))));
    p.(parent := if p.parent == Some(me) then Some(init) else p.parent,
       state := if i == me then ZOMBIE else if woken then RUNNABLE else p.state)
  }

  /** exit, from the first wakeup1 to the state ZOMBIE. */
  function Exited(t: seq<Slot>, me: nat, init: nat): (r: seq<Slot>)
    requires me < |t|
    ensures |r| == |t| && forall i: nat :: i < |r| ==> r[i] == ExitOne(t, me, init, i)
  {
    seq(|t|, i requires 0 <= i < |t| => ExitOne(t, me, init, i))
  }

  /** What wait leaves of the zombie in slot i. */
  function Reaped(t: seq<Slot>, i: nat): (r: seq<Slot>)
    requires i < |t|
    ensures |r| == |t|
  {
    t[i := t[i].(state := UNUSED, pid := 0, parent := None, killed := false, kstack := false, pgdir := false)]
  }

  /** What kill does to its victim. */
  function Killed(p: Slot): Slot { p.(killed := true, state := if p.state == SLEEPING then RUNNABLE else p.state) }

  // ---------- CPUs ----------

  datatype Cpu =
    | Searching              // scheduler, without the lock
    | Scheduling             // scheduler, with the lock, proc == 0
    | Resumed(proc: nat)     // just switched to proc, with the lock
    | InProc(proc: nat)      // proc runs, without the lock
    | Locked(proc: nat)      // proc runs, with the lock
    | Leaving(proc: nat)     // proc has changed its state, with the lock, before swtch

  predicate HasProc(c: Cpu) { c.Resumed? || c.InProc? || c.Locked? || c.Leaving? }

  predicate HasLock(c: Cpu) { c.Scheduling? || c.Resumed? || c.Locked? || c.Leaving? }

  /** reaped records the pids that wait has returned. */
  datatype State = State(t: seq<Slot>, cpus: seq<Cpu>, lock: Option<nat>, nextpid: nat, init: nat, reaped: seq<nat>)

  datatype Step =
    | Acquire                // acquire(&ptable.lock), in a process or in the scheduler
    | Release                // release(&ptable.lock)
    | Pick(i: nat)           // scheduler: proc = p; p->state = RUNNING; swtch
    | Switch                 // sched: swtch to the scheduler; proc = 0
    | Yield
    | Sleep(n: nat)          // sleep on a channel other than a process
    | WaitSleep              // wait: children, but no zombie among them
    | WaitReap(i: nat)       // wait: a zombie child
    | Exit
    | Wakeup(n: nat)
    | Kill(i: nat)
    | ForkAlloc(i: nat)      // fork: allocproc finds a slot
    | ForkStack              // fork: kalloc of the stack
    | ForkLink               // fork: copyuvm succeeded, np->parent = proc
    | ForkFail               // fork: kalloc or copyuvm failed
    | ForkDone               // fork: np->state = RUNNABLE

  predicate Enabled(s: State, c: nat, st: Step) {
    c < |s.cpus| && s.init < |s.t| &&
    var cpu := s.cpus[c];
    (HasProc(cpu) ==> cpu.proc < |s.t|) &&
    match st
    case Acquire => s.lock.None? && (cpu.Searching? || cpu.InProc?)
    case Release => cpu.Scheduling? || cpu.Resumed? || cpu.Locked?
    case Pick(i) => cpu.Scheduling? && i < |s.t| && s.t[i].state == RUNNABLE
    case Switch => cpu.Leaving?
    case Yield => cpu.Locked?
    case Sleep(_) => cpu.Locked? && s.t[cpu.proc].forking.None?
    case WaitSleep =>
      cpu.Locked? && s.t[cpu.proc].forking.None? && !s.t[cpu.proc].killed
      && HasChild(s.t, cpu.proc) && !ZombieChild(s.t, cpu.proc)
    case WaitReap(i) =>
      cpu.Locked? && i < |s.t| && s.t[i].parent == Some(cpu.proc) && s.t[i].state == ZOMBIE
    // init must not exit: "init exiting"
    case Exit => cpu.Locked? && s.t[cpu.proc].forking.None? && cpu.proc != s.init
    case Wakeup(_) => cpu.Locked?
    case Kill(i) => cpu.Locked? && i < |s.t|
    case ForkAlloc(i) => cpu.Locked? && s.t[cpu.proc].forking.None? && i < |s.t| && s.t[i].state == UNUSED
    case ForkStack => cpu.InProc? && Filling(s, cpu.proc) && !Child(s, cpu.proc).kstack
    case ForkLink => cpu.InProc? && Filling(s, cpu.proc) && Child(s, cpu.proc).kstack && Child(s, cpu.proc).parent.None?
    case ForkFail => cpu.InProc? && Filling(s, cpu.proc) && Child(s, cpu.proc).parent.None?
    case ForkDone => cpu.InProc? && Filling(s, cpu.proc) && Child(s, cpu.proc).parent.Some?
  }

  predicate Filling(s: State, me: nat)
    requires me < |s.t|
  {
    s.t[me].forking.Some? && s.t[me].forking.value < |s.t|
  }

  function Child(s: State, me: nat): Slot
    requires me < |s.t| && Filling(s, me)
  {
    s.t[s.t[me].forking.value]
  }

  function SetCpu(s: State, c: nat, cpu: Cpu): State
    requires c < |s.cpus|
  {
    s.(cpus := s.cpus[c := cpu])
  }

  /** Steps that take or let go of the lock or switch stacks. */
  function DoSwitch(s: State, c: nat, st: Step): (r: State)
    requires Enabled(s, c, st) && (st.Acquire? || st.Release? || st.Pick? || st.Switch?)
    ensures |r.t| == |s.t| && |r.cpus| == |s.cpus|
  {
    var cpu := s.cpus[c];
    match st
    case Acquire => SetCpu(s, c, if cpu.Searching? then Scheduling else Locked(cpu.proc)).(lock := Some(c))
    case Release =>
      if cpu.Scheduling? then SetCpu(s, c, Searching).(lock := None)
      else
        var me := cpu.proc;
        var chan := if cpu.Resumed? then None else s.t[me].chan;
        SetCpu(s, c, InProc(me)).(lock := None, t := s.t[me := s.t[me].(chan := chan)])
    case Pick(i) => SetCpu(s, c, Resumed(i)).(t := s.t[i := s.t[i].(state := RUNNING)])
    case Switch => SetCpu(s, c, Scheduling)
  }

  /** Steps of a process that holds the lock. */
  function DoLocked(s: State, c: nat, st: Step): (r: State)
    requires Enabled(s, c, st) && s.cpus[c].Locked? && !(st.Acquire? || st.Release? || st.Pick? || st.Switch?)
    ensures |r.t| == |s.t| && |r.cpus| == |s.cpus|
  {
    var me := s.cpus[c].proc;
    var p := s.t[me];
    match st
    case Yield => SetCpu(s, c, Leaving(me)).(t := s.t[me := p.(state := RUNNABLE)])
    case Sleep(n) => SetCpu(s, c, Leaving(me)).(t := s.t[me := p.(state := SLEEPING, chan := Some(Other(n)))])
    case WaitSleep => SetCpu(s, c, Leaving(me)).(t := s.t[me := p.(state := SLEEPING, chan := Some(Entry(me)))])
    case WaitReap(i) => s.(t := Reaped(s.t, i), reaped := s.reaped + [s.t[i].pid])
    case Exit => SetCpu(s, c, Leaving(me)).(t := Exited(s.t, me, s.init))
    case Wakeup(n) => s.(t := WakeAll(s.t, Other(n)))
    case Kill(i) => s.(t := s.t[i := Killed(s.t[i])])
    case ForkAlloc(i) =>
      s.(t := s.t[i := s.t[i].(state := EMBRYO, pid := s.nextpid)][me := p.(forking := Some(i))], nextpid := s.nextpid + 1)
  }

  /** Steps of fork without the lock. */
  function DoFork(s: State, c: nat, st: Step): (r: State)
    requires Enabled(s, c, st) && (st.ForkStack? || st.ForkLink? || st.ForkFail? || st.ForkDone?)
    ensures |r.t| == |s.t| && |r.cpus| == |s.cpus|
  {
    var me := s.cpus[c].proc;
    var i := s.t[me].forking.value;
    var np := s.t[i];
    match st
    case ForkStack => s.(t := s.t[i := np.(kstack := true)])
    case ForkLink => s.(t := s.t[i := np.(pgdir := true, parent := Some(me))])
    case ForkFail => s.(t := s.t[i := np.(state := UNUSED, kstack := false)][me := s.t[me].(forking := None)])
    case ForkDone => s.(t := s.t[i := np.(state := RUNNABLE)][me := s.t[me].(forking := None)])
  }

  function Do(s: State, c: nat, st: Step): (r: State)
    requires Enabled(s, c, st)
    ensures |r.t| == |s.t| && |r.cpus| == |s.cpus|
  {
    if st.Acquire? || st.Release? || st.Pick? || st.Switch? then DoSwitch(s, c, st)
    else if st.ForkStack? || st.ForkLink? || st.ForkFail? || st.ForkDone? then DoFork(s, c, st)
    else DoLocked(s, c, st)
  }

  /** After userinit: init is the only process. */
  ghost predicate Init(s: State) {
    && s.init < |s.t| && s.lock.None? && s.nextpid == 2 && s.reaped == []
    && (forall c: nat :: c < |s.cpus| ==> s.cpus[c].Searching?)
    && (forall i: nat :: i < |s.t| && i != s.init ==> s.t[i] == Slot(UNUSED, 0, None, None, false, false, false, None))
    && s.t[s.init] == Slot(RUNNABLE, 1, None, None, false, true, true, None)
  }
}

/** kernel/pipe.c over sleep and wakeup of kernel/proc.c: any number of
    processes that write, read and close one pipe, step by step, under the two
    locks that the code takes.

    A section under ptable.lock is one step, except in sleep, where the pipe lock
    is dropped before the state changes: there the steps are kept apart. */
module Pipe {
  import opened Prelude

  const PIPESIZE: nat := 512
  const WRAP: nat := 0x1_0000_0000

  datatype Chan = NRead | NWrite

  datatype RunState = RUNNING | RUNNABLE | SLEEPING

  /** Where a process is.  The comments say which locks it holds. */
  datatype Pc =
    | Idle
    | WEnter                // pipewrite: acquire(&p->lock)
    | WLoop                 // pipe: the for loop
    | WFullWake             // pipe: wakeup(&p->nread), buffer full
    | WEndWake              // pipe: wakeup(&p->nread), all written
    | WLeave                // pipe: release(&p->lock)
    | REnter                // piperead: acquire(&p->lock)
    | RWait                 // pipe: the while loop
    | RCopy                 // pipe: the for loop
    | RWake                 // pipe: wakeup(&p->nwrite)
    | RLeave                // pipe: release(&p->lock)
    | SleepLock(c: Chan)    // pipe: sleep, acquire(&ptable.lock)
    | SleepDrop(c: Chan)    // pipe, ptable: release(lk)
    | SleepMark(c: Chan)    // ptable: the state becomes SLEEPING
    | Asleep(c: Chan)       // off the CPU
    | CEnter(writable: bool) // pipeclose: acquire(&p->lock)
    | CWake(writable: bool)  // pipe: the wakeup
    | CLeave                // pipe: release(&p->lock)

  /** src and i are the arguments and index of pipewrite; n is the argument of
      piperead and got what it has copied. */
  datatype Proc = Proc(pc: Pc, state: RunState, chan: Option<Chan>, killed: bool,
                       src: seq<byte>, i: nat, n: nat, got: seq<byte>)

  /** The buffer.  written and taken record every byte ever put into it and
      taken out of it. */
  datatype Ring = Ring(data: seq<byte>, nread: nat, nwrite: nat, written: seq<byte>, taken: seq<byte>) {
    /** p->nwrite == p->nread + PIPESIZE, on 32-bit unsigned integers */
    predicate Full() { nwrite == (nread + PIPESIZE) % WRAP }

    predicate Empty() { nread == nwrite }

    /** p->data[p->nwrite++ % PIPESIZE] = b */
    function Put(b: byte): Ring
      requires |data| == PIPESIZE
    {
      Ring(data[nwrite % PIPESIZE := b], nread, (nwrite + 1) % WRAP, written + [b], taken)
    }

    /** p->data[p->nread % PIPESIZE] */
    function Front(): byte
      requires |data| == PIPESIZE
    {
      data[nread % PIPESIZE]
    }

    /** p->nread++ */
    function Take(): Ring
      requires |data| == PIPESIZE
    {
      Ring(data, (nread + 1) % WRAP, nwrite, written, taken + [Front()])
    }

    /** The ring holds exactly the bytes written and not yet taken, in order,
        although the counters wrap around. */
    ghost predicate Fifo() {
      && |data| == PIPESIZE
      && |taken| <= |written| <= |taken| + PIPESIZE
      && taken == written[..|taken|]
      && nwrite == |written| % WRAP && nread == |taken| % WRAP
      && forall k: nat :: |taken| <= k < |written| ==> data[k % PIPESIZE] == written[k]
    }
  }

  /** abandoned records that a killed writer has left a full buffer without waking
      the readers, and that they have neither been woken nor emptied it since. */
  datatype State = State(pipeLock: Option<nat>, ptLock: Option<nat>, procs: seq<Proc>, ring: Ring,
                         readopen: bool, writeopen: bool, abandoned: bool)

  predicate HoldsPipe(pc: Pc) {
    pc.WLoop? || pc.WFullWake? || pc.WEndWake? || pc.WLeave? || pc.RWait? || pc.RCopy? || pc.RWake? || pc.RLeave?
    || pc.SleepLock? || pc.SleepDrop? || pc.CWake? || pc.CLeave?
  }

  predicate HoldsPt(pc: Pc) { pc.SleepDrop? || pc.SleepMark? }

  predicate Sleeper(pc: Pc) { pc.SleepLock? || pc.SleepDrop? || pc.SleepMark? || pc.Asleep? }

  predicate InWrite(pc: Pc) {
    pc.WEnter? || pc.WLoop? || pc.WFullWake? || pc.WEndWake? || pc.WLeave? || (Sleeper(pc) && pc.c == NWrite)
  }

  predicate InRead(pc: Pc) {
    pc.REnter? || pc.RWait? || pc.RCopy? || pc.RWake? || pc.RLeave? || (Sleeper(pc) && pc.c == NRead)
  }

  // ---------- steps ----------

  /** wakeup1 */
  function WakeAll(procs: seq<Proc>, c: Chan): (r: seq<Proc>)
    ensures |r| == |procs|
    ensures forall p: nat :: p < |r| ==>
              r[p] == if procs[p].state == SLEEPING && procs[p].chan == Some(c) then procs[p].(state := RUNNABLE) else procs[p]
  {
    seq(|procs|, p requires 0 <= p < |procs| =>
      if procs[p].state == SLEEPING && procs[p].chan == Some(c) then procs[p].(state := RUNNABLE) else procs[p])
  }

  datatype Step =
    | StartWrite(src: seq<byte>) // a process calls pipewrite
    | StartRead(n: nat)          // a process calls piperead
    | StartClose(writable: bool) // a process calls pipeclose
    | Advance                    // the process does what its pc says
    | Dispatch                   // the scheduler resumes a process
    | Kill                       // some process kills it

  predicate Enabled(s: State, p: nat, st: Step) {
    p < |s.procs| &&
    var pr := s.procs[p];
    match st
    case StartWrite(_) => pr.pc.Idle? && s.writeopen
    case StartRead(_) => pr.pc.Idle? && s.readopen
    case StartClose(w) => pr.pc.Idle?
    case Kill => s.ptLock.None?
    case Dispatch => pr.pc.Asleep? && pr.state == RUNNABLE && s.ptLock.None?
    case Advance =>
      match pr.pc
      case Idle => false
      case Asleep(_) => false
      case WEnter => s.pipeLock.None?
      case REnter => s.pipeLock.None?
      // the last descriptor of an end is closed only when no call uses that end
      case CEnter(w) =>
        s.pipeLock.None? &&
        if w then s.writeopen && forall q: nat :: q < |s.procs| ==> !InWrite(s.procs[q].pc)
        else s.readopen && forall q: nat :: q < |s.procs| ==> !InRead(s.procs[q].pc)
      case WFullWake => s.ptLock.None?
      case WEndWake => s.ptLock.None?
      case RWake => s.ptLock.None?
      case CWake(_) => s.ptLock.None?
      case SleepLock(_) => s.ptLock.None?
      case _ => true
  }

  function SetPc(s: State, p: nat, pc: Pc): State
    requires p < |s.procs|
  {
    s.(procs := s.procs[p := s.procs[p].(pc := pc)])
  }

  function Woken(s: State, c: Chan): State { s.(procs := WakeAll(s.procs, c)) }

  /** Process p is a writer with bytes left that finds the buffer full and the read
      end open, and is killed. */
  predicate Deserts(s: State, p: nat) {
    && p < |s.procs| && s.procs[p].pc.WLoop? && s.procs[p].killed
    && s.procs[p].i < |s.procs[p].src| && s.ring.Full() && s.readopen
  }

  /** One turn of the loop of pipewrite. */
  function WriteTurn(s: State, p: nat): (r: State)
    requires p < |s.procs| && |s.ring.data| == PIPESIZE
    ensures |r.procs| == |s.procs|
    ensures r.ring == s.ring || (!s.ring.Full() && exists b: byte :: r.ring == s.ring.Put(b))
    ensures r.abandoned ==> s.abandoned || (s.procs[p].pc.WLoop? ==> Deserts(s, p))
  {
    var pr := s.procs[p];
    if pr.i >= |pr.src| then SetPc(s, p, WEndWake)
    else if s.ring.Full() then
      if !s.readopen then SetPc(s, p, WLeave)
      else if pr.killed then SetPc(s, p, WLeave).(abandoned := true)
      else SetPc(s, p, WFullWake)
    else
      s.(ring := s.ring.Put(pr.src[pr.i]), procs := s.procs[p := pr.(i := pr.i + 1)])
  }

  /** One turn of the copying loop of piperead. */
  function ReadTurn(s: State, p: nat): (r: State)
    requires p < |s.procs| && |s.ring.data| == PIPESIZE
    ensures |r.procs| == |s.procs| && (r.abandoned ==> s.abandoned)
    ensures r.ring == s.ring || (!s.ring.Empty() && r.ring == s.ring.Take())
  {
    var pr := s.procs[p];
    if |pr.got| >= pr.n || s.ring.Empty() then SetPc(s, p, RWake)
    else
      s.(ring := s.ring.Take(), procs := s.procs[p := pr.(got := pr.got + [s.ring.Front()])],
         abandoned := s.abandoned && !s.ring.Take().Empty())
  }

  /** The next step of pipewrite. */
  function AdvanceWrite(s: State, p: nat): (r: State)
    requires p < |s.procs| && |s.ring.data| == PIPESIZE && InWrite(s.procs[p].pc) && !Sleeper(s.procs[p].pc)
    ensures |r.procs| == |s.procs|
    ensures r.ring == s.ring || (!s.ring.Full() && exists b: byte :: r.ring == s.ring.Put(b))
    ensures r.abandoned ==> s.abandoned || Deserts(s, p)
  {
    match s.procs[p].pc
    case WEnter => SetPc(s, p, WLoop).(pipeLock := Some(p))
    case WLoop => WriteTurn(s, p)
    case WFullWake => SetPc(Woken(s, NRead), p, SleepLock(NWrite)).(abandoned := false)
    case WEndWake => SetPc(Woken(s, NRead), p, WLeave).(abandoned := false)
    case WLeave => SetPc(s, p, Idle).(pipeLock := None)
  }

  /** The next step of piperead. */
  function AdvanceRead(s: State, p: nat): (r: State)
    requires p < |s.procs| && |s.ring.data| == PIPESIZE && InRead(s.procs[p].pc) && !Sleeper(s.procs[p].pc)
    ensures |r.procs| == |s.procs| && (r.abandoned ==> s.abandoned)
    ensures r.ring == s.ring || (!s.ring.Empty() && r.ring == s.ring.Take())
  {
    var pr := s.procs[p];
    match pr.pc
    case REnter => SetPc(s, p, RWait).(pipeLock := Some(p))
    case RWait =>
      if s.ring.Empty() && s.writeopen then
        if pr.killed then SetPc(s, p, RLeave) else SetPc(s, p, SleepLock(NRead))
      else s.(procs := s.procs[p := pr.(pc := RCopy, got := [])])
    case RCopy => ReadTurn(s, p)
    case RWake => SetPc(Woken(s, NWrite), p, RLeave)
    case RLeave => SetPc(s, p, Idle).(pipeLock := None)
  }

  /** The next step of sleep. */
  function AdvanceSleep(s: State, p: nat): (r: State)
    requires p < |s.procs| && Sleeper(s.procs[p].pc)
    ensures |r.procs| == |s.procs| && r.ring == s.ring && r.abandoned == s.abandoned
  {
    var pr := s.procs[p];
    match pr.pc
    case SleepLock(c) => SetPc(s, p, SleepDrop(c)).(ptLock := Some(p))
    case SleepDrop(c) => SetPc(s, p, SleepMark(c)).(pipeLock := None)
    case SleepMark(c) => s.(procs := s.procs[p := pr.(pc := Asleep(c), state := SLEEPING, chan := Some(c))], ptLock := None)
    case Asleep(_) => s
  }

  /** The next step of pipeclose. */
  function AdvanceClose(s: State, p: nat): (r: State)
    requires p < |s.procs| && var pc := s.procs[p].pc; pc.CEnter? || pc.CWake? || pc.CLeave?
    ensures |r.procs| == |s.procs| && r.ring == s.ring && (r.abandoned ==> s.abandoned)
  {
    match s.procs[p].pc
    case CEnter(w) =>
      var s1 := SetPc(s, p, CWake(w)).(pipeLock := Some(p));
      if w then s1.(writeopen := false) else s1.(readopen := false)
    case CWake(w) =>
      SetPc(Woken(s, if w then NRead else NWrite), p, CLeave).(abandoned := s.abandoned && !w)
    case CLeave => SetPc(s, p, Idle).(pipeLock := None)
  }

  function Do(s: State, p: nat, st: Step): (r: State)
    requires Enabled(s, p, st) && |s.ring.data| == PIPESIZE
    ensures |r.procs| == |s.procs|
    ensures || r.ring == s.ring
            || (!s.ring.Full() && exists b: byte :: r.ring == s.ring.Put(b))
            || (!s.ring.Empty() && r.ring == s.ring.Take())
    ensures r.abandoned ==> s.abandoned || Deserts(s, p)
  {
    var pr := s.procs[p];
    match st
    case StartWrite(src) => s.(procs := s.procs[p := pr.(pc := WEnter, src := src, i := 0)])
    case StartRead(n) => s.(procs := s.procs[p := pr.(pc := REnter, n := n, got := [])])
    case StartClose(w) => SetPc(s, p, CEnter(w))
    case Kill =>
      s.(procs := s.procs[p := pr.(killed := true, state := if pr.state == SLEEPING then RUNNABLE else pr.state)])
    case Dispatch =>
      s.(procs := s.procs[p := pr.(pc := if pr.pc.c == NWrite then WEnter else REnter, state := RUNNING, chan := None)])
    case Advance =>
      if pr.pc.Idle? then s
      else if Sleeper(pr.pc) then AdvanceSleep(s, p)
      else if InWrite(pr.pc) then AdvanceWrite(s, p)
      else if InRead(pr.pc) then AdvanceRead(s, p)
      else AdvanceClose(s, p)
  }

  /** pipealloc, with every process elsewhere. */
  ghost predicate Init(s: State) {
    && s.pipeLock.None? && s.ptLock.None? && s.readopen && s.writeopen && !s.abandoned
    && |s.ring.data| == PIPESIZE && s.ring.nread == 0 && s.ring.nwrite == 0 && s.ring.written == [] && s.ring.taken == []
    && forall p: nat :: p < |s.procs| ==>
         s.procs[p].pc.Idle? && s.procs[p].state == RUNNING && s.procs[p].chan.None?
  }

  // ---------- the invariant ----------

  ghost predicate LockOk(s: State, p: nat)
    requires p < |s.procs|
  {
    && (HoldsPipe(s.procs[p].pc) <==> s.pipeLock == Some(p))
    && (HoldsPt(s.procs[p].pc) <==> s.ptLock == Some(p))
  }

  predicate StateOk(pr: Proc) {
    if pr.pc.Asleep? then pr.state != RUNNING && pr.chan == Some(pr.pc.c) else pr.state == RUNNING && pr.chan.None?
  }

  /** A process that has decided to sleep and is past dropping the pipe lock. */
  predicate Waits(pr: Proc, c: Chan) {
    pr.pc == SleepMark(c) || (pr.pc == Asleep(c) && pr.state == SLEEPING)
  }

  /** The holder of the pipe lock will call wakeup(c) before it lets go. */
  ghost predicate Owes(s: State, c: Chan) {
    s.pipeLock.Some? && s.pipeLock.value < |s.procs| &&
    var pc := s.procs[s.pipeLock.value].pc;
    if c == NWrite then pc.RCopy? || pc.RWake? || pc == CWake(false)
    else pc.WLoop? || pc.WFullWake? || pc.WEndWake? || pc == CWake(true)
  }

  /** What a process may sleep for. */
  ghost predicate Reason(s: State, c: Chan) {
    if c == NWrite then s.ring.Full() && s.readopen else s.ring.Empty() && s.writeopen
  }

  ghost predicate WaitOk(s: State, pr: Proc) {
    && (pr.pc.SleepLock? || pr.pc.SleepDrop? ==> Reason(s, pr.pc.c))
    && (pr.pc.WFullWake? ==> Reason(s, NWrite))
    && (Waits(pr, NWrite) ==> Reason(s, NWrite) || Owes(s, NWrite))
    && (Waits(pr, NRead) ==> Reason(s, NRead) || Owes(s, NRead) || (s.abandoned && s.writeopen))
  }

  /** What the bytes a reader has copied are. */
  ghost predicate CopyOk(s: State, pr: Proc) {
    && (pr.pc.RCopy? || pr.pc.RWake? ==>
          |pr.got| <= pr.n && |pr.got| <= |s.ring.taken| && pr.got == s.ring.taken[|s.ring.taken| - |pr.got|..]
          && (pr.got == [] ==> !(s.ring.Empty() && s.writeopen)))
    && (pr.pc.RWake? && |pr.got| < pr.n ==> s.ring.Empty() && (pr.got == [] ==> !s.writeopen))
  }

  ghost predicate EnvOk(s: State, pr: Proc) {
    (!s.writeopen ==> !InWrite(pr.pc)) && (!s.readopen ==> !InRead(pr.pc))
  }

  ghost predicate ProcOk(s: State, p: nat)
    requires p < |s.procs|
  {
    var pr := s.procs[p];
    LockOk(s, p) && StateOk(pr) && WaitOk(s, pr) && CopyOk(s, pr) && EnvOk(s, pr)
  }

  ghost predicate Inv(s: State) {
    && s.ring.Fifo() && (s.abandoned ==> !s.ring.Empty())
    && forall p: nat :: p < |s.procs| ==> ProcOk(s, p)
  }
}

/** What the system calls on descriptors do, from their first step to their last,
    with any steps of other processes between. */
module FileTableCalls {
  import opened Prelude
  import opened FileTable
  import opened FileTableProof

  type Table = seq<Option<nat>>

  datatype Call = CallDup(fd: nat) | CallClose(fd: nat) | CallOpen | CallPipe | CallFork(child: nat)

  /** The call that a step begins. */
  function CallOf(st: Step): Option<Call> {
    match st
    case SysDup(fd, _) => Some(CallDup(fd))
    case SysClose(fd) => Some(CallClose(fd))
    case OpenAlloc(_) => Some(CallOpen)
    case PipeAlloc(_) => Some(CallPipe)
    case Fork(c) => Some(CallFork(c))
    case _ => None
  }

  /** t is old with f in its lowest empty slot. */
  ghost predicate Gets(was: Table, t: Table, f: nat) {
    exists fd: nat :: FirstFree(was, fd) && t == was[fd := Some(f)]
  }

  /** A process in the middle of a call that it began with table was. */
  ghost predicate During(was: Table, call: Call, pr: Proc) {
    match call
    case CallDup(fd) =>
      fd < |was| && was[fd].Some? && pr.act == Dup(was[fd].value) && Gets(was, pr.ofile, was[fd].value)
    case CallClose(fd) =>
      && fd < |was| && was[fd].Some? && pr.ofile == was[fd := None]
      && (pr.act == Closing([was[fd].value]) || pr.act == Closing([]) || (pr.act.PipeClosing? && pr.act.fs == []))
    case CallOpen =>
      || (pr.act.Open1? && pr.ofile == was)
      || (pr.act.Open2? && Gets(was, pr.ofile, pr.act.f))
      || ((pr.act.Closing? || pr.act.PipeClosing?) && pr.ofile == was)
    case CallPipe =>
      || ((pr.act.Pipe1? || pr.act.Pipe2? || pr.act.Pipe3?) && pr.ofile == was)
      || (pr.act.Pipe4? && FirstFree(was, pr.act.fd) && pr.ofile == was[pr.act.fd := Some(pr.act.f)])
      || ((pr.act.Closing? || pr.act.PipeClosing?) && pr.ofile == was)
    case CallFork(c) => pr.act.Forking? && pr.act.child == c && pr.ofile == was
  }

  /** Process p, back from the call in state s: dup and open fill the lowest empty
      slot, close empties its slot, pipe fills two slots with the two ends of a pipe,
      fork gives the child the same table; what fails leaves the table alone. */
  ghost predicate Done(was: Table, call: Call, s: State, p: nat)
    requires p < |s.procs|
  {
    var t := s.procs[p].ofile;
    match call
    case CallDup(fd) => fd < |was| && was[fd].Some? && Gets(was, t, was[fd].value)
    case CallClose(fd) => fd < |was| && t == was[fd := None]
    case CallOpen => t == was || exists f: nat :: f < |s.files| && s.files[f].kind == InodeFile && Gets(was, t, f)
    case CallPipe => t == was || exists t1: Table, f: nat, g: nat :: IsPair(s.files, f, g) && Gets(was, t1, f) && Gets(t1, t, g)
    case CallFork(c) => t == was && c < |s.procs| && s.procs[c].ofile == was && s.procs[c].act.Idle?
  }

  predicate Active(pr: Proc) { !pr.act.Unused? && !pr.act.Embryo? }

  /** Nobody changes the table of a process, or where it is, but the process itself. */
  lemma OthersLeave(s: State, q: nat, st: Step, p: nat)
    requires Inv(s) && Enabled(s, q, st) && p < |s.procs| && p != q && Active(s.procs[p])
    ensures |Do(s, q, st).procs| == |s.procs| && Do(s, q, st).procs[p] == s.procs[p]
  {
    assert ProcOk(s, q);
  }

  lemma BeginsDuring(s: State, p: nat, st: Step)
    requires Inv(s) && Enabled(s, p, st) && s.procs[p].act.Idle? && CallOf(st).Some?
    ensures During(s.procs[p].ofile, CallOf(st).value, Do(s, p, st).procs[p])
  {
  }

  /** p's own next step: the call goes on, or it is done. */
  ghost predicate GoesOn(was: Table, call: Call, s: State, p: nat)
    requires p < |s.procs|
  {
    if s.procs[p].act.Idle? then Done(was, call, s, p) else During(was, call, s.procs[p])
  }

  lemma DupGoesOn(was: Table, fd: nat, s: State, p: nat, st: Step)
    requires Inv(s) && Enabled(s, p, st) && During(was, CallDup(fd), s.procs[p])
    ensures GoesOn(was, CallDup(fd), Do(s, p, st), p)
  {
  }

  lemma CloseGoesOn(was: Table, fd: nat, s: State, p: nat, st: Step)
    requires Inv(s) && Enabled(s, p, st) && During(was, CallClose(fd), s.procs[p])
    ensures GoesOn(was, CallClose(fd), Do(s, p, st), p)
  {
  }

  lemma OpenGoesOn(was: Table, s: State, p: nat, st: Step)
    requires Inv(s) && Enabled(s, p, st) && During(was, CallOpen, s.procs[p])
    ensures GoesOn(was, CallOpen, Do(s, p, st), p)
  {
    assert ProcOk(s, p);
    var pr := s.procs[p];
    if st.OpenSlot? {
      assert FirstFree(was, st.fd) && Do(s, p, st).procs[p].ofile == was[st.fd := Some(pr.act.f)];
    }
    if st.OpenType? {
      var s' := Do(s, p, st);
      assert pr.act.f < |s'.files| && s'.files[pr.act.f].kind == InodeFile && Gets(was, s'.procs[p].ofile, pr.act.f);
    }
  }

  lemma PipeGoesOn(was: Table, s: State, p: nat, st: Step)
    requires Inv(s) && Enabled(s, p, st) && During(was, CallPipe, s.procs[p])
    ensures GoesOn(was, CallPipe, Do(s, p, st), p)
  {
    assert ProcOk(s, p);
    var pr, s' := s.procs[p], Do(s, p, st);
    if st.PipeSlot? && pr.act.Pipe4? {
      var t1 := was[pr.act.fd := Some(pr.act.f)];
      assert FirstFree(was, pr.act.fd) && FirstFree(t1, st.fd) && s'.procs[p].ofile == t1[st.fd := Some(pr.act.g)];
      assert IsPair(s'.files, pr.act.f, pr.act.g) && Gets(was, t1, pr.act.f) && Gets(t1, s'.procs[p].ofile, pr.act.g);
    }
    if st.GiveUp? && pr.act.Pipe4? {
      assert pr.ofile[pr.act.fd := None] == was;
    }
  }

  lemma ForkGoesOn(was: Table, c: nat, s: State, p: nat, st: Step)
    requires Inv(s) && Enabled(s, p, st) && During(was, CallFork(c), s.procs[p])
    ensures GoesOn(was, CallFork(c), Do(s, p, st), p)
  {
    assert ProcOk(s, p) && ProcOk(s, c);
    if s.procs[p].act.i >= |was| {
      assert s.procs[c].ofile == was;
    }
  }

  lemma OwnGoesOn(was: Table, call: Call, s: State, p: nat, st: Step)
    requires Inv(s) && Enabled(s, p, st) && During(was, call, s.procs[p])
    ensures |Do(s, p, st).procs| == |s.procs| && GoesOn(was, call, Do(s, p, st), p)
  {
    match call
    case CallDup(fd) => DupGoesOn(was, fd, s, p, st);
    case CallClose(fd) => CloseGoesOn(was, fd, s, p, st);
    case CallOpen => OpenGoesOn(was, s, p, st);
    case CallPipe => PipeGoesOn(was, s, p, st);
    case CallFork(c) => ForkGoesOn(was, c, s, p, st);
  }

  /** A run in which p stays inside its call until the last step, which is p's. */
  ghost predicate CallRun(s: State, steps: seq<(nat, Step)>, s': State, p: nat)
    decreases |steps|
  {
    steps != [] && Enabled(s, steps[0].0, steps[0].1) &&
    var s1 := Do(s, steps[0].0, steps[0].1);
    p < |s1.procs| &&
    if |steps| == 1 then steps[0].0 == p && s' == s1 && s1.procs[p].act.Idle?
    else !s1.procs[p].act.Idle? && CallRun(s1, steps[1..], s', p)
  }

  lemma DuringActive(was: Table, call: Call, pr: Proc)
    requires During(was, call, pr)
    ensures Active(pr) && !pr.act.Idle?
  {
  }

  lemma {:induction false} RestOfCall(was: Table, call: Call, s: State, steps: seq<(nat, Step)>, s': State, p: nat)
    requires Inv(s) && p < |s.procs| && During(was, call, s.procs[p]) && CallRun(s, steps, s', p)
    ensures p < |s'.procs| && Done(was, call, s', p)
    decreases |steps|
  {
    var q, st := steps[0].0, steps[0].1;
    DuringActive(was, call, s.procs[p]);
    StepKeepsInv(s, q, st);
    if q == p {
      OwnGoesOn(was, call, s, p, st);
    } else {
      OthersLeave(s, q, st, p);
    }
    hide Do, Inv, Enabled, During, Done;
    if |steps| > 1 {
      RestOfCall(was, call, Do(s, q, st), steps[1..], s', p);
    }
  }

  /** In every run, a call that process p makes, from its first step to its return,
      does to p's table what the call says and no more, whatever the others do
      meanwhile. */
  lemma WholeCall(s0: State, before: seq<(nat, Step)>, s: State, steps: seq<(nat, Step)>, s': State, p: nat, st: Step)
    requires Init(s0) && Run(s0, before, s) && Enabled(s, p, st) && s.procs[p].act.Idle? && CallOf(st).Some?
    requires CallRun(Do(s, p, st), steps, s', p)
    ensures p < |s'.procs| && Done(s.procs[p].ofile, CallOf(st).value, s', p)
  {
    InitInv(s0);
    RunInv(s0, before, s);
    BeginsDuring(s, p, st);
    StepKeepsInv(s, p, st);
    RestOfCall(s.procs[p].ofile, CallOf(st).value, Do(s, p, st), steps, s', p);
  }

  // ---------- what a descriptor stands for ----------

  /** A file that open or pipe takes is in no table. */
  lemma AllocatedIsNew(s: State, f: nat, q: nat, k: nat)
    requires Inv(s) && FirstUnused(s.files, f) && q < |s.procs| && k < |s.procs[q].ofile|
    ensures s.procs[q].ofile[k] != Some(f)
  {
    if s.procs[q].ofile[k] == Some(f) {
      NamedCounts(s, q, k, f);
    }
  }

  lemma NamedCounts(s: State, q: nat, k: nat, f: nat)
    requires Inv(s) && q < |s.procs| && k < |s.procs[q].ofile| && s.procs[q].ofile[k] == Some(f)
    ensures f < |s.files| && Has(s.procs[q], f) >= 1 && s.files[f].ref >= 1
  {
    assert ProcOk(s, q);
    SlotCounts(s.procs[q].ofile, k);
    Referenced(s, q, f);
  }

  /** While a descriptor names a file, the file stays what it is, whoever closes and
      opens others. */
  lemma MeaningKept(s: State, q: nat, st: Step, p: nat, k: nat, f: nat)
    requires Inv(s) && Enabled(s, q, st) && p < |s.procs| && k < |s.procs[p].ofile| && s.procs[p].ofile[k] == Some(f)
    requires f < |s.files| && !s.files[f].kind.NoFile?
    requires var s' := Do(s, q, st); p < |s'.procs| && k < |s'.procs[p].ofile| && s'.procs[p].ofile[k] == Some(f)
    ensures f < |Do(s, q, st).files| && Do(s, q, st).files[f].kind == s.files[f].kind
  {
    NamedCounts(s, p, k, f);
    assert ProcOk(s, q);
    if st.FileClose? && s.procs[q].act.fs[0] == f {
      ClosedElsewhere(s, q, p, k, f);
    }
  }

  lemma ClosedElsewhere(s: State, q: nat, p: nat, k: nat, f: nat)
    requires Inv(s) && Enabled(s, q, FileClose) && s.procs[q].act.fs[0] == f && f < |s.files|
    requires p < |s.procs| && k < |s.procs[p].ofile| && s.procs[p].ofile[k] == Some(f)
    ensures s.files[f].ref > 1
  {
    NamedCounts(s, p, k, f);
    forall r: nat | r < |s.procs| ensures Has(s.procs[r], f) >= 0 { HasIsNat(s, r, f); }
    assert Has(s.procs[q], f) >= 1 + multiset(s.procs[q].ofile)[Some(f)];
    if p == q {
      SlotCounts(s.procs[p].ofile, k);
      TotalAtLeast(s.procs, p, f);
    } else if p < q {
      TotalAtLeastBoth(s.procs, p, q, f);
    } else {
      TotalAtLeastBoth(s.procs, q, p, f);
    }
  }

  // ---------- calls come to an end ----------

  /** A bound on the steps that a process still has to make in its call. */
  function Left(pr: Proc): nat {
    match pr.act
    case Dup(_) => 1
    case Open1(_) => 5
    case Open2(_) => 1
    case Pipe1(_) => 11
    case Pipe2(_, _) => 10
    case Pipe3(_, _) => 9
    case Pipe4(_, _, _) => 8
    case Forking(_, i) => 1 + if i < |pr.ofile| then |pr.ofile| - i else 0
    case Closing(fs) => 3 * |fs| + 1
    case PipeClosing(_, _, fs) => 3 * |fs| + 2
    case _ => 0
  }

  /** Every step that a process makes in a call brings it nearer to the return; it never
      runs out of steps before (FileTableProof.NeverStuck). */
  lemma CallEnds(s: State, p: nat, st: Step)
    requires Inv(s) && Enabled(s, p, st) && !s.procs[p].act.Idle?
    ensures Left(Do(s, p, st).procs[p]) < Left(s.procs[p])
    ensures Left(Do(s, p, st).procs[p]) == 0 <==> Do(s, p, st).procs[p].act.Idle?
  {
    assert ProcOk(s, p);
  }

  /** open and pipe fail when there is no slot or no file for them, and only then; and
      pipe whenever there is no page. */
  lemma FailsIff(s: State, p: nat)
    requires Inv(s) && p < |s.procs|
    ensures s.procs[p].act.Open1? ==> (Enabled(s, p, GiveUp) <==> forall fd: nat :: !Enabled(s, p, OpenSlot(fd)))
    ensures s.procs[p].act.Pipe1? ==> (Enabled(s, p, GiveUp) <==> forall f: nat :: !Enabled(s, p, PipeAlloc(f)))
    ensures s.procs[p].act.Pipe2? ==> Enabled(s, p, GiveUp) && Enabled(s, p, PipeMake)
    ensures s.procs[p].act.Pipe3? || s.procs[p].act.Pipe4? ==>
              (Enabled(s, p, GiveUp) <==> forall fd: nat :: !Enabled(s, p, PipeSlot(fd)))
  {
    assert ProcOk(s, p);
    var pr := s.procs[p];
    if pr.act.Open1? || pr.act.Pipe3? || pr.act.Pipe4? {
      var fd := SomeFirstFree(pr.ofile, 0);
      assert pr.act.Open1? ==> (Enabled(s, p, OpenSlot(fd)) <==> FirstFree(pr.ofile, fd));
      assert !pr.act.Open1? ==> (Enabled(s, p, PipeSlot(fd)) <==> FirstFree(pr.ofile, fd));
    } else if pr.act.Pipe1? {
      var f := SomeFirstUnused(s.files, 0);
      assert Enabled(s, p, PipeAlloc(f)) <==> FirstUnused(s.files, f);
    }
  }

  /** A process that has closed everything and exits leaves its slot to another, and a
      child begins with nothing open. */
  lemma ExitAndFork(s: State, p: nat)
    requires Inv(s)
    ensures Enabled(s, p, ExitDone) ==>
              Do(s, p, ExitDone).procs[p].act.Unused? && EmptyFrom(Do(s, p, ExitDone).procs[p].ofile, 0)
    ensures forall c: nat :: Enabled(s, p, Fork(c)) ==>
              c != p && Do(s, p, Fork(c)).procs[c].act.Embryo? && EmptyFrom(Do(s, p, Fork(c)).procs[c].ofile, 0)
              && Do(s, p, Fork(c)).procs[p].act == Forking(c, 0)
  {
    forall c: nat | Enabled(s, p, Fork(c)) ensures EmptyFrom(s.procs[c].ofile, 0) {
      assert ProcOk(s, c);
    }
  }
}

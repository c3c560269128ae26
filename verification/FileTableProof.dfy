/** Reference counts are exact, and pipe pages are freed exactly once. */
module FileTableProof {
  import opened Prelude
  import opened FileTable

  // ---------- Counting references ----------

  /** The references to file f that process pr has: its slots that name f, and
      what the system call it is in holds or still owes. */
  ghost function Has(pr: Proc, f: nat): int {
    multiset(pr.ofile)[Some(f)] + InFlight(pr.act, f)
  }

  function One(b: bool): int { if b then 1 else 0 }

  ghost function InFlight(act: Act, f: nat): int {
    match act
    case Dup(g) => -One(f == g)
    case Open1(g) => One(f == g)
    case Pipe1(g) => One(f == g)
    case Pipe2(g, h) => One(f == g) + One(f == h)
    case Pipe3(g, h) => One(f == g) + One(f == h)
    case Pipe4(_, h, _) => One(f == h)
    case Closing(fs) => multiset(fs)[f]
    case PipeClosing(_, _, fs) => multiset(fs)[f]
    case _ => 0
  }

  ghost function Total(procs: seq<Proc>, f: nat): int {
    if procs == [] then 0 else Has(procs[0], f) + Total(procs[1..], f)
  }

  /** A file a process has allocated and not yet given a type. */
  predicate Private(act: Act, f: nat) {
    match act
    case Open1(g) => f == g
    case Open2(g) => f == g
    case Pipe1(g) => f == g
    case Pipe2(g, h) => f == g || f == h
    case _ => false
  }

  lemma {:induction false} TotalUpdate(procs: seq<Proc>, p: nat, pr: Proc, f: nat)
    requires p < |procs|
    ensures Total(procs[p := pr], f) == Total(procs, f) - Has(procs[p], f) + Has(pr, f)
  {
    if p == 0 {
      assert procs[p := pr][1..] == procs[1..];
    } else {
      assert procs[p := pr][1..] == procs[1..][p - 1 := pr];
      TotalUpdate(procs[1..], p - 1, pr, f);
    }
  }

  lemma {:induction false} TotalIsNat(procs: seq<Proc>, f: nat)
    requires forall q: nat :: q < |procs| ==> Has(procs[q], f) >= 0
    ensures Total(procs, f) >= 0
  {
    if procs != [] {
      assert forall q: nat :: q < |procs| - 1 ==> procs[1..][q] == procs[q + 1];
      TotalIsNat(procs[1..], f);
    }
  }

  lemma {:induction false} TotalAtLeast(procs: seq<Proc>, p: nat, f: nat)
    requires forall q: nat :: q < |procs| ==> Has(procs[q], f) >= 0
    requires p < |procs|
    ensures Total(procs, f) >= Has(procs[p], f)
  {
    assert forall q: nat :: q < |procs| - 1 ==> procs[1..][q] == procs[q + 1];
    if p == 0 {
      TotalIsNat(procs[1..], f);
    } else {
      TotalAtLeast(procs[1..], p - 1, f);
    }
  }

  lemma {:induction false} TotalAtLeastBoth(procs: seq<Proc>, p: nat, q: nat, f: nat)
    requires forall q: nat :: q < |procs| ==> Has(procs[q], f) >= 0
    requires p < q < |procs|
    ensures Total(procs, f) >= Has(procs[p], f) + Has(procs[q], f)
  {
    assert forall q: nat :: q < |procs| - 1 ==> procs[1..][q] == procs[q + 1];
    if p == 0 {
      TotalAtLeast(procs[1..], q - 1, f);
    } else {
      TotalAtLeastBoth(procs[1..], p - 1, q - 1, f);
    }
  }

  // ---------- The invariant ----------

  ghost predicate SlotsOk(ofile: seq<Option<nat>>, n: nat) {
    forall k: nat :: k < |ofile| && ofile[k].Some? ==> ofile[k].value < n
  }

  /** Slots from i on are empty. */
  ghost predicate EmptyFrom(ofile: seq<Option<nat>>, i: nat) {
    forall k: nat :: i <= k < |ofile| ==> ofile[k].None?
  }

  ghost predicate ActOk(pr: Proc, n: nat) {
    match pr.act
    case Unused => EmptyFrom(pr.ofile, 0)
    case Dup(f) => f < n && multiset(pr.ofile)[Some(f)] >= 2
    case Open1(f) => f < n
    case Open2(f) => f < n && Some(f) in pr.ofile
    case Pipe1(f) => f < n
    case Pipe2(f, g) => f < n && g < n && f != g
    case Pipe3(f, g) => f < n && g < n
    case Pipe4(f, g, fd) => f < n && g < n && fd < |pr.ofile| && pr.ofile[fd] == Some(f)
    case Closing(fs) => forall k: nat :: k < |fs| ==> fs[k] < n
    case PipeClosing(_, _, fs) => forall k: nat :: k < |fs| ==> fs[k] < n
    case Forking(_, i) => i <= |pr.ofile|
    case _ => true
  }

  ghost predicate ProcOk(s: State, p: nat)
    requires p < |s.procs|
  {
    var pr := s.procs[p];
    && |pr.ofile| == |s.procs[0].ofile|
    && SlotsOk(pr.ofile, |s.files|)
    && ActOk(pr, |s.files|)
    && (forall f: nat :: f < |s.files| && Private(pr.act, f) ==> s.files[f] == File(1, NoFile))
    && (pr.act.Pipe3? || pr.act.Pipe4? ==> IsPair(s.files, pr.act.f, pr.act.g))
    && (pr.act.Forking? ==> ForkOk(s, p))
  }

  /** Files f and g are the read end and the write end of one pipe. */
  predicate IsPair(files: seq<File>, f: nat, g: nat) {
    && f < |files| && g < |files| && files[f].kind.PipeEnd? && !files[f].kind.writable
    && files[g].kind == PipeEnd(files[f].kind.pipe, true)
  }

  ghost predicate ForkOk(s: State, p: nat)
    requires p < |s.procs| && s.procs[p].act.Forking?
  {
    var act := s.procs[p].act;
    && act.child < |s.procs| && s.procs[act.child].act.Embryo? && EmptyFrom(s.procs[act.child].ofile, act.i)
    && (forall k: nat :: k < act.i && k < |s.procs[p].ofile| && k < |s.procs[act.child].ofile| ==>
          s.procs[act.child].ofile[k] == s.procs[p].ofile[k])
    && forall q: nat :: q < |s.procs| && q != p && s.procs[q].act.Forking? ==> s.procs[q].act.child != act.child
  }

  /** What keeps an end of a pipe open: its file, or a process that has taken the
      last reference away and is on its way into pipeclose. */
  datatype Holder = ByFile(f: nat) | ByProc(p: nat)

  predicate Holds(s: State, h: Holder, pipe: nat, w: bool) {
    match h
    case ByFile(f) => f < |s.files| && s.files[f].kind == PipeEnd(pipe, w)
    case ByProc(p) => p < |s.procs| && s.procs[p].act.PipeClosing? && s.procs[p].act.pipe == pipe && s.procs[p].act.writable == w
  }

  ghost predicate EndOk(s: State, pipe: nat, w: bool)
    requires pipe < |s.pipes|
  {
    && (s.pipes[pipe].Open(w) <==> exists h :: Holds(s, h, pipe, w))
    && forall h, h' :: Holds(s, h, pipe, w) && Holds(s, h', pipe, w) ==> h == h'
  }

  ghost predicate PipesOk(s: State) {
    && (forall pipe: nat, w: bool :: pipe < |s.pipes| ==> EndOk(s, pipe, w))
    && (forall h, pipe: nat, w: bool :: Holds(s, h, pipe, w) ==> pipe < |s.pipes|)
    && forall pipe: nat :: pipe < |s.pipes| ==>
         s.pipes[pipe].freed == One(!s.pipes[pipe].readopen && !s.pipes[pipe].writeopen)
  }

  ghost predicate CountsOk(s: State) {
    && (forall f: nat :: f < |s.files| ==> s.files[f].ref == Total(s.procs, f))
    && forall f: nat :: f < |s.files| && s.files[f].ref == 0 ==> s.files[f].kind.NoFile?
  }

  ghost predicate Inv(s: State) {
    && CountsOk(s) && PipesOk(s)
    && forall p: nat :: p < |s.procs| ==> ProcOk(s, p)
  }

  // ---------- Consequences of the invariant ----------

  lemma HasIsNat(s: State, p: nat, f: nat)
    requires Inv(s) && p < |s.procs|
    ensures Has(s.procs[p], f) >= 0
  {
    assert ProcOk(s, p);
  }

  /** A file a process has a reference to is counted. */
  lemma Referenced(s: State, p: nat, f: nat)
    requires Inv(s) && p < |s.procs| && f < |s.files|
    ensures s.files[f].ref >= Has(s.procs[p], f)
  {
    forall q: nat | q < |s.procs| ensures Has(s.procs[q], f) >= 0 { HasIsNat(s, q, f); }
    TotalAtLeast(s.procs, p, f);
  }

  lemma HasBoth(s: State, p: nat, q: nat, f: nat)
    requires Inv(s) && p < |s.procs| && q < |s.procs| && p != q && f < |s.files|
    ensures s.files[f].ref >= Has(s.procs[p], f) + Has(s.procs[q], f)
  {
    forall r: nat | r < |s.procs| ensures Has(s.procs[r], f) >= 0 { HasIsNat(s, r, f); }
    if p < q { TotalAtLeastBoth(s.procs, p, q, f); } else { TotalAtLeastBoth(s.procs, q, p, f); }
  }

  /** A file one process has a reference to is not private to another. */
  lemma NotPrivate(s: State, p: nat, q: nat, f: nat)
    requires Inv(s) && p < |s.procs| && q < |s.procs| && p != q && f < |s.files|
    requires Has(s.procs[p], f) >= 1
    ensures !Private(s.procs[q].act, f)
  {
    if Private(s.procs[q].act, f) {
      forall r: nat | r < |s.procs| ensures Has(s.procs[r], f) >= 0 { HasIsNat(s, r, f); }
      assert ProcOk(s, q);
      assert Has(s.procs[q], f) >= 1;
      if p < q { TotalAtLeastBoth(s.procs, p, q, f); } else { TotalAtLeastBoth(s.procs, q, p, f); }
      assert false;
    }
  }

  /** A slot is a reference. */
  lemma SlotCounts(ofile: seq<Option<nat>>, k: nat)
    requires k < |ofile|
    ensures multiset(ofile)[ofile[k]] >= 1
  {
    assert ofile[k] in multiset(ofile);
  }

  // ---------- What a step of process p does to the parts of the invariant ----------

  /** The step changes process p only, and files of which it changes the counts
      by as much as process p's references. */
  ghost predicate Moves(s: State, s': State, p: nat) {
    && p < |s.procs| && |s'.procs| == |s.procs| && s'.procs == s.procs[p := s'.procs[p]]
    && |s'.files| == |s.files|
    && |s'.procs[p].ofile| == |s.procs[p].ofile|
    && (forall f: nat :: f < |s.files| ==>
         s'.files[f].ref - s.files[f].ref == Has(s'.procs[p], f) - Has(s.procs[p], f))
  }

  lemma CountsStep(s: State, s': State, p: nat)
    requires Moves(s, s', p) && CountsOk(s)
    requires forall f: nat :: f < |s.files| && s'.files[f].ref == 0 ==> s'.files[f].kind.NoFile?
    ensures CountsOk(s')
  {
    forall f: nat | f < |s.files| ensures s'.files[f].ref == Total(s'.procs, f) {
      TotalUpdate(s.procs, p, s'.procs[p], f);
    }
  }

  /** A file's kind changes only in the hands of the one process that has it. */
  ghost predicate KindsKept(s: State, s': State, p: nat) {
    p < |s.procs| && forall f: nat :: f < |s.files| && f < |s'.files| && s'.files[f].kind != s.files[f].kind ==>
      Has(s.procs[p], f) >= 1 && s.files[f].ref <= 1
  }

  lemma PairKept(s: State, s': State, p: nat, q: nat)
    requires Inv(s) && |s'.files| == |s.files| && KindsKept(s, s', p) && q < |s.procs| && q != p
    requires s.procs[q].act.Pipe3? || s.procs[q].act.Pipe4?
    ensures IsPair(s'.files, s.procs[q].act.f, s.procs[q].act.g)
  {
    var act := s.procs[q].act;
    assert ProcOk(s, q);
    if act.Pipe4? { SlotCounts(s.procs[q].ofile, act.fd); }
    assert Has(s.procs[q], act.f) >= 1 && Has(s.procs[q], act.g) >= 1;
    HasBoth(s, p, q, act.f);
    HasBoth(s, p, q, act.g);
  }

  lemma OthersOk(s: State, s': State, p: nat)
    requires Moves(s, s', p) && Inv(s) && KindsKept(s, s', p)
    requires !s.procs[p].act.Embryo? && !s'.procs[p].act.Forking?
    requires forall f: nat :: f < |s.files| && s'.files[f] != s.files[f] ==> Has(s.procs[p], f) >= 1 || s.files[f].ref == 0
    ensures forall q: nat :: q < |s.procs| && q != p ==> ProcOk(s', q)
  {
    forall q: nat | q < |s.procs| && q != p ensures ProcOk(s', q) {
      assert ProcOk(s, q) && ProcOk(s, p) && ProcOk(s, 0);
      forall f: nat | f < |s.files| && Private(s.procs[q].act, f) ensures s'.files[f] == s.files[f] {
        if Has(s.procs[p], f) >= 1 { NotPrivate(s, p, q, f); }
      }
      if s.procs[q].act.Pipe3? || s.procs[q].act.Pipe4? { PairKept(s, s', p, q); }
    }
  }

  lemma PipesSame(s: State, s': State)
    requires PipesOk(s) && s'.pipes == s.pipes
    requires forall h, pipe: nat, w: bool :: Holds(s', h, pipe, w) <==> Holds(s, h, pipe, w)
    ensures PipesOk(s')
  {
    forall pipe: nat, w: bool | pipe < |s.pipes| ensures EndOk(s', pipe, w) {
      assert EndOk(s, pipe, w);
      if s.pipes[pipe].Open(w) {
        var h :| Holds(s, h, pipe, w);
        assert Holds(s', h, pipe, w);
      }
    }
  }

  /** A step on process p's own table and on counts, that does not touch pipes. */
  lemma QuietStep(s: State, s': State, p: nat)
    requires Inv(s) && Moves(s, s', p) && s'.pipes == s.pipes && KindsKept(s, s', p)
    requires !s.procs[p].act.Embryo? && !s'.procs[p].act.Forking?
    requires !s.procs[p].act.PipeClosing? && !s'.procs[p].act.PipeClosing?
    requires forall f: nat :: f < |s.files| && s'.files[f] != s.files[f] ==> Has(s.procs[p], f) >= 1 || s.files[f].ref == 0
    requires forall f: nat :: f < |s.files| && s'.files[f].kind != s.files[f].kind ==> !s.files[f].kind.PipeEnd? && !s'.files[f].kind.PipeEnd?
    requires forall f: nat :: f < |s.files| && s'.files[f].ref == 0 ==> s'.files[f].kind.NoFile?
    requires ProcOk(s', p)
    ensures Inv(s')
  {
    CountsStep(s, s', p);
    OthersOk(s, s', p);
    PipesSame(s, s');
  }

  // ---------- Each step ----------

  lemma UpdateCounts(ofile: seq<Option<nat>>, k: nat, x: Option<nat>, f: nat)
    requires k < |ofile|
    ensures multiset(ofile[k := x])[Some(f)] == multiset(ofile)[Some(f)] - One(ofile[k] == Some(f)) + One(x == Some(f))
  {
    assert ofile[k] in multiset(ofile);
  }

  lemma SysDupKeeps(s: State, p: nat, fd: nat, to: nat)
    requires Inv(s) && Enabled(s, p, SysDup(fd, to))
    ensures Inv(Do(s, p, SysDup(fd, to)))
  {
    var s', pr := Do(s, p, SysDup(fd, to)), s.procs[p];
    assert ProcOk(s, p);
    forall f: nat ensures Has(s'.procs[p], f) == Has(pr, f) { UpdateCounts(pr.ofile, to, pr.ofile[fd], f); }
    SlotCounts(pr.ofile, fd);
    UpdateCounts(pr.ofile, to, pr.ofile[fd], pr.ofile[fd].value);
    QuietStep(s, s', p);
  }

  lemma SysCloseKeeps(s: State, p: nat, fd: nat)
    requires Inv(s) && Enabled(s, p, SysClose(fd))
    ensures Inv(Do(s, p, SysClose(fd)))
  {
    var s', pr := Do(s, p, SysClose(fd)), s.procs[p];
    assert ProcOk(s, p);
    forall f: nat ensures Has(s'.procs[p], f) == Has(pr, f) { UpdateCounts(pr.ofile, fd, None, f); }
    QuietStep(s, s', p);
  }

  lemma DupRefKeeps(s: State, p: nat)
    requires Inv(s) && Enabled(s, p, DupRef)
    ensures s.files[s.procs[p].act.f].ref >= 1
    ensures Inv(Do(s, p, DupRef))
  {
    var s', pr := Do(s, p, DupRef), s.procs[p];
    assert ProcOk(s, p);
    Referenced(s, p, pr.act.f);
    QuietStep(s, s', p);
  }

  lemma OpenSlotKeeps(s: State, p: nat, fd: nat)
    requires Inv(s) && Enabled(s, p, OpenSlot(fd))
    ensures Inv(Do(s, p, OpenSlot(fd)))
  {
    var s', pr := Do(s, p, OpenSlot(fd)), s.procs[p];
    assert ProcOk(s, p);
    forall f: nat ensures Has(s'.procs[p], f) == Has(pr, f) { UpdateCounts(pr.ofile, fd, Some(pr.act.f), f); }
    assert s'.procs[p].ofile[fd] == Some(pr.act.f);
    QuietStep(s, s', p);
  }

  lemma OpenTypeKeeps(s: State, p: nat)
    requires Inv(s) && Enabled(s, p, OpenType)
    ensures Inv(Do(s, p, OpenType))
  {
    var s', pr := Do(s, p, OpenType), s.procs[p];
    assert ProcOk(s, p) && Private(pr.act, pr.act.f);
    assert Some(pr.act.f) in multiset(pr.ofile);
    QuietStep(s, s', p);
  }

  lemma AllocKeeps(s: State, p: nat, f: nat, st: Step)
    requires Inv(s) && (st == OpenAlloc(f) || st == PipeAlloc(f)) && Enabled(s, p, st)
    ensures Inv(Do(s, p, st))
  {
    var s' := Do(s, p, st);
    assert ProcOk(s, p) && s.files[f] == File(0, NoFile);
    assert s.procs[p].act.Pipe1? ==> Private(s.procs[p].act, s.procs[p].act.f);
    QuietStep(s, s', p);
  }

  lemma PipeSlotMoves(s: State, p: nat, fd: nat)
    requires Inv(s) && Enabled(s, p, PipeSlot(fd))
    ensures Moves(s, Do(s, p, PipeSlot(fd)), p)
  {
    var s', pr := Do(s, p, PipeSlot(fd)), s.procs[p];
    var g := if pr.act.Pipe3? then pr.act.f else pr.act.g;
    forall f: nat ensures Has(s'.procs[p], f) == Has(pr, f) { UpdateCounts(pr.ofile, fd, Some(g), f); }
  }

  lemma PipeSlotKeeps(s: State, p: nat, fd: nat)
    requires Inv(s) && Enabled(s, p, PipeSlot(fd))
    ensures Inv(Do(s, p, PipeSlot(fd)))
  {
    PipeSlotMoves(s, p, fd);
    assert ProcOk(s, p);
    hide Has;
    QuietStep(s, Do(s, p, PipeSlot(fd)), p);
  }

  /** Giving up turns what is held into what is to be closed. */
  lemma GivenUpHas(pr: Proc, n: nat, f: nat)
    requires pr.act.Open1? || pr.act.Pipe1? || pr.act.Pipe2? || pr.act.Pipe3? || pr.act.Pipe4?
    requires ActOk(pr, n)
    ensures Has(GivenUp(pr), f) == Has(pr, f)
  {
    if pr.act.Pipe4? { UpdateCounts(pr.ofile, pr.act.fd, None, f); }
  }

  lemma GiveUpOwn(s: State, p: nat)
    requires Inv(s) && Enabled(s, p, GiveUp)
    ensures ProcOk(Do(s, p, GiveUp), p)
  {
    assert ProcOk(s, p) && ProcOk(s, 0);
    hide CountsOk, PipesOk;
  }

  lemma GiveUpMoves(s: State, p: nat)
    requires Inv(s) && Enabled(s, p, GiveUp)
    ensures Moves(s, Do(s, p, GiveUp), p)
  {
    var pr := s.procs[p];
    assert ActOk(pr, |s.files|) by { assert ProcOk(s, p); }
    hide Inv;
    forall f: nat ensures Has(GivenUp(pr), f) == Has(pr, f) { GivenUpHas(pr, |s.files|, f); }
    hide Has;
  }

  lemma GiveUpKeeps(s: State, p: nat)
    requires Inv(s) && Enabled(s, p, GiveUp)
    ensures Inv(Do(s, p, GiveUp))
  {
    GiveUpMoves(s, p);
    GiveUpOwn(s, p);
    hide Has, ProcOk, Total;
    QuietStep(s, Do(s, p, GiveUp), p);
  }

  lemma DoneKeeps(s: State, p: nat, st: Step)
    requires Inv(s) && (st.CloseDone? || st.ExitDone?) && Enabled(s, p, st)
    ensures Inv(Do(s, p, st))
  {
    assert ProcOk(s, p);
    QuietStep(s, Do(s, p, st), p);
  }

  lemma CloseHas(pr: Proc, act: Act, f: nat)
    requires pr.act.Closing? && pr.act.fs != []
    requires act == Closing(pr.act.fs[1..]) || (act.PipeClosing? && act.fs == pr.act.fs[1..])
    ensures Has(pr.(act := act), f) == Has(pr, f) - One(f == pr.act.fs[0])
  {
    assert pr.act.fs == [pr.act.fs[0]] + pr.act.fs[1..];
  }

  lemma CloseMoves(s: State, p: nat)
    requires Inv(s) && Enabled(s, p, FileClose)
    ensures s.files[s.procs[p].act.fs[0]].ref >= 1 && Has(s.procs[p], s.procs[p].act.fs[0]) >= 1
    ensures Moves(s, Do(s, p, FileClose), p)
  {
    var s', pr := Do(s, p, FileClose), s.procs[p];
    assert ProcOk(s, p);
    var g := pr.act.fs[0];
    Referenced(s, p, g);
    forall f: nat ensures Has(s'.procs[p], f) == Has(pr, f) - One(f == g) { CloseHas(pr, s'.procs[p].act, f); }
  }

  lemma CloseOwnOk(s: State, p: nat)
    requires Inv(s) && Enabled(s, p, FileClose)
    ensures ProcOk(Do(s, p, FileClose), p)
  {
    assert ProcOk(s, p) && ProcOk(s, 0);
  }

  /** fileclose keeps the invariant, and never meets an unreferenced file. */
  lemma FileCloseKeeps(s: State, p: nat)
    requires Inv(s) && Enabled(s, p, FileClose)
    ensures s.files[s.procs[p].act.fs[0]].ref >= 1
    ensures Inv(Do(s, p, FileClose))
  {
    var s', g := DoFileClose(s, p), s.procs[p].act.fs[0];
    CloseMoves(s, p);
    CloseOwnOk(s, p);
    hide Has, Total, ProcOk;
    if s'.procs[p].act.PipeClosing? {
      CountsStep(s, s', p);
      OthersOk(s, s', p);
      LastClosed(s, s', p, g);
    } else {
      QuietStep(s, s', p);
    }
  }

  /** The end of a pipe passes from its file to the process that closed it. */
  lemma LastClosed(s: State, s': State, p: nat, g: nat)
    requires PipesOk(s) && s'.pipes == s.pipes && p < |s.procs| && g < |s.files|
    requires |s'.procs| == |s.procs| && s'.procs == s.procs[p := s'.procs[p]]
    requires |s'.files| == |s.files| && s'.files == s.files[g := s'.files[g]]
    requires s.files[g].kind.PipeEnd? && s'.files[g].kind.NoFile? && !s.procs[p].act.PipeClosing?
    requires s'.procs[p].act.PipeClosing? && s.files[g].kind == PipeEnd(s'.procs[p].act.pipe, s'.procs[p].act.writable)
    ensures PipesOk(s')
  {
    forall h, pipe: nat, w: bool | Holds(s', h, pipe, w)
      ensures Holds(s, if h == ByProc(p) then ByFile(g) else h, pipe, w)
    {
    }
    forall pipe: nat, w: bool | pipe < |s.pipes| ensures EndOk(s', pipe, w) {
      assert EndOk(s, pipe, w);
      if s.pipes[pipe].Open(w) {
        var h :| Holds(s, h, pipe, w);
        assert Holds(s', if h == ByFile(g) then ByProc(p) else h, pipe, w);
      }
    }
  }

  /** pipeclose closes an open end. */
  lemma PipeCloseKeeps(s: State, p: nat)
    requires Inv(s) && Enabled(s, p, PipeClose)
    ensures s.pipes[s.procs[p].act.pipe].Open(s.procs[p].act.writable)
    ensures Inv(Do(s, p, PipeClose))
  {
    var s', act := Do(s, p, PipeClose), s.procs[p].act;
    assert ProcOk(s, p);
    assert Holds(s, ByProc(p), act.pipe, act.writable) && EndOk(s, act.pipe, act.writable);
    CountsStep(s, s', p);
    OthersOk(s, s', p);
    assert ProcOk(s', p);
    hide Has, ProcOk;
    forall h, pipe: nat, w: bool ensures Holds(s', h, pipe, w) <==> Holds(s, h, pipe, w) && h != ByProc(p) {
    }
    forall pipe: nat, w: bool | pipe < |s.pipes| ensures EndOk(s', pipe, w) {
      assert EndOk(s, pipe, w);
      if s'.pipes[pipe].Open(w) {
        var h :| Holds(s, h, pipe, w);
        assert Holds(s', h, pipe, w);
      }
    }
  }

  /** A new pipe n has its read end at file f and its write end at file g. */
  lemma MadePipes(s: State, s': State, p: nat, f: nat, g: nat)
    requires PipesOk(s) && p < |s.procs| && f < |s.files| && g < |s.files| && f != g
    requires |s'.procs| == |s.procs| && s'.procs == s.procs[p := s'.procs[p]]
    requires !s.procs[p].act.PipeClosing? && !s'.procs[p].act.PipeClosing?
    requires !s.files[f].kind.PipeEnd? && !s.files[g].kind.PipeEnd?
    requires |s'.files| == |s.files| && forall k: nat :: k < |s.files| ==>
               s'.files[k].kind == if k == f then PipeEnd(|s.pipes|, false) else if k == g then PipeEnd(|s.pipes|, true) else s.files[k].kind
    requires s'.pipes == s.pipes + [Pipe(true, true, 0)]
    ensures PipesOk(s')
  {
    var n := |s.pipes|;
    forall h, pipe: nat, w: bool
      ensures Holds(s', h, pipe, w) <==> if pipe == n then h == ByFile(if w then g else f) else Holds(s, h, pipe, w)
    {
      assert Holds(s, h, pipe, w) ==> pipe < n;
    }
    forall pipe: nat, w: bool | pipe < |s'.pipes| ensures EndOk(s', pipe, w) {
      if pipe < n {
        assert EndOk(s, pipe, w);
        if s.pipes[pipe].Open(w) {
          var h :| Holds(s, h, pipe, w);
          assert Holds(s', h, pipe, w);
        }
      } else {
        assert Holds(s', ByFile(if w then g else f), pipe, w);
      }
    }
  }

  lemma PipeMakeMoves(s: State, p: nat)
    requires Inv(s) && Enabled(s, p, PipeMake)
    ensures Moves(s, Do(s, p, PipeMake), p) && KindsKept(s, Do(s, p, PipeMake), p)
    ensures ProcOk(Do(s, p, PipeMake), p)
    ensures var act := s.procs[p].act; s.files[act.f] == File(1, NoFile) && s.files[act.g] == File(1, NoFile) && act.f != act.g
    ensures var act := s.procs[p].act; Has(s.procs[p], act.f) >= 1 && Has(s.procs[p], act.g) >= 1
  {
    var act := s.procs[p].act;
    assert ProcOk(s, p) && ProcOk(s, 0) && Private(act, act.f) && Private(act, act.g);
  }

  /** pipealloc with both files and a page: both ends of a new pipe are held. */
  lemma PipeMakeKeeps(s: State, p: nat)
    requires Inv(s) && Enabled(s, p, PipeMake)
    ensures Inv(Do(s, p, PipeMake))
  {
    var s', act := DoPipeMake(s, p), s.procs[p].act;
    PipeMakeMoves(s, p);
    hide Has, ProcOk, PipesOk, KindsKept, Total;
    CountsStep(s, s', p);
    OthersOk(s, s', p);
    MadePipes(s, s', p, act.f, act.g);
  }

  // ---------- fork ----------

  /** Processes p and c change together, p being c's parent in a fork. */
  lemma PairOthers(s: State, s': State, p: nat, c: nat)
    requires Inv(s) && p < |s.procs| && c < |s.procs| && p != c && |s'.procs| == |s.procs| && |s'.files| == |s.files|
    requires s'.procs == s.procs[c := s'.procs[c]][p := s'.procs[p]]
    requires |s'.procs[p].ofile| == |s.procs[p].ofile| && |s'.procs[c].ofile| == |s.procs[c].ofile|
    requires s.procs[c].act.Unused? || (s.procs[p].act.Forking? && s.procs[p].act.child == c)
    requires !s.procs[p].act.Embryo? && !s'.procs[c].act.Forking?
    requires s'.procs[p].act.Forking? ==> s'.procs[p].act.child == c
    requires forall f: nat :: f < |s.files| && s'.files[f] != s.files[f] ==> Has(s.procs[p], f) >= 1
    requires forall f: nat :: f < |s.files| ==> s'.files[f].kind == s.files[f].kind
    ensures forall q: nat :: q < |s.procs| && q != p && q != c ==> ProcOk(s', q)
    ensures forall q: nat :: q < |s.procs| && q != p && q != c && s.procs[q].act.Forking? ==> s.procs[q].act.child != c
    ensures |s'.procs[p].ofile| == |s'.procs[c].ofile| == |s'.procs[0].ofile|
  {
    assert ProcOk(s, p) && ProcOk(s, c);
    forall q: nat | q < |s.procs| && q != p && q != c
      ensures ProcOk(s', q) && (s.procs[q].act.Forking? ==> s.procs[q].act.child != c)
    {
      assert ProcOk(s, q);
      forall f: nat | f < |s.files| && Private(s.procs[q].act, f) ensures s'.files[f] == s.files[f] {
        if Has(s.procs[p], f) >= 1 { NotPrivate(s, p, q, f); }
      }
    }
  }

  lemma PairPipes(s: State, s': State, p: nat, c: nat)
    requires PipesOk(s) && p < |s.procs| && c < |s.procs| && |s'.procs| == |s.procs| && |s'.files| == |s.files|
    requires s'.procs == s.procs[c := s'.procs[c]][p := s'.procs[p]] && s'.pipes == s.pipes
    requires !s.procs[p].act.PipeClosing? && !s.procs[c].act.PipeClosing?
    requires !s'.procs[p].act.PipeClosing? && !s'.procs[c].act.PipeClosing?
    requires forall f: nat :: f < |s.files| ==> s'.files[f].kind == s.files[f].kind
    ensures PipesOk(s')
  {
    PipesSame(s, s');
  }

  lemma SameCounts(s: State, s': State, p: nat, c: nat)
    requires CountsOk(s) && p < |s.procs| && c < |s.procs| && p != c && |s'.procs| == |s.procs| && s'.files == s.files
    requires s'.procs == s.procs[c := s'.procs[c]][p := s'.procs[p]]
    requires forall f: nat :: Has(s'.procs[c], f) == Has(s.procs[c], f) && Has(s'.procs[p], f) == Has(s.procs[p], f)
    ensures CountsOk(s')
  {
    hide Has;
    forall f: nat | f < |s.files| ensures s'.files[f].ref == Total(s'.procs, f) {
      TotalUpdate(s.procs, c, s'.procs[c], f);
      TotalUpdate(s.procs[c := s'.procs[c]], p, s'.procs[p], f);
    }
  }

  lemma ForkCounts(s: State, p: nat, c: nat, st: Step)
    requires CountsOk(s) && Enabled(s, p, st) && c < |s.procs| && p != c
    requires s.procs[c].act.Unused? || s.procs[c].act.Embryo?
    requires st == Fork(c) || (st == ForkStep && s.procs[p].act.child == c && s.procs[p].act.i >= |s.procs[p].ofile|)
    ensures CountsOk(Do(s, p, st))
  {
    hide CountsOk;
    SameCounts(s, Do(s, p, st), p, c);
  }

  /** Fork(c), and the end of a fork of c. */
  lemma ForkKeeps(s: State, p: nat, c: nat, st: Step)
    requires Inv(s) && Enabled(s, p, st) && c < |s.procs|
    requires st == Fork(c) || (st == ForkStep && s.procs[p].act.child == c && s.procs[p].act.i >= |s.procs[p].ofile|)
    ensures Inv(Do(s, p, st))
  {
    var s' := Do(s, p, st);
    assert ProcOk(s, p) && ProcOk(s, c);
    hide Has, CountsOk, PipesOk;
    ForkCounts(s, p, c, st);
    PairPipes(s, s', p, c);
    PairOthers(s, s', p, c);
    assert ProcOk(s', c) && ProcOk(s', p);
  }

  /** fork copies slot i of p to c, counting the copy. */
  ghost predicate CopiesSlot(s: State, s': State, p: nat, c: nat, i: nat) {
    && p < |s.procs| && c < |s.procs| && p != c && i < |s.procs[p].ofile| && i < |s.procs[c].ofile|
    && var x := s.procs[p].ofile[i];
       && s'.procs == s.procs[p := s.procs[p].(act := Forking(c, i + 1))][c := s.procs[c].(ofile := s.procs[c].ofile[i := x])]
       && s'.pipes == s.pipes
       && if x.None? then s'.files == s.files
          else x.value < |s.files| && s'.files == s.files[x.value := s.files[x.value].(ref := s.files[x.value].ref + 1)]
  }

  lemma ForkStepCopies(s: State, p: nat)
    requires Inv(s) && Enabled(s, p, ForkStep) && s.procs[p].act.i < |s.procs[p].ofile|
    ensures CopiesSlot(s, Do(s, p, ForkStep), p, s.procs[p].act.child, s.procs[p].act.i)
  {
    assert ProcOk(s, p) && ProcOk(s, s.procs[p].act.child);
    var c, i := s.procs[p].act.child, s.procs[p].act.i;
    if s.procs[p].ofile[i].None? {
      assert s.procs[c].ofile[i := None] == s.procs[c].ofile;
    }
  }

  lemma CopyOwn(s: State, s': State, p: nat, c: nat, i: nat)
    requires CopiesSlot(s, s', p, c, i) && ProcOk(s, p) && ProcOk(s, c) && s.procs[p].act == Forking(c, i)
    requires |s.procs[0].ofile| == |s'.procs[0].ofile|
    ensures ProcOk(s', p) && ProcOk(s', c)
  {
  }

  lemma CopyHas(s: State, s': State, p: nat, c: nat, i: nat, f: nat)
    requires CopiesSlot(s, s', p, c, i) && s.procs[p].act == Forking(c, i) && s.procs[c].ofile[i].None?
    ensures Has(s'.procs[c], f) == Has(s.procs[c], f) + One(s.procs[p].ofile[i] == Some(f))
    ensures Has(s'.procs[p], f) == Has(s.procs[p], f)
  {
    UpdateCounts(s.procs[c].ofile, i, s.procs[p].ofile[i], f);
  }

  lemma CopyCounts(s: State, s': State, p: nat, c: nat, g: nat)
    requires CountsOk(s) && p < |s.procs| && c < |s.procs| && p != c && |s'.procs| == |s.procs| && g < |s.files|
    requires s'.procs == s.procs[p := s'.procs[p]][c := s'.procs[c]]
    requires s'.files == s.files[g := s.files[g].(ref := s.files[g].ref + 1)] && s.files[g].ref >= 1
    requires forall f: nat :: Has(s'.procs[c], f) == Has(s.procs[c], f) + One(f == g) && Has(s'.procs[p], f) == Has(s.procs[p], f)
    ensures CountsOk(s')
  {
    hide Has;
    forall f: nat | f < |s.files| ensures s'.files[f].ref == Total(s'.procs, f) {
      TotalUpdate(s.procs, p, s'.procs[p], f);
      TotalUpdate(s.procs[p := s'.procs[p]], c, s'.procs[c], f);
    }
  }

  lemma CopyKeepsCounts(s: State, s': State, p: nat, c: nat, i: nat)
    requires Inv(s) && CopiesSlot(s, s', p, c, i) && s.procs[p].act == Forking(c, i) && s.procs[c].ofile[i].None?
    ensures CountsOk(s')
    ensures s.procs[p].ofile[i].Some? ==>
              var g := s.procs[p].ofile[i].value; s.files[g].ref >= 1 && Has(s.procs[p], g) >= 1
  {
    var x := s.procs[p].ofile[i];
    forall f: nat
      ensures Has(s'.procs[c], f) == Has(s.procs[c], f) + One(x == Some(f)) && Has(s'.procs[p], f) == Has(s.procs[p], f)
    {
      CopyHas(s, s', p, c, i, f);
    }
    if x.Some? {
      SlotCounts(s.procs[p].ofile, i);
      assert Has(s.procs[p], x.value) >= 1;
      Referenced(s, p, x.value);
      hide Has, Inv;
      CopyCounts(s, s', p, c, x.value);
    } else {
      hide Has, Inv;
      SameCounts(s, s', p, c);
    }
  }

  /** fork copies one slot, and counts the copy. */
  lemma ForkCopyKeeps(s: State, p: nat)
    requires Inv(s) && Enabled(s, p, ForkStep) && s.procs[p].act.i < |s.procs[p].ofile|
    ensures s.procs[p].ofile[s.procs[p].act.i].Some? ==> s.files[s.procs[p].ofile[s.procs[p].act.i].value].ref >= 1
    ensures Inv(Do(s, p, ForkStep))
  {
    var c, i := s.procs[p].act.child, s.procs[p].act.i;
    ForkStepCopies(s, p);
    assert ProcOk(s, p) && ProcOk(s, c) && ProcOk(s, 0);
    var s' := Do(s, p, ForkStep);
    hide Do, Has, CountsOk, PipesOk, ProcOk;
    CopyOwn(s, s', p, c, i);
    CopyKeepsCounts(s, s', p, c, i);
    PairPipes(s, s', p, c);
    PairOthers(s, s', p, c);
  }

  // ---------- Every run ----------

  lemma StepKeepsInv(s: State, p: nat, st: Step)
    requires Inv(s) && Enabled(s, p, st)
    ensures Inv(Do(s, p, st))
  {
    match st
    case SysDup(fd, to) => SysDupKeeps(s, p, fd, to);
    case DupRef => DupRefKeeps(s, p);
    case SysClose(fd) => SysCloseKeeps(s, p, fd);
    case FileClose => FileCloseKeeps(s, p);
    case PipeClose => PipeCloseKeeps(s, p);
    case CloseDone => DoneKeeps(s, p, st);
    case OpenAlloc(f) => AllocKeeps(s, p, f, st);
    case OpenSlot(fd) => OpenSlotKeeps(s, p, fd);
    case OpenType => OpenTypeKeeps(s, p);
    case PipeAlloc(f) => AllocKeeps(s, p, f, st);
    case PipeMake => PipeMakeKeeps(s, p);
    case PipeSlot(fd) => PipeSlotKeeps(s, p, fd);
    case GiveUp => GiveUpKeeps(s, p);
    case Fork(c) => ForkKeeps(s, p, c, st);
    case ForkStep =>
      if s.procs[p].act.i < |s.procs[p].ofile| {
        ForkCopyKeeps(s, p);
      } else {
        ForkKeeps(s, p, s.procs[p].act.child, st);
      }
    case ExitDone => DoneKeeps(s, p, st);
  }

  lemma {:induction false} NoReferences(procs: seq<Proc>, f: nat)
    requires forall p: nat :: p < |procs| ==> Has(procs[p], f) == 0
    ensures Total(procs, f) == 0
  {
    if procs != [] {
      assert forall q: nat :: q < |procs| - 1 ==> procs[1..][q] == procs[q + 1];
      NoReferences(procs[1..], f);
    }
  }

  lemma InitInv(s: State)
    requires Init(s)
    ensures Inv(s)
  {
    forall f: nat | f < |s.files| ensures Total(s.procs, f) == 0 {
      forall p: nat | p < |s.procs| ensures Has(s.procs[p], f) == 0 {
        assert Some(f) !in s.procs[p].ofile;
        assert Some(f) !in multiset(s.procs[p].ofile);
      }
      NoReferences(s.procs, f);
    }
  }

  /** A run of steps, each by some process. */
  ghost predicate Run(s: State, steps: seq<(nat, Step)>, s': State)
    decreases |steps|
  {
    if steps == [] then s == s'
    else Enabled(s, steps[0].0, steps[0].1) && Run(Do(s, steps[0].0, steps[0].1), steps[1..], s')
  }

  lemma {:induction false} RunInv(s: State, steps: seq<(nat, Step)>, s': State)
    requires Inv(s) && Run(s, steps, s')
    ensures Inv(s')
    decreases |steps|
  {
    if steps != [] {
      StepKeepsInv(s, steps[0].0, steps[0].1);
      RunInv(Do(s, steps[0].0, steps[0].1), steps[1..], s');
    }
  }

  // ---------- The results ----------

  /** The slots of all processes that name file f. */
  ghost function Slots(procs: seq<Proc>, f: nat): int {
    if procs == [] then 0 else multiset(procs[0].ofile)[Some(f)] + Slots(procs[1..], f)
  }

  ghost predicate Quiescent(s: State) {
    forall p: nat :: p < |s.procs| ==> s.procs[p].act.Idle? || s.procs[p].act.Unused?
  }

  lemma {:induction false} TotalIsSlots(procs: seq<Proc>, f: nat)
    requires forall p: nat :: p < |procs| ==> procs[p].act.Idle? || procs[p].act.Unused?
    ensures Total(procs, f) == Slots(procs, f)
  {
    if procs != [] {
      assert forall q: nat :: q < |procs| - 1 ==> procs[1..][q] == procs[q + 1];
      TotalIsSlots(procs[1..], f);
    }
  }

  /** In every run, whenever no system call is in progress, a file's count is the
      number of descriptor slots that name it. */
  lemma RefsExact(s: State, steps: seq<(nat, Step)>, s': State, f: nat)
    requires Init(s) && Run(s, steps, s') && Quiescent(s') && f < |s'.files|
    ensures s'.files[f].ref == Slots(s'.procs, f)
    ensures Slots(s'.procs, f) == 0 ==> s'.files[f].kind.NoFile?
  {
    InitInv(s);
    RunInv(s, steps, s');
    TotalIsSlots(s'.procs, f);
  }

  /** In every run, whenever no system call is in progress, an end of a pipe is
      open exactly when some descriptor names its file. */
  lemma EndOpenIffNamed(s: State, steps: seq<(nat, Step)>, s': State, pipe: nat, w: bool)
    requires Init(s) && Run(s, steps, s') && Quiescent(s') && pipe < |s'.pipes|
    ensures s'.pipes[pipe].Open(w) <==>
            exists f: nat :: f < |s'.files| && s'.files[f].kind == PipeEnd(pipe, w) && Slots(s'.procs, f) >= 1
  {
    InitInv(s);
    RunInv(s, steps, s');
    assert EndOk(s', pipe, w);
    if s'.pipes[pipe].Open(w) {
      var h :| Holds(s', h, pipe, w);
      assert h.ByFile?;
      TotalIsSlots(s'.procs, h.f);
      NamedOnce(s', h.f);
    } else {
      forall f: nat | f < |s'.files| ensures s'.files[f].kind != PipeEnd(pipe, w) {
        assert !Holds(s', ByFile(f), pipe, w);
      }
    }
  }

  lemma NamedOnce(s: State, f: nat)
    requires Inv(s) && f < |s.files| && !s.files[f].kind.NoFile?
    ensures Total(s.procs, f) >= 1
  {
    forall q: nat | q < |s.procs| ensures Has(s.procs[q], f) >= 0 { HasIsNat(s, q, f); }
    TotalIsNat(s.procs, f);
  }

  /** In every run, in every state, a pipe's page has been freed once if both
      ends are closed, and not at all otherwise. */
  lemma FreedOnce(s: State, steps: seq<(nat, Step)>, s': State, pipe: nat)
    requires Init(s) && Run(s, steps, s') && pipe < |s'.pipes|
    ensures s'.pipes[pipe].freed == One(!s'.pipes[pipe].readopen && !s'.pipes[pipe].writeopen)
  {
    InitInv(s);
    RunInv(s, steps, s');
  }

  /** In every run, filedup and fileclose never panic, and pipeclose is never
      called on a freed pipe. */
  lemma NoPanic(s: State, steps: seq<(nat, Step)>, s': State, p: nat)
    requires Init(s) && Run(s, steps, s')
    ensures Enabled(s', p, DupRef) ==> s'.files[s'.procs[p].act.f].ref >= 1
    ensures Enabled(s', p, FileClose) ==> s'.files[s'.procs[p].act.fs[0]].ref >= 1
    ensures Enabled(s', p, ForkStep) && s'.procs[p].act.i < |s'.procs[p].ofile| && s'.procs[p].ofile[s'.procs[p].act.i].Some? ==>
              s'.files[s'.procs[p].ofile[s'.procs[p].act.i].value].ref >= 1
    ensures Enabled(s', p, PipeClose) ==> s'.pipes[s'.procs[p].act.pipe].freed == 0
  {
    InitInv(s);
    RunInv(s, steps, s');
    if Enabled(s', p, DupRef) { DupRefKeeps(s', p); }
    if Enabled(s', p, FileClose) { FileCloseKeeps(s', p); }
    if Enabled(s', p, ForkStep) && s'.procs[p].act.i < |s'.procs[p].ofile| { ForkCopyKeeps(s', p); }
    if Enabled(s', p, PipeClose) { PipeCloseKeeps(s', p); }
  }

  lemma {:induction false} SomeFirstFree(ofile: seq<Option<nat>>, i: nat) returns (fd: nat)
    requires i <= |ofile| && forall k: nat :: k < i ==> ofile[k].Some?
    ensures FirstFree(ofile, fd) || forall k: nat :: k < |ofile| ==> ofile[k].Some?
    decreases |ofile| - i
  {
    if i == |ofile| || ofile[i].None? {
      fd := i;
    } else {
      fd := SomeFirstFree(ofile, i + 1);
    }
  }

  lemma {:induction false} SomeFirstUnused(files: seq<File>, i: nat) returns (f: nat)
    requires i <= |files| && forall k: nat :: k < i ==> files[k].ref != 0
    ensures FirstUnused(files, f) || forall k: nat :: k < |files| ==> files[k].ref != 0
    decreases |files| - i
  {
    if i == |files| || files[i].ref == 0 {
      f := i;
    } else {
      f := SomeFirstUnused(files, i + 1);
    }
  }

  lemma NextStep(s: State, p: nat)
    requires p < |s.procs| && ProcOk(s, p)
    requires !s.procs[p].act.Idle? && !s.procs[p].act.Unused? && !s.procs[p].act.Embryo?
    requires s.procs[p].act.Forking? ==> |s.procs[s.procs[p].act.child].ofile| == |s.procs[p].ofile|
    requires s.procs[p].act.PipeClosing? ==> s.procs[p].act.pipe < |s.pipes|
    ensures exists st :: Enabled(s, p, st)
  {
    var pr := s.procs[p];
    match pr.act
    case Dup(f) => assert Enabled(s, p, DupRef);
    case Open1(f) =>
      var fd := SomeFirstFree(pr.ofile, 0);
      assert Enabled(s, p, OpenSlot(fd)) || Enabled(s, p, GiveUp);
    case Open2(f) => assert Enabled(s, p, OpenType);
    case Pipe1(f) =>
      var g := SomeFirstUnused(s.files, 0);
      assert Enabled(s, p, PipeAlloc(g)) || Enabled(s, p, GiveUp);
    case Pipe2(f, g) => assert Enabled(s, p, PipeMake);
    case Pipe3(f, g) =>
      var fd := SomeFirstFree(pr.ofile, 0);
      assert Enabled(s, p, PipeSlot(fd)) || Enabled(s, p, GiveUp);
    case Pipe4(f, g, d) =>
      var fd := SomeFirstFree(pr.ofile, 0);
      assert Enabled(s, p, PipeSlot(fd)) || Enabled(s, p, GiveUp);
    case Forking(c, i) => assert Enabled(s, p, ForkStep);
    case Closing(fs) => assert Enabled(s, p, FileClose) || Enabled(s, p, CloseDone);
    case PipeClosing(pipe, w, fs) => assert Enabled(s, p, PipeClose);
  }

  /** In every run, a process inside a system call always has a next step: every
      path of dup, close, open, pipe and fork can be taken to its end. */
  lemma NeverStuck(s: State, steps: seq<(nat, Step)>, s': State, p: nat)
    requires Init(s) && Run(s, steps, s') && p < |s'.procs|
    requires !s'.procs[p].act.Idle? && !s'.procs[p].act.Unused? && !s'.procs[p].act.Embryo?
    ensures exists st :: Enabled(s', p, st)
  {
    InitInv(s);
    RunInv(s, steps, s');
    var act := s'.procs[p].act;
    assert ProcOk(s', p);
    if act.Forking? { assert ProcOk(s', act.child); }
    if act.PipeClosing? { assert Holds(s', ByProc(p), act.pipe, act.writable); }
    NextStep(s', p);
  }

  /** In every run, when pipe succeeds its two descriptors are the read end and the
      write end of one pipe, both of them open. */
  lemma PipeGivesEnds(s: State, steps: seq<(nat, Step)>, s': State, p: nat, fd: nat)
    requires Init(s) && Run(s, steps, s') && Enabled(s', p, PipeSlot(fd)) && s'.procs[p].act.Pipe4?
    ensures var act, t := s'.procs[p].act, Do(s', p, PipeSlot(fd));
      && act.fd < |t.procs[p].ofile| && act.fd != fd && fd < |t.procs[p].ofile|
      && t.procs[p].act.Idle? && t.procs[p].ofile[act.fd] == Some(act.f) && t.procs[p].ofile[fd] == Some(act.g)
      && IsPair(t.files, act.f, act.g) && t.files[act.f].kind.pipe < |t.pipes|
      && t.pipes[t.files[act.f].kind.pipe].readopen && t.pipes[t.files[act.f].kind.pipe].writeopen
  {
    InitInv(s);
    RunInv(s, steps, s');
    var act := s'.procs[p].act;
    assert ProcOk(s', p);
    var pipe := s'.files[act.f].kind.pipe;
    assert Holds(s', ByFile(act.f), pipe, false) && Holds(s', ByFile(act.g), pipe, true);
    assert EndOk(s', pipe, false) && EndOk(s', pipe, true);
  }

  /** In every run, at the end of fork the child has the parent's descriptors. */
  lemma ForkShares(s: State, steps: seq<(nat, Step)>, s': State, p: nat)
    requires Init(s) && Run(s, steps, s') && Enabled(s', p, ForkStep) && s'.procs[p].act.i >= |s'.procs[p].ofile|
    ensures s'.procs[s'.procs[p].act.child].ofile == s'.procs[p].ofile
  {
    InitInv(s);
    RunInv(s, steps, s');
    assert ProcOk(s', p) && ProcOk(s', s'.procs[p].act.child);
  }
}

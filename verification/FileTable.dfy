/** Open files: kernel/file.c, the descriptor tables of kernel/sysfile.c, the
    ends of pipes in kernel/pipe.c, and what fork and exit do to them.  A step is
    a section under ftable.lock or a pipe lock, or a change to a process's own
    table; processes interleave freely. */
module FileTable {
  import opened Prelude

  /** What a struct file stands for. */
  datatype Kind = NoFile | InodeFile | PipeEnd(pipe: nat, writable: bool)

  datatype File = File(ref: int, kind: Kind)

  /** A pipe page: which ends are open, and how often it was given to kfree. */
  datatype Pipe = Pipe(readopen: bool, writeopen: bool, freed: nat) {
    predicate Open(writable: bool) { if writable then writeopen else readopen }

    function Closed(writable: bool): Pipe {
      var p := if writable then this.(writeopen := false) else this.(readopen := false);
      if !p.readopen && !p.writeopen then p.(freed := freed + 1) else p
    }
  }

  /** Where a process is in a system call on files. */
  datatype Act =
    | Unused                                     // no process in this slot
    | Embryo                                     // being filled by fork
    | Idle
    | Dup(f: nat)                                // sys_dup: slot filled, filedup to come
    | Open1(f: nat)                              // sys_open: file allocated
    | Open2(f: nat)                              // sys_open: slot filled, type to come
    | Pipe1(f: nat)                              // pipealloc: first file allocated
    | Pipe2(f: nat, g: nat)                      // pipealloc: both files allocated
    | Pipe3(f: nat, g: nat)                      // sys_pipe: pipe made, no slot filled
    | Pipe4(f: nat, g: nat, fd: nat)             // sys_pipe: first slot filled
    | Forking(child: nat, i: nat)                // fork: slots below i copied
    | Closing(fs: seq<nat>)                      // fileclose of each of these to come
    | PipeClosing(pipe: nat, writable: bool, fs: seq<nat>) // fileclose: pipeclose to come

  datatype Proc = Proc(ofile: seq<Option<nat>>, act: Act)

  datatype State = State(files: seq<File>, procs: seq<Proc>, pipes: seq<Pipe>)

  datatype Step =
    | SysDup(fd: nat, to: nat)
    | DupRef
    | SysClose(fd: nat)
    | FileClose
    | PipeClose
    | CloseDone
    | OpenAlloc(f: nat)
    | OpenSlot(fd: nat)
    | OpenType
    | PipeAlloc(f: nat)      // the first or the second file
    | PipeMake               // kalloc of the page, types set
    | PipeSlot(fd: nat)      // the first or the second slot
    | GiveUp                 // any of the failure paths of open and pipe
    | Fork(child: nat)
    | ForkStep
    | ExitDone

  /** fdalloc would choose slot fd. */
  predicate FirstFree(ofile: seq<Option<nat>>, fd: nat) {
    fd < |ofile| && ofile[fd].None? && forall k: nat :: k < fd ==> ofile[k].Some?
  }

  /** filealloc would choose file f. */
  predicate FirstUnused(files: seq<File>, f: nat) {
    f < |files| && files[f].ref == 0 && forall k: nat :: k < f ==> files[k].ref != 0
  }

  /** An allocation that open or pipe needs next can fail: there is no unused
      file, no page (at any time), or no free slot. */
  predicate MayGiveUp(s: State, pr: Proc) {
    match pr.act
    case Pipe1(_) => forall f: nat :: f < |s.files| ==> s.files[f].ref != 0
    case Pipe2(_, _) => true
    case Open1(_) => forall k: nat :: k < |pr.ofile| ==> pr.ofile[k].Some?
    case Pipe3(_, _) => forall k: nat :: k < |pr.ofile| ==> pr.ofile[k].Some?
    case Pipe4(_, _, fd) => fd < |pr.ofile| && forall k: nat :: k < |pr.ofile| ==> pr.ofile[k].Some?
    case _ => false
  }

  predicate Enabled(s: State, p: nat, st: Step) {
    p < |s.procs| &&
    var pr := s.procs[p];
    match st
    case SysDup(fd, to) => pr.act.Idle? && fd < |pr.ofile| && pr.ofile[fd].Some? && FirstFree(pr.ofile, to)
    case DupRef => pr.act.Dup? && pr.act.f < |s.files|
    case SysClose(fd) => pr.act.Idle? && fd < |pr.ofile| && pr.ofile[fd].Some?
    case FileClose => pr.act.Closing? && pr.act.fs != [] && pr.act.fs[0] < |s.files|
    case PipeClose => pr.act.PipeClosing? && pr.act.pipe < |s.pipes|
    case CloseDone => pr.act.Closing? && pr.act.fs == []
    case OpenAlloc(f) => pr.act.Idle? && FirstUnused(s.files, f)
    case OpenSlot(fd) => pr.act.Open1? && FirstFree(pr.ofile, fd)
    case OpenType => pr.act.Open2? && pr.act.f < |s.files|
    case PipeAlloc(f) => (pr.act.Idle? || pr.act.Pipe1?) && FirstUnused(s.files, f)
    case PipeMake => pr.act.Pipe2? && pr.act.f < |s.files| && pr.act.g < |s.files|
    case PipeSlot(fd) => (pr.act.Pipe3? || pr.act.Pipe4?) && FirstFree(pr.ofile, fd)
    case GiveUp => MayGiveUp(s, pr)
    case Fork(c) => pr.act.Idle? && c < |s.procs| && s.procs[c].act.Unused?
    case ForkStep =>
      && pr.act.Forking? && pr.act.child < |s.procs| && pr.act.child != p
      && (pr.act.i < |pr.ofile| ==>
            && pr.act.i < |s.procs[pr.act.child].ofile|
            && (pr.ofile[pr.act.i].Some? ==> pr.ofile[pr.act.i].value < |s.files|))
    case ExitDone => pr.act.Idle? && forall k: nat :: k < |pr.ofile| ==> pr.ofile[k].None?
  }

  function SetProc(s: State, p: nat, pr: Proc): State
    requires p < |s.procs|
  {
    s.(procs := s.procs[p := pr])
  }

  function SetFile(s: State, f: nat, file: File): State
    requires f < |s.files|
  {
    s.(files := s.files[f := file])
  }

  /** fileclose of the first file on the list: the last reference closes it. */
  function DoFileClose(s: State, p: nat): State
    requires Enabled(s, p, FileClose)
  {
    var pr := s.procs[p];
    var f, rest := pr.act.fs[0], pr.act.fs[1..];
    var file := s.files[f];
    if file.ref > 1 then SetFile(SetProc(s, p, pr.(act := Closing(rest))), f, file.(ref := file.ref - 1))
    else
      var act := if file.kind.PipeEnd? then PipeClosing(file.kind.pipe, file.kind.writable, rest) else Closing(rest);
      SetFile(SetProc(s, p, pr.(act := act)), f, File(0, NoFile))
  }

  /** The rest of pipealloc once it has both files and a page. */
  function DoPipeMake(s: State, p: nat): State
    requires Enabled(s, p, PipeMake)
  {
    var act := s.procs[p].act;
    var n := |s.pipes|;
    var files := s.files[act.f := s.files[act.f].(kind := PipeEnd(n, false))];
    SetProc(s, p, s.procs[p].(act := Pipe3(act.f, act.g)))
    .(files := files[act.g := files[act.g].(kind := PipeEnd(n, true))], pipes := s.pipes + [Pipe(true, true, 0)])
  }

  /** The failure paths: what is held is closed again. */
  function GivenUp(pr: Proc): Proc
    requires pr.act.Open1? || pr.act.Pipe1? || pr.act.Pipe2? || pr.act.Pipe3? || (pr.act.Pipe4? && pr.act.fd < |pr.ofile|)
  {
    match pr.act
    case Open1(f) => pr.(act := Closing([f]))
    case Pipe1(f) => pr.(act := Closing([f]))
    case Pipe2(f, g) => pr.(act := Closing([f, g]))
    case Pipe3(f, g) => pr.(act := Closing([f, g]))
    case Pipe4(f, g, fd) => Proc(pr.ofile[fd := None], Closing([f, g]))
  }

  function Do(s: State, p: nat, st: Step): State
    requires Enabled(s, p, st)
  {
    var pr := s.procs[p];
    match st
    case SysDup(fd, to) => SetProc(s, p, Proc(pr.ofile[to := pr.ofile[fd]], Dup(pr.ofile[fd].value)))
    case DupRef => SetFile(SetProc(s, p, pr.(act := Idle)), pr.act.f, s.files[pr.act.f].(ref := s.files[pr.act.f].ref + 1))
    case SysClose(fd) => SetProc(s, p, Proc(pr.ofile[fd := None], Closing([pr.ofile[fd].value])))
    case FileClose => DoFileClose(s, p)
    case PipeClose =>
      SetProc(s, p, pr.(act := Closing(pr.act.fs)))
      .(pipes := s.pipes[pr.act.pipe := s.pipes[pr.act.pipe].Closed(pr.act.writable)])
    case CloseDone => SetProc(s, p, pr.(act := Idle))
    case OpenAlloc(f) => SetFile(SetProc(s, p, pr.(act := Open1(f))), f, s.files[f].(ref := 1))
    case OpenSlot(fd) => SetProc(s, p, Proc(pr.ofile[fd := Some(pr.act.f)], Open2(pr.act.f)))
    case OpenType => SetFile(SetProc(s, p, pr.(act := Idle)), pr.act.f, s.files[pr.act.f].(kind := InodeFile))
    case PipeAlloc(f) =>
      SetFile(SetProc(s, p, pr.(act := if pr.act.Idle? then Pipe1(f) else Pipe2(pr.act.f, f))), f, s.files[f].(ref := 1))
    case PipeMake => DoPipeMake(s, p)
    case PipeSlot(fd) =>
      if pr.act.Pipe3? then SetProc(s, p, Proc(pr.ofile[fd := Some(pr.act.f)], Pipe4(pr.act.f, pr.act.g, fd)))
      else SetProc(s, p, Proc(pr.ofile[fd := Some(pr.act.g)], Idle))
    case GiveUp => SetProc(s, p, GivenUp(pr))
    case Fork(c) => SetProc(SetProc(s, c, s.procs[c].(act := Embryo)), p, pr.(act := Forking(c, 0)))
    case ForkStep =>
      var c, i := pr.act.child, pr.act.i;
      var child := s.procs[c];
      if i >= |pr.ofile| then SetProc(SetProc(s, c, child.(act := Idle)), p, pr.(act := Idle))
      else
        var s1 := SetProc(s, p, pr.(act := Forking(c, i + 1)));
        if pr.ofile[i].None? then s1
        else
          var f := pr.ofile[i].value;
          SetFile(SetProc(s1, c, child.(ofile := child.ofile[i := Some(f)])), f, s.files[f].(ref := s.files[f].ref + 1))
    case ExitDone => SetProc(s, p, pr.(act := Unused))
  }

  /** No file is open. */
  ghost predicate Init(s: State) {
    && (forall f: nat :: f < |s.files| ==> s.files[f] == File(0, NoFile))
    && s.pipes == []
    && forall p: nat :: p < |s.procs| ==>
         (s.procs[p].act.Idle? || s.procs[p].act.Unused?)
         && |s.procs[p].ofile| == |s.procs[0].ofile|
         && forall k: nat :: k < |s.procs[p].ofile| ==> s.procs[p].ofile[k].None?
  }

  // ---------- The two scanning loops ----------

  method FileAlloc(files: array<File>) returns (r: Option<nat>)
    modifies files
    ensures r.Some? ==>
              && FirstUnused(old(files[..]), r.value)
              && files[..] == old(files[..])[r.value := old(files[..])[r.value].(ref := 1)]
    ensures r.None? ==> files[..] == old(files[..]) && forall f: nat :: f < files.Length ==> files[f].ref != 0
  {
    for f := 0 to files.Length
      invariant files[..] == old(files[..])
      invariant forall k: nat :: k < f ==> files[k].ref != 0
    {
      if files[f].ref == 0 {
        files[f] := files[f].(ref := 1);
        return Some(f);
      }
    }
    return None;
  }

  method FdAlloc(ofile: array<Option<nat>>, f: nat) returns (fd: int)
    modifies ofile
    ensures fd >= 0 ==> FirstFree(old(ofile[..]), fd) && ofile[..] == old(ofile[..])[fd := Some(f)]
    ensures fd < 0 ==> fd == -1 && ofile[..] == old(ofile[..]) && forall k: nat :: k < ofile.Length ==> ofile[k].Some?
  {
    for i := 0 to ofile.Length
      invariant ofile[..] == old(ofile[..])
      invariant forall k: nat :: k < i ==> ofile[k].Some?
    {
      if ofile[i].None? {
        ofile[i] := Some(f);
        return i;
      }
    }
    return -1;
  }
}

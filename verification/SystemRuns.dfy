/** Every run of file, tag and directory calls on one disk, mixed in any way, does
    what the same run does to flat files, tag maps and name maps; and such a run
    may start from an image that mkfs has made. */
module SystemRuns {
  import opened Prelude
  import opened Bytes
  import opened Layout
  import opened Ownership
  import FS = FileSystem
  import opened Tags
  import D = Directory
  import FR = FileRuns
  import Mkfs

  datatype Call =
    | OnFile(op: FR.Op)
    | Lookup(dir: nat, name: seq<byte>)
    | Link(dir: nat, name: seq<byte>, inum: uint32)
    | Unlink(dir: nat, name: seq<byte>)

  datatype Answer = Replied(reply: FR.Reply) | Found(inum: Option<nat>) | Returned(r: int)

  ghost function Kinds(inodes: seq<Inode>): (r: seq<FileKind>)
    ensures |r| == |inodes| && forall j: nat :: j < |r| ==> r[j] == inodes[j].kind
  {
    seq(|inodes|, j requires 0 <= j < |inodes| => inodes[j].kind)
  }

  /** Directories are directories. */
  ghost predicate DirsOk(s: FR.Flat, kinds: seq<FileKind>) {
    && s.Ok() && |kinds| == |s.files|
    && forall d: nat :: d < |kinds| && kinds[d] == DirInode ==> D.DirOk(s.files[d])
  }

  ghost predicate IsDirectory(kinds: seq<FileKind>, d: nat, name: seq<byte>) {
    d < |kinds| && kinds[d] == DirInode && 0 !in name
  }

  /** What a caller has to see to: system calls write bytes only to files, names
      are C strings, and what an unlinked name stands for is an inode. */
  ghost predicate Proper(s: FR.Flat, kinds: seq<FileKind>, ofile: seq<Option<OpenFile>>, call: Call)
    requires DirsOk(s, kinds)
  {
    match call
    case OnFile(op) =>
      && FR.Proper(|s.files|, ofile, op)
      && (op.Read? ==> kinds[op.ino] != DevInode)
      && (op.Write? || op.Truncate? ==> kinds[op.ino] == FileInode)
    case Lookup(d, name) => IsDirectory(kinds, d, name)
    case Link(d, name, _) => IsDirectory(kinds, d, name)
    case Unlink(d, name) => IsDirectory(kinds, d, name) && NamesInode(s, kinds, d, name)
  }

  ghost predicate NamesInode(s: FR.Flat, kinds: seq<FileKind>, d: nat, name: seq<byte>)
    requires DirsOk(s, kinds) && IsDirectory(kinds, d, name)
  {
    var m := D.DirMap(s.files[d]);
    D.Trunc(name) in m ==> m[D.Trunc(name)] < |kinds|
  }

  ghost predicate Refuses(s: FR.Flat, kinds: seq<FileKind>, d: nat, name: seq<byte>)
    requires DirsOk(s, kinds) && IsDirectory(kinds, d, name) && NamesInode(s, kinds, d, name)
  {
    var m, key := D.DirMap(s.files[d]), D.Trunc(name);
    || key == D.DOT || key == D.DOTDOT || key !in m
    || (kinds[m[key]] == DirInode && !D.EmptyDir(s.files[m[key]]))
  }

  /** File i has the bytes f from now on, and pays for them in blocks. */
  function SetFile(s: FR.Flat, i: nat, f: seq<byte>): FR.Flat
    requires s.Ok() && i < |s.files|
  {
    s.(files := s.files[i := f], free := s.free - (Blocks(|f|) - Blocks(|s.files[i]|)))
  }

  ghost function After(s: FR.Flat, kinds: seq<FileKind>, ofile: seq<Option<OpenFile>>, call: Call): (s': FR.Flat)
    requires DirsOk(s, kinds) && Proper(s, kinds, ofile, call)
    ensures DirsOk(s', kinds)
  {
    match call
    case OnFile(op) => FR.After(s, ofile, op)
    case Lookup(_, _) => s
    case Link(d, name, inum) =>
      LinkKeepsDir(s.files[d], name, inum);
      SetFile(s, d, D.Linked(s.files[d], name, inum))
    case Unlink(d, name) =>
      UnlinkKeepsDir(s.files[d], name);
      if Refuses(s, kinds, d, name) then s else SetFile(s, d, D.Unlinked(s.files[d], name))
  }

  lemma LinkKeepsDir(f: seq<byte>, name: seq<byte>, inum: nat)
    requires D.DirOk(f) && 0 !in name
    ensures D.DirOk(D.Linked(f, name, inum))
    ensures D.DirMap(D.Linked(f, name, inum)) == D.Apply(D.DirMap(f), D.Link(name, inum))
  {
    D.LinkedPerforms(f, name, inum);
    D.Performed(f, D.Link(name, inum), D.Linked(f, name, inum));
  }

  lemma UnlinkKeepsDir(f: seq<byte>, name: seq<byte>)
    requires D.DirOk(f) && 0 !in name
    ensures D.DirOk(D.Unlinked(f, name))
    ensures D.DirMap(D.Unlinked(f, name)) == D.Apply(D.DirMap(f), D.Clear(name))
  {
    D.UnlinkedPerforms(f, name);
    D.Performed(f, D.Clear(name), D.Unlinked(f, name));
  }

  ghost predicate Answers(s: FR.Flat, kinds: seq<FileKind>, ofile: seq<Option<OpenFile>>, call: Call, a: Answer)
    requires DirsOk(s, kinds) && Proper(s, kinds, ofile, call)
  {
    match call
    case OnFile(op) => a.Replied? && FR.Answers(s, ofile, op, a.reply)
    case Lookup(d, name) =>
      var m := D.DirMap(s.files[d]);
      a == Found(if D.Trunc(name) in m then Some(m[D.Trunc(name)]) else None)
    case Link(d, name, inum) => a == Returned(if D.Trunc(name) in D.DirMap(s.files[d]) then -1 else 0)
    case Unlink(d, name) => a == Returned(if Refuses(s, kinds, d, name) then -1 else 0)
  }

  /** There are blocks enough, and no directory outgrows the largest file, where
      balloc and dirlink panic. */
  ghost predicate Fits(s: FR.Flat, kinds: seq<FileKind>, ofile: seq<Option<OpenFile>>, call: Call)
    requires DirsOk(s, kinds) && Proper(s, kinds, ofile, call)
  {
    && After(s, kinds, ofile, call).free >= 0
    && (call.Link? ==> |D.Linked(s.files[call.dir], call.name, call.inum)| <= MAXBYTES)
  }

  ghost predicate RunFits(s: FR.Flat, kinds: seq<FileKind>, ofile: seq<Option<OpenFile>>, calls: seq<Call>)
    requires DirsOk(s, kinds)
    decreases |calls|
  {
    calls != [] ==>
      && Proper(s, kinds, ofile, calls[0]) && Fits(s, kinds, ofile, calls[0])
      && RunFits(After(s, kinds, ofile, calls[0]), kinds, ofile, calls[1..])
  }

  ghost function AfterAll(s: FR.Flat, kinds: seq<FileKind>, ofile: seq<Option<OpenFile>>, calls: seq<Call>): (s': FR.Flat)
    requires DirsOk(s, kinds) && RunFits(s, kinds, ofile, calls)
    ensures DirsOk(s', kinds)
    decreases |calls|
  {
    if calls == [] then s else AfterAll(After(s, kinds, ofile, calls[0]), kinds, ofile, calls[1..])
  }

  ghost predicate AllAnswer(s: FR.Flat, kinds: seq<FileKind>, ofile: seq<Option<OpenFile>>, calls: seq<Call>, answers: seq<Answer>)
    requires DirsOk(s, kinds) && RunFits(s, kinds, ofile, calls)
    decreases |calls|
  {
    && |answers| == |calls|
    && (calls != [] ==>
          && Answers(s, kinds, ofile, calls[0], answers[0])
          && AllAnswer(After(s, kinds, ofile, calls[0]), kinds, ofile, calls[1..], answers[1..]))
  }

  // ---------- The calls on the disk ----------

  ghost predicate Sound(fs: FS.FileSystem)
    reads fs
  {
    Ready(fs) && DirsOk(FR.Flatten(fs.S()), Kinds(fs.inodes))
  }

  lemma SameKinds(a: seq<Inode>, b: seq<Inode>)
    requires |a| == |b| && forall j: nat :: j < |a| ==> b[j].kind == a[j].kind
    ensures Kinds(b) == Kinds(a)
  {
  }

  /** A directory call, seen on flat files. */
  lemma DirStep(s: State, s': State, i: nat)
    requires TagsValid(s) && D.OnlyFile(s, s', i) && i < |s.inodes|
    requires |s'.Free()| == |s.Free()| - (Blocks(s'.inodes[i].size) - Blocks(s.inodes[i].size))
    ensures TagsValid(s') && Kinds(s'.inodes) == Kinds(s.inodes)
    ensures FR.Flatten(s') == SetFile(FR.Flatten(s), i, FileBytes(s'.disk, s'.inodes[i], s'.inodes[i].size))
  {
    FR.BytesStep(s, s', i);
    SameKinds(s.inodes, s'.inodes);
  }

  lemma LinkRoom(fs: FS.FileSystem, d: nat, name: seq<byte>, inum: uint32)
    requires D.IsDir(fs, d) && 0 !in name
    requires var f' := D.Linked(fs.Content(d), name, inum);
             |f'| <= MAXBYTES && Blocks(|f'|) - Blocks(fs.inodes[d].size) <= |fs.S().Free()|
    ensures D.Trunc(name) !in D.DirMap(fs.Content(d)) ==> D.Room(fs, d)
  {
    if D.Trunc(name) !in D.DirMap(fs.Content(d)) {
      var f := fs.Content(d);
      var e := D.FirstEmpty(f);
      D.FirstEmptyFits(f);
      hide State.Inv, State.Tight, D.DirMap, Blocks, FileBytes, D.Trunc;
      assert D.ENTRY * e < |f| ==> !D.Live(f, e);
    }
  }

  /** dirlink on flat files. */
  method LinkFlat(fs: FS.FileSystem, d: nat, name: seq<byte>, inum: uint32) returns (r: int)
    requires Ready(fs) && D.IsDir(fs, d) && 0 !in name
    requires var f' := D.Linked(fs.Content(d), name, inum);
             |f'| <= MAXBYTES && Blocks(|f'|) - Blocks(fs.inodes[d].size) <= |fs.S().Free()|
    modifies fs
    ensures Ready(fs) && Kinds(fs.inodes) == old(Kinds(fs.inodes))
    ensures FR.Flatten(fs.S()) == SetFile(old(FR.Flatten(fs.S())), d, D.Linked(old(fs.Content(d)), name, inum))
    ensures r == if D.Trunc(name) in D.DirMap(old(fs.Content(d))) then -1 else 0
  {
    ghost var s := fs.S();
    LinkRoom(fs, d, name, inum);
    hide State.Inv, State.Tight, ByteAt, TagsValid, FR.Flatten, D.DirMap, D.DirOk, D.Trunc, FileBytes;
    hide D.Room, D.Linked, D.OnlyFile;
    r := D.DirLink(fs, d, name, inum);
    DirStep(s, fs.S(), d);
  }

  /** unlink on flat files. */
  method UnlinkFlat(fs: FS.FileSystem, d: nat, name: seq<byte>) returns (r: int)
    requires Ready(fs) && D.IsDir(fs, d) && 0 !in name && D.NamesInode(fs, d, name)
    modifies fs
    ensures Ready(fs) && Kinds(fs.inodes) == old(Kinds(fs.inodes))
    ensures r == if old(D.Refuses(fs, d, name)) then -1 else 0
    ensures FR.Flatten(fs.S()) == if r == -1 then old(FR.Flatten(fs.S()))
                                  else SetFile(old(FR.Flatten(fs.S())), d, D.Unlinked(old(fs.Content(d)), name))
  {
    ghost var s := fs.S();
    hide State.Inv, State.Tight, ByteAt, TagsValid, FR.Flatten, D.DirMap, D.DirOk, D.Trunc, FileBytes;
    hide D.Unlinked, D.OnlyFile, D.Refuses, D.NamesInode;
    r := D.Unlink(fs, d, name);
    DirStep(s, fs.S(), d);
  }

  method DoLink(fs: FS.FileSystem, ghost ofile: seq<Option<OpenFile>>, d: nat, name: seq<byte>, inum: uint32) returns (r: int)
    requires Sound(fs) && Proper(FR.Flatten(fs.S()), Kinds(fs.inodes), ofile, Link(d, name, inum))
    requires Fits(FR.Flatten(fs.S()), Kinds(fs.inodes), ofile, Link(d, name, inum))
    modifies fs
    ensures Sound(fs) && Kinds(fs.inodes) == old(Kinds(fs.inodes))
    ensures FR.Flatten(fs.S()) == After(old(FR.Flatten(fs.S())), old(Kinds(fs.inodes)), ofile, Link(d, name, inum))
    ensures Answers(old(FR.Flatten(fs.S())), old(Kinds(fs.inodes)), ofile, Link(d, name, inum), Returned(r))
  {
    assert FR.Flatten(fs.S()).files[d] == fs.Content(d);
    hide State.Inv, State.Tight, TagsValid, FR.Flatten, D.DirMap, D.DirOk, D.Trunc, FileBytes, D.Linked, Blocks;
    r := LinkFlat(fs, d, name, inum);
  }

  method DoUnlink(fs: FS.FileSystem, ghost ofile: seq<Option<OpenFile>>, d: nat, name: seq<byte>) returns (r: int)
    requires Sound(fs) && Proper(FR.Flatten(fs.S()), Kinds(fs.inodes), ofile, Unlink(d, name))
    modifies fs
    ensures Sound(fs) && Kinds(fs.inodes) == old(Kinds(fs.inodes))
    ensures FR.Flatten(fs.S()) == After(old(FR.Flatten(fs.S())), old(Kinds(fs.inodes)), ofile, Unlink(d, name))
    ensures Answers(old(FR.Flatten(fs.S())), old(Kinds(fs.inodes)), ofile, Unlink(d, name), Returned(r))
  {
    SameRefusal(fs, d, name);
    AfterUnlink(FR.Flatten(fs.S()), Kinds(fs.inodes), ofile, d, name);
    hide After, Answers, Proper, State.Inv, State.Tight, TagsValid, FR.Flatten, D.DirMap, D.DirOk, D.Trunc, FileBytes;
    hide D.Unlinked, Blocks, D.Refuses, Refuses, D.NamesInode, NamesInode, FS.FileSystem.Valid, DirsOk, SetFile;
    r := UnlinkFlat(fs, d, name);
  }

  lemma AfterUnlink(s: FR.Flat, kinds: seq<FileKind>, ofile: seq<Option<OpenFile>>, d: nat, name: seq<byte>)
    requires DirsOk(s, kinds) && Proper(s, kinds, ofile, Unlink(d, name))
    ensures IsDirectory(kinds, d, name) && NamesInode(s, kinds, d, name)
    ensures var r := if Refuses(s, kinds, d, name) then -1 else 0;
            && DirsOk(After(s, kinds, ofile, Unlink(d, name)), kinds)
            && After(s, kinds, ofile, Unlink(d, name)) == (if r == -1 then s else SetFile(s, d, D.Unlinked(s.files[d], name)))
            && Answers(s, kinds, ofile, Unlink(d, name), Returned(r))
  {
    hide D.DirMap, D.DirOk, D.Trunc, D.Unlinked, Refuses, NamesInode;
  }

  lemma SameRefusal(fs: FS.FileSystem, d: nat, name: seq<byte>)
    requires Sound(fs) && IsDirectory(Kinds(fs.inodes), d, name)
    requires NamesInode(FR.Flatten(fs.S()), Kinds(fs.inodes), d, name)
    ensures FR.Flatten(fs.S()).files[d] == fs.Content(d) && D.IsDir(fs, d) && D.NamesInode(fs, d, name)
    ensures Refuses(FR.Flatten(fs.S()), Kinds(fs.inodes), d, name) <==> D.Refuses(fs, d, name)
  {
    var a, m, key := FR.Flatten(fs.S()), D.DirMap(fs.Content(d)), D.Trunc(name);
    assert a.files[d] == fs.Content(d);
    if key in m {
      var j := m[key];
      assert a.files[j] == fs.Content(j);
      if fs.inodes[j].kind == DirInode {
        D.DirFits(a.files[j]);
      }
    }
    hide State.Inv, State.Tight, D.DirMap, D.Trunc, D.DirOk, D.EmptyDir, FR.Flatten;
  }

  method DoLookup(fs: FS.FileSystem, ghost ofile: seq<Option<OpenFile>>, d: nat, name: seq<byte>) returns (a: Answer)
    requires Sound(fs) && Proper(FR.Flatten(fs.S()), Kinds(fs.inodes), ofile, Lookup(d, name))
    modifies fs
    ensures fs.S() == old(fs.S()) && Sound(fs)
    ensures Answers(FR.Flatten(fs.S()), Kinds(fs.inodes), ofile, Lookup(d, name), a)
  {
    assert FR.Flatten(fs.S()).files[d] == fs.Content(d);
    hide State.Inv, State.Tight, TagsValid, FR.Flatten, D.DirMap, D.DirOk, D.Trunc, FileBytes;
    var found := D.DirLookup(fs, d, name);
    a := Found(if found.Some? then Some(found.value.0) else None);
  }

  method DoOnFile(fs: FS.FileSystem, ofile: seq<Option<OpenFile>>, op: FR.Op) returns (reply: FR.Reply)
    requires Sound(fs) && Proper(FR.Flatten(fs.S()), Kinds(fs.inodes), ofile, OnFile(op))
    requires Fits(FR.Flatten(fs.S()), Kinds(fs.inodes), ofile, OnFile(op))
    modifies fs
    ensures Sound(fs) && Kinds(fs.inodes) == old(Kinds(fs.inodes))
    ensures FR.Flatten(fs.S()) == After(old(FR.Flatten(fs.S())), old(Kinds(fs.inodes)), ofile, OnFile(op))
    ensures FR.Answers(old(FR.Flatten(fs.S())), ofile, op, reply)
  {
    ghost var inodes := fs.inodes;
    hide State.Inv, State.Tight, TagsValid, FR.Flatten, FR.After, FR.Answers, FR.Proper, D.DirOk;
    reply := FR.Do(fs, ofile, op);
    SameKinds(inodes, fs.inodes);
  }

  /** One call on the disk is the same call on flat files and maps. */
  method Do(fs: FS.FileSystem, ofile: seq<Option<OpenFile>>, call: Call) returns (a: Answer)
    requires Sound(fs) && Proper(FR.Flatten(fs.S()), Kinds(fs.inodes), ofile, call)
    requires Fits(FR.Flatten(fs.S()), Kinds(fs.inodes), ofile, call)
    modifies fs
    ensures Sound(fs) && Kinds(fs.inodes) == old(Kinds(fs.inodes))
    ensures FR.Flatten(fs.S()) == After(old(FR.Flatten(fs.S())), old(Kinds(fs.inodes)), ofile, call)
    ensures Answers(old(FR.Flatten(fs.S())), old(Kinds(fs.inodes)), ofile, call, a)
  {
    hide FR.Flatten, FR.After, FR.Answers, FR.Proper, D.DirOk, D.DirMap, Ready, Refuses, D.Linked, D.Unlinked;
    match call {
      case OnFile(op) =>
        var reply := DoOnFile(fs, ofile, op);
        a := Replied(reply);
      case Lookup(d, name) =>
        a := DoLookup(fs, ofile, d, name);
      case Link(d, name, inum) =>
        var r := DoLink(fs, ofile, d, name, inum);
        a := Returned(r);
      case Unlink(d, name) =>
        var r := DoUnlink(fs, ofile, d, name);
        a := Returned(r);
    }
  }

  /** The refinement, over every run that does not panic. */
  method Run(fs: FS.FileSystem, ofile: seq<Option<OpenFile>>, calls: seq<Call>) returns (answers: seq<Answer>)
    requires Sound(fs) && RunFits(FR.Flatten(fs.S()), Kinds(fs.inodes), ofile, calls)
    modifies fs
    ensures Sound(fs) && Kinds(fs.inodes) == old(Kinds(fs.inodes))
    ensures FR.Flatten(fs.S()) == AfterAll(old(FR.Flatten(fs.S())), old(Kinds(fs.inodes)), ofile, calls)
    ensures AllAnswer(old(FR.Flatten(fs.S())), old(Kinds(fs.inodes)), ofile, calls, answers)
    decreases |calls|
  {
    hide FR.Flatten, After, Answers, Proper, Fits, Ready, Kinds;
    if calls == [] {
      return [];
    }
    var a := Do(fs, ofile, calls[0]);
    var more := Run(fs, ofile, calls[1..]);
    answers := [a] + more;
    assert answers[1..] == more;
  }

  // ---------- Names ----------

  /** What a call does to the names of directory d. */
  ghost function NamesAfter(s: FR.Flat, kinds: seq<FileKind>, d: nat, m: map<seq<byte>, nat>, call: Call): map<seq<byte>, nat>
    requires DirsOk(s, kinds)
  {
    if call.Link? && call.dir == d then D.Apply(m, D.Link(call.name, call.inum))
    else if call.Unlink? && call.dir == d && IsDirectory(kinds, d, call.name) && NamesInode(s, kinds, d, call.name)
            && !Refuses(s, kinds, d, call.name) then D.Apply(m, D.Clear(call.name))
    else m
  }

  /** Directories change by the calls that name them, as maps do, and by no other;
      files change by no directory call. */
  lemma NamesFollow(s: FR.Flat, kinds: seq<FileKind>, ofile: seq<Option<OpenFile>>, call: Call, d: nat)
    requires DirsOk(s, kinds) && Proper(s, kinds, ofile, call) && d < |kinds|
    ensures kinds[d] == DirInode ==>
              D.DirMap(After(s, kinds, ofile, call).files[d]) == NamesAfter(s, kinds, d, D.DirMap(s.files[d]), call)
    ensures kinds[d] != DirInode && !call.OnFile? ==> After(s, kinds, ofile, call).files[d] == s.files[d]
    ensures !call.OnFile? ==> After(s, kinds, ofile, call).tags == s.tags
  {
    hide D.DirMap, D.DirOk, D.Apply, Refuses, NamesInode, FR.Proper;
    match call
    case OnFile(op) =>
    case Lookup(_, _) =>
    case Link(e, name, inum) =>
      LinkKeepsDir(s.files[e], name, inum);
    case Unlink(e, name) =>
      UnlinkKeepsDir(s.files[e], name);
  }

  ghost function NamesAll(s: FR.Flat, kinds: seq<FileKind>, ofile: seq<Option<OpenFile>>, d: nat,
                          m: map<seq<byte>, nat>, calls: seq<Call>): map<seq<byte>, nat>
    requires DirsOk(s, kinds) && RunFits(s, kinds, ofile, calls)
    decreases |calls|
  {
    if calls == [] then m
    else NamesAll(After(s, kinds, ofile, calls[0]), kinds, ofile, d, NamesAfter(s, kinds, d, m, calls[0]), calls[1..])
  }

  lemma {:induction false} NamesOverRun(s: FR.Flat, kinds: seq<FileKind>, ofile: seq<Option<OpenFile>>, calls: seq<Call>, d: nat)
    requires DirsOk(s, kinds) && RunFits(s, kinds, ofile, calls) && d < |kinds| && kinds[d] == DirInode
    ensures D.DirMap(AfterAll(s, kinds, ofile, calls).files[d]) == NamesAll(s, kinds, ofile, d, D.DirMap(s.files[d]), calls)
    decreases |calls|
  {
    hide D.DirMap, D.DirOk, After, NamesAfter, Proper, Fits;
    if calls != [] {
      NamesFollow(s, kinds, ofile, calls[0], d);
      NamesOverRun(After(s, kinds, ofile, calls[0]), kinds, ofile, calls[1..], d);
    }
  }

  // ---------- From the image ----------

  /** The files of an image. */
  ghost function Contents(img: Mkfs.Image): FR.Flat
    requires img.Valid()
    reads img
  {
    var s := img.M();
    FR.Flat(seq(|s.inodes|, j requires 0 <= j < |s.inodes| => FileBytes(s.disk, s.inodes[j], s.inodes[j].size)),
            seq(|s.inodes|, _ => map[]), seq(|s.inodes|, _ => false), img.sb.size - img.freeblock)
  }

  /** mkfs, a boot, and any run from there. */
  method BootAndRun(img: Mkfs.Image, ofile: seq<Option<OpenFile>>, calls: seq<Call>)
    returns (fs: FS.FileSystem, answers: seq<Answer>)
    requires img.Valid() && img.usedblocks < BPB && DirsOk(Contents(img), Kinds(img.inodes))
    requires RunFits(Contents(img), Kinds(img.inodes), ofile, calls)
    modifies img`disk
    ensures fresh(fs) && Sound(fs)
    ensures FR.Flatten(fs.S()) == AfterAll(old(Contents(img)), old(Kinds(img.inodes)), ofile, calls)
    ensures AllAnswer(old(Contents(img)), old(Kinds(img.inodes)), ofile, calls, answers)
  {
    ghost var a := Contents(img);
    fs := img.Boot();
    BootFlat(fs.S(), a);
    hide State.Inv, State.Tight, FR.Flatten, RunFits, DirsOk;
    answers := Run(fs, ofile, calls);
  }

  lemma BootFlat(s: State, a: FR.Flat)
    requires (forall j: nat :: j < |s.inodes| ==> s.inodes[j].tags == 0)
    requires a.Ok() && |a.files| == |s.inodes| && a.free == |s.Free()|
    requires forall j: nat :: j < |s.inodes| ==>
               && a.files[j] == FileBytes(s.disk, s.inodes[j], s.inodes[j].size)
               && a.tags[j] == map[] && !a.asked[j]
    ensures TagsValid(s) && FR.Flatten(s) == a
  {
    assert FR.Flatten(s).files == a.files && FR.Flatten(s).tags == a.tags && FR.Flatten(s).asked == a.asked;
  }
}

/** Every run of writei, readi, itrunc and the tag system calls, on any number of
    files, does what the same run does to flat byte sequences and finite maps. */
module FileRuns {
  import opened Prelude
  import opened Bytes
  import opened Layout
  import opened Ownership
  import FS = FileSystem
  import opened TagBlock
  import opened Tags

  datatype Op =
    | Write(ino: nat, src: seq<byte>, off: uint32)
    | Read(ino: nat, off: uint32, n: uint32)
    | Truncate(ino: nat)
    | SetTag(fd: int, key: seq<byte>, value: seq<byte>, length: int)
    | RemoveTag(fd: int, key: seq<byte>)
    | GetTag(fd: int, key: seq<byte>, buffer: seq<byte>, length: int)
    | ListTags(fd: int, maxTag: int)

  datatype Reply = Wrote(r: int) | Got(r: int, bytes: seq<byte>) | Truncated | Tagged(r: int) | Listed(r: int, keys: seq<seq<byte>>)

  /** Files as flat byte sequences, their tags as maps, which of them have been
      asked about tags, and the number of blocks left. */
  datatype Flat = Flat(files: seq<seq<byte>>, tags: seq<map<seq<byte>, seq<byte>>>, asked: seq<bool>, free: int) {
    ghost predicate Ok() { |tags| == |asked| == |files| }
  }

  /** What a caller has to see to: files that exist and C strings. */
  predicate Proper(n: nat, ofile: seq<Option<OpenFile>>, op: Op) {
    match op
    case Write(i, src, _) => i < n && |src| < 0x1_0000_0000
    case Read(i, _, _) => i < n
    case Truncate(i) => i < n
    case SetTag(_, key, value, length) => FilesIn(ofile, n) && 0 !in key && (length <= VALUE ==> length <= |value|)
    case RemoveTag(_, key) => FilesIn(ofile, n) && 0 !in key
    case GetTag(_, key, buffer, length) => FilesIn(ofile, n) && 0 !in key && length <= |buffer|
    case ListTags(_, _) => FilesIn(ofile, n)
  }

  /** The bytes of a file after a write. */
  function Written(f: seq<byte>, src: seq<byte>, off: uint32): seq<byte> {
    if off > |f| || off + |src| >= 0x1_0000_0000 then f
    else FS.Splice(f, off, src[..Max(0, Min(|src|, MAXBYTES - off))])
  }

  /** Asking about the tags of a file for the first time takes a block. */
  function Ask(s: Flat, i: nat): (s': Flat)
    requires s.Ok() && i < |s.files|
    ensures s'.Ok() && |s'.files| == |s.files|
  {
    if s.asked[i] then s else s.(asked := s.asked[i := true], free := s.free - 1)
  }

  /** The state after an operation. */
  function After(s: Flat, ofile: seq<Option<OpenFile>>, op: Op): (s': Flat)
    requires s.Ok() && Proper(|s.files|, ofile, op)
    ensures s'.Ok() && |s'.files| == |s.files|
  {
    match op
    case Write(i, src, off) =>
      var f' := Written(s.files[i], src, off);
      s.(files := s.files[i := f'], free := s.free - (Blocks(|f'|) - Blocks(|s.files[i]|)))
    case Read(_, _, _) => s
    case Truncate(i) => s.(files := s.files[i := []], free := s.free + Blocks(|s.files[i]|))
    case SetTag(fd, key, value, length) =>
      var f := Lookup(ofile, fd);
      if !GoodTag(f, key, length) then s
      else
        var i := f.value.ino;
        var m := s.tags[i];
        if key !in m && |m| == SLOTS then Ask(s, i)
        else Ask(s, i).(tags := s.tags[i := m[key := Pad(value[..length])]])
    case RemoveTag(fd, key) =>
      var f := Lookup(ofile, fd);
      if !Writable(f) then s else s.(tags := s.tags[f.value.ino := s.tags[f.value.ino] - {key}])
    case GetTag(_, _, _, _) => s
    case ListTags(fd, maxTag) =>
      var f := Lookup(ofile, fd);
      if !Readable(f) || maxTag < 0 then s else Ask(s, f.value.ino)
  }

  /** The answers an operation may give. */
  ghost predicate Answers(s: Flat, ofile: seq<Option<OpenFile>>, op: Op, reply: Reply)
    requires s.Ok() && Proper(|s.files|, ofile, op)
  {
    match op
    case Write(i, src, off) =>
      reply == Wrote(if off > |s.files[i]| || off + |src| >= 0x1_0000_0000 then -1 else Min(|src|, MAXBYTES - off))
    case Read(i, off, n) =>
      var f := s.files[i];
      reply == if off > |f| || off + n >= 0x1_0000_0000 then Got(-1, []) else Got(Min(n, |f| - off), f[off..off + Min(n, |f| - off)])
    case Truncate(_) => reply == Truncated
    case SetTag(fd, key, value, length) =>
      var f := Lookup(ofile, fd);
      reply == Tagged(if !GoodTag(f, key, length) || (key !in s.tags[f.value.ino] && |s.tags[f.value.ino]| == SLOTS) then -1 else 1)
    case RemoveTag(fd, key) =>
      var f := Lookup(ofile, fd);
      reply == Tagged(if !Writable(f) || key !in s.tags[f.value.ino] then -1 else 1)
    case GetTag(fd, key, buffer, length) =>
      var f := Lookup(ofile, fd);
      if !Writable(f) || key !in s.tags[f.value.ino] then reply == Got(-1, buffer)
      else
        var v := s.tags[f.value.ino][key];
        |v| == VALUE && var r := ReadLength(v, length, 0); reply == Got(r, if r > length then buffer else v[..r] + buffer[r..])
    case ListTags(fd, maxTag) =>
      var f := Lookup(ofile, fd);
      if !Readable(f) || maxTag < 0 then reply == Listed(-1, [])
      else reply.Listed? && Listing(s.tags[f.value.ino], maxTag, reply.r, reply.keys)
  }

  // ---------- Whole runs ----------

  ghost predicate AllProper(n: nat, ofile: seq<Option<OpenFile>>, ops: seq<Op>) {
    forall k :: 0 <= k < |ops| ==> Proper(n, ofile, ops[k])
  }

  /** The run never asks for a block when there is none, where balloc panics. */
  predicate RunFits(s: Flat, ofile: seq<Option<OpenFile>>, ops: seq<Op>)
    requires s.Ok() && AllProper(|s.files|, ofile, ops)
    decreases |ops|
  {
    ops != [] ==> After(s, ofile, ops[0]).free >= 0 && RunFits(After(s, ofile, ops[0]), ofile, ops[1..])
  }

  function AfterAll(s: Flat, ofile: seq<Option<OpenFile>>, ops: seq<Op>): Flat
    requires s.Ok() && AllProper(|s.files|, ofile, ops)
    decreases |ops|
  {
    if ops == [] then s else AfterAll(After(s, ofile, ops[0]), ofile, ops[1..])
  }

  ghost predicate AllAnswer(s: Flat, ofile: seq<Option<OpenFile>>, ops: seq<Op>, replies: seq<Reply>)
    requires s.Ok() && AllProper(|s.files|, ofile, ops)
    decreases |ops|
  {
    && |replies| == |ops|
    && (ops != [] ==> Answers(s, ofile, ops[0], replies[0]) && AllAnswer(After(s, ofile, ops[0]), ofile, ops[1..], replies[1..]))
  }

  // ---------- The file system as flat files ----------

  ghost function Flatten(s: State): (a: Flat)
    requires TagsValid(s)
    ensures a.Ok() && |a.files| == |s.inodes| && a.free == |s.Free()|
    ensures forall j: nat :: j < |s.inodes| ==> a.files[j] == FileBytes(s.disk, s.inodes[j], s.inodes[j].size)
    ensures forall j: nat :: j < |s.inodes| ==> a.tags[j] == TagMap(s, j) && a.asked[j] == (s.inodes[j].tags != 0)
  {
    Flat(seq(|s.inodes|, j requires 0 <= j < |s.inodes| => FileBytes(s.disk, s.inodes[j], s.inodes[j].size)),
         seq(|s.inodes|, j requires 0 <= j < |s.inodes| => TagMap(s, j)),
         seq(|s.inodes|, j requires 0 <= j < |s.inodes| => s.inodes[j].tags != 0),
         |s.Free()|)
  }

  /** Reads and writes are of files and directories, not of devices. */
  ghost predicate NoDevice(inodes: seq<Inode>, op: Op) {
    (op.Write? || op.Read?) && op.ino < |inodes| ==> inodes[op.ino].kind != DevInode
  }

  lemma KeptMaps(s: State, s': State)
    requires TagsValid(s) && TagsKept(s, s')
    ensures TagsValid(s')
    ensures forall j: nat :: j < |s.inodes| ==> TagMap(s', j) == TagMap(s, j) && s'.inodes[j].tags == s.inodes[j].tags
  {
    forall j: nat | j < |s.inodes| ensures TagOk(s'.disk, s'.inodes[j].tags) {
      assert TagOk(s.disk, s.inodes[j].tags) && TagKept(s.disk, s'.disk, s.inodes[j].tags);
    }
    forall j: nat | j < |s.inodes| ensures TagMap(s', j) == TagMap(s, j) {
      assert TagOk(s.disk, s.inodes[j].tags) && TagKept(s.disk, s'.disk, s.inodes[j].tags);
    }
  }

  lemma SameContents(s: State, s': State, i: nat)
    requires FilesSame(s, s', i) && s.extent == FS.Sizes(s.inodes)
    ensures forall j: nat :: j < |s.inodes| ==>
              FileBytes(s'.disk, s'.inodes[j], s'.inodes[j].size) == FileBytes(s.disk, s.inodes[j], s.inodes[j].size)
  {
  }

  /** A tag operation on inode i, seen on flat files. */
  lemma TagStep(s: State, s': State, i: nat)
    requires TagsValid(s) && TagsValid(s') && FilesSame(s, s', i) && s.extent == FS.Sizes(s.inodes)
    ensures Flatten(s') == Flat(Flatten(s).files, Flatten(s).tags[i := TagMap(s', i)],
                                Flatten(s).asked[i := s'.inodes[i].tags != 0], |s'.Free()|)
  {
    SameContents(s, s', i);
    assert TagOk(s'.disk, s'.inodes[i].tags);
    OtherMaps(s, s', i);
    var a, a' := Flatten(s), Flatten(s');
    assert forall j: nat :: j < |s.inodes| && j != i ==> s'.inodes[j] == s.inodes[j];
    hide FilesSame, TagsValid, TagMap;
    assert a'.files == a.files && a'.tags == a.tags[i := TagMap(s', i)] && a'.asked == a.asked[i := s'.inodes[i].tags != 0];
  }

  /** An operation on the bytes of file i, seen on flat files. */
  lemma BytesStep(s: State, s': State, i: nat)
    requires TagsValid(s) && TagsKept(s, s') && i < |s.inodes|
    requires forall j: nat :: j < |s.inodes| && j != i ==>
               FileBytes(s'.disk, s'.inodes[j], s'.inodes[j].size) == FileBytes(s.disk, s.inodes[j], s.inodes[j].size)
    ensures TagsValid(s')
    ensures Flatten(s') == Flat(Flatten(s).files[i := FileBytes(s'.disk, s'.inodes[i], s'.inodes[i].size)],
                                Flatten(s).tags, Flatten(s).asked, |s'.Free()|)
  {
    KeptMaps(s, s');
    var a, a' := Flatten(s), Flatten(s');
    hide TagsValid, TagMap, TagsKept;
    assert a'.files == a.files[i := FileBytes(s'.disk, s'.inodes[i], s'.inodes[i].size)];
    assert a'.tags == a.tags && a'.asked == a.asked;
  }

  // ---------- Each operation ----------

  method DoWrite(fs: FS.FileSystem, i: nat, src: seq<byte>, off: uint32, ghost ofile: seq<Option<OpenFile>>) returns (r: int)
    requires Ready(fs) && i < |fs.inodes| && fs.inodes[i].kind != DevInode && |src| < 0x1_0000_0000
    requires After(Flatten(fs.S()), ofile, Write(i, src, off)).free >= 0
    modifies fs
    ensures Ready(fs) && |fs.inodes| == |old(fs.inodes)|
    ensures forall j: nat :: j < |fs.inodes| ==> fs.inodes[j].kind == old(fs.inodes[j].kind)
    ensures Flatten(fs.S()) == After(old(Flatten(fs.S())), ofile, Write(i, src, off))
    ensures Answers(old(Flatten(fs.S())), ofile, Write(i, src, off), Wrote(r))
  {
    ghost var s, a := fs.S(), Flatten(fs.S());
    assert InodeOk(fs.disk, fs.owner, i, fs.inodes[i], fs.extent[i]);
    hide State.Inv, State.Tight, ByteAt, InodeOk;
    r := fs.WriteI(i, src, off, |src|);
    forall j: nat | j < |s.inodes| && j != i
      ensures FileBytes(fs.disk, fs.inodes[j], fs.inodes[j].size) == FileBytes(s.disk, s.inodes[j], s.inodes[j].size)
    {
      assert fs.Content(j) == old(fs.Content(j));
    }
    assert fs.Content(i) == Written(a.files[i], src, off);
    BytesStep(s, fs.S(), i);
  }

  method DoRead(fs: FS.FileSystem, i: nat, off: uint32, n: uint32, ghost ofile: seq<Option<OpenFile>>)
    returns (r: int, bytes: seq<byte>)
    requires Ready(fs) && i < |fs.inodes| && fs.inodes[i].kind != DevInode
    modifies fs`disk, fs`inodes, fs`owner, fs`extent
    ensures Ready(fs) && fs.S() == old(fs.S())
    ensures Answers(old(Flatten(fs.S())), ofile, Read(i, off, n), Got(r, bytes))
  {
    hide State.Inv, State.Tight, ByteAt;
    r, bytes := fs.ReadI(i, off, n);
    assert fs.Content(i) == Flatten(fs.S()).files[i];
  }

  method DoTruncate(fs: FS.FileSystem, i: nat, ghost ofile: seq<Option<OpenFile>>)
    requires Ready(fs) && i < |fs.inodes|
    modifies fs
    ensures Ready(fs) && |fs.inodes| == |old(fs.inodes)|
    ensures forall j: nat :: j < |fs.inodes| ==> fs.inodes[j].kind == old(fs.inodes[j].kind)
    ensures Flatten(fs.S()) == After(old(Flatten(fs.S())), ofile, Truncate(i))
  {
    ghost var s := fs.S();
    hide State.Inv, State.Tight, ByteAt;
    fs.ITrunc(i);
    forall j: nat | j < |s.inodes| && j != i
      ensures FileBytes(fs.disk, fs.inodes[j], fs.inodes[j].size) == FileBytes(s.disk, s.inodes[j], s.inodes[j].size)
    {
      assert fs.Content(j) == old(fs.Content(j));
    }
    assert fs.Content(i) == [];
    BytesStep(s, fs.S(), i);
  }

  /** Asking about the tags of file i, and leaving it with the map m. */
  lemma AskStep(s: State, s': State, i: nat, m: map<seq<byte>, seq<byte>>)
    requires TagsValid(s) && TagsValid(s') && FilesSame(s, s', i) && s.extent == FS.Sizes(s.inodes)
    requires TagMap(s', i) == m && s'.inodes[i].tags != 0
    requires |s'.Free()| == |s.Free()| - (if s.inodes[i].tags == 0 then 1 else 0)
    ensures Flatten(s') == Ask(Flatten(s), i).(tags := Flatten(s).tags[i := m])
    ensures m == TagMap(s, i) ==> Flatten(s') == Ask(Flatten(s), i)
  {
    TagStep(s, s', i);
    var a := Flatten(s);
    hide Flatten;
    assert a.asked[i] ==> a.asked[i := true] == a.asked;
    assert m == a.tags[i] ==> a.tags[i := m] == a.tags;
  }

  method DoSetTag(fs: FS.FileSystem, ofile: seq<Option<OpenFile>>, fd: int, key: seq<byte>, value: seq<byte>, length: int)
    returns (r: int)
    requires Ready(fs) && Proper(|fs.inodes|, ofile, SetTag(fd, key, value, length))
    requires After(Flatten(fs.S()), ofile, SetTag(fd, key, value, length)).free >= 0
    modifies fs`disk, fs`inodes, fs`owner
    ensures Ready(fs) && |fs.inodes| == |old(fs.inodes)|
    ensures forall j: nat :: j < |fs.inodes| ==> fs.inodes[j].kind == old(fs.inodes[j].kind)
    ensures Flatten(fs.S()) == After(old(Flatten(fs.S())), ofile, SetTag(fd, key, value, length))
    ensures Answers(old(Flatten(fs.S())), ofile, SetTag(fd, key, value, length), Tagged(r))
  {
    ghost var s, a := fs.S(), Flatten(fs.S());
    hide State.Inv, State.Tight, ByteAt, TagsValid, Flatten;
    assert GoodTag(Lookup(ofile, fd), key, length) && s.inodes[Lookup(ofile, fd).value.ino].tags == 0 ==> |s.Free()| >= 1;
    r := TagFile(fs, ofile, fd, key, value, length);
    if GoodTag(Lookup(ofile, fd), key, length) {
      ghost var i := Lookup(ofile, fd).value.ino;
      AskStep(s, fs.S(), i, TagMap(fs.S(), i));
    }
  }

  method DoRemoveTag(fs: FS.FileSystem, ofile: seq<Option<OpenFile>>, fd: int, key: seq<byte>) returns (r: int)
    requires Ready(fs) && Proper(|fs.inodes|, ofile, RemoveTag(fd, key))
    modifies fs`disk
    ensures Ready(fs)
    ensures Flatten(fs.S()) == After(old(Flatten(fs.S())), ofile, RemoveTag(fd, key))
    ensures Answers(old(Flatten(fs.S())), ofile, RemoveTag(fd, key), Tagged(r))
  {
    ghost var s, a := fs.S(), Flatten(fs.S());
    hide State.Inv, State.Tight, ByteAt, TagsValid, Flatten, FilesSame;
    r := RemoveFileTag(fs, ofile, fd, key);
    if Writable(Lookup(ofile, fd)) {
      ghost var i := Lookup(ofile, fd).value.ino;
      if r == 1 {
        TagStep(s, fs.S(), i);
        assert a.asked[i := fs.inodes[i].tags != 0] == a.asked;
      } else {
        assert a.tags[i] - {key} == a.tags[i];
        assert a.tags[i := a.tags[i]] == a.tags;
      }
    }
  }

  method DoListTags(fs: FS.FileSystem, ofile: seq<Option<OpenFile>>, fd: int, maxTag: int) returns (r: int, keys: seq<seq<byte>>)
    requires Ready(fs) && Proper(|fs.inodes|, ofile, ListTags(fd, maxTag))
    requires After(Flatten(fs.S()), ofile, ListTags(fd, maxTag)).free >= 0
    modifies fs`disk, fs`inodes, fs`owner
    ensures Ready(fs) && |fs.inodes| == |old(fs.inodes)|
    ensures forall j: nat :: j < |fs.inodes| ==> fs.inodes[j].kind == old(fs.inodes[j].kind)
    ensures Flatten(fs.S()) == After(old(Flatten(fs.S())), ofile, ListTags(fd, maxTag))
    ensures Answers(old(Flatten(fs.S())), ofile, ListTags(fd, maxTag), Listed(r, keys))
  {
    ghost var s, a := fs.S(), Flatten(fs.S());
    hide State.Inv, State.Tight, ByteAt, TagsValid, Flatten, Listing;
    assert Readable(Lookup(ofile, fd)) && maxTag >= 0 && s.inodes[Lookup(ofile, fd).value.ino].tags == 0 ==> |s.Free()| >= 1;
    r, keys := GetAllTags(fs, ofile, fd, maxTag);
    if Readable(Lookup(ofile, fd)) && maxTag >= 0 {
      ghost var i := Lookup(ofile, fd).value.ino;
      AskStep(s, fs.S(), i, TagMap(fs.S(), i));
    }
  }

  /** One operation on the disk is the same operation on flat files and maps. */
  method Do(fs: FS.FileSystem, ofile: seq<Option<OpenFile>>, op: Op) returns (reply: Reply)
    requires Ready(fs) && Proper(|fs.inodes|, ofile, op) && NoDevice(fs.inodes, op)
    requires After(Flatten(fs.S()), ofile, op).free >= 0
    modifies fs
    ensures Ready(fs) && |fs.inodes| == |old(fs.inodes)|
    ensures forall j: nat :: j < |fs.inodes| ==> fs.inodes[j].kind == old(fs.inodes[j].kind)
    ensures Flatten(fs.S()) == After(old(Flatten(fs.S())), ofile, op)
    ensures Answers(old(Flatten(fs.S())), ofile, op, reply)
  {
    hide State.Inv, State.Tight, ByteAt, TagsValid, Flatten, FS.FileSystem.Valid;
    match op {
      case Write(i, src, off) =>
        var r := DoWrite(fs, i, src, off, ofile);
        reply := Wrote(r);
      case Read(i, off, n) =>
        var r, bytes := DoRead(fs, i, off, n, ofile);
        reply := Got(r, bytes);
      case Truncate(i) =>
        DoTruncate(fs, i, ofile);
        reply := Truncated;
      case SetTag(fd, key, value, length) =>
        var r := DoSetTag(fs, ofile, fd, key, value, length);
        reply := Tagged(r);
      case RemoveTag(fd, key) =>
        var r := DoRemoveTag(fs, ofile, fd, key);
        reply := Tagged(r);
      case GetTag(fd, key, buffer, length) =>
        var r, b := GetFileTag(fs, ofile, fd, key, buffer, length);
        reply := Got(r, b);
      case ListTags(fd, maxTag) =>
        var r, keys := DoListTags(fs, ofile, fd, maxTag);
        reply := Listed(r, keys);
    }
  }

  /** The refinement, over every run that does not run out of blocks. */
  method Run(fs: FS.FileSystem, ofile: seq<Option<OpenFile>>, ops: seq<Op>) returns (replies: seq<Reply>)
    requires Ready(fs) && AllProper(|fs.inodes|, ofile, ops)
    requires forall k :: 0 <= k < |ops| ==> NoDevice(fs.inodes, ops[k])
    requires RunFits(Flatten(fs.S()), ofile, ops)
    modifies fs
    ensures Ready(fs) && |fs.inodes| == |old(fs.inodes)|
    ensures Flatten(fs.S()) == AfterAll(old(Flatten(fs.S())), ofile, ops)
    ensures AllAnswer(old(Flatten(fs.S())), ofile, ops, replies)
    decreases |ops|
  {
    hide State.Inv, State.Tight, TagsValid, Flatten, After, Answers, Proper, FS.FileSystem.Valid;
    if ops == [] {
      return [];
    }
    var reply := Do(fs, ofile, ops[0]);
    var more := Run(fs, ofile, ops[1..]);
    replies := [reply] + more;
    assert replies[1..] == more;
  }
}

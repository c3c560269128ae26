/** The tag system calls of kernel/fs.c on a file system: each file has a map from
    keys to values, kept in its tag block. */
module Tags {
  import opened Prelude
  import opened Bytes
  import opened Layout
  import opened Ownership
  import opened FileSystem
  import opened TagBlock

  /** What the system calls look at in an open file. */
  datatype OpenFile = OpenInode(ino: nat, readable: bool, writable: bool) | OpenPipe

  // ---------- The maps of a file system ----------

  ghost predicate TagsValid(s: State) {
    forall j: nat :: j < |s.inodes| ==> TagOk(s.disk, s.inodes[j].tags)
  }

  ghost predicate TagOk(disk: seq<Block>, a: nat) {
    a != 0 ==> a < |disk| && BlockOk(disk[a])
  }

  /** The tags of inode j. */
  ghost function TagMap(s: State, j: nat): map<seq<byte>, seq<byte>>
    requires TagsValid(s) && j < |s.inodes|
  {
    assert TagOk(s.disk, s.inodes[j].tags);
    if s.inodes[j].tags == 0 then map[] else Tags(s.disk[s.inodes[j].tags])
  }

  /** Nothing but the tags of inode i can differ. */
  ghost predicate FilesSame(s: State, s': State, i: nat) {
    && s'.sb == s.sb && s'.extent == s.extent
    && |s'.disk| == |s.disk| && |s'.inodes| == |s.inodes| == |s.extent| && i < |s.inodes|
    && s'.inodes == s.inodes[i := s.inodes[i].(tags := s'.inodes[i].tags)]
    && (forall j: nat :: j < |s.inodes| && j != i ==> TagKept(s.disk, s'.disk, s.inodes[j].tags))
    && (forall j: nat, p: nat :: j < |s.inodes| && p < s.extent[j] ==>
          ByteAt(s'.disk, s'.inodes[j], p) == ByteAt(s.disk, s.inodes[j], p))
  }

  lemma OtherMaps(s: State, s': State, i: nat)
    requires TagsValid(s) && FilesSame(s, s', i) && TagOk(s'.disk, s'.inodes[i].tags)
    ensures TagsValid(s')
    ensures forall j: nat :: j < |s.inodes| && j != i ==> TagMap(s', j) == TagMap(s, j)
  {
    forall j: nat | j < |s.inodes| && j != i ensures TagOk(s'.disk, s'.inodes[j].tags) {
      assert TagOk(s.disk, s.inodes[j].tags) && TagKept(s.disk, s'.disk, s.inodes[j].tags);
    }
    forall j: nat | j < |s.inodes| && j != i ensures TagMap(s', j) == TagMap(s, j) {
      assert TagOk(s.disk, s.inodes[j].tags) && TagKept(s.disk, s'.disk, s.inodes[j].tags);
    }
  }

  /** Writing the tag block of inode i. */
  lemma TagWriteKeeps(s: State, s': State, i: nat)
    requires s.Inv() && i < |s.inodes| && s.inodes[i].tags != 0 && s.inodes[i].tags < |s.disk| == |s'.disk|
    requires s' == s.(disk := s.disk[s.inodes[i].tags := s'.disk[s.inodes[i].tags]])
    ensures s'.Inv() && FilesSame(s, s', i) && (s.Tight() ==> s'.Tight())
  {
    var a, ip := s.inodes[i].tags, s.inodes[i];
    assert InodeOk(s.disk, s.owner, i, ip, s.extent[i]);
    WriteKeepsBitmap(s.sb, s.disk, s.owner, a, s'.disk[a]);
    TagWriteInode(s, s', i);
    forall b | b in s'.owner && s'.owner[b].ino == i ensures Referenced(s'.disk, s'.inodes, b, s'.owner[b]) {
      assert Referenced(s.disk, s.inodes, b, s.owner[b]);
    }
    StepKeepsInv(s, s', i);
    assert s'.inodes == s.inodes[i := s.inodes[i].(tags := s'.inodes[i].tags)];
    forall j: nat | j < |s.inodes| && j != i ensures TagKept(s.disk, s'.disk, s.inodes[j].tags) {
      assert InodeOk(s.disk, s.owner, j, s.inodes[j], s.extent[j]);
    }
  }

  lemma TagWriteInode(s: State, s': State, i: nat)
    requires i < |s.inodes| == |s.extent| && s.inodes[i].tags != 0 && s.inodes[i].tags < |s.disk| == |s'.disk|
    requires InodeOk(s.disk, s.owner, i, s.inodes[i], s.extent[i])
    requires s' == s.(disk := s.disk[s.inodes[i].tags := s'.disk[s.inodes[i].tags]])
    ensures InodeOk(s'.disk, s'.owner, i, s'.inodes[i], s'.extent[i])
    ensures forall bn: nat :: Addr(s'.disk, s'.inodes[i], bn) == Addr(s.disk, s.inodes[i], bn)
    ensures forall p: nat :: p < s.extent[i] ==> ByteAt(s'.disk, s'.inodes[i], p) == ByteAt(s.disk, s.inodes[i], p)
  {
    forall bn: nat | bn < MAXFILE ensures SlotOk(s'.disk, s'.owner, i, s'.inodes[i], s'.extent[i], bn) {
      assert SlotOk(s.disk, s.owner, i, s.inodes[i], s.extent[i], bn);
    }
    forall p: nat | p < s.extent[i] ensures ByteAt(s'.disk, s'.inodes[i], p) == ByteAt(s.disk, s.inodes[i], p) {
      assert SlotOk(s.disk, s.owner, i, s.inodes[i], s.extent[i], p / BSIZE);
    }
  }

  /** Inode i gets a tag block. */
  ghost predicate AddsTag(s: State, s': State, i: nat, b: uint32) {
    && i < |s.inodes| == |s.extent| && |s.disk| == |s'.disk| == s.sb.size && s.inodes[i].tags == 0
    && b in s.Free() && b != 0
    && s' == s.(disk := s'.disk, owner := s.owner[b := Tag(i)], inodes := s.inodes[i := s.inodes[i].(tags := b)])
    && forall c: nat :: s.sb.DataStart() <= c < s.sb.size ==> s'.disk[c] == s.disk[c]
  }

  lemma TagAddKeeps(s: State, s': State, i: nat, b: uint32)
    requires s.Inv() && AddsTag(s, s', i, b) && BitmapOk(s'.sb, s'.disk, s'.owner)
    ensures s'.Inv() && FilesSame(s, s', i) && (s.Tight() ==> s'.Tight())
  {
    TagAddInode(s, s', i, b);
    forall c | c in s'.owner && s'.owner[c].ino == i ensures Referenced(s'.disk, s'.inodes, c, s'.owner[c]) {
      assert c != b ==> Referenced(s.disk, s.inodes, c, s.owner[c]);
    }
    TagAddElsewhere(s, s', i, b);
    StepKeepsInv(s, s', i);
    assert s'.inodes == s.inodes[i := s.inodes[i].(tags := s'.inodes[i].tags)];
    forall j: nat | j < |s.inodes| && j != i ensures TagKept(s.disk, s'.disk, s.inodes[j].tags) {
      assert InodeOk(s.disk, s.owner, j, s.inodes[j], s.extent[j]);
    }
  }

  lemma TagAddElsewhere(s: State, s': State, i: nat, b: uint32)
    requires BitmapOk(s.sb, s.disk, s.owner) && AddsTag(s, s', i, b)
    ensures SameElsewhere(s, s', i)
  {
  }

  lemma TagAddInode(s: State, s': State, i: nat, b: uint32)
    requires s.Inv() && AddsTag(s, s', i, b)
    ensures InodeOk(s'.disk, s'.owner, i, s'.inodes[i], s'.extent[i])
    ensures forall bn: nat :: Addr(s'.disk, s'.inodes[i], bn) == Addr(s.disk, s.inodes[i], bn)
    ensures forall p: nat :: p < s.extent[i] ==> ByteAt(s'.disk, s'.inodes[i], p) == ByteAt(s.disk, s.inodes[i], p)
  {
    assert InodeOk(s.disk, s.owner, i, s.inodes[i], s.extent[i]);
    forall bn: nat ensures Addr(s'.disk, s'.inodes[i], bn) == Addr(s.disk, s.inodes[i], bn) {
    }
    forall bn: nat | bn < MAXFILE ensures SlotOk(s'.disk, s'.owner, i, s'.inodes[i], s'.extent[i], bn) {
      assert SlotOk(s.disk, s.owner, i, s.inodes[i], s.extent[i], bn);
    }
    forall p: nat | p < s.extent[i] ensures ByteAt(s'.disk, s'.inodes[i], p) == ByteAt(s.disk, s.inodes[i], p) {
      assert SlotOk(s.disk, s.owner, i, s.inodes[i], s.extent[i], p / BSIZE);
    }
  }

  lemma NoTags()
    ensures BlockOk(ZeroBlock()) && Tags(ZeroBlock()) == map[]
  {
    var d := ZeroBlock();
    forall n: nat | n < SLOTS ensures !Used(d, n) && Key(d, n) == [] {
      assert d[SLOT * n..SLOT * n + KEY][0] == 0;
    }
    assert forall m, k :: !Holds(d, SLOTS, m, k);
  }

  // ---------- The operations on a locked inode ----------

  /** The file system between tag operations. */
  ghost predicate Ready(fs: FileSystem)
    reads fs
  {
    fs.Valid() && TagsValid(fs.S())
  }

  /** Give inode i a tag block if it has none. */
  method EnsureBlock(fs: FileSystem, i: nat)
    requires Ready(fs) && i < |fs.inodes| && (fs.inodes[i].tags == 0 ==> fs.S().Free() != {})
    modifies fs`disk, fs`inodes, fs`owner
    ensures Ready(fs) && FilesSame(old(fs.S()), fs.S(), i) && fs.inodes[i].tags != 0
    ensures TagMap(fs.S(), i) == old(TagMap(fs.S(), i))
    ensures |fs.S().Free()| == |old(fs.S().Free())| - (if old(fs.inodes[i].tags) == 0 then 1 else 0)
  {
    ghost var s := fs.S();
    if fs.inodes[i].tags == 0 {
      var b := fs.TakeBlock(Tag(i));
      fs.inodes := fs.inodes[i := fs.inodes[i].(tags := b)];
      NoTags();
      TagAddKeeps(s, fs.S(), i, b);
      OtherMaps(s, fs.S(), i);
    } else {
      assert fs.inodes == fs.inodes[i := fs.inodes[i].(tags := fs.inodes[i].tags)];
      assert InodeOk(fs.disk, fs.owner, i, fs.inodes[i], fs.extent[i]);
    }
  }

  /** bwrite of a new tag block. */
  method PutBlock(fs: FileSystem, i: nat, str: Block)
    requires Ready(fs) && i < |fs.inodes| && fs.inodes[i].tags != 0 && BlockOk(str)
    modifies fs`disk
    ensures Ready(fs) && FilesSame(old(fs.S()), fs.S(), i) && TagMap(fs.S(), i) == Tags(str)
    ensures fs.S().Free() == old(fs.S().Free())
  {
    ghost var s := fs.S();
    assert TagOk(fs.disk, fs.inodes[i].tags);
    fs.disk := fs.disk[fs.inodes[i].tags := str];
    TagWriteKeeps(s, fs.S(), i);
    OtherMaps(s, fs.S(), i);
  }

  /** Where a key of the map is. */
  lemma KeySlot(d: Block, key: seq<byte>, n: nat)
    requires BlockOk(d) && key != [] && n < SLOTS && Key(d, n) == key
    ensures Used(d, n) && Holds(d, SLOTS, n, key) && key in Tags(d) && Tags(d)[key] == Value(d, n)
  {
    hide TagsBelow;
    assert Used(d, n);
    assert Holds(d, SLOTS, n, key);
  }

  lemma KeyMissing(d: Block, key: seq<byte>)
    requires BlockOk(d) && forall n: nat :: n < SLOTS ==> Key(d, n) != key
    ensures key !in Tags(d)
  {
    hide TagsBelow;
    assert forall m :: !Holds(d, SLOTS, m, key);
  }

  /** tagFile on the block: the new block, if there is room. */
  method SetInBlock(str: Block, key: seq<byte>, value: seq<byte>) returns (ok: bool, str': Block)
    requires BlockOk(str) && 0 < |key| < KEY && 0 !in key && |value| <= VALUE
    ensures ok <==> key in Tags(str) || |Tags(str)| < SLOTS
    ensures !ok ==> str' == str
    ensures ok ==> BlockOk(str') && Tags(str') == Tags(str)[key := Pad(value)]
  {
    hide Tags, BlockOk, Pad;
    var keyPosition := SearchKey(key, str);
    var endPosition := SearchEnd(str);
    TagCount(str);
    str' := str;
    if keyPosition < 0 {
      KeyMissing(str, key);
      if endPosition < 0 {
        return false, str';
      }
      ghost var n :| n < SLOTS && endPosition == SLOT * n && !Used(str, n);
      str' := Overwrite(str, endPosition, Zeros(KEY + VALUE));
      str' := Overwrite(str', endPosition, key);
      str' := Overwrite(str', endPosition + KEY, value);
      FillAdds(str, n, key, value);
    } else {
      ghost var n :| n < SLOTS && keyPosition == SLOT * n && Key(str, n) == key;
      KeySlot(str, key, n);
      str' := Overwrite(str, keyPosition + KEY, Zeros(VALUE));
      str' := Overwrite(str', keyPosition + KEY, value);
      ChangeSets(str, n, value);
    }
    return true, str';
  }

  /** removeFileTag on the block. */
  method RemoveInBlock(str: Block, key: seq<byte>) returns (ok: bool, str': Block)
    requires BlockOk(str) && 0 < |key| < KEY && 0 !in key
    ensures ok <==> key in Tags(str)
    ensures BlockOk(str') && Tags(str') == Tags(str) - {key}
    ensures !ok ==> str' == str
  {
    hide Tags, BlockOk;
    var keyPosition := SearchKey(key, str);
    str' := str;
    if keyPosition < 0 {
      KeyMissing(str, key);
      assert Tags(str) - {key} == Tags(str);
      return false, str';
    }
    ghost var n :| n < SLOTS && keyPosition == SLOT * n && Key(str, n) == key;
    KeySlot(str, key, n);
    str' := Overwrite(str, keyPosition, Zeros(KEY + VALUE));
    EraseRemoves(str, n);
    return true, str';
  }

  /** How much of a value getFileTag looks at: length bytes, and on from there to
      the first zero, and no more than a value has. */
  function ReadLength(v: seq<byte>, length: int, i: nat): (r: nat)
    requires |v| == VALUE && i <= VALUE
    ensures i <= r <= VALUE
    decreases VALUE - i
  {
    if i < VALUE && (i < length || v[i] != 0) then ReadLength(v, length, i + 1) else i
  }

  /** getFileTag on the block: the return value, and the buffer afterwards. */
  method GetFromBlock(str: Block, key: seq<byte>, buffer: seq<byte>, length: int) returns (r: int, buffer': seq<byte>)
    requires BlockOk(str) && 0 < |key| < KEY && 0 !in key && length <= |buffer|
    ensures key !in Tags(str) ==> r == -1 && buffer' == buffer
    ensures key in Tags(str) ==>
              && r == ReadLength(Tags(str)[key], length, 0)
              && buffer' == if r > length then buffer else Tags(str)[key][..r] + buffer[r..]
  {
    hide Tags, BlockOk;
    var keyPosition := SearchKey(key, str);
    if keyPosition < 0 {
      KeyMissing(str, key);
      return -1, buffer;
    }
    ghost var n :| n < SLOTS && keyPosition == SLOT * n && Key(str, n) == key;
    KeySlot(str, key, n);
    var found := str[keyPosition + KEY..keyPosition + KEY + VALUE];
    var i := 0;
    while i < VALUE && (i < length || found[i] != 0)
      invariant i <= VALUE && ReadLength(found, length, i) == ReadLength(found, length, 0)
    {
      i := i + 1;
    }
    if i > length {
      return i, buffer;
    }
    return i, found[..i] + buffer[i..];
  }

  /** The loop of getAllTags over a copy of the block. */
  method ListKeys(str: Block, maxTag: nat) returns (r: int, keys: seq<seq<byte>>)
    requires BlockOk(str)
    ensures r == if |Tags(str)| > maxTag then -1 else |Tags(str)|
    ensures |keys| == Min(maxTag, |Tags(str)|) && keys <= AllKeys(str)
  {
    hide Tags, BlockOk, AllKeys;
    keys := [];
    TagCount(str);
    var n := 0;
    while n < SLOTS
      invariant n <= SLOTS && keys == KeysBelow(str, n) && |keys| <= maxTag
    {
      if str[SLOT * n] != 0 {
        if maxTag <= |keys| {
          MoreKeys(str, n);
          return -1, keys;
        }
        keys := keys + [Cut(str[SLOT * n..SLOT * n + KEY])];
      }
      n := n + 1;
    }
    KeysPrefix(str, n);
    return |keys|, keys;
  }

  lemma {:induction false} KeysPrefix(d: Block, n: nat)
    requires n <= SLOTS
    ensures KeysBelow(d, n) <= AllKeys(d) && (n == SLOTS ==> KeysBelow(d, n) == AllKeys(d))
    decreases SLOTS - n
  {
    if n < SLOTS {
      hide AllKeys;
      KeysPrefix(d, n + 1);
      assert KeysBelow(d, n) <= KeysBelow(d, n + 1);
    }
  }

  lemma MoreKeys(d: Block, n: nat)
    requires n < SLOTS && Used(d, n)
    ensures KeysBelow(d, n) <= AllKeys(d) && |KeysBelow(d, n)| < |AllKeys(d)|
  {
    hide AllKeys;
    KeysPrefix(d, n);
    KeysPrefix(d, n + 1);
    assert |KeysBelow(d, n + 1)| == |KeysBelow(d, n)| + 1;
  }

  /** tagFile once its arguments are found good. */
  method SetTag(fs: FileSystem, i: nat, key: seq<byte>, value: seq<byte>) returns (ok: bool)
    requires Ready(fs) && i < |fs.inodes| && (fs.inodes[i].tags == 0 ==> fs.S().Free() != {})
    requires 0 < |key| < KEY && 0 !in key && |value| <= VALUE
    modifies fs`disk, fs`inodes, fs`owner
    ensures Ready(fs) && FilesSame(old(fs.S()), fs.S(), i) && fs.inodes[i].tags != 0
    ensures |fs.S().Free()| == |old(fs.S().Free())| - (if old(fs.inodes[i].tags) == 0 then 1 else 0)
    ensures |old(TagMap(fs.S(), i))| <= SLOTS
    ensures !ok <==> key !in old(TagMap(fs.S(), i)) && |old(TagMap(fs.S(), i))| == SLOTS
    ensures TagMap(fs.S(), i) == if ok then old(TagMap(fs.S(), i))[key := Pad(value)] else old(TagMap(fs.S(), i))
  {
    hide State.Inv, State.Tight, BlockOk, ByteAt, FilesSame, Tags, Pad, TagMap, TagsValid, FreeSet;
    ghost var s := fs.S();
    EnsureBlock(fs, i);
    ghost var s1 := fs.S();
    ok := SetStored(fs, i, key, value);
    SameTwice(s, s1, fs.S(), i);
  }

  /** tagFile once the file has a tag block. */
  method SetStored(fs: FileSystem, i: nat, key: seq<byte>, value: seq<byte>) returns (ok: bool)
    requires Ready(fs) && i < |fs.inodes| && fs.inodes[i].tags != 0
    requires 0 < |key| < KEY && 0 !in key && |value| <= VALUE
    modifies fs`disk
    ensures Ready(fs) && FilesSame(old(fs.S()), fs.S(), i) && fs.S().Free() == old(fs.S().Free())
    ensures |old(TagMap(fs.S(), i))| <= SLOTS
    ensures !ok <==> key !in old(TagMap(fs.S(), i)) && |old(TagMap(fs.S(), i))| == SLOTS
    ensures TagMap(fs.S(), i) == if ok then old(TagMap(fs.S(), i))[key := Pad(value)] else old(TagMap(fs.S(), i))
  {
    assert TagOk(fs.disk, fs.inodes[i].tags);
    var d := fs.disk[fs.inodes[i].tags];
    TagCount(d);
    assert TagMap(fs.S(), i) == Tags(d);
    SameSelf(fs.S(), i);
    hide State.Inv, State.Tight, BlockOk, ByteAt, FilesSame, Tags, Pad, TagMap, TagsValid, FreeSet;
    var str;
    ok, str := SetInBlock(d, key, value);
    if ok {
      PutBlock(fs, i, str);
    }
  }

  lemma SameSelf(s: State, i: nat)
    requires s.Inv() && i < |s.inodes|
    ensures FilesSame(s, s, i)
  {
  }

  /** getAllTags once its arguments are found good. */
  method AllTags(fs: FileSystem, i: nat, maxTag: nat) returns (r: int, keys: seq<seq<byte>>)
    requires Ready(fs) && i < |fs.inodes| && (fs.inodes[i].tags == 0 ==> fs.S().Free() != {})
    modifies fs`disk, fs`inodes, fs`owner
    ensures Ready(fs) && FilesSame(old(fs.S()), fs.S(), i) && fs.inodes[i].tags != 0
    ensures |fs.S().Free()| == |old(fs.S().Free())| - (if old(fs.inodes[i].tags) == 0 then 1 else 0)
    ensures TagMap(fs.S(), i) == old(TagMap(fs.S(), i))
    ensures Listing(old(TagMap(fs.S(), i)), maxTag, r, keys)
  {
    EnsureBlock(fs, i);
    hide State.Inv, State.Tight, ByteAt, FilesSame, BlockOk, Tags, AllKeys, Listing;
    assert TagOk(fs.disk, fs.inodes[i].tags);
    var str := fs.disk[fs.inodes[i].tags];
    r, keys := ListKeys(str, maxTag);
    ListingOk(str, maxTag, r, keys);
  }

  /** What getAllTags may answer for a map: all its keys, once each, or failure
      and as many of them as fit. */
  ghost predicate Listing(m: map<seq<byte>, seq<byte>>, maxTag: nat, r: int, keys: seq<seq<byte>>) {
    && r == (if |m| > maxTag then -1 else |m|)
    && |keys| == Min(maxTag, |m|)
    && (forall a: nat, b: nat :: a < b < |keys| ==> keys[a] != keys[b])
    && (forall a: nat :: a < |keys| ==> keys[a] in m)
  }

  lemma ListingOk(str: Block, maxTag: nat, r: int, keys: seq<seq<byte>>)
    requires BlockOk(str) && r == (if |Tags(str)| > maxTag then -1 else |Tags(str)|)
    requires |keys| == Min(maxTag, |Tags(str)|) && keys <= AllKeys(str)
    ensures Listing(Tags(str), maxTag, r, keys)
  {
    KeysAre(str, SLOTS);
    var all := AllKeys(str);
    hide KeysBelow, TagsBelow, BlockOk;
    forall a: nat | a < |keys| ensures keys[a] in Tags(str) {
      assert keys[a] == all[a];
    }
    forall a: nat, b: nat | a < b < |keys| ensures keys[a] != keys[b] {
      assert keys[a] == all[a] && keys[b] == all[b];
    }
  }

  // ---------- The system calls ----------

  /** The open file of a descriptor, if there is one. */
  function Lookup(ofile: seq<Option<OpenFile>>, fd: int): Option<OpenFile> {
    if 0 <= fd < |ofile| then ofile[fd] else None
  }

  predicate FilesIn(ofile: seq<Option<OpenFile>>, n: nat) {
    forall k: nat :: k < |ofile| && ofile[k].Some? && ofile[k].value.OpenInode? ==> ofile[k].value.ino < n
  }

  predicate Writable(f: Option<OpenFile>) { f.Some? && f.value.OpenInode? && f.value.writable }

  predicate Readable(f: Option<OpenFile>) { f.Some? && f.value.OpenInode? && f.value.readable }

  /** The arguments that tagFile accepts. */
  predicate GoodTag(f: Option<OpenFile>, key: seq<byte>, valueLength: int) {
    Writable(f) && 0 < |key| < KEY && 0 <= valueLength <= VALUE
  }

  /** What the tag calls accept, on the fields of the descriptor and the lengths. */
  lemma Accepted(ofile: seq<Option<OpenFile>>, fd: int, key: seq<byte>, valueLength: int)
    ensures Writable(Lookup(ofile, fd)) <==>
              0 <= fd < |ofile| && ofile[fd].Some? && ofile[fd].value.OpenInode? && ofile[fd].value.writable
    ensures Readable(Lookup(ofile, fd)) <==>
              0 <= fd < |ofile| && ofile[fd].Some? && ofile[fd].value.OpenInode? && ofile[fd].value.readable
    ensures GoodTag(Lookup(ofile, fd), key, valueLength) <==>
              && 0 <= fd < |ofile| && ofile[fd].Some? && ofile[fd].value.OpenInode? && ofile[fd].value.writable
              && 1 <= |key| <= 9 && 0 <= valueLength <= 18
    ensures Writable(Lookup(ofile, fd)) || Readable(Lookup(ofile, fd)) ==> Lookup(ofile, fd) == ofile[fd]
  {
  }

  method TagFile(fs: FileSystem, ofile: seq<Option<OpenFile>>, fd: int, key: seq<byte>, value: seq<byte>, valueLength: int)
    returns (r: int)
    requires Ready(fs) && FilesIn(ofile, |fs.inodes|) && 0 !in key && (valueLength <= VALUE ==> valueLength <= |value|)
    requires GoodTag(Lookup(ofile, fd), key, valueLength) && fs.inodes[Lookup(ofile, fd).value.ino].tags == 0 ==>
               fs.S().Free() != {}
    modifies fs`disk, fs`inodes, fs`owner
    ensures Ready(fs) && (r == -1 || r == 1)
    ensures !GoodTag(Lookup(ofile, fd), key, valueLength) ==> r == -1 && fs.S() == old(fs.S())
    ensures GoodTag(Lookup(ofile, fd), key, valueLength) ==>
              var i := Lookup(ofile, fd).value.ino;
              var m := old(TagMap(fs.S(), i));
              && FilesSame(old(fs.S()), fs.S(), i) && fs.inodes[i].tags != 0
              && |fs.S().Free()| == |old(fs.S().Free())| - (if old(fs.inodes[i].tags) == 0 then 1 else 0)
              && |m| <= SLOTS && (r == -1 <==> key !in m && |m| == SLOTS)
              && TagMap(fs.S(), i) == if r == 1 then m[key := Pad(value[..valueLength])] else m
  {
    hide State.Inv, State.Tight, BlockOk, ByteAt, FilesSame;
    var f := Lookup(ofile, fd);
    if !Writable(f) {
      return -1;
    }
    if |key| < 1 || |key| > 9 {
      return -1;
    }
    if valueLength < 0 || valueLength > 18 {
      return -1;
    }
    var ok := SetTag(fs, f.value.ino, key, value[..valueLength]);
    return if ok then 1 else -1;
  }

  lemma SameTwice(s: State, s1: State, s2: State, i: nat)
    requires FilesSame(s, s1, i) && FilesSame(s1, s2, i)
    ensures FilesSame(s, s2, i)
  {
    forall j: nat | j < |s.inodes| && j != i ensures TagKept(s.disk, s2.disk, s.inodes[j].tags) {
      assert TagKept(s.disk, s1.disk, s.inodes[j].tags) && TagKept(s1.disk, s2.disk, s1.inodes[j].tags);
    }
  }

  method RemoveFileTag(fs: FileSystem, ofile: seq<Option<OpenFile>>, fd: int, key: seq<byte>) returns (r: int)
    requires Ready(fs) && FilesIn(ofile, |fs.inodes|) && 0 !in key
    modifies fs`disk
    ensures Ready(fs) && fs.S().Free() == old(fs.S().Free())
    ensures r == 1 || (r == -1 && fs.S() == old(fs.S()))
    ensures r == 1 <==> Writable(Lookup(ofile, fd)) && key in old(TagMap(fs.S(), Lookup(ofile, fd).value.ino))
    ensures r == 1 ==> 1 <= |key| <= 9
    ensures r == 1 ==>
              var i := Lookup(ofile, fd).value.ino;
              FilesSame(old(fs.S()), fs.S(), i) && TagMap(fs.S(), i) == old(TagMap(fs.S(), i)) - {key}
  {
    var f := Lookup(ofile, fd);
    ghost var bound := Writable(f) && key in TagMap(fs.S(), f.value.ino);
    assert bound ==> 0 < |key| < KEY by {
      if bound {
        assert TagOk(fs.disk, fs.inodes[f.value.ino].tags);
        TagCount(fs.disk[fs.inodes[f.value.ino].tags]);
      }
    }
    if !Writable(f) || fs.inodes[f.value.ino].tags == 0 {
      return -1;
    }
    if |key| < 1 || |key| > 9 {
      return -1;
    }
    var i := f.value.ino;
    assert TagOk(fs.disk, fs.inodes[i].tags);
    var ok, str := RemoveInBlock(fs.disk[fs.inodes[i].tags], key);
    if !ok {
      return -1;
    }
    PutBlock(fs, i, str);
    return 1;
  }

  method GetFileTag(fs: FileSystem, ofile: seq<Option<OpenFile>>, fd: int, key: seq<byte>, buffer: seq<byte>, length: int)
    returns (r: int, buffer': seq<byte>)
    requires Ready(fs) && FilesIn(ofile, |fs.inodes|) && 0 !in key && length <= |buffer|
    ensures r < 0 ==> r == -1 && buffer' == buffer
    ensures r >= 0 <==> Writable(Lookup(ofile, fd)) && key in TagMap(fs.S(), Lookup(ofile, fd).value.ino)
    ensures r >= 0 ==> 1 <= |key| <= 9
    ensures r >= 0 ==>
              var v := TagMap(fs.S(), Lookup(ofile, fd).value.ino)[key];
              && |v| == VALUE && r == ReadLength(v, length, 0)
              && buffer' == if r > length then buffer else v[..r] + buffer[r..]
  {
    var f := Lookup(ofile, fd);
    if !Writable(f) {
      return -1, buffer;
    }
    var i := f.value.ino;
    assert TagOk(fs.disk, fs.inodes[i].tags);
    if fs.inodes[i].tags != 0 {
      TagCount(fs.disk[fs.inodes[i].tags]);
    }
    if |key| < 1 || |key| > 9 {
      return -1, buffer;
    }
    if fs.inodes[i].tags == 0 {
      return -1, buffer;
    }
    r, buffer' := GetFromBlock(fs.disk[fs.inodes[i].tags], key, buffer, length);
  }

  method GetAllTags(fs: FileSystem, ofile: seq<Option<OpenFile>>, fd: int, maxTag: int)
    returns (r: int, keys: seq<seq<byte>>)
    requires Ready(fs) && FilesIn(ofile, |fs.inodes|)
    requires Readable(Lookup(ofile, fd)) && maxTag >= 0 && fs.inodes[Lookup(ofile, fd).value.ino].tags == 0 ==>
               fs.S().Free() != {}
    modifies fs`disk, fs`inodes, fs`owner
    ensures Ready(fs)
    ensures !Readable(Lookup(ofile, fd)) || maxTag < 0 ==> r == -1 && keys == [] && fs.S() == old(fs.S())
    ensures Readable(Lookup(ofile, fd)) && maxTag >= 0 ==>
              var i := Lookup(ofile, fd).value.ino;
              && FilesSame(old(fs.S()), fs.S(), i) && fs.inodes[i].tags != 0
              && |fs.S().Free()| == |old(fs.S().Free())| - (if old(fs.inodes[i].tags) == 0 then 1 else 0)
              && TagMap(fs.S(), i) == old(TagMap(fs.S(), i))
              && Listing(old(TagMap(fs.S(), i)), maxTag, r, keys)
  {
    hide State.Inv, State.Tight, BlockOk, ByteAt, FilesSame, Listing;
    var f := Lookup(ofile, fd);
    if !Readable(f) {
      return -1, [];
    }
    if maxTag < 0 {
      return -1, [];
    }
    r, keys := AllTags(fs, f.value.ino, maxTag);
  }

  /** What getFileTag returns for a value stored without zero bytes: the length of
      the value when the buffer is too short for it, and otherwise as many bytes
      as asked for, up to the size of a value. */
  lemma {:induction false} ReadStored(w: seq<byte>, length: int, i: nat)
    requires |w| <= VALUE && 0 !in w && i <= Max(|w|, Min(Max(0, length), VALUE))
    ensures ReadLength(Pad(w), length, i) == Max(|w|, Min(Max(0, length), VALUE))
    decreases VALUE - i
  {
    assert i < |w| ==> w[i] in w;
    if i < VALUE && (i < length || Pad(w)[i] != 0) {
      ReadStored(w, length, i + 1);
    }
  }

  /** With a buffer as long as the value, getFileTag gives the value back. */
  lemma ReadExact(w: seq<byte>, buffer: seq<byte>)
    requires |w| <= VALUE && 0 !in w && |w| == |buffer|
    ensures ReadLength(Pad(w), |w|, 0) == |w|
    ensures Pad(w)[..|w|] + buffer[|w|..] == w
  {
    ReadStored(w, |w|, 0);
  }
}

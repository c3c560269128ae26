/** tools/mkfs.c: an image is laid out by giving out blocks in order, and the
    bitmap is written once at the end.  The inode area is kept as a sequence of
    inodes. */
module Mkfs {
  import opened Prelude
  import opened Bytes
  import opened Layout
  import opened Ownership
  import FS = FileSystem

  // ---------- The bitmap ----------

  /** A bitmap block whose first n bits are set. */
  function FirstBits(n: nat): Block
    requires n <= BPB
  {
    if n == 0 then ZeroBlock() else WithBit(FirstBits(n - 1), n - 1)
  }

  lemma NoBits(k: nat)
    requires k < BPB
    ensures !BitAt(ZeroBlock(), k)
  {
    ZeroHasNoBits(k % 8);
  }

  lemma {:induction false} FirstBitsAre(n: nat, k: nat)
    requires n <= BPB && k < BPB
    ensures BitAt(FirstBits(n), k) <==> k < n
  {
    if n == 0 {
      NoBits(k);
    } else {
      FirstBitsAre(n - 1, k);
    }
  }

  /** The loop of balloc in mkfs.c. */
  method BitmapBlock(used: nat) returns (buf: Block)
    requires used <= BPB
    ensures buf == FirstBits(used)
  {
    buf := ZeroBlock();
    for i := 0 to used
      invariant buf == FirstBits(i)
    {
      buf := WithBit(buf, i);
    }
  }

  /** A disk as it will be once the first n blocks are marked as used. */
  ghost function WithBits(sb: Super, disk: seq<Block>, n: nat): (d: seq<Block>)
    requires n <= BPB && sb.ninodes / IPB + 3 < |disk|
    ensures |d| == |disk|
  {
    disk[sb.ninodes / IPB + 3 := FirstBits(n)]
  }

  // ---------- The image ----------

  /** The blocks that have owners are the ones given out. */
  ghost predicate InOrder(sb: Super, owner: map<nat, Owner>, freeblock: nat) {
    forall b: nat :: b in owner <==> sb.DataStart() <= b < freeblock
  }

  lemma BitmapPlace(sb: Super, disk: seq<Block>, n: nat)
    requires sb.Ok() && |disk| == sb.size && n <= BPB
    ensures sb.ninodes / IPB + 3 < sb.DataStart()
    ensures forall c: nat :: sb.DataStart() <= c < sb.size ==> WithBits(sb, disk, n)[c] == disk[c]
  {
  }

  /** Giving out the next block marks the lowest unmarked one. */
  lemma NextBit(sb: Super, disk: seq<Block>, n: nat)
    requires sb.Ok() && |disk| == sb.size && n < BPB
    ensures sb.BBlock(n) < |disk|
    ensures WithBits(sb, disk, n + 1) == Mark(sb, WithBits(sb, disk, n), n)
  {
    assert n / BPB == 0 && n % BPB == n;
  }

  lemma WriteData(sb: Super, disk: seq<Block>, n: nat, x: nat, d: Block)
    requires sb.Ok() && |disk| == sb.size && n <= BPB && sb.DataStart() <= x < sb.size
    ensures WithBits(sb, disk[x := d], n) == WithBits(sb, disk, n)[x := d]
  {
    BitmapPlace(sb, disk, n);
  }

  lemma FreeCount(sb: Super, owner: map<nat, Owner>, freeblock: nat)
    requires InOrder(sb, owner, freeblock) && sb.DataStart() <= freeblock <= sb.size
    ensures |FreeSet(sb, owner)| == sb.size - freeblock
  {
    assert FreeSet(sb, owner) == Interval(freeblock, sb.size);
  }

  function Unused(): Inode { Inode(FreeInode, 0, seq(NDIRECT + 1, _ => 0), 0) }

  /** A zeroed disk with a superblock. */
  function Blank(size: nat, super: Block): seq<Block>
    requires size > 1
  {
    seq(size, _ => ZeroBlock())[1 := super]
  }

  /** An empty image: the metadata blocks are marked, and nothing else. */
  lemma EmptyInv(s: State, n: nat, super: Block)
    requires s.sb.Ok() && s.sb.DataStart() <= BPB && 1 < s.sb.size
    requires s == State(s.sb, WithBits(s.sb, Blank(s.sb.size, super), s.sb.DataStart()),
                        seq(n, _ => Unused()), map[], seq(n, _ => 0))
    ensures s.Inv() && s.Tight()
  {
    forall b: nat | b < s.sb.size ensures Marked(s.sb, s.disk, b) <==> b < s.sb.DataStart() {
      BitmapBelowData(s.sb, b);
      FirstBitsAre(s.sb.DataStart(), b % BPB);
      NoBits(b % BPB);
      if b < BPB {
        assert b / BPB == 0 && b % BPB == b;
      }
    }
    forall i: nat, bn: nat | i < n && bn < MAXFILE ensures SlotOk(s.disk, s.owner, i, s.inodes[i], s.extent[i], bn) {
    }
  }

  /** What kind of file an inode is plays no part in the ownership of blocks. */
  lemma KindKeepsInv(s: State, s': State, i: nat, kind: FileKind)
    requires s.Inv() && s.Tight() && i < |s.inodes| && s' == s.(inodes := s.inodes[i := s.inodes[i].(kind := kind)])
    ensures s'.Inv() && s'.Tight()
    ensures forall j: nat, p: nat :: j < |s.inodes| ==> ByteAt(s'.disk, s'.inodes[j], p) == ByteAt(s.disk, s.inodes[j], p)
  {
    forall j: nat, bn: nat | j < |s.inodes| ensures Addr(s'.disk, s'.inodes[j], bn) == Addr(s.disk, s.inodes[j], bn) {
    }
    forall j: nat | j < |s.inodes| ensures InodeOk(s'.disk, s'.owner, j, s'.inodes[j], s'.extent[j]) {
      assert InodeOk(s.disk, s.owner, j, s.inodes[j], s.extent[j]);
      forall bn: nat | bn < MAXFILE ensures SlotOk(s'.disk, s'.owner, j, s'.inodes[j], s'.extent[j], bn) {
        assert SlotOk(s.disk, s.owner, j, s.inodes[j], s.extent[j], bn);
      }
    }
    forall a | a in s'.owner ensures Referenced(s'.disk, s'.inodes, a, s'.owner[a]) {
      assert Referenced(s.disk, s.inodes, a, s.owner[a]);
    }
  }

  // ---------- The rounding of directory sizes ----------

  /** The size that add_dir gives a directory that was off bytes long. */
  function Rounded(off: nat): nat { (off / BSIZE + 1) * BSIZE }

  /** Inode i with its size rounded as add_dir does. */
  ghost function RoundedUp(s: State, i: nat): State
    requires i < |s.inodes| == |s.extent|
  {
    var n := Rounded(s.inodes[i].size);
    s.(inodes := s.inodes[i := s.inodes[i].(size := n)], extent := s.extent[i := n])
  }

  /** Every byte below the rounded size has a block exactly when the directory did
      not end on a block boundary; then the new bytes are zero, and so are empty
      entries. */
  lemma RoundingOk(s: State, i: nat)
    requires s.Inv() && s.Tight() && i < |s.inodes| && s.extent[i] == s.inodes[i].size
    ensures RoundedUp(s, i).Inv() <==> s.inodes[i].size % BSIZE != 0
    ensures s.inodes[i].size % BSIZE != 0 ==>
              && RoundedUp(s, i).Tight()
              && FileBytes(s.disk, RoundedUp(s, i).inodes[i], Rounded(s.inodes[i].size)) ==
                 FileBytes(s.disk, s.inodes[i], s.inodes[i].size) + seq(Rounded(s.inodes[i].size) - s.inodes[i].size, _ => 0)
  {
    var off, s' := s.inodes[i].size, RoundedUp(s, i);
    assert InodeOk(s.disk, s.owner, i, s.inodes[i], s.extent[i]);
    if off % BSIZE != 0 {
      RoundingKeeps(s, i);
      RoundingBytes(s, i);
    } else if off < MAXBYTES {
      assert SlotOk(s.disk, s.owner, i, s.inodes[i], s.extent[i], off / BSIZE);
      assert !SlotOk(s'.disk, s'.owner, i, s'.inodes[i], s'.extent[i], off / BSIZE);
      assert !InodeOk(s'.disk, s'.owner, i, s'.inodes[i], s'.extent[i]);
    }
  }

  lemma RoundingKeeps(s: State, i: nat)
    requires s.Inv() && s.Tight() && i < |s.inodes| && s.extent[i] == s.inodes[i].size && s.inodes[i].size % BSIZE != 0
    ensures RoundedUp(s, i).Inv() && RoundedUp(s, i).Tight()
  {
    var s' := RoundedUp(s, i);
    forall j: nat, bn: nat | j < |s.inodes| ensures Addr(s'.disk, s'.inodes[j], bn) == Addr(s.disk, s.inodes[j], bn) {
    }
    forall j: nat | j < |s.inodes| ensures InodeOk(s'.disk, s'.owner, j, s'.inodes[j], s'.extent[j]) {
      assert InodeOk(s.disk, s.owner, j, s.inodes[j], s.extent[j]);
      forall bn: nat | bn < MAXFILE ensures SlotOk(s'.disk, s'.owner, j, s'.inodes[j], s'.extent[j], bn) {
        assert SlotOk(s.disk, s.owner, j, s.inodes[j], s.extent[j], bn);
      }
    }
    forall a | a in s'.owner ensures Referenced(s'.disk, s'.inodes, a, s'.owner[a]) {
      assert Referenced(s.disk, s.inodes, a, s.owner[a]);
    }
  }

  lemma RoundingBytes(s: State, i: nat)
    requires s.Inv() && i < |s.inodes| && s.extent[i] == s.inodes[i].size && s.inodes[i].size % BSIZE != 0
    ensures FileBytes(s.disk, RoundedUp(s, i).inodes[i], Rounded(s.inodes[i].size)) ==
            FileBytes(s.disk, s.inodes[i], s.inodes[i].size) + seq(Rounded(s.inodes[i].size) - s.inodes[i].size, _ => 0)
  {
    var off, ip' := s.inodes[i].size, RoundedUp(s, i).inodes[i];
    assert InodeOk(s.disk, s.owner, i, s.inodes[i], s.extent[i]);
    forall p: nat | p < Rounded(off)
      ensures ByteAt(s.disk, ip', p) == if p < off then ByteAt(s.disk, s.inodes[i], p) else 0
    {
      assert Addr(s.disk, ip', p / BSIZE) == Addr(s.disk, s.inodes[i], p / BSIZE);
      assert p / BSIZE <= off / BSIZE;
      assert SlotOk(s.disk, s.owner, i, s.inodes[i], s.extent[i], p / BSIZE);
    }
  }

  /** A directory of 32 entries ends on a block boundary: its rounded size takes in
      a second block that it does not have. */
  lemma FullBlockDirectory(s: State, i: nat)
    requires s.Inv() && s.Tight() && i < |s.inodes| && s.extent[i] == s.inodes[i].size == 32 * 16
    ensures Rounded(s.inodes[i].size) == 1024 && Addr(s.disk, s.inodes[i], 1) == 0
    ensures !RoundedUp(s, i).Inv()
  {
    assert InodeOk(s.disk, s.owner, i, s.inodes[i], s.extent[i]);
    assert SlotOk(s.disk, s.owner, i, s.inodes[i], s.extent[i], 1);
    RoundingOk(s, i);
  }

  lemma NothingWritten(s: State, i: nat, src: seq<byte>, off: nat)
    requires s.Inv() && s.Tight() && i < |s.inodes| && off == s.extent[i]
    ensures FS.Writing(s, s, i, src, off, off)
  {
  }

  class Image {
    const sb: Super
    var disk: seq<Block>
    var inodes: seq<Inode>
    var freeblock: nat
    var usedblocks: nat
    var freeinode: nat
    ghost var owner: map<nat, Owner>
    ghost var extent: seq<nat>

    ghost predicate Shape()
      reads this
    {
      && sb.Ok() && |disk| == sb.size && freeblock <= BPB && freeblock <= sb.size
      && usedblocks == freeblock && InOrder(sb, owner, freeblock) && sb.DataStart() <= freeblock
    }

    /** The image as it would be with its bitmap written now. */
    ghost function M(): State
      requires Shape()
      reads this
    {
      BitmapPlace(sb, disk, freeblock);
      State(sb, WithBits(sb, disk, freeblock), inodes, owner, extent)
    }

    ghost predicate Valid()
      reads this
    {
      && Shape() && M().Inv() && M().Tight() && extent == FS.Sizes(inodes)
      && 1 <= freeinode && (forall j: nat :: j < |inodes| ==> inodes[j].tags == 0)
      && (forall j: nat :: freeinode <= j < |inodes| ==> inodes[j] == Unused())
    }

    /** The bytes of file j. */
    ghost function Content(j: nat): seq<byte>
      requires Shape() && j < |inodes|
      reads this
    {
      FileBytes(M().disk, inodes[j], inodes[j].size)
    }

    /** mkfs: a zeroed disk with its superblock, and no files. */
    constructor (sb: Super, super: Block, n: nat)
      requires sb.Ok() && sb.DataStart() <= BPB && n >= 1
      ensures Valid() && this.sb == sb && |inodes| == n && freeblock == sb.DataStart() && freeinode == 1
      ensures forall j: nat :: j < n ==> inodes[j] == Unused()
      ensures disk[1] == super && forall b: nat :: b < sb.size && b != 1 ==> disk[b] == ZeroBlock()
    {
      this.sb := sb;
      disk := Blank(sb.size, super);
      inodes := seq(n, _ => Unused());
      freeblock := sb.size / BPB + 1 + sb.ninodes / IPB + 3;
      usedblocks := sb.size / BPB + 1 + sb.ninodes / IPB + 3;
      freeinode := 1;
      owner := map[];
      extent := seq(n, _ => 0);
      new;
      EmptyInv(M(), n, super);
    }

    /** ialloc */
    method IAlloc(kind: FileKind) returns (inum: nat)
      requires Valid() && freeinode < |inodes|
      modifies this`inodes, this`freeinode
      ensures Valid() && inum == old(freeinode) && freeinode == inum + 1
      ensures |inodes| == |old(inodes)| && inodes == old(inodes)[inum := Unused().(kind := kind)]
      ensures forall j: nat :: j < |inodes| ==> Content(j) == old(Content(j))
    {
      inum := freeinode;
      KindKeepsInv(M(), M().(inodes := inodes[inum := Unused().(kind := kind)]), inum, kind);
      hide State.Inv, State.Tight, ByteAt;
      freeinode := freeinode + 1;
      inodes := inodes[inum := Unused().(kind := kind)];
    }

    /** The next block, for owner o. */
    method NewBlock(ghost o: Owner) returns (b: uint32)
      requires Shape() && BitmapOk(sb, M().disk, owner) && freeblock < sb.size && freeblock < BPB
      modifies this`freeblock, this`usedblocks, this`owner
      ensures Shape() && BitmapOk(sb, M().disk, owner)
      ensures b != 0 && sb.DataStart() <= b < sb.size && b !in old(owner)
      ensures owner == old(owner)[b := o] && freeblock == old(freeblock) + 1
      ensures disk[b] == ZeroBlock()
      ensures forall c: nat :: sb.DataStart() <= c < sb.size ==> M().disk[c] == old(M().disk)[c]
      ensures |FreeSet(sb, owner)| == |FreeSet(sb, old(owner))| - 1
    {
      BitmapPlace(sb, disk, freeblock);
      b := freeblock;
      assert disk[b] == ZeroBlock() by {
        assert disk[b] == M().disk[b];
      }
      NextBit(sb, disk, b);
      AllocKeepsBitmap(sb, M().disk, owner, b, o);
      hide BitmapOk, FreeSet, FirstBits, BitAt;
      freeblock := freeblock + 1;
      usedblocks := usedblocks + 1;
      owner := owner[b := o];
      BitmapPlace(sb, disk, freeblock);
    }
  
    /** The part of iappend that finds block fbn of inode i, or gives it one. */
    method MapBlock(i: nat, fbn: nat) returns (x: uint32)
      requires Shape() && M().Inv() && M().Tight() && i < |inodes| && fbn < MAXFILE && fbn * BSIZE <= extent[i]
      requires freeblock + Blocks(Max(extent[i], fbn * BSIZE + 1)) - Blocks(extent[i]) <= Min(sb.size, BPB)
      modifies this`disk, this`inodes, this`freeblock, this`usedblocks, this`owner, this`extent
      ensures Shape() && FS.Maps(old(M()), M(), i, fbn)
      ensures x == Addr(M().disk, inodes[i], fbn) && x != 0
    {
      ghost var s := M();
      BitmapPlace(sb, disk, freeblock);
      assert InodeOk(s.disk, owner, i, inodes[i], extent[i]);
      assert SlotOk(s.disk, owner, i, inodes[i], extent[i], fbn);
      FS.BlocksGrow(fbn);
      if fbn < NDIRECT {
        x := inodes[i].addrs[fbn];
        if x == 0 {
          x := AddDirect(i, fbn);
          FS.GrowMaps(s, s, M(), i, fbn, x);
        }
      } else {
        var ind := inodes[i].addrs[NDIRECT];
        if ind == 0 {
          ind := AddIndirect(i);
        }
        ghost var s1 := M();
        BitmapPlace(sb, disk, freeblock);
        x := Word(disk[ind], fbn - NDIRECT);
        if x == 0 {
          x := AddListed(i, fbn);
          FS.GrowMaps(s, s1, M(), i, fbn, x);
        }
      }
    }

    method AddDirect(i: nat, bn: nat) returns (addr: uint32)
      requires Shape() && M().Inv() && i < |inodes| && bn < NDIRECT && extent[i] == bn * BSIZE
      requires freeblock < Min(sb.size, BPB)
      modifies this`inodes, this`freeblock, this`usedblocks, this`owner, this`extent
      ensures Shape() && Grows(old(M()), M(), i, bn, addr) && BitmapOk(sb, M().disk, owner)
      ensures |M().Free()| == |old(M().Free())| - 1
    {
      ghost var s := M();
      assert InodeOk(s.disk, owner, i, inodes[i], extent[i]);
      addr := NewBlock(Data(i, bn));
      inodes := inodes[i := inodes[i].(addrs := inodes[i].addrs[bn := addr])];
      extent := extent[i := bn * BSIZE + 1];
      forall k: nat | k < MAXFILE
        ensures Addr(M().disk, inodes[i], k) == if k == bn then addr else Addr(s.disk, s.inodes[i], k)
      {
      }
    }

    method AddIndirect(i: nat) returns (ind: uint32)
      requires Shape() && M().Inv() && i < |inodes| && inodes[i].addrs[NDIRECT] == 0
      requires freeblock < Min(sb.size, BPB)
      modifies this`inodes, this`freeblock, this`usedblocks, this`owner
      ensures Shape() && AddsIndirect(old(M()), M(), i, ind) && M().Inv() && TagsKept(old(M()), M())
      ensures |M().Free()| == |old(M().Free())| - 1 && freeblock == old(freeblock) + 1
      ensures forall j: nat, p: nat :: j < |inodes| && p < extent[j] ==>
                                         ByteAt(M().disk, inodes[j], p) == ByteAt(old(M().disk), old(inodes[j]), p)
      ensures forall k: nat :: Addr(M().disk, inodes[i], k) == Addr(old(M().disk), old(inodes[i]), k)
    {
      ghost var s := M();
      ind := NewBlock(Indirect(i));
      inodes := inodes[i := inodes[i].(addrs := inodes[i].addrs[NDIRECT := ind])];
      IndirectKeepsInv(s, M(), i, ind);
    }

    method AddListed(i: nat, bn: nat) returns (addr: uint32)
      requires Shape() && M().Inv() && i < |inodes| && NDIRECT <= bn < MAXFILE && extent[i] == bn * BSIZE
      requires inodes[i].addrs[NDIRECT] != 0 && freeblock < Min(sb.size, BPB)
      modifies this`disk, this`freeblock, this`usedblocks, this`owner, this`extent
      ensures Shape() && Grows(old(M()), M(), i, bn, addr) && BitmapOk(sb, M().disk, owner)
      ensures |M().Free()| == |old(M().Free())| - 1
    {
      ghost var s := M();
      assert InodeOk(s.disk, owner, i, inodes[i], extent[i]);
      BitmapPlace(sb, disk, freeblock);
      var ind := inodes[i].addrs[NDIRECT];
      var a := disk[ind];
      addr := NewBlock(Data(i, bn));
      WriteKeepsBitmap(sb, M().disk, owner, ind, WithWord(a, bn - NDIRECT, addr));
      WriteData(sb, disk, freeblock, ind, WithWord(a, bn - NDIRECT, addr));
      disk := disk[ind := WithWord(a, bn - NDIRECT, addr)];
      extent := extent[i := bn * BSIZE + 1];
      FS.ListedGrows(s, M(), i, bn, addr);
    }

    /** The body of the loop of iappend: the bytes w go into one block. */
    method PutChunk(i: nat, w: seq<byte>, off: nat)
      requires Shape() && M().Inv() && M().Tight() && i < |inodes| && off <= extent[i]
      requires 0 < |w| <= BSIZE - off % BSIZE && off + |w| <= MAXBYTES
      requires freeblock + Blocks(Max(extent[i], off + |w|)) - Blocks(extent[i]) <= Min(sb.size, BPB)
      modifies this`disk, this`inodes, this`freeblock, this`usedblocks, this`owner, this`extent
      ensures Shape() && FS.Writing(old(M()), M(), i, w, off, off + |w|)
    {
      hide BitmapOk, Referenced, ByteAt, WithBits, FreeSet;
      var fbn := off / BSIZE;
      FS.BlocksMonotone(Max(extent[i], fbn * BSIZE + 1), Max(extent[i], off + |w|));
      hide State.Tight, Blocks;
      var x := MapBlock(i, fbn);
      ghost var s1 := M();
      assert InodeOk(s1.disk, owner, i, inodes[i], extent[i]);
      assert SlotOk(s1.disk, owner, i, inodes[i], extent[i], fbn);
      BitmapPlace(sb, disk, freeblock);
      WriteData(sb, disk, freeblock, x, Overwrite(disk[x], off % BSIZE, w));
      disk := disk[x := Overwrite(disk[x], off % BSIZE, w)];
      extent := extent[i := Max(extent[i], off + |w|)];
      FS.BlockWritten(old(M()), s1, M(), i, w, off);
    }
  
    /** The loop of iappend. */
    method PutLoop(i: nat, p: seq<byte>, off: nat)
      requires Shape() && M().Inv() && M().Tight() && i < |inodes| && off == extent[i] && off + |p| <= MAXBYTES
      requires freeblock + Blocks(off + |p|) - Blocks(off) <= Min(sb.size, BPB)
      modifies this`disk, this`inodes, this`freeblock, this`usedblocks, this`owner, this`extent
      ensures Shape() && FS.Writing(old(M()), M(), i, p, off, off + |p|)
    {
      hide State.Inv, State.Tight, ByteAt, Blocks, WithBits, FreeSet, InOrder;
      ghost var s := M();
      FreeCount(sb, owner, freeblock);
      NothingWritten(s, i, p, off);
      var n := 0;
      while n < |p|
        invariant 0 <= n <= |p| && Shape()
        invariant FS.Writing(s, M(), i, p, off, off + n)
      {
        var c := Min(|p| - n, BSIZE - (off + n) % BSIZE);
        ghost var s0 := M();
        FreeCount(sb, owner, freeblock);
        FS.BlocksMonotone(off + n + c, off + |p|);
        PutChunk(i, p[n..n + c], off + n);
        FS.WritingTwice(s, s0, M(), i, p, off, off + n, c);
        n := n + c;
      }
    }

    /** iappend: the bytes go to the end of file i, in the next free blocks. */
    method IAppend(i: nat, p: seq<byte>)
      requires Valid() && 1 <= i < freeinode && i < |inodes| && inodes[i].size + |p| <= MAXBYTES
      requires freeblock + Blocks(inodes[i].size + |p|) - Blocks(inodes[i].size) <= Min(sb.size, BPB)
      modifies this`disk, this`inodes, this`freeblock, this`usedblocks, this`owner, this`extent
      ensures Valid() && |inodes| == |old(inodes)|
      ensures freeblock == old(freeblock) + Blocks(inodes[i].size) - Blocks(old(inodes[i].size))
      ensures forall j: nat :: j < |inodes| ==> inodes[j].kind == old(inodes[j].kind)
      ensures forall j: nat :: j < |inodes| && j != i ==> Content(j) == old(Content(j))
      ensures Content(i) == old(Content(i)) + p
    {
      hide State.Inv, State.Tight, ByteAt;
      ghost var s := M();
      var off := inodes[i].size;
      FreeCount(sb, owner, freeblock);
      PutLoop(i, p, off);
      ghost var s1 := M();
      FreeCount(sb, owner, freeblock);
      inodes := inodes[i := inodes[i].(size := off + |p|)];
      assert p[..|p|] == p;
      FS.WritingDone(s, s1, M(), i, p, off, off + |p|);
      assert FS.Splice(old(Content(i)), off, p) == old(Content(i)) + p;
    }
  
    /** The end of add_dir, for a directory that does not end on a block boundary:
        only empty entries are added to it. */
    method RoundSize(i: nat)
      requires Valid() && 1 <= i < freeinode && i < |inodes| && inodes[i].size % BSIZE != 0
      modifies this`inodes, this`extent
      ensures Valid() && |inodes| == |old(inodes)|
      ensures Content(i) == old(Content(i)) + seq(Rounded(|old(Content(i))|) - |old(Content(i))|, _ => 0)
      ensures forall j: nat :: j < |inodes| && j != i ==> inodes[j] == old(inodes[j]) && Content(j) == old(Content(j))
    {
      RoundingOk(M(), i);
      var off := (inodes[i].size / BSIZE + 1) * BSIZE;
      hide State.Inv, State.Tight, ByteAt;
      inodes := inodes[i := inodes[i].(size := off)];
      extent := extent[i := off];
    }

    /** balloc of mkfs.c, and the file system that a kernel then finds: it is in
        the state that kernel/fs.c relies on, with the files that were put in. */
    method Boot() returns (fs: FS.FileSystem)
      requires Valid() && usedblocks < BPB
      modifies this`disk
      ensures fresh(fs) && fs.Valid() && fs.sb == sb && fs.disk == disk && fs.inodes == inodes
      ensures forall j: nat :: j < |inodes| ==> fs.Content(j) == old(Content(j))
      ensures forall b :: b in fs.S().Free() <==> freeblock <= b < sb.size
      ensures |fs.S().Free()| == sb.size - freeblock
      ensures disk == old(M().disk) && disk[1] == old(disk)[1]
    {
      ghost var s := M();
      FreeCount(sb, owner, freeblock);
      BitmapPlace(sb, disk, freeblock);
      var buf := BitmapBlock(usedblocks);
      disk := disk[sb.ninodes / IPB + 3 := buf];
      var dinodes := seq(|inodes|, i requires 0 <= i < |inodes| reads this => ToDisk(inodes[i]));
      assert State(sb, disk, inodes, owner, FS.Sizes(inodes)) == s;
      hide State.Inv, State.Tight, ByteAt;
      fs := new FS.FileSystem(sb, disk, inodes, dinodes, owner);
    }
  }

  // ---------- A full directory and a full disk ----------

  /** mkfs of a directory of 32 entries: the size that add_dir gives it is one that
      kernel/fs.c cannot rely on. */
  method FullDirectory(sb: Super, super: Block, entries: seq<byte>) returns (img: Image, i: nat)
    requires sb.Ok() && sb.DataStart() < BPB && sb.DataStart() < sb.size && |entries| == 32 * 16
    ensures fresh(img) && img.Valid() && img.sb == sb && i < |img.inodes| && img.Content(i) == entries
    ensures !RoundedUp(img.M(), i).Inv()
  {
    img := new Image(sb, super, 2);
    assert img.Content(1) == [];
    i := img.IAlloc(DirInode);
    img.IAppend(i, entries);
    assert img.Content(i) == entries;
    FullBlockDirectory(img.M(), i);
  }

  lemma SmallFile(n: nat)
    requires n <= NDIRECT
    ensures Blocks(n * BSIZE) == n && n * BSIZE <= MAXBYTES
  {
  }

  /** Files until no block is left. */
  method FillDisk(img: Image)
    requires img.Valid() && img.sb.size <= BPB
    requires img.freeinode * NDIRECT + img.sb.size - img.freeblock <= |img.inodes| * NDIRECT
    modifies img
    ensures img.Valid() && img.freeblock == img.sb.size
  {
    while img.freeblock < img.sb.size
      invariant img.Valid()
      invariant img.freeinode * NDIRECT + img.sb.size - img.freeblock <= |img.inodes| * NDIRECT
      decreases img.sb.size - img.freeblock
    {
      var n := Min(img.sb.size - img.freeblock, NDIRECT);
      var i := img.IAlloc(FileInode);
      SmallFile(n);
      img.IAppend(i, seq(n * BSIZE, _ => 0));
      assert |img.Content(i)| == n * BSIZE;
    }
  }

  /** With all blocks of a small disk given out, the next bit is clear. */
  lemma LastBit(sb: Super, disk: seq<Block>)
    requires sb.Ok() && |disk| == sb.size < BPB
    ensures sb.ninodes / IPB + 3 < |disk|
    ensures forall c: nat :: c <= sb.size ==> (Marked(sb, WithBits(sb, disk, sb.size), c) <==> c < sb.size)
  {
    forall c: nat | c <= sb.size ensures Marked(sb, WithBits(sb, disk, sb.size), c) <==> c < sb.size {
      assert c / BPB == 0 && c % BPB == c;
      FirstBitsAre(sb.size, c);
    }
  }

  /** On every full disk of less than one bitmap block, balloc hands out the block
      after the last one. */
  method PastTheEnd(img: Image) returns (fs: FS.FileSystem, b: nat, ok: bool)
    requires img.Valid() && img.freeblock == img.sb.size < BPB
    modifies img
    ensures fresh(fs) && fs.sb == img.sb && ok && b == |fs.disk| == img.sb.size
  {
    hide FirstBits, BitAt, State.Inv, State.Tight, WithBits;
    LastBit(img.sb, img.disk);
    fs := img.Boot();
    assert !Marked(fs.sb, fs.disk, fs.sb.size) && fs.sb.size < fs.sb.Bits();
    assert forall c: nat :: c < fs.sb.size ==> Marked(fs.sb, fs.disk, c);
    hide Marked;
    b, ok := fs.BAlloc();
  }

  /** The disk that mkfs makes by default, filled. */
  method FullDisk(super: Block) returns (fs: FS.FileSystem, b: nat, ok: bool)
    ensures fresh(fs) && fs.sb == Super(1024, 200) && ok && b == |fs.disk| == 1024
  {
    hide FirstBits, WithBits, State.Inv, State.Tight;
    var img := new Image(Super(1024, 200), super, 200);
    FillDisk(img);
    fs, b, ok := PastTheEnd(img);
  }
}

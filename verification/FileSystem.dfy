/** kernel/fs.c: block allocation, the block map, truncation, reading and
    writing.  Buffers are written through before they are released, so an
    operation sees the disk as an array of blocks. */
module FileSystem {
  import opened Prelude
  import opened Bytes
  import opened Layout
  import opened Ownership

  /** A file with the bytes w put in place at off; it grows when they end past
      its end. */
  function Splice(f: seq<byte>, off: nat, w: seq<byte>): (r: seq<byte>)
    requires off <= |f|
    ensures |r| == Max(|f|, off + |w|)
    ensures forall p: nat :: p < |r| ==> r[p] == if off <= p < off + |w| then w[p - off] else f[p]
  {
    f[..off] + w + (if off + |w| < |f| then f[off + |w|..] else [])
  }

  /** The bits of whole bitmap blocks all lie in the metadata area. */
  lemma BitsOnDisk(sb: Super, b: nat)
    requires sb.Ok() && b < sb.Bits()
    ensures sb.BBlock(b) < sb.DataStart()
  {
    assert b / BPB <= (sb.size - 1) / BPB;
  }

  /** The inner loop of balloc: the first clear bit of one bitmap block. */
  method FirstClear(data: Block) returns (bi: nat)
    ensures bi <= BPB
    ensures bi < BPB ==> !BitAt(data, bi)
    ensures forall c: nat :: c < bi ==> BitAt(data, c)
  {
    bi := 0;
    while bi < BPB && BitAt(data, bi)
      invariant bi <= BPB
      invariant forall c: nat :: c < bi ==> BitAt(data, c)
    {
      bi := bi + 1;
    }
  }

  /** balloc does not compare what it finds with the size of the disk: the lowest
      clear bit is a block of the disk exactly when the disk has a free block. */
  lemma AllocOnDisk(sb: Super, disk: seq<Block>, owner: map<nat, Owner>, b: nat)
    requires BitmapOk(sb, disk, owner) && b < sb.Bits() && !Marked(sb, disk, b)
    requires forall c: nat :: c < b ==> Marked(sb, disk, c)
    ensures b < sb.size <==> FreeSet(sb, owner) != {}
    ensures b < sb.size ==> b in FreeSet(sb, owner)
  {
    forall c: nat | c in FreeSet(sb, owner) ensures b <= c {
      assert !Marked(sb, disk, c);
    }
    assert b < sb.size ==> b in FreeSet(sb, owner);
  }

  lemma ListedGrows(s: State, s': State, i: nat, bn: nat, a: uint32)
    requires i < |s.inodes| == |s.extent| && NDIRECT <= bn < MAXFILE && |s.disk| == |s'.disk| == s.sb.size
    requires s.extent[i] == bn * BSIZE && a in s.Free() && a != 0
    requires s' == s.(disk := s'.disk, owner := s.owner[a := Data(i, bn)], extent := s.extent[i := bn * BSIZE + 1])
    requires s.inodes[i].addrs[NDIRECT] != 0 && s.inodes[i].addrs[NDIRECT] < |s.disk|
    requires s'.disk[s.inodes[i].addrs[NDIRECT]] == WithWord(s.disk[s.inodes[i].addrs[NDIRECT]], bn - NDIRECT, a)
    requires forall c: nat :: s.sb.DataStart() <= c < s.sb.size && c != s.inodes[i].addrs[NDIRECT] ==>
                           s'.disk[c] == s.disk[c]
    ensures Grows(s, s', i, bn, a)
  {
    assert s.inodes[i := s.inodes[i].(addrs := s'.inodes[i].addrs)] == s.inodes;
    forall k: nat | k < MAXFILE
      ensures Addr(s'.disk, s'.inodes[i], k) == if k == bn then a else Addr(s.disk, s.inodes[i], k)
    {
    }
  }

  /** A file system in the middle of writei: the bytes of src before o are in
      place, and the blocks of inode i reach as far as they do. */
  ghost predicate Writing(s: State, s': State, i: nat, src: seq<byte>, off: nat, o: nat) {
    && s'.Inv() && s'.Tight() && s'.sb == s.sb && TagsKept(s, s')
    && |s'.inodes| == |s.inodes| == |s.extent| && i < |s.inodes|
    && off <= o <= off + |src| && off <= s.extent[i]
    && s'.inodes == s.inodes[i := s.inodes[i].(addrs := s'.inodes[i].addrs)]
    && s'.extent == s.extent[i := Max(s.extent[i], o)]
    && (o <= s.extent[i] ==> s'.inodes == s.inodes)
    && |s'.Free()| == |s.Free()| - (Blocks(s'.extent[i]) - Blocks(s.extent[i]))
    && (forall j: nat, p: nat :: j < |s.inodes| && j != i && p < s.extent[j] ==>
                                   ByteAt(s'.disk, s'.inodes[j], p) == ByteAt(s.disk, s.inodes[j], p))
    && (forall p: nat :: p < s'.extent[i] ==>
          ByteAt(s'.disk, s'.inodes[i], p) == if off <= p < o then src[p - off] else ByteAt(s.disk, s.inodes[i], p))
  }

  /** Growing within a block that is already there takes no new block. */
  lemma SameBlocks(e: nat, e': nat, bn: nat)
    requires bn * BSIZE < e <= e' && (e' == e || e' <= (bn + 1) * BSIZE)
    ensures Blocks(e') == Blocks(e)
  {
  }

  lemma BlockWritten(s: State, s1: State, s2: State, i: nat, w: seq<byte>, o: nat)
    requires Maps(s, s1, i, o / BSIZE) && i < |s.extent| && o <= s.extent[i]
    requires 0 < |w| <= BSIZE - o % BSIZE
    requires Writes(s1, s2, i, o / BSIZE, o % BSIZE, w)
    ensures Writing(s, s2, i, w, o, o + |w|)
  {
    var bn := o / BSIZE;
    assert bn * BSIZE + o % BSIZE == o;
    WriteKeepsInv(s1, s2, i, bn, o % BSIZE, w);
    SameBlocks(s1.extent[i], s2.extent[i], bn);
    forall p: nat | p < s2.extent[i]
      ensures ByteAt(s2.disk, s2.inodes[i], p) == if o <= p < o + |w| then w[p - o] else ByteAt(s.disk, s.inodes[i], p)
    {
      WriteByte(s1, s2, i, bn, o % BSIZE, w, p);
    }
  }

  /** Two writes in a row are one longer write. */
  lemma WritingTwice(s: State, s0: State, s1: State, i: nat, src: seq<byte>, off: nat, o: nat, c: nat)
    requires Writing(s, s0, i, src, off, o) && o + c <= off + |src|
    requires Writing(s0, s1, i, src[o - off..o - off + c], o, o + c)
    ensures Writing(s, s1, i, src, off, o + c)
  {
    hide BitmapOk;
    hide InodeOk;
    hide Referenced;
    hide ByteAt;
  }

  lemma WritingDone(s: State, s1: State, s2: State, i: nat, src: seq<byte>, off: nat, o: nat)
    requires s.extent == Sizes(s.inodes) && Writing(s, s1, i, src, off, o)
    requires i < |s.inodes| == |s1.inodes|
    requires s2 == s1.(inodes := s1.inodes[i := s1.inodes[i].(size := Max(s.inodes[i].size, o))])
    ensures s2.Inv() && s2.Tight() && s2.extent == Sizes(s2.inodes) && TagsKept(s, s2)
    ensures FileBytes(s2.disk, s2.inodes[i], s2.inodes[i].size) ==
            Splice(FileBytes(s.disk, s.inodes[i], s.inodes[i].size), off, src[..o - off])
    ensures forall j: nat :: j < |s.inodes| && j != i ==>
                               FileBytes(s2.disk, s2.inodes[j], s2.inodes[j].size) ==
                               FileBytes(s.disk, s.inodes[j], s.inodes[j].size)
  {
    ResizeKeepsInv(s1, s2, i);
  }

  /** In the inodes, the first k direct addresses of inode i are cleared. */
  ghost predicate Cleared(was: seq<Inode>, inodes: seq<Inode>, i: nat, k: nat) {
    && i < |was| == |inodes| && inodes == was[i := was[i].(addrs := inodes[i].addrs)]
    && forall j: nat :: j <= NDIRECT ==> inodes[i].addrs[j] == if j < k then 0 else was[i].addrs[j]
  }

  lemma ClearNext(was: seq<Inode>, inodes: seq<Inode>, i: nat, k: nat)
    requires Cleared(was, inodes, i, k) && k < NDIRECT
    ensures Cleared(was, inodes[i := inodes[i].(addrs := inodes[i].addrs[k := 0])], i, k + 1)
  {
  }

  lemma TruncateStarts(s: State, i: nat)
    requires s.Inv() && i < |s.inodes|
    ensures Truncating(s, s.sb, s.disk, s.owner, i, 0)
  {
    assert WithoutSlots(s.owner, i, 0) == s.owner;
  }

  lemma OnlyInodeGone(s: State, i: nat)
    requires s.Inv() && s.Tight() && i < |s.inodes|
    ensures var ind := s.inodes[i].addrs[NDIRECT];
            WithoutInode(s.owner, i) ==
            if ind == 0 then WithoutSlots(s.owner, i, NDIRECT) else WithoutSlots(s.owner, i, MAXFILE) - {ind}
  {
    assert InodeOk(s.disk, s.owner, i, s.inodes[i], s.extent[i]);
    forall a | a in s.owner && s.owner[a].ino == i && !s.owner[a].Tag?
      ensures s.owner[a].Indirect? ==> a == s.inodes[i].addrs[NDIRECT]
      ensures s.owner[a].Data? ==> s.owner[a].bn < MAXFILE
      ensures s.owner[a].Data? && s.inodes[i].addrs[NDIRECT] == 0 ==> s.owner[a].bn < NDIRECT
    {
      assert Referenced(s.disk, s.inodes, a, s.owner[a]);
    }
  }

  /** The size field plays no part in the ownership of blocks. */
  lemma ResizeKeepsInv(s: State, s': State, i: nat)
    requires s.Inv() && i < |s.inodes| == |s'.inodes|
    requires s' == s.(inodes := s.inodes[i := s.inodes[i].(size := s'.inodes[i].size)])
    ensures s'.Inv() && TagsKept(s, s')
    ensures forall j: nat, p: nat :: j < |s.inodes| ==> ByteAt(s'.disk, s'.inodes[j], p) == ByteAt(s.disk, s.inodes[j], p)
  {
    forall j: nat, bn: nat | j < |s.inodes|
      ensures Addr(s'.disk, s'.inodes[j], bn) == Addr(s.disk, s.inodes[j], bn)
    {
    }
    forall j: nat | j < |s.inodes| ensures InodeOk(s'.disk, s'.owner, j, s'.inodes[j], s'.extent[j]) {
      assert InodeOk(s.disk, s.owner, j, s.inodes[j], s.extent[j]);
      forall bn: nat | bn < MAXFILE ensures SlotOk(s'.disk, s'.owner, j, s'.inodes[j], s'.extent[j], bn) {
        assert SlotOk(s.disk, s.owner, j, s.inodes[j], s.extent[j], bn);
      }
    }
    forall a | a in s'.owner ensures Referenced(s'.disk, s'.inodes, a, s'.owner[a]) {
      assert Referenced(s.disk, s.inodes, a, s.owner[a]);
    }
  }

  lemma BlocksMonotone(m: nat, n: nat)
    requires m <= n
    ensures Blocks(m) <= Blocks(n)
  {
  }

  lemma ReadChunk(disk: seq<Block>, ip: Inode, n: nat, o: nat, c: nat)
    requires o % BSIZE + c <= BSIZE && o + c <= n && Addr(disk, ip, o / BSIZE) < |disk|
    ensures disk[Addr(disk, ip, o / BSIZE)][o % BSIZE..o % BSIZE + c] == FileBytes(disk, ip, n)[o..o + c]
  {
    var f := FileBytes(disk, ip, n);
    forall p: nat | o <= p < o + c ensures f[p] == disk[Addr(disk, ip, o / BSIZE)][p - o + o % BSIZE] {
      assert p / BSIZE == o / BSIZE && p % BSIZE == p - o + o % BSIZE;
    }
  }

  /** What bmap may change: block bn of inode i exists afterwards, paid for from
      the free blocks; no byte of any file changes. */
  ghost predicate Maps(s: State, s': State, i: nat, bn: nat) {
    && s'.Inv() && s'.Tight() && s'.sb == s.sb
    && |s'.inodes| == |s.inodes| == |s.extent| && i < |s.inodes|
    && s'.inodes == s.inodes[i := s.inodes[i].(addrs := s'.inodes[i].addrs)]
    && s'.extent == s.extent[i := Max(s.extent[i], bn * BSIZE + 1)]
    && (bn * BSIZE < s.extent[i] ==> s' == s) && TagsKept(s, s')
    && |s'.Free()| == |s.Free()| - (Blocks(s'.extent[i]) - Blocks(s.extent[i]))
    && forall j: nat, p: nat :: j < |s.inodes| && p < s.extent[j] ==>
                                  ByteAt(s'.disk, s'.inodes[j], p) == ByteAt(s.disk, s.inodes[j], p)
  }

  /** The last step of bmap, s1 to s', after an indirect block was added to s
      when it was needed. */
  lemma GrowMaps(s: State, s1: State, s': State, i: nat, bn: nat, a: uint32)
    requires s.Tight() && s1.Inv() && Grows(s1, s', i, bn, a) && BitmapOk(s'.sb, s'.disk, s'.owner)
    requires s1.sb == s.sb && |s1.inodes| == |s.inodes| && i < |s.inodes| && s1.extent == s.extent && TagsKept(s, s1)
    requires s1.inodes == s.inodes[i := s.inodes[i].(addrs := s1.inodes[i].addrs)]
    requires bn < NDIRECT ==> s1.inodes[i].addrs[NDIRECT] == s.inodes[i].addrs[NDIRECT]
    requires |s'.Free()| == |s.Free()| - (if bn == NDIRECT then 2 else 1)
    requires forall j: nat, p: nat :: j < |s.inodes| && p < s.extent[j] ==>
                                  ByteAt(s1.disk, s1.inodes[j], p) == ByteAt(s.disk, s.inodes[j], p)
    ensures Maps(s, s', i, bn)
    ensures Addr(s'.disk, s'.inodes[i], bn) == a
  {
    BlocksGrow(bn);
    GrowKeepsInv(s1, s', i, bn, a);
  }

  lemma BlocksGrow(bn: nat)
    requires bn < MAXFILE
    ensures Blocks(bn * BSIZE + 1) == Blocks(bn * BSIZE) + (if bn == NDIRECT then 2 else 1)
  {
  }

  ghost function Sizes(inodes: seq<Inode>): (r: seq<nat>)
    ensures |r| == |inodes| && forall i: nat :: i < |r| ==> r[i] == inodes[i].size
  {
    seq(|inodes|, i requires 0 <= i < |inodes| => inodes[i].size)
  }

  /** Inodes other than i are on disk as they are in memory. */
  ghost predicate SyncedExcept(inodes: seq<Inode>, dinodes: seq<Dinode>, i: nat) {
    |dinodes| == |inodes| && forall j: nat :: j < |inodes| && j != i ==> dinodes[j] == ToDisk(inodes[j])
  }

  ghost predicate Synced(inodes: seq<Inode>, dinodes: seq<Dinode>) {
    |dinodes| == |inodes| && forall i: nat :: i < |inodes| ==> dinodes[i] == ToDisk(inodes[i])
  }

  class FileSystem {
    const sb: Super
    var disk: seq<Block>
    var inodes: seq<Inode>
    var dinodes: seq<Dinode>
    ghost var owner: map<nat, Owner>
    ghost var extent: seq<nat>

    constructor (sb: Super, disk: seq<Block>, inodes: seq<Inode>, dinodes: seq<Dinode>, ghost owner: map<nat, Owner>)
      requires State(sb, disk, inodes, owner, Sizes(inodes)).Inv()
      requires State(sb, disk, inodes, owner, Sizes(inodes)).Tight()
      requires Synced(inodes, dinodes)
      ensures Valid() && S() == State(sb, disk, inodes, owner, Sizes(inodes))
      ensures this.dinodes == dinodes
    {
      this.sb := sb;
      this.disk := disk;
      this.inodes := inodes;
      this.dinodes := dinodes;
      this.owner := owner;
      this.extent := Sizes(inodes);
    }

    ghost function S(): State
      reads this
    {
      State(sb, disk, inodes, owner, extent)
    }

    /** Between operations the blocks reach exactly to the size of each file,
        and the inodes on disk agree with the ones in memory. */
    ghost predicate Valid()
      reads this
    {
      S().Inv() && S().Tight() && extent == Sizes(inodes) && Synced(inodes, dinodes)
    }

    /** The bytes of file j. */
    ghost function Content(j: nat): (f: seq<byte>)
      reads this
      requires j < |inodes|
      ensures |f| == inodes[j].size
    {
      FileBytes(disk, inodes[j], inodes[j].size)
    }

    /** balloc: the lowest clear bit of the bitmap blocks.  It is not checked
        against the size of the disk. */
    method BAlloc() returns (b: nat, ok: bool)
      requires sb.Ok() && |disk| == sb.size
      modifies this`disk
      ensures !ok ==> forall c: nat :: c < sb.Bits() ==> Marked(sb, old(disk), c)
      ensures ok ==> b < sb.Bits() && sb.BBlock(b) < sb.size && !Marked(sb, old(disk), b)
      ensures ok ==> forall c: nat :: c < b ==> Marked(sb, old(disk), c)
      ensures disk == if ok then Mark(sb, old(disk), b) else old(disk)
    {
      b := 0;
      while b < sb.size
        invariant b % BPB == 0 && b <= sb.Bits() && disk == old(disk)
        invariant forall c: nat :: c < b ==> Marked(sb, disk, c)
      {
        BitsOnDisk(sb, b);
        var data := disk[sb.BBlock(b)];
        var bi := FirstClear(data);
        forall c: nat | b <= c < b + bi ensures Marked(sb, disk, c) {
          assert c / BPB == b / BPB && c % BPB == c - b;
        }
        if bi < BPB {
          assert (b + bi) / BPB == b / BPB && (b + bi) % BPB == bi;
          disk := disk[sb.BBlock(b) := WithBit(data, bi)];
          return b + bi, true;
        }
        b := b + BPB;
      }
      return 0, false;
    }

    /** bfree.  Its panic on a clear bit cannot happen to a block in use. */
    method BFree(b: nat)
      requires BitmapOk(sb, disk, owner) && b in owner
      modifies this`disk, this`owner
      ensures BitmapOk(sb, disk, owner)
      ensures owner == old(owner) - {b}
      ensures disk[b] == ZeroBlock()
      ensures forall c: nat :: sb.DataStart() <= c < sb.size && c != b ==> disk[c] == old(disk)[c]
      ensures |FreeSet(sb, owner)| == |FreeSet(sb, old(owner))| + 1
    {
      BitmapBelowData(sb, b);
      FreeKeepsBitmap(sb, disk, owner, b);
      disk := disk[b := ZeroBlock()];
      DataKeepsMarks(sb, old(disk), b, ZeroBlock(), b);
      var data := disk[sb.BBlock(b)];
      var bi := b % BPB;
      assert BitAt(data, bi); // "freeing free block" is not reached
      disk := disk[sb.BBlock(b) := WithoutBit(data, bi)];
      owner := owner - {b};
    }

    /** balloc on a disk with a free block below its size: the block found is on
        the disk, all zeros, and from now on has an owner. */
    method TakeBlock(ghost o: Owner) returns (b: uint32)
      requires BitmapOk(sb, disk, owner) && FreeSet(sb, owner) != {}
      modifies this`disk, this`owner
      ensures b in FreeSet(sb, old(owner)) && b != 0
      ensures BitmapOk(sb, disk, owner)
      ensures owner == old(owner)[b := o]
      ensures disk[b] == ZeroBlock()
      ensures forall c: nat :: sb.DataStart() <= c < sb.size ==> disk[c] == old(disk)[c]
      ensures |FreeSet(sb, owner)| == |FreeSet(sb, old(owner))| - 1
    {
      ghost var c :| c in FreeSet(sb, owner);
      assert c < sb.Bits() && !Marked(sb, disk, c);
      var found, ok := BAlloc();
      AllocOnDisk(sb, old(disk), owner, found);
      AllocKeepsBitmap(sb, old(disk), owner, found, o);
      owner := owner[found := o];
      b := found;
    }

    /** bmap */
    method BMap(i: nat, bn: nat) returns (addr: uint32)
      requires S().Inv() && S().Tight() && i < |inodes| && bn < MAXFILE && bn * BSIZE <= extent[i]
      requires Blocks(Max(extent[i], bn * BSIZE + 1)) - Blocks(extent[i]) <= |S().Free()|
      modifies this`disk, this`inodes, this`owner, this`extent
      ensures Maps(old(S()), S(), i, bn)
      ensures addr == Addr(disk, inodes[i], bn) && addr != 0
    {
      ghost var s := S();
      assert InodeOk(disk, owner, i, inodes[i], extent[i]);
      assert SlotOk(disk, owner, i, inodes[i], extent[i], bn);
      BlocksGrow(bn);
      if bn < NDIRECT {
        addr := inodes[i].addrs[bn];
        if addr == 0 {
          addr := AddDirect(i, bn);
          GrowMaps(s, s, S(), i, bn, addr);
        }
      } else {
        var ind := inodes[i].addrs[NDIRECT];
        if ind == 0 {
          ind := AddIndirect(i);
        }
        ghost var s1 := S();
        addr := Word(disk[ind], bn - NDIRECT);
        if addr == 0 {
          addr := AddListed(i, bn);
          GrowMaps(s, s1, S(), i, bn, addr);
        }
      }
    }

    /** The step of bmap that fills a direct slot. */
    method AddDirect(i: nat, bn: nat) returns (addr: uint32)
      requires S().Inv() && i < |inodes| && bn < NDIRECT && extent[i] == bn * BSIZE && S().Free() != {}
      modifies this`disk, this`inodes, this`owner, this`extent
      ensures Grows(old(S()), S(), i, bn, addr) && BitmapOk(sb, disk, owner)
      ensures |S().Free()| == |old(S().Free())| - 1
    {
      ghost var s := S();
      assert InodeOk(disk, owner, i, inodes[i], extent[i]);
      addr := TakeBlock(Data(i, bn));
      inodes := inodes[i := inodes[i].(addrs := inodes[i].addrs[bn := addr])];
      extent := extent[i := bn * BSIZE + 1];
      forall k: nat | k < MAXFILE
        ensures Addr(disk, inodes[i], k) == if k == bn then addr else Addr(s.disk, s.inodes[i], k)
      {
      }
    }

    /** The step of bmap that gives an inode its indirect block. */
    method AddIndirect(i: nat) returns (ind: uint32)
      requires S().Inv() && i < |inodes| && inodes[i].addrs[NDIRECT] == 0 && S().Free() != {}
      modifies this`disk, this`inodes, this`owner
      ensures AddsIndirect(old(S()), S(), i, ind) && S().Inv() && TagsKept(old(S()), S())
      ensures |S().Free()| == |old(S().Free())| - 1
      ensures forall j: nat, p: nat :: j < |inodes| && p < extent[j] ==>
                                         ByteAt(disk, inodes[j], p) == old(ByteAt(disk, inodes[j], p))
      ensures forall k: nat :: Addr(disk, inodes[i], k) == old(Addr(disk, inodes[i], k))
    {
      ghost var s := S();
      ind := TakeBlock(Indirect(i));
      inodes := inodes[i := inodes[i].(addrs := inodes[i].addrs[NDIRECT := ind])];
      IndirectKeepsInv(s, S(), i, ind);
    }

    /** The step of bmap that lists a new block in the indirect block. */
    method AddListed(i: nat, bn: nat) returns (addr: uint32)
      requires S().Inv() && i < |inodes| && NDIRECT <= bn < MAXFILE && extent[i] == bn * BSIZE
      requires inodes[i].addrs[NDIRECT] != 0 && S().Free() != {}
      modifies this`disk, this`owner, this`extent
      ensures Grows(old(S()), S(), i, bn, addr) && BitmapOk(sb, disk, owner)
      ensures |S().Free()| == |old(S().Free())| - 1
    {
      ghost var s := S();
      assert InodeOk(disk, owner, i, inodes[i], extent[i]);
      var ind := inodes[i].addrs[NDIRECT];
      var a := disk[ind];
      addr := TakeBlock(Data(i, bn));
      WriteKeepsBitmap(sb, disk, owner, ind, WithWord(a, bn - NDIRECT, addr));
      disk := disk[ind := WithWord(a, bn - NDIRECT, addr)];
      extent := extent[i := bn * BSIZE + 1];
      ListedGrows(s, S(), i, bn, addr);
    }

    /** iupdate: memory and disk agree afterwards exactly if they agreed on all
        other inodes before. */
    method IUpdate(i: nat)
      requires i < |inodes| == |dinodes|
      modifies this`dinodes
      ensures Synced(inodes, dinodes) <==> SyncedExcept(inodes, old(dinodes), i)
      ensures |dinodes| == |old(dinodes)| && dinodes[i] == ToDisk(inodes[i])
      ensures forall j: nat :: j < |dinodes| && j != i ==> dinodes[j] == old(dinodes)[j]
    {
      var ip := inodes[i];
      dinodes := dinodes[i := Dinode(ip.kind, ip.size, ip.addrs)];
    }

    /** readi on a file or directory.  bmap finds every block it is asked for, so
        nothing changes. */
    method ReadI(i: nat, off: uint32, n: uint32) returns (r: int, dst: seq<byte>)
      requires Valid() && i < |inodes| && inodes[i].kind != DevInode
      modifies this`disk, this`inodes, this`owner, this`extent
      ensures S() == old(S()) && Valid()
      ensures r < 0 <==> off > inodes[i].size || off + n >= 0x1_0000_0000
      ensures r < 0 ==> r == -1 && dst == []
      ensures r >= 0 ==> r == Min(n, inodes[i].size - off) && dst == Content(i)[off..off + r]
    {
      if off > inodes[i].size || SumWraps(off, n) {
        return -1, [];
      }
      r := if off + n > inodes[i].size then inodes[i].size - off else n;
      dst := ReadLoop(i, off, r);
    }

    method ReadLoop(i: nat, off: nat, n: nat) returns (dst: seq<byte>)
      requires Valid() && i < |inodes| && off + n <= inodes[i].size
      modifies this`disk, this`inodes, this`owner, this`extent
      ensures S() == old(S())
      ensures dst == Content(i)[off..off + n]
    {
      hide BitmapOk;
      hide Referenced;
      hide ByteAt;
      dst := [];
      ghost var s, f := S(), Content(i);
      var tot, o := 0, off;
      while tot < n
        invariant 0 <= tot <= n && o == off + tot
        invariant S() == s && dst == f[off..o]
      {
        assert InodeOk(disk, owner, i, inodes[i], extent[i]);
        var a := BMap(i, o / BSIZE);
        assert SlotOk(disk, owner, i, inodes[i], extent[i], o / BSIZE);
        var c := Min(n - tot, BSIZE - o % BSIZE);
        ReadChunk(disk, inodes[i], inodes[i].size, o, c);
        dst := dst + disk[a][o % BSIZE..o % BSIZE + c];
        assert f[off..o] + f[o..o + c] == f[off..o + c];
        tot, o := tot + c, o + c;
      }
    }

    /** The body of the loop of writei: the bytes w go into one block. */
    method WriteBlock(i: nat, w: seq<byte>, o: nat)
      requires S().Inv() && S().Tight() && i < |inodes| && o <= extent[i]
      requires 0 < |w| <= BSIZE - o % BSIZE && o + |w| <= MAXBYTES
      requires Blocks(Max(extent[i], o + |w|)) - Blocks(extent[i]) <= |S().Free()|
      modifies this`disk, this`inodes, this`owner, this`extent
      ensures Writing(old(S()), S(), i, w, o, o + |w|)
    {
      hide BitmapOk;
      hide Referenced;
      hide ByteAt;
      var bn := o / BSIZE;
      BlocksMonotone(Max(extent[i], bn * BSIZE + 1), Max(extent[i], o + |w|));
      var a := BMap(i, bn);
      ghost var s1 := S();
      assert InodeOk(disk, owner, i, inodes[i], extent[i]);
      assert SlotOk(disk, owner, i, inodes[i], extent[i], bn);
      disk := disk[a := Overwrite(disk[a], o % BSIZE, w)];
      extent := extent[i := Max(extent[i], o + |w|)];
      BlockWritten(old(S()), s1, S(), i, w, o);
    }

    /** writei on a file or directory. */
    method WriteI(i: nat, src: seq<byte>, off: uint32, n: uint32) returns (r: int)
      requires Valid() && i < |inodes| && inodes[i].kind != DevInode && n <= |src|
      requires off <= inodes[i].size && off + n < 0x1_0000_0000 ==>
                 Blocks(Max(inodes[i].size, Min(off + n, MAXBYTES))) - Blocks(inodes[i].size) <= |S().Free()|
      modifies this
      ensures Valid() && TagsKept(old(S()), S())
      ensures r < 0 <==> old(off > inodes[i].size) || off + n >= 0x1_0000_0000
      ensures r < 0 ==> r == -1 && S() == old(S())
      ensures r >= 0 ==> r == Min(n, MAXBYTES - off)
      ensures |inodes| == |old(inodes)|
      ensures forall j: nat :: j < |inodes| ==> inodes[j].kind == old(inodes[j].kind)
      ensures forall j: nat :: j < |inodes| && j != i ==> Content(j) == old(Content(j))
      ensures r >= 0 ==> Content(i) == Splice(old(Content(i)), off, src[..r])
      ensures |S().Free()| == |old(S().Free())| - (Blocks(inodes[i].size) - Blocks(old(inodes[i].size)))
    {
      if off > inodes[i].size || SumWraps(off, n) {
        return -1;
      }
      assert InodeOk(disk, owner, i, inodes[i], extent[i]);
      r := if off + n > MAXBYTES then MAXBYTES - off else n;
      hide State.Inv;
      hide State.Tight;
      hide ByteAt;
      WriteClipped(i, src[..r], off);
    }

    /** writei once off and n are in range: the loop, then the new size. */
    method WriteClipped(i: nat, src: seq<byte>, off: nat)
      requires Valid() && i < |inodes| && off <= inodes[i].size && off + |src| <= MAXBYTES
      requires Blocks(Max(inodes[i].size, off + |src|)) - Blocks(inodes[i].size) <= |S().Free()|
      modifies this
      ensures Valid() && TagsKept(old(S()), S())
      ensures |inodes| == |old(inodes)|
      ensures forall j: nat :: j < |inodes| ==> inodes[j].kind == old(inodes[j].kind)
      ensures forall j: nat :: j < |inodes| && j != i ==> Content(j) == old(Content(j))
      ensures Content(i) == Splice(old(Content(i)), off, src)
      ensures |S().Free()| == |old(S().Free())| - (Blocks(inodes[i].size) - Blocks(old(inodes[i].size)))
    {
      hide State.Inv;
      hide State.Tight;
      hide ByteAt;
      ghost var s := S();
      WriteLoop(i, src, off, |src|);
      ghost var s1 := S();
      if |src| > 0 && off + |src| > inodes[i].size {
        inodes := inodes[i := inodes[i].(size := off + |src|)];
        IUpdate(i);
      }
      assert src[..|src|] == src;
      WritingDone(s, s1, S(), i, src, off, off + |src|);
    }

    /** itrunc */
    method ITrunc(i: nat)
      requires Valid() && i < |inodes|
      modifies this
      ensures Valid() && TagsKept(old(S()), S())
      ensures owner == WithoutInode(old(owner), i)
      ensures |S().Free()| == |old(S().Free())| + Blocks(old(inodes[i].size))
      ensures |inodes| == |old(inodes)| && inodes[i].size == 0 && inodes[i].kind == old(inodes[i].kind)
      ensures inodes[i].tags == old(inodes[i].tags)
      ensures forall k: nat :: k <= NDIRECT ==> inodes[i].addrs[k] == 0
      ensures forall j: nat :: j < |inodes| && j != i ==> inodes[j] == old(inodes[j]) && Content(j) == old(Content(j))
    {
      ghost var s := S();
      FreeDirect(i);
      FreeListed(s, i);
      inodes := inodes[i := inodes[i].(size := 0)];
      extent := extent[i := 0];
      TruncateKeepsInv(s, S(), i);
      IUpdate(i);
    }

    /** The body of both loops of itrunc: free the block of slot k, if any. */
    method FreeSlot(ghost s: State, i: nat, ghost k: nat, addr: uint32)
      requires s.Inv() && i < |s.inodes| && k < MAXFILE && addr == Addr(s.disk, s.inodes[i], k)
      requires Truncating(s, sb, disk, owner, i, k)
      modifies this`disk, this`owner
      ensures Truncating(s, sb, disk, owner, i, k + 1)
    {
      if addr != 0 {
        SlotStillOwned(s, sb, disk, owner, i, k);
        BFree(addr);
      } else {
        TruncateSkips(s, sb, disk, owner, i, k);
      }
    }

    /** The first loop of itrunc. */
    method FreeDirect(i: nat)
      requires Valid() && i < |inodes|
      modifies this`disk, this`inodes, this`owner
      ensures Truncating(old(S()), sb, disk, owner, i, NDIRECT)
      ensures Cleared(old(inodes), inodes, i, NDIRECT)
    {
      ghost var s := S();
      var k := 0;
      TruncateStarts(s, i);
      assert Cleared(s.inodes, inodes, i, 0) by {
        assert inodes == inodes[i := inodes[i].(addrs := inodes[i].addrs)];
      }
      hide Truncating, State.Inv, State.Tight;
      while k < NDIRECT
        invariant k <= NDIRECT && Cleared(s.inodes, inodes, i, k)
        invariant Truncating(s, sb, disk, owner, i, k)
      {
        FreeSlot(s, i, k, inodes[i].addrs[k]);
        ClearNext(s.inodes, inodes, i, k);
        inodes := inodes[i := inodes[i].(addrs := inodes[i].addrs[k := 0])];
        k := k + 1;
      }
    }

    /** The second half of itrunc: the blocks listed in the indirect block, then
        the indirect block itself. */
    method FreeListed(ghost s: State, i: nat)
      requires s.Inv() && s.Tight() && i < |inodes| == |s.inodes|
      requires Truncating(s, sb, disk, owner, i, NDIRECT)
      requires inodes[i].addrs[NDIRECT] == s.inodes[i].addrs[NDIRECT]
      modifies this`disk, this`inodes, this`owner
      ensures BitmapOk(sb, disk, owner) && owner == WithoutInode(s.owner, i)
      ensures forall a :: a in owner ==> disk[a] == s.disk[a]
      ensures |FreeSet(sb, owner)| == |s.Free()| + Blocks(s.extent[i])
      ensures |inodes| == |old(inodes)| && inodes == old(inodes)[i := old(inodes[i]).(addrs := inodes[i].addrs)]
      ensures forall k: nat :: k <= NDIRECT ==>
                inodes[i].addrs[k] == if k < NDIRECT then old(inodes[i]).addrs[k] else 0
    {
      assert InodeOk(s.disk, s.owner, i, s.inodes[i], s.extent[i]);
      OnlyInodeGone(s, i);
      var ind := inodes[i].addrs[NDIRECT];
      if ind != 0 {
        var a := disk[ind];
        assert a == s.disk[ind];
        FreeAll(s, i, a);
        BFree(ind);
        inodes := inodes[i := inodes[i].(addrs := inodes[i].addrs[NDIRECT := 0])];
      } else {
        assert inodes[i := inodes[i].(addrs := inodes[i].addrs)] == inodes;
      }
    }

    /** The second loop of itrunc, over the entries of the indirect block a. */
    method FreeAll(ghost s: State, i: nat, a: Block)
      requires s.Inv() && i < |s.inodes| && s.inodes[i].addrs[NDIRECT] != 0
      requires s.inodes[i].addrs[NDIRECT] < |s.disk| && a == s.disk[s.inodes[i].addrs[NDIRECT]]
      requires Truncating(s, sb, disk, owner, i, NDIRECT)
      modifies this`disk, this`owner
      ensures Truncating(s, sb, disk, owner, i, MAXFILE)
    {
      hide Truncating;
      hide BitmapOk;
      var j := 0;
      while j < NINDIRECT
        invariant j <= NINDIRECT
        invariant Truncating(s, sb, disk, owner, i, NDIRECT + j)
      {
        FreeSlot(s, i, NDIRECT + j, Word(a, j));
        j := j + 1;
      }
    }

    method WriteLoop(i: nat, src: seq<byte>, off: nat, n: nat)
      requires S().Inv() && S().Tight() && i < |inodes| && off <= extent[i]
      requires n <= |src| && off + n <= MAXBYTES
      requires Blocks(Max(extent[i], off + n)) - Blocks(extent[i]) <= |S().Free()|
      modifies this`disk, this`inodes, this`owner, this`extent
      ensures Writing(old(S()), S(), i, src, off, off + n)
    {
      hide BitmapOk;
      hide InodeOk;
      hide Referenced;
      hide ByteAt;
      ghost var s := S();
      var tot, o := 0, off;
      while tot < n
        invariant 0 <= tot <= n && o == off + tot
        invariant Writing(s, S(), i, src, off, o)
      {
        var c := Min(n - tot, BSIZE - o % BSIZE);
        ghost var s0 := S();
        BlocksMonotone(Max(extent[i], o + c), Max(s.extent[i], off + n));
        WriteBlock(i, src[tot..tot + c], o);
        WritingTwice(s, s0, S(), i, src, off, o, c);
        tot, o := tot + c, o + c;
      }
    }
  }
}

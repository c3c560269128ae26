/** The changes fs.c makes to a disk, one at a time, and why each of them keeps
    the ownership invariant and every byte it does not mean to change. */
module Ownership {
  import opened Prelude
  import opened Bytes
  import opened Layout

  function Mark(sb: Super, disk: seq<Block>, b: nat): seq<Block>
    requires sb.BBlock(b) < |disk|
  {
    disk[sb.BBlock(b) := WithBit(disk[sb.BBlock(b)], b % BPB)]
  }

  function Unmark(sb: Super, disk: seq<Block>, b: nat): seq<Block>
    requires sb.BBlock(b) < |disk|
  {
    disk[sb.BBlock(b) := WithoutBit(disk[sb.BBlock(b)], b % BPB)]
  }

  /** memmove(d + o, src, |src|) */
  function Overwrite(d: Block, o: nat, src: seq<byte>): (r: Block)
    requires o + |src| <= BSIZE
    ensures forall k: nat :: k < BSIZE ==> r[k] == if o <= k < o + |src| then src[k - o] else d[k]
  {
    d[..o] + src + d[o + |src|..]
  }

  /** Setting or clearing the bit of b changes no other bit. */
  lemma MarkBits(sb: Super, disk: seq<Block>, b: nat, c: nat)
    requires sb.BBlock(b) < |disk| && sb.BBlock(c) < |disk|
    ensures Marked(sb, Mark(sb, disk, b), c) == (b == c || Marked(sb, disk, c))
    ensures Marked(sb, Unmark(sb, disk, b), c) == (b != c && Marked(sb, disk, c))
  {
    if sb.BBlock(b) == sb.BBlock(c) && b != c {
      assert b % BPB != c % BPB;
    }
  }

  lemma BitmapBelowData(sb: Super, c: nat)
    requires c < sb.size
    ensures sb.BBlock(c) < sb.DataStart()
  {
    assert c / BPB <= sb.size / BPB;
  }

  /** Replacing a data block changes no bit. */
  lemma DataKeepsMarks(sb: Super, disk: seq<Block>, b: nat, d: Block, c: nat)
    requires sb.DataStart() <= b < |disk| && c < sb.size && sb.BBlock(c) < |disk|
    ensures Marked(sb, disk[b := d], c) == Marked(sb, disk, c)
  {
    BitmapBelowData(sb, c);
  }

  lemma AllocKeepsBitmap(sb: Super, disk: seq<Block>, owner: map<nat, Owner>, b: nat, o: Owner)
    requires BitmapOk(sb, disk, owner) && sb.DataStart() <= b < sb.size && b !in owner
    ensures BitmapOk(sb, Mark(sb, disk, b), owner[b := o])
    ensures forall c: nat :: sb.DataStart() <= c < sb.size ==> Mark(sb, disk, b)[c] == disk[c]
    ensures |FreeSet(sb, owner[b := o])| == |FreeSet(sb, owner)| - 1
  {
    forall c: nat | c < sb.size
      ensures Marked(sb, Mark(sb, disk, b), c) <==> (c < sb.DataStart() || c in owner[b := o])
    {
      MarkBits(sb, disk, b, c);
    }
    assert FreeSet(sb, owner[b := o]) == FreeSet(sb, owner) - {b};
  }

  lemma FreeKeepsBitmap(sb: Super, disk: seq<Block>, owner: map<nat, Owner>, b: nat)
    requires BitmapOk(sb, disk, owner) && b in owner
    ensures BitmapOk(sb, Unmark(sb, disk[b := ZeroBlock()], b), owner - {b})
    ensures forall c: nat :: sb.DataStart() <= c < sb.size && c != b ==>
                               Unmark(sb, disk[b := ZeroBlock()], b)[c] == disk[c]
    ensures |FreeSet(sb, owner - {b})| == |FreeSet(sb, owner)| + 1
  {
    assert FreeSet(sb, owner - {b}) == FreeSet(sb, owner) + {b};
    var z := disk[b := ZeroBlock()];
    BitmapBelowData(sb, b);
    forall c: nat | c < sb.size
      ensures Marked(sb, Unmark(sb, z, b), c) <==> (c < sb.DataStart() || c in owner - {b})
    {
      BitmapBelowData(sb, c);
      MarkBits(sb, z, b, c);
      DataKeepsMarks(sb, disk, b, ZeroBlock(), c);
    }
  }

  lemma WriteKeepsBitmap(sb: Super, disk: seq<Block>, owner: map<nat, Owner>, b: nat, d: Block)
    requires BitmapOk(sb, disk, owner) && b in owner
    ensures BitmapOk(sb, disk[b := d], owner)
  {
    var disk' := disk[b := d];
    forall c: nat | c < sb.size
      ensures Marked(sb, disk', c) <==> (c < sb.DataStart() || c in owner)
    {
      DataKeepsMarks(sb, disk, b, d, c);
    }
  }

  /** A step on inode i leaves every other inode and its bytes alone. */
  ghost predicate SameElsewhere(s: State, s': State, i: nat) {
    && s'.sb == s.sb
    && |s'.disk| == |s.disk|
    && |s'.inodes| == |s.inodes| == |s.extent| == |s'.extent|
    && (forall j: nat :: j < |s.inodes| && j != i ==> s'.inodes[j] == s.inodes[j] && s'.extent[j] == s.extent[j])
    && (forall a :: a in s.owner && s.owner[a].ino != i && a < |s.disk| ==>
                      a in s'.owner && s'.owner[a] == s.owner[a] && s'.disk[a] == s.disk[a])
    && (forall a :: a in s'.owner && a !in s.owner ==> s'.owner[a].ino == i)
    && (forall a :: a in s'.owner && a in s.owner ==> s'.owner[a] == s.owner[a])
  }

  lemma ElsewhereOk(s: State, s': State, i: nat)
    requires s.Inv() && SameElsewhere(s, s', i)
    ensures forall j: nat :: j < |s.inodes| && j != i ==>
                               InodeOk(s'.disk, s'.owner, j, s'.inodes[j], s'.extent[j])
    ensures forall j: nat, p: nat :: j < |s.inodes| && j != i && p < s.extent[j] ==>
                                       ByteAt(s'.disk, s'.inodes[j], p) == ByteAt(s.disk, s.inodes[j], p)
    ensures forall a :: a in s'.owner && s'.owner[a].ino != i ==> Referenced(s'.disk, s'.inodes, a, s'.owner[a])
  {
    forall j: nat | j < |s.inodes| && j != i
      ensures InodeOk(s'.disk, s'.owner, j, s'.inodes[j], s'.extent[j])
      ensures forall p: nat :: p < s.extent[j] ==>
                                 ByteAt(s'.disk, s'.inodes[j], p) == ByteAt(s.disk, s.inodes[j], p)
      ensures forall bn: nat :: Addr(s'.disk, s'.inodes[j], bn) == Addr(s.disk, s.inodes[j], bn)
    {
      InodeFrame(s.disk, s'.disk, s.owner, s'.owner, j, s.inodes[j], s.extent[j]);
    }
    forall a | a in s'.owner && s'.owner[a].ino != i
      ensures Referenced(s'.disk, s'.inodes, a, s'.owner[a])
    {
      assert Referenced(s.disk, s.inodes, a, s.owner[a]);
    }
  }

  /** A step on inode i keeps the invariant when it does so for i. */
  lemma StepKeepsInv(s: State, s': State, i: nat)
    requires s.Inv() && SameElsewhere(s, s', i) && i < |s.inodes|
    requires BitmapOk(s'.sb, s'.disk, s'.owner)
    requires InodeOk(s'.disk, s'.owner, i, s'.inodes[i], s'.extent[i])
    requires forall b :: b in s'.owner && s'.owner[b].ino == i ==> Referenced(s'.disk, s'.inodes, b, s'.owner[b])
    ensures s'.Inv()
    ensures forall j: nat, p: nat :: j < |s.inodes| && j != i && p < s.extent[j] ==>
                                       ByteAt(s'.disk, s'.inodes[j], p) == ByteAt(s.disk, s.inodes[j], p)
  {
    ElsewhereOk(s, s', i);
  }

  /** Every inode has the tag block it had, with the same contents. */
  ghost predicate TagsKept(s: State, s': State) {
    && |s'.disk| == |s.disk| && |s'.inodes| == |s.inodes|
    && forall j: nat :: j < |s.inodes| ==> s'.inodes[j].tags == s.inodes[j].tags && TagKept(s.disk, s'.disk, s.inodes[j].tags)
  }

  ghost predicate TagKept(disk: seq<Block>, disk': seq<Block>, a: nat) {
    a != 0 && a < |disk| == |disk'| ==> disk'[a] == disk[a]
  }

  lemma KeepsTags(s: State, s': State)
    requires s.Inv() && |s'.disk| == |s.disk| && |s'.inodes| == |s.inodes|
    requires forall j: nat :: j < |s.inodes| ==> s'.inodes[j].tags == s.inodes[j].tags
    requires forall a :: a in s.owner && s.owner[a].Tag? && a < |s.disk| ==> s'.disk[a] == s.disk[a]
    ensures TagsKept(s, s')
  {
    forall j: nat | j < |s.inodes| ensures TagKept(s.disk, s'.disk, s.inodes[j].tags) {
      assert InodeOk(s.disk, s.owner, j, s.inodes[j], s.extent[j]);
    }
  }

  /** Inode i gets an indirect block, which lists no blocks yet. */
  ghost predicate AddsIndirect(s: State, s': State, i: nat, ind: uint32) {
    && i < |s.inodes| && |s.disk| == |s'.disk| == s.sb.size && s.inodes[i].addrs[NDIRECT] == 0
    && ind in s.Free() && ind != 0
    && s' == s.(disk := s'.disk, owner := s.owner[ind := Indirect(i)],
                inodes := s.inodes[i := s.inodes[i].(addrs := s.inodes[i].addrs[NDIRECT := ind])])
    && forall c: nat :: s.sb.DataStart() <= c < s.sb.size ==> s'.disk[c] == s.disk[c]
  }

  lemma IndirectKeepsInode(s: State, s': State, i: nat, ind: uint32)
    requires BitmapOk(s.sb, s.disk, s.owner) && AddsIndirect(s, s', i, ind) && |s.extent| == |s.inodes|
    requires InodeOk(s.disk, s.owner, i, s.inodes[i], s.extent[i])
    ensures InodeOk(s'.disk, s'.owner, i, s'.inodes[i], s'.extent[i])
    ensures forall k: nat :: Addr(s'.disk, s'.inodes[i], k) == Addr(s.disk, s.inodes[i], k)
  {
    assert s'.disk[ind] == ZeroBlock();
    forall k: nat ensures Addr(s'.disk, s'.inodes[i], k) == Addr(s.disk, s.inodes[i], k) {
    }
    forall k: nat | k < MAXFILE ensures SlotOk(s'.disk, s'.owner, i, s'.inodes[i], s'.extent[i], k) {
      assert SlotOk(s.disk, s.owner, i, s.inodes[i], s.extent[i], k);
    }
  }

  lemma IndirectElsewhere(s: State, s': State, i: nat, ind: uint32)
    requires BitmapOk(s.sb, s.disk, s.owner) && AddsIndirect(s, s', i, ind) && |s.extent| == |s.inodes|
    ensures SameElsewhere(s, s', i)
  {
  }

  lemma IndirectKeepsByte(s: State, s': State, i: nat, ind: uint32, p: nat)
    requires BitmapOk(s.sb, s.disk, s.owner) && AddsIndirect(s, s', i, ind) && |s.extent| == |s.inodes|
    requires InodeOk(s.disk, s.owner, i, s.inodes[i], s.extent[i]) && p < s.extent[i]
    ensures ByteAt(s'.disk, s'.inodes[i], p) == ByteAt(s.disk, s.inodes[i], p)
  {
    IndirectKeepsInode(s, s', i, ind);
    assert SlotOk(s.disk, s.owner, i, s.inodes[i], s.extent[i], p / BSIZE);
  }

  lemma IndirectKeepsInv(s: State, s': State, i: nat, ind: uint32)
    requires s.Inv() && AddsIndirect(s, s', i, ind) && BitmapOk(s'.sb, s'.disk, s'.owner)
    ensures s'.Inv() && TagsKept(s, s')
    ensures forall j: nat, p: nat :: j < |s.inodes| && p < s.extent[j] ==>
                                       ByteAt(s'.disk, s'.inodes[j], p) == ByteAt(s.disk, s.inodes[j], p)
    ensures forall k: nat :: Addr(s'.disk, s'.inodes[i], k) == Addr(s.disk, s.inodes[i], k)
  {
    IndirectKeepsInode(s, s', i, ind);
    forall b | b in s'.owner && s'.owner[b].ino == i ensures Referenced(s'.disk, s'.inodes, b, s'.owner[b]) {
      assert b != ind ==> Referenced(s.disk, s.inodes, b, s.owner[b]);
    }
    IndirectElsewhere(s, s', i, ind);
    StepKeepsInv(s, s', i);
    KeepsTags(s, s');
    forall p: nat | p < s.extent[i]
      ensures ByteAt(s'.disk, s'.inodes[i], p) == ByteAt(s.disk, s.inodes[i], p)
    {
      IndirectKeepsByte(s, s', i, ind, p);
    }
  }

  /** Block a is added to the end of inode i as its block bn. */
  ghost predicate Grows(s: State, s': State, i: nat, bn: nat, a: uint32) {
    && i < |s.inodes| == |s.extent| == |s'.inodes| && bn < MAXFILE && |s.disk| == |s'.disk| == s.sb.size
    && s.extent[i] == bn * BSIZE
    && a in s.Free() && a != 0
    && s' == s.(disk := s'.disk, owner := s.owner[a := Data(i, bn)],
                inodes := s.inodes[i := s.inodes[i].(addrs := s'.inodes[i].addrs)],
                extent := s.extent[i := bn * BSIZE + 1])
    && s'.inodes[i].addrs[NDIRECT] == s.inodes[i].addrs[NDIRECT]
    && (NDIRECT <= bn ==> s.inodes[i].addrs[NDIRECT] != 0)
    && (forall c: nat :: s.sb.DataStart() <= c < s.sb.size && c != s.inodes[i].addrs[NDIRECT] ==>
                           s'.disk[c] == s.disk[c])
    && (forall k: nat :: k < MAXFILE ==>
          Addr(s'.disk, s'.inodes[i], k) == if k == bn then a else Addr(s.disk, s.inodes[i], k))
  }

  lemma GrowKeepsSlot(s: State, s': State, i: nat, bn: nat, a: uint32, k: nat)
    requires BitmapOk(s.sb, s.disk, s.owner) && Grows(s, s', i, bn, a) && k < MAXFILE
    requires InodeOk(s.disk, s.owner, i, s.inodes[i], s.extent[i])
    ensures SlotOk(s'.disk, s'.owner, i, s'.inodes[i], s'.extent[i], k)
  {
    assert SlotOk(s.disk, s.owner, i, s.inodes[i], s.extent[i], k);
    if k == bn {
      assert s'.disk[a] == ZeroBlock();
    }
  }

  lemma GrowKeepsByte(s: State, s': State, i: nat, bn: nat, a: uint32, p: nat)
    requires BitmapOk(s.sb, s.disk, s.owner) && Grows(s, s', i, bn, a) && p < s.extent[i]
    requires InodeOk(s.disk, s.owner, i, s.inodes[i], s.extent[i])
    ensures ByteAt(s'.disk, s'.inodes[i], p) == ByteAt(s.disk, s.inodes[i], p)
  {
    assert SlotOk(s.disk, s.owner, i, s.inodes[i], s.extent[i], p / BSIZE);
  }

  lemma GrowKeepsReference(s: State, s': State, i: nat, bn: nat, a: uint32, b: nat)
    requires Grows(s, s', i, bn, a) && b in s.owner && s.owner[b].ino == i && b != 0
    requires Referenced(s.disk, s.inodes, b, s.owner[b])
    requires InodeOk(s.disk, s.owner, i, s.inodes[i], s.extent[i])
    ensures Referenced(s'.disk, s'.inodes, b, s.owner[b])
  {
    assert SlotOk(s.disk, s.owner, i, s.inodes[i], s.extent[i], bn);
  }

  lemma GrowElsewhere(s: State, s': State, i: nat, bn: nat, a: uint32)
    requires BitmapOk(s.sb, s.disk, s.owner) && Grows(s, s', i, bn, a)
    requires InodeOk(s.disk, s.owner, i, s.inodes[i], s.extent[i])
    ensures SameElsewhere(s, s', i)
  {
  }

  lemma GrowKeepsInode(s: State, s': State, i: nat, bn: nat, a: uint32)
    requires BitmapOk(s.sb, s.disk, s.owner) && Grows(s, s', i, bn, a)
    requires InodeOk(s.disk, s.owner, i, s.inodes[i], s.extent[i])
    ensures InodeOk(s'.disk, s'.owner, i, s'.inodes[i], s'.extent[i])
  {
    forall k: nat | k < MAXFILE ensures SlotOk(s'.disk, s'.owner, i, s'.inodes[i], s'.extent[i], k) {
      GrowKeepsSlot(s, s', i, bn, a, k);
    }
  }

  lemma GrowKeepsInv(s: State, s': State, i: nat, bn: nat, a: uint32)
    requires s.Inv() && Grows(s, s', i, bn, a) && BitmapOk(s'.sb, s'.disk, s'.owner)
    ensures s'.Inv() && TagsKept(s, s')
    ensures forall j: nat, p: nat :: j < |s.inodes| && p < s.extent[j] ==>
                                       ByteAt(s'.disk, s'.inodes[j], p) == ByteAt(s.disk, s.inodes[j], p)
  {
    assert InodeOk(s.disk, s.owner, i, s.inodes[i], s.extent[i]);
    GrowKeepsInode(s, s', i, bn, a);
    forall b | b in s'.owner && s'.owner[b].ino == i ensures Referenced(s'.disk, s'.inodes, b, s'.owner[b]) {
      if b != a {
        GrowKeepsReference(s, s', i, bn, a, b);
      }
    }
    GrowElsewhere(s, s', i, bn, a);
    StepKeepsInv(s, s', i);
    KeepsTags(s, s');
    forall p: nat | p < s.extent[i]
      ensures ByteAt(s'.disk, s'.inodes[i], p) == ByteAt(s.disk, s.inodes[i], p)
    {
      GrowKeepsByte(s, s', i, bn, a, p);
    }
  }

  /** src is written at byte o of block bn of inode i. */
  ghost predicate Writes(s: State, s': State, i: nat, bn: nat, o: nat, src: seq<byte>) {
    && i < |s.inodes| == |s.extent| && bn < MAXFILE && bn * BSIZE < s.extent[i]
    && InodeOk(s.disk, s.owner, i, s.inodes[i], s.extent[i])
    && o + |src| <= BSIZE && bn * BSIZE + o <= s.extent[i]
    && var a := Addr(s.disk, s.inodes[i], bn);
       a < |s.disk| &&
       s' == s.(disk := s.disk[a := Overwrite(s.disk[a], o, src)],
                extent := s.extent[i := Max(s.extent[i], bn * BSIZE + o + |src|)])
  }

  lemma WriteKeepsAddrs(s: State, s': State, i: nat, bn: nat, o: nat, src: seq<byte>)
    requires Writes(s, s', i, bn, o, src)
    ensures OwnedAs(s.disk, s.owner, Addr(s.disk, s.inodes[i], bn), Data(i, bn))
    ensures forall k: nat :: Addr(s'.disk, s.inodes[i], k) == Addr(s.disk, s.inodes[i], k)
  {
    assert SlotOk(s.disk, s.owner, i, s.inodes[i], s.extent[i], bn);
  }

  lemma WriteKeepsSlot(s: State, s': State, i: nat, bn: nat, o: nat, src: seq<byte>, k: nat)
    requires Writes(s, s', i, bn, o, src) && k < MAXFILE
    ensures SlotOk(s'.disk, s'.owner, i, s'.inodes[i], s'.extent[i], k)
  {
    WriteKeepsAddrs(s, s', i, bn, o, src);
    assert SlotOk(s.disk, s.owner, i, s.inodes[i], s.extent[i], k);
    var a := Addr(s.disk, s.inodes[i], k);
    if a != 0 {
      assert OwnedAs(s.disk, s.owner, a, Data(i, k));
      if k == bn {
      } else {
        assert s'.disk[a] == s.disk[a];
      }
    }
  }

  lemma WriteByte(s: State, s': State, i: nat, bn: nat, o: nat, src: seq<byte>, p: nat)
    requires Writes(s, s', i, bn, o, src) && p < s'.extent[i]
    ensures ByteAt(s'.disk, s'.inodes[i], p) ==
            if bn * BSIZE + o <= p < bn * BSIZE + o + |src| then src[p - (bn * BSIZE + o)]
            else ByteAt(s.disk, s.inodes[i], p)
  {
    WriteKeepsAddrs(s, s', i, bn, o, src);
    assert SlotOk(s.disk, s.owner, i, s.inodes[i], s.extent[i], p / BSIZE);
    if p / BSIZE != bn && Addr(s.disk, s.inodes[i], p / BSIZE) != 0 {
      assert Addr(s.disk, s.inodes[i], p / BSIZE) != Addr(s.disk, s.inodes[i], bn);
    }
  }

  lemma WriteKeepsInv(s: State, s': State, i: nat, bn: nat, o: nat, src: seq<byte>)
    requires s.Inv() && Writes(s, s', i, bn, o, src)
    ensures s'.Inv() && TagsKept(s, s')
    ensures forall j: nat, p: nat :: j < |s.inodes| && j != i && p < s.extent[j] ==>
                                       ByteAt(s'.disk, s'.inodes[j], p) == ByteAt(s.disk, s.inodes[j], p)
  {
    var ip := s.inodes[i];
    var a := Addr(s.disk, ip, bn);
    WriteKeepsAddrs(s, s', i, bn, o, src);
    WriteKeepsBitmap(s.sb, s.disk, s.owner, a, Overwrite(s.disk[a], o, src));
    forall k: nat | k < MAXFILE ensures SlotOk(s'.disk, s'.owner, i, ip, s'.extent[i], k) {
      WriteKeepsSlot(s, s', i, bn, o, src, k);
    }
    forall b | b in s'.owner && s'.owner[b].ino == i ensures Referenced(s'.disk, s'.inodes, b, s'.owner[b]) {
      assert Referenced(s.disk, s.inodes, b, s.owner[b]);
    }
    StepKeepsInv(s, s', i);
    KeepsTags(s, s');
  }

  // ---------- truncation ----------

  /** What is left of the owners once the first k data slots of inode i are
      free. */
  ghost function WithoutSlots(owner: map<nat, Owner>, i: nat, k: nat): map<nat, Owner> {
    map a | a in owner && !(owner[a].Data? && owner[a].ino == i && owner[a].bn < k) :: owner[a]
  }

  /** What is left once all data and the indirect block of inode i are free. */
  ghost function WithoutInode(owner: map<nat, Owner>, i: nat): map<nat, Owner> {
    map a | a in owner && (owner[a].ino != i || owner[a].Tag?) :: owner[a]
  }

  /** s', in the middle of itrunc(i): the blocks of slots below k are free. */
  ghost predicate Truncating(s: State, sb: Super, disk: seq<Block>, owner: map<nat, Owner>, i: nat, k: nat) {
    && sb == s.sb && BitmapOk(sb, disk, owner) && |s.disk| == |disk|
    && owner == WithoutSlots(s.owner, i, k)
    && (forall a :: a in owner ==> disk[a] == s.disk[a])
    && i < |s.extent|
    && |FreeSet(sb, owner)| == |s.Free()| + Min(k, (s.extent[i] + BSIZE - 1) / BSIZE)
  }

  /** An unmapped slot owns nothing, so passing over it frees nothing. */
  lemma TruncateSkips(s: State, sb: Super, disk: seq<Block>, owner: map<nat, Owner>, i: nat, k: nat)
    requires s.Inv() && i < |s.inodes| && k < MAXFILE && Truncating(s, sb, disk, owner, i, k)
    requires Addr(s.disk, s.inodes[i], k) == 0
    ensures Truncating(s, sb, disk, owner, i, k + 1)
  {
    assert InodeOk(s.disk, s.owner, i, s.inodes[i], s.extent[i]);
    assert SlotOk(s.disk, s.owner, i, s.inodes[i], s.extent[i], k);
    forall a | a in s.owner ensures s.owner[a] != Data(i, k) {
      assert Referenced(s.disk, s.inodes, a, s.owner[a]);
    }
    assert WithoutSlots(s.owner, i, k + 1) == WithoutSlots(s.owner, i, k);
  }

  lemma SlotStillOwned(s: State, sb: Super, disk: seq<Block>, owner: map<nat, Owner>, i: nat, k: nat)
    requires s.Inv() && i < |s.inodes| && k < MAXFILE && Truncating(s, sb, disk, owner, i, k)
    requires Addr(s.disk, s.inodes[i], k) != 0
    ensures Addr(s.disk, s.inodes[i], k) in owner
    ensures owner - {Addr(s.disk, s.inodes[i], k)} == WithoutSlots(s.owner, i, k + 1)
    ensures k * BSIZE < s.extent[i]
  {
    assert InodeOk(s.disk, s.owner, i, s.inodes[i], s.extent[i]);
    assert SlotOk(s.disk, s.owner, i, s.inodes[i], s.extent[i], k);
    forall a | a in s.owner && s.owner[a] == Data(i, k) ensures a == Addr(s.disk, s.inodes[i], k) {
      assert Referenced(s.disk, s.inodes, a, s.owner[a]);
    }
  }

  /** itrunc(i) leaves an empty file, and frees exactly what the file had. */
  lemma TruncateKeepsInv(s: State, s': State, i: nat)
    requires s.Inv() && i < |s.inodes| == |s'.inodes|
    requires s' == s.(disk := s'.disk, owner := WithoutInode(s.owner, i),
                      inodes := s.inodes[i := s.inodes[i].(addrs := s'.inodes[i].addrs, size := s'.inodes[i].size)],
                      extent := s.extent[i := 0])
    requires BitmapOk(s'.sb, s'.disk, s'.owner)
    requires forall a :: a in s'.owner ==> s'.disk[a] == s.disk[a]
    requires forall k: nat :: k <= NDIRECT ==> s'.inodes[i].addrs[k] == 0
    ensures s'.Inv() && TagsKept(s, s')
    ensures forall j: nat, p: nat :: j < |s.inodes| && j != i && p < s.extent[j] ==>
                                       ByteAt(s'.disk, s'.inodes[j], p) == ByteAt(s.disk, s.inodes[j], p)
  {
    assert InodeOk(s.disk, s.owner, i, s.inodes[i], s.extent[i]);
    forall k: nat | k < MAXFILE ensures SlotOk(s'.disk, s'.owner, i, s'.inodes[i], s'.extent[i], k) {
    }
    forall b | b in s'.owner && s'.owner[b].ino == i ensures Referenced(s'.disk, s'.inodes, b, s'.owner[b]) {
      assert Referenced(s.disk, s.inodes, b, s.owner[b]);
    }
    StepKeepsInv(s, s', i);
    KeepsTags(s, s');
  }
}

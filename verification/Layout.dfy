/** The on-disk layout of an xv6 file system (include/fs.h), the map from an
    inode to its blocks, and the ownership invariant that fs.c relies on.

    Every block in use has exactly one owner: a data slot of one inode, the
    indirect slot of one inode, or the tag slot of one inode.  A block without
    an owner is unmarked in the bitmap and holds only zeros. */
module Layout {
  import opened Prelude
  import opened Bytes

  const NDIRECT: nat := 11
  const MAXFILE: nat := 139
  const IPB: nat := 8
  const INDIRECT_START: nat := 5632 // NDIRECT * BSIZE
  const MAXBYTES: nat := 71168 // MAXFILE * BSIZE

  datatype FileKind = FreeInode | DirInode | FileInode | DevInode

  type Addrs = a: seq<uint32> | |a| == NDIRECT + 1 witness seq(NDIRECT + 1, _ => 0)

  datatype Inode = Inode(kind: FileKind, size: nat, addrs: Addrs, tags: uint32)

  /** What iupdate copies to the disk: everything but the tag block. */
  datatype Dinode = Dinode(kind: FileKind, size: nat, addrs: Addrs)

  function ToDisk(ip: Inode): Dinode { Dinode(ip.kind, ip.size, ip.addrs) }

  datatype Super = Super(size: nat, ninodes: nat) {
    /** BBLOCK(b, ninodes) */
    function BBlock(b: nat): nat { b / BPB + ninodes / IPB + 3 }

    /** The number of blocks mkfs sets aside for metadata. */
    function DataStart(): nat { size / BPB + 1 + ninodes / IPB + 3 }

    /** The bits that balloc looks at: whole bitmap blocks. */
    function Bits(): nat { (size + BPB - 1) / BPB * BPB }

    predicate Ok() { DataStart() <= size < 0x1_0000_0000 }
  }

  datatype Owner = Data(ino: nat, bn: nat) | Indirect(ino: nat) | Tag(ino: nat)

  // ---------- bitmap ----------

  predicate Marked(sb: Super, disk: seq<Block>, b: nat) {
    sb.BBlock(b) < |disk| && BitAt(disk[sb.BBlock(b)], b % BPB)
  }

  ghost predicate BitmapOk(sb: Super, disk: seq<Block>, owner: map<nat, Owner>) {
    && sb.Ok()
    && |disk| == sb.size
    && (forall b :: b in owner ==> sb.DataStart() <= b < sb.size)
    && (forall b: nat {:trigger Marked(sb, disk, b)} :: b < sb.size ==> (Marked(sb, disk, b) <==> (b < sb.DataStart() || b in owner)))
    && (forall b: nat {:trigger disk[b]} :: sb.DataStart() <= b < sb.size && b !in owner ==> disk[b] == ZeroBlock())
  }

  /** The unmarked blocks of the disk. */
  ghost function FreeSet(sb: Super, owner: map<nat, Owner>): (f: set<nat>) {
    set b: nat | sb.DataStart() <= b < sb.size && b !in owner
  }

  // ---------- the block map of an inode ----------

  /** The address of block bn of inode ip, 0 when there is none. */
  function Addr(disk: seq<Block>, ip: Inode, bn: nat): uint32 {
    if bn < NDIRECT then ip.addrs[bn]
    else if bn >= MAXFILE || ip.addrs[NDIRECT] == 0 || ip.addrs[NDIRECT] >= |disk| then 0
    else Word(disk[ip.addrs[NDIRECT]], bn - NDIRECT)
  }

  function ByteAt(disk: seq<Block>, ip: Inode, p: nat): byte {
    var a := Addr(disk, ip, p / BSIZE);
    if a < |disk| then disk[a][p % BSIZE] else 0
  }

  /** The first n bytes of the file. */
  ghost function FileBytes(disk: seq<Block>, ip: Inode, n: nat): (r: seq<byte>)
    ensures |r| == n
  {
    seq(n, p requires 0 <= p < n => ByteAt(disk, ip, p))
  }

  /** How many blocks a file of n bytes takes, its indirect block included. */
  function Blocks(n: nat): nat {
    (n + BSIZE - 1) / BSIZE + (if n > INDIRECT_START then 1 else 0)
  }

  // ---------- ownership ----------

  ghost predicate OwnedAs(disk: seq<Block>, owner: map<nat, Owner>, a: nat, o: Owner) {
    a < |disk| && a in owner && owner[a] == o
  }

  /** Slot bn is mapped exactly when it holds a byte below ext, its block is
      owned by that slot, and its bytes from ext on are zero. */
  ghost predicate SlotOk(disk: seq<Block>, owner: map<nat, Owner>, i: nat, ip: Inode, ext: nat, bn: nat) {
    var a := Addr(disk, ip, bn);
    && (a != 0 <==> bn * BSIZE < ext)
    && (a != 0 ==>
          && OwnedAs(disk, owner, a, Data(i, bn))
          && forall k: nat :: k < BSIZE && ext <= bn * BSIZE + k ==> disk[a][k] == 0)
  }

  ghost predicate InodeOk(disk: seq<Block>, owner: map<nat, Owner>, i: nat, ip: Inode, ext: nat) {
    && ext <= MAXBYTES
    && (INDIRECT_START < ext ==> ip.addrs[NDIRECT] != 0)
    && (ip.addrs[NDIRECT] != 0 ==> OwnedAs(disk, owner, ip.addrs[NDIRECT], Indirect(i)))
    && (ip.tags != 0 ==> OwnedAs(disk, owner, ip.tags, Tag(i)))
    && (forall bn: nat :: bn < MAXFILE ==> SlotOk(disk, owner, i, ip, ext, bn))
  }

  /** Block a is referenced by the slot that owns it. */
  ghost predicate Referenced(disk: seq<Block>, inodes: seq<Inode>, a: nat, o: Owner) {
    && o.ino < |inodes|
    && match o
       case Data(i, bn) => bn < MAXFILE && Addr(disk, inodes[i], bn) == a
       case Indirect(i) => inodes[i].addrs[NDIRECT] == a
       case Tag(i) => inodes[i].tags == a
  }

  /** A file system in memory and on disk.  extent[i] is the number of bytes of
      inode i backed by blocks; it runs ahead of the size during writei. */
  datatype State = State(sb: Super, disk: seq<Block>, inodes: seq<Inode>,
                         owner: map<nat, Owner>, extent: seq<nat>)
  {
    ghost predicate Inv() {
      && BitmapOk(sb, disk, owner)
      && |extent| == |inodes|
      && (forall i: nat :: i < |inodes| ==> InodeOk(disk, owner, i, inodes[i], extent[i]))
      && (forall a :: a in owner ==> Referenced(disk, inodes, a, owner[a]))
    }

    /** No inode has an indirect block before it needs one. */
    ghost predicate Tight() {
      |extent| == |inodes| &&
      forall i: nat :: i < |inodes| && inodes[i].addrs[NDIRECT] != 0 ==> INDIRECT_START < extent[i]
    }

    ghost function Free(): set<nat> { FreeSet(sb, owner) }
  }

  // ---------- no block is shared ----------

  ghost function SlotAddr(s: State, x: Owner): uint32
    requires x.ino < |s.inodes|
  {
    match x
    case Data(i, bn) => Addr(s.disk, s.inodes[i], bn)
    case Indirect(i) => s.inodes[i].addrs[NDIRECT]
    case Tag(i) => s.inodes[i].tags
  }

  lemma SlotOwned(s: State, x: Owner)
    requires s.Inv() && x.ino < |s.inodes| && SlotAddr(s, x) != 0
    ensures OwnedAs(s.disk, s.owner, SlotAddr(s, x), x)
  {
    assert InodeOk(s.disk, s.owner, x.ino, s.inodes[x.ino], s.extent[x.ino]);
    if x.Data? {
      assert x.bn < MAXFILE;
      assert SlotOk(s.disk, s.owner, x.ino, s.inodes[x.ino], s.extent[x.ino], x.bn);
    }
  }

  /** Two different slots never name the same block, and every named block is
      marked in the bitmap and lies in the data area. */
  lemma NoSharing(s: State, x: Owner, y: Owner)
    requires s.Inv() && x.ino < |s.inodes| && y.ino < |s.inodes| && x != y
    requires SlotAddr(s, x) != 0
    ensures SlotAddr(s, x) != SlotAddr(s, y)
    ensures s.sb.DataStart() <= SlotAddr(s, x) < s.sb.size
    ensures Marked(s.sb, s.disk, SlotAddr(s, x))
  {
    SlotOwned(s, x);
    if SlotAddr(s, y) != 0 {
      SlotOwned(s, y);
    }
  }

  /** The unmarked blocks are exactly the free ones, they hold only zeros, and
      every marked data block is named by some slot. */
  lemma MarkedIsReferenced(s: State, b: nat)
    requires s.Inv() && s.sb.DataStart() <= b < s.sb.size
    ensures !Marked(s.sb, s.disk, b) <==> b in s.Free()
    ensures !Marked(s.sb, s.disk, b) ==> s.disk[b] == ZeroBlock()
    ensures Marked(s.sb, s.disk, b) ==> exists x: Owner :: x.ino < |s.inodes| && SlotAddr(s, x) == b
  {
    if Marked(s.sb, s.disk, b) {
      assert Referenced(s.disk, s.inodes, b, s.owner[b]);
      assert SlotAddr(s, s.owner[b]) == b;
    }
  }

  // ---------- frame ----------

  /** An inode is untouched by any change away from the blocks it owns. */
  lemma InodeFrame(disk: seq<Block>, disk': seq<Block>, owner: map<nat, Owner>, owner': map<nat, Owner>,
                   i: nat, ip: Inode, ext: nat)
    requires |disk'| == |disk| && InodeOk(disk, owner, i, ip, ext)
    requires forall a :: a in owner && owner[a].ino == i && a < |disk| ==>
                           a in owner' && owner'[a] == owner[a] && disk'[a] == disk[a]
    ensures InodeOk(disk', owner', i, ip, ext)
    ensures forall bn: nat :: Addr(disk', ip, bn) == Addr(disk, ip, bn)
    ensures forall p: nat :: p < ext ==> ByteAt(disk', ip, p) == ByteAt(disk, ip, p)
  {
    forall bn: nat ensures Addr(disk', ip, bn) == Addr(disk, ip, bn) {
      if NDIRECT <= bn < MAXFILE && ip.addrs[NDIRECT] != 0 {
        assert OwnedAs(disk, owner, ip.addrs[NDIRECT], Indirect(i));
      }
    }
    forall bn: nat | bn < MAXFILE ensures SlotOk(disk', owner', i, ip, ext, bn) {
      assert SlotOk(disk, owner, i, ip, ext, bn);
    }
    forall p: nat | p < ext ensures ByteAt(disk', ip, p) == ByteAt(disk, ip, p) {
      assert SlotOk(disk, owner, i, ip, ext, p / BSIZE);
    }
  }
}

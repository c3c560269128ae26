/** Directories (kernel/fs.c): a file of sixteen byte entries, an inode number and
    a name of up to fourteen bytes.  Inode number 0 marks an empty entry. */
module Directory {
  import opened Prelude
  import opened Bytes
  import opened Layout
  import opened Ownership
  import opened FileSystem
  import opened Strings
  import TagBlock

  const DIRSIZ := 14
  const ENTRY := 16
  const PER_BLOCK := 32 // BSIZE / ENTRY

  /** A name as an entry keeps it, and as namecmp sees it. */
  function Trunc(name: seq<byte>): (r: seq<byte>)
    ensures |r| <= DIRSIZ
  {
    if |name| <= DIRSIZ then name else name[..DIRSIZ]
  }

  function InumOf(s: seq<byte>): nat
    requires |s| == ENTRY
  {
    (s[0] as int) + 256 * (s[1] as int)
  }

  function NameOf(s: seq<byte>): (r: seq<byte>)
    requires |s| == ENTRY
    ensures |r| <= DIRSIZ
  {
    TagBlock.Cut(s[2..])
  }

  /** The entry that dirlink writes: strncpy and a cut to sixteen bits. */
  function Dirent(name: seq<byte>, inum: nat): (s: seq<byte>)
    ensures |s| == ENTRY
  {
    [inum % 256, inum / 256 % 256] + Trunc(name) + TagBlock.Zeros(DIRSIZ - |Trunc(name)|)
  }

  lemma LowBytes(n: nat)
    ensures n % 256 + 256 * (n / 256 % 256) == n % 0x1_0000
  {
    var q, r := n / 0x1_0000, n % 0x1_0000;
    assert n == 256 * (256 * q) + r;
    assert n / 256 == 256 * q + r / 256;
  }

  lemma DirentReads(name: seq<byte>, inum: nat)
    requires 0 !in name
    ensures InumOf(Dirent(name, inum)) == inum % 0x1_0000
    ensures NameOf(Dirent(name, inum)) == Trunc(name)
  {
    var s, t := Dirent(name, inum), Trunc(name);
    assert s[0] == inum % 256 && s[1] == inum / 256 % 256;
    LowBytes(inum);
    var padded := t + TagBlock.Zeros(DIRSIZ - |t|);
    assert s[2..] == padded && padded[..|t|] == t;
    TagBlock.CutIs(padded, t);
  }

  /** A key is the part of a name that namecmp looks at: two names have one key just
      if they are equal, or agree on their first fourteen bytes. */
  lemma TruncSame(a: seq<byte>, b: seq<byte>)
    requires 0 !in a && 0 !in b
    ensures Trunc(a) == Trunc(b) <==> SameName(a, b, DIRSIZ)
    ensures Trunc(a) == Trunc(b) <==> a == b || (|a| >= 14 && |b| >= 14 && a[..14] == b[..14])
    ensures |a| <= 14 ==> Trunc(a) == a
  {
    SameNameIs(a, b, DIRSIZ);
  }

  lemma CutBytes(q: seq<byte>)
    ensures var c := TagBlock.Cut(q);
            && |c| <= |q| && 0 !in c && c == q[..|c|] && (|c| < |q| ==> q[|c|] == 0)
  {
    TagBlock.CutIs(q, TagBlock.Cut(q));
  }

  /** A field that ends at its first NUL is compared like the string before it. */
  lemma SameAsCut(name: seq<byte>, q: seq<byte>)
    requires |q| == DIRSIZ
    ensures SameName(name, q, DIRSIZ) <==> SameName(name, TagBlock.Cut(q), DIRSIZ)
  {
    var c := TagBlock.Cut(q);
    CutBytes(q);
    forall j: nat | j < DIRSIZ && j <= |c| ensures At(q, j) == At(c, j) {
    }
    if |c| < DIRSIZ && Within(name, |c|) && At(name, |c|) != 0 {
      assert !SameName(name, q, DIRSIZ) && !SameName(name, c, DIRSIZ);
    } else {
      forall j: nat | j < DIRSIZ && Within(name, j) ensures At(q, j) == At(c, j) {
        WithinBefore(name, |c|, j);
      }
    }
  }

  /** namecmp of a name and an entry. */
  lemma EntryNameIs(name: seq<byte>, s: seq<byte>)
    requires 0 !in name && |s| == ENTRY
    ensures NameOf(s) == Trunc(name) <==> SameName(name, s[2..], DIRSIZ)
  {
    var c := NameOf(s);
    CutBytes(s[2..]);
    SameAsCut(name, s[2..]);
    TruncSame(name, c);
  }

  /** The entry that dirlink makes, by strncpy. */
  method MakeDirent(name: seq<byte>, inum: uint32) returns (de: seq<byte>)
    requires 0 !in name
    ensures de == Dirent(name, inum)
    ensures |de| == ENTRY && forall j: nat :: j < DIRSIZ ==> de[2 + j] == At(name, j)
  {
    var s := StrNCpy(name, DIRSIZ);
    de := [inum % 256, inum / 256 % 256] + s;
    assert s == Trunc(name) + TagBlock.Zeros(DIRSIZ - |Trunc(name)|);
  }

  // ---------- The map of a directory ----------

  function EntryAt(f: seq<byte>, e: nat): (s: seq<byte>)
    requires ENTRY * e + ENTRY <= |f|
    ensures |s| == ENTRY
  {
    f[ENTRY * e..ENTRY * e + ENTRY]
  }

  predicate Live(f: seq<byte>, e: nat) {
    ENTRY * e + ENTRY <= |f| && InumOf(EntryAt(f, e)) != 0
  }

  /** Whole entries, and no name twice. */
  ghost predicate DirOk(f: seq<byte>) {
    && |f| % ENTRY == 0
    && forall a: nat, b: nat :: a < b && Live(f, a) && Live(f, b) ==> NameOf(EntryAt(f, a)) != NameOf(EntryAt(f, b))
  }

  /** Entry e is live and has this name. */
  ghost predicate Has(f: seq<byte>, e: nat, k: seq<byte>) {
    Live(f, e) && NameOf(EntryAt(f, e)) == k
  }

  /** Entry e, below n, has this name. */
  ghost predicate Names(f: seq<byte>, n: nat, e: nat, k: seq<byte>) {
    e < n && Has(f, e, k)
  }

  ghost function MapBelow(f: seq<byte>, n: nat): (m: map<seq<byte>, nat>)
    requires DirOk(f)
    ensures forall k :: k in m <==> exists e :: Names(f, n, e, k)
    ensures forall e, k :: Names(f, n, e, k) ==> m[k] == InumOf(EntryAt(f, e))
  {
    if n == 0 then map[]
    else
      var m := MapBelow(f, n - 1);
      MapStep(f, n, m);
      if Live(f, n - 1) then m[NameOf(EntryAt(f, n - 1)) := InumOf(EntryAt(f, n - 1))] else m
  }

  lemma MapStep(f: seq<byte>, n: nat, m: map<seq<byte>, nat>)
    requires DirOk(f) && n > 0
    requires forall k :: k in m <==> exists e {:trigger Names(f, n - 1, e, k)} :: Names(f, n - 1, e, k)
    requires forall e, k {:trigger Names(f, n - 1, e, k)} :: Names(f, n - 1, e, k) ==> m[k] == InumOf(EntryAt(f, e))
    ensures var m' := if Live(f, n - 1) then m[NameOf(EntryAt(f, n - 1)) := InumOf(EntryAt(f, n - 1))] else m;
      && (forall k :: k in m' <==> exists e :: Names(f, n, e, k))
      && (forall e, k :: Names(f, n, e, k) ==> m'[k] == InumOf(EntryAt(f, e)))
  {
    var m' := if Live(f, n - 1) then m[NameOf(EntryAt(f, n - 1)) := InumOf(EntryAt(f, n - 1))] else m;
    forall e: nat, k | Names(f, n, e, k) ensures k in m' && m'[k] == InumOf(EntryAt(f, e)) {
      if e < n - 1 {
        assert Names(f, n - 1, e, k);
        assert !Has(f, n - 1, k);
      }
    }
    forall k | k in m' ensures exists e :: Names(f, n, e, k) {
      if k in m {
        var e :| Names(f, n - 1, e, k);
        assert Names(f, n, e, k);
      } else {
        assert Names(f, n, n - 1, k);
      }
    }
  }

  /** The map from names to inode numbers that a directory stands for. */
  ghost function DirMap(f: seq<byte>): map<seq<byte>, nat>
    requires DirOk(f)
  {
    MapBelow(f, |f| / ENTRY)
  }

  lemma InMap(f: seq<byte>, k: seq<byte>)
    requires DirOk(f)
    ensures k in DirMap(f) <==> exists e: nat :: Has(f, e, k)
    ensures forall e: nat :: Has(f, e, k) ==> DirMap(f)[k] == InumOf(EntryAt(f, e))
  {
    var n := |f| / ENTRY;
    assert forall e: nat {:trigger Has(f, e, k)} {:trigger Names(f, n, e, k)} :: Names(f, n, e, k) <==> Has(f, e, k);
  }

  /** f' is f with entry e, perhaps a new one at the end, replaced by s. */
  ghost predicate EntrySet(f: seq<byte>, f': seq<byte>, e: nat, s: seq<byte>) {
    && |f| % ENTRY == 0 && ENTRY * e <= |f| && |s| == ENTRY
    && f' == Splice(f, ENTRY * e, s)
  }

  lemma EntrySetReads(f: seq<byte>, f': seq<byte>, e: nat, s: seq<byte>)
    requires EntrySet(f, f', e, s)
    ensures |f'| == Max(|f|, ENTRY * e + ENTRY) && |f'| % ENTRY == 0
    ensures EntryAt(f', e) == s
    ensures forall d: nat :: d != e ==> Live(f', d) == Live(f, d)
    ensures forall d: nat :: d != e && Live(f, d) ==> EntryAt(f', d) == EntryAt(f, d)
  {
    forall d: nat | d != e && ENTRY * d + ENTRY <= |f'| ensures ENTRY * d + ENTRY <= |f| && EntryAt(f', d) == EntryAt(f, d) {
    }
  }

  /** Away from entry e, f and f' have the same live entries. */
  ghost predicate SameBut(f: seq<byte>, f': seq<byte>, e: nat) {
    && |f'| % ENTRY == 0
    && (forall d: nat :: d != e ==> Live(f', d) == Live(f, d))
    && (forall d: nat :: d != e && Live(f, d) ==> EntryAt(f', d) == EntryAt(f, d))
  }

  lemma SameHas(f: seq<byte>, f': seq<byte>, e: nat, k: seq<byte>)
    requires SameBut(f, f', e)
    ensures forall d: nat :: d != e ==> (Has(f', d, k) <==> Has(f, d, k))
    ensures forall d: nat :: d != e && Has(f, d, k) ==> InumOf(EntryAt(f', d)) == InumOf(EntryAt(f, d))
  {
  }

  lemma AddedName(f: seq<byte>, f': seq<byte>, e: nat, k: seq<byte>)
    requires DirOk(f) && DirOk(f') && SameBut(f, f', e) && !Live(f, e) && Live(f', e)
    ensures var name, inum := NameOf(EntryAt(f', e)), InumOf(EntryAt(f', e));
      && (k in DirMap(f') <==> k in DirMap(f) || k == name)
      && (k in DirMap(f') ==> DirMap(f')[k] == DirMap(f)[name := inum][k])
  {
    var name := NameOf(EntryAt(f', e));
    SameHas(f, f', e, k);
    InMap(f, k);
    InMap(f', k);
    hide DirOk, DirMap, SameBut, EntryAt, NameOf, InumOf;
    assert Has(f', e, name);
    assert !Has(f, e, k);
    if k == name {
      assert Has(f', e, k);
    } else if d: nat :| Has(f', d, k) {
      assert d != e && Has(f, d, k);
    }
  }

  lemma DroppedName(f: seq<byte>, f': seq<byte>, e: nat, k: seq<byte>)
    requires DirOk(f) && DirOk(f') && SameBut(f, f', e) && !Live(f', e)
    ensures k in DirMap(f') <==> k in DirMap(f) && !Has(f, e, k)
    ensures k in DirMap(f') ==> DirMap(f')[k] == DirMap(f)[k]
  {
    SameHas(f, f', e, k);
    InMap(f, k);
    InMap(f', k);
    if Has(f, e, k) {
      forall d: nat | d != e ensures !Has(f, d, k) {
      }
    }
    hide DirOk, DirMap, SameBut, EntryAt, NameOf, InumOf;
    assert !Has(f', e, k);
    if d: nat :| Has(f', d, k) {
      assert d != e && Has(f, d, k);
    }
  }

  /** Writing a live entry over an empty one, or at the end, adds its name. */
  lemma NewName(f: seq<byte>, f': seq<byte>, e: nat, name: seq<byte>)
    requires DirOk(f) && SameBut(f, f', e) && name !in DirMap(f) && Has(f', e, name)
    ensures DirOk(f')
  {
    forall d: nat | Live(f, d) ensures NameOf(EntryAt(f, d)) != name {
      InMap(f, NameOf(EntryAt(f, d)));
      assert Has(f, d, NameOf(EntryAt(f, d)));
    }
    hide EntryAt, NameOf, InumOf, DirMap;
  }

  lemma AddEntry(f: seq<byte>, f': seq<byte>, e: nat, s: seq<byte>)
    requires DirOk(f) && EntrySet(f, f', e, s) && InumOf(s) != 0 && !Live(f, e) && NameOf(s) !in DirMap(f)
    ensures DirOk(f') && DirMap(f') == DirMap(f)[NameOf(s) := InumOf(s)]
  {
    EntrySetReads(f, f', e, s);
    assert SameBut(f, f', e) && Live(f', e);
    NewName(f, f', e, NameOf(s));
    hide EntrySet, EntryAt, NameOf, InumOf, Live, DirMap, DirOk;
    var m, m' := DirMap(f)[NameOf(s) := InumOf(s)], DirMap(f');
    forall k ensures (k in m' <==> k in m) && (k in m' ==> m'[k] == m[k]) {
      AddedName(f, f', e, k);
    }
    SameMap(m', m);
  }

  lemma DropNamed(f: seq<byte>, f': seq<byte>, e: nat)
    requires DirOk(f) && SameBut(f, f', e) && !Live(f', e)
    ensures DirOk(f')
    ensures DirMap(f') == if Live(f, e) then DirMap(f) - {NameOf(EntryAt(f, e))} else DirMap(f)
  {
    hide EntryAt, NameOf, InumOf, MapBelow;
    assert DirOk(f');
    hide DirOk, DirMap, SameBut;
    var m, m' := DirMap(f), DirMap(f');
    forall k
      ensures k in m' <==> k in m && !(Live(f, e) && NameOf(EntryAt(f, e)) == k)
      ensures k in m' ==> m'[k] == m[k]
    {
      DroppedName(f, f', e, k);
    }
    if Live(f, e) {
      assert m' == m - {NameOf(EntryAt(f, e))};
    } else {
      assert m' == m;
    }
  }

  /** Writing an empty entry takes away the name that was there, if any. */
  lemma DropEntry(f: seq<byte>, f': seq<byte>, e: nat, s: seq<byte>)
    requires DirOk(f) && EntrySet(f, f', e, s) && InumOf(s) == 0
    ensures DirOk(f')
    ensures DirMap(f') == if Live(f, e) then DirMap(f) - {NameOf(EntryAt(f, e))} else DirMap(f)
  {
    EntrySetReads(f, f', e, s);
    hide DirOk, DirMap;
    assert SameBut(f, f', e) && !Live(f', e);
    DropNamed(f, f', e);
  }

  // ---------- Runs ----------

  datatype Op = Link(name: seq<byte>, inum: nat) | Clear(name: seq<byte>)

  /** What an operation does to the map. */
  function Apply(m: map<seq<byte>, nat>, op: Op): map<seq<byte>, nat> {
    match op
    case Link(name, inum) =>
      if Trunc(name) in m || inum % 0x1_0000 == 0 then m else m[Trunc(name) := inum % 0x1_0000]
    case Clear(name) => m - {Trunc(name)}
  }

  function ApplyAll(m: map<seq<byte>, nat>, ops: seq<Op>): map<seq<byte>, nat> {
    if ops == [] then m else Apply(ApplyAll(m, ops[..|ops| - 1]), ops[|ops| - 1])
  }

  /** What dirlink and the clearing of an entry do to the bytes: some entry is
      written, an empty one or the one with the name. */
  ghost predicate Performs(f: seq<byte>, op: Op, f': seq<byte>)
    requires DirOk(f)
  {
    && 0 !in op.name
    && match op
       case Link(name, inum) =>
         if Trunc(name) in DirMap(f) then f' == f
         else exists e: nat :: !Live(f, e) && EntrySet(f, f', e, Dirent(name, inum))
       case Clear(name) =>
         if Trunc(name) !in DirMap(f) then f' == f
         else exists e: nat :: Has(f, e, Trunc(name)) && EntrySet(f, f', e, EmptyEntry())
  }

  function EmptyEntry(): (s: seq<byte>)
    ensures |s| == ENTRY && InumOf(s) == 0
  {
    seq(ENTRY, _ => 0)
  }

  lemma Performed(f: seq<byte>, op: Op, f': seq<byte>)
    requires DirOk(f) && Performs(f, op, f')
    ensures DirOk(f') && DirMap(f') == Apply(DirMap(f), op)
  {
    var key := Trunc(op.name);
    if op.Link? && key !in DirMap(f) {
      DirentReads(op.name, op.inum);
      var e: nat :| !Live(f, e) && EntrySet(f, f', e, Dirent(op.name, op.inum));
      hide DirOk, DirMap, EntrySet, Dirent;
      if op.inum % 0x1_0000 == 0 {
        DropEntry(f, f', e, Dirent(op.name, op.inum));
      } else {
        AddEntry(f, f', e, Dirent(op.name, op.inum));
      }
    } else if op.Clear? && key in DirMap(f) {
      var e: nat :| Has(f, e, key) && EntrySet(f, f', e, EmptyEntry());
      DropEntry(f, f', e, EmptyEntry());
    } else if op.Clear? {
      assert DirMap(f) - {key} == DirMap(f);
    }
  }

  /** The contents of a directory over a run of operations. */
  ghost predicate IsRun(fs: seq<seq<byte>>, ops: seq<Op>) {
    && |fs| == |ops| + 1 && DirOk(fs[0])
    && forall k: nat :: k < |ops| && DirOk(fs[k]) ==> Performs(fs[k], ops[k], fs[k + 1])
  }

  /** Over every run a directory is the map that the same operations make. */
  lemma {:induction false} RunRefines(fs: seq<seq<byte>>, ops: seq<Op>, k: nat)
    requires IsRun(fs, ops) && k <= |ops|
    ensures DirOk(fs[k]) && DirMap(fs[k]) == ApplyAll(DirMap(fs[0]), ops[..k])
  {
    if k > 0 {
      RunRefines(fs, ops, k - 1);
      Performed(fs[k - 1], ops[k - 1], fs[k]);
      assert ops[..k][..k - 1] == ops[..k - 1];
    }
  }

  /** A name is found as it was linked until an operation on that name. */
  lemma {:induction false} NameKept(m: map<seq<byte>, nat>, ops: seq<Op>, key: seq<byte>)
    requires forall k :: 0 <= k < |ops| ==> Trunc(ops[k].name) != key
    ensures key in ApplyAll(m, ops) <==> key in m
    ensures key in m ==> ApplyAll(m, ops)[key] == m[key]
  {
    if ops != [] {
      NameKept(m, ops[..|ops| - 1], key);
    }
  }

  // ---------- The operations ----------

  // ---------- Which entry is written ----------

  ghost function EmptyFrom(f: seq<byte>, e: nat): (r: nat)
    requires forall d: nat :: d < e ==> Live(f, d)
    ensures !Live(f, r) && forall d: nat :: d < r ==> Live(f, d)
    decreases |f| - ENTRY * e
  {
    if Live(f, e) then EmptyFrom(f, e + 1) else e
  }

  /** The first empty entry, or the one after the last. */
  ghost function FirstEmpty(f: seq<byte>): (r: nat)
    ensures !Live(f, r) && forall d: nat :: d < r ==> Live(f, d)
  {
    EmptyFrom(f, 0)
  }

  lemma FirstEmptyIs(f: seq<byte>, e: nat)
    requires !Live(f, e) && forall d: nat :: d < e ==> Live(f, d)
    ensures FirstEmpty(f) == e
  {
    hide Live, FirstEmpty;
  }

  lemma FirstEmptyFits(f: seq<byte>)
    requires |f| % ENTRY == 0
    ensures ENTRY * FirstEmpty(f) <= |f|
  {
    var e := FirstEmpty(f);
    if e > 0 {
      assert Live(f, e - 1);
    }
  }

  /** The one entry with this name. */
  ghost function PlaceOf(f: seq<byte>, k: seq<byte>): (e: nat)
    requires DirOk(f) && k in DirMap(f)
    ensures Has(f, e, k)
  {
    InMap(f, k);
    var e: nat :| Has(f, e, k);
    e
  }

  lemma OnePlace(f: seq<byte>, e: nat, k: seq<byte>)
    requires DirOk(f) && Has(f, e, k)
    ensures k in DirMap(f) && PlaceOf(f, k) == e
  {
    InMap(f, k);
    hide DirMap, NameOf, EntryAt, Live, PlaceOf;
    var d := PlaceOf(f, k);
    assert Has(f, d, k);
  }

  /** What dirlink leaves of a directory. */
  ghost function Linked(f: seq<byte>, name: seq<byte>, inum: nat): seq<byte>
    requires DirOk(f)
  {
    if Trunc(name) in DirMap(f) then f
    else
      FirstEmptyFits(f);
      Splice(f, ENTRY * FirstEmpty(f), Dirent(name, inum))
  }

  /** What unlink leaves of a directory. */
  ghost function Unlinked(f: seq<byte>, name: seq<byte>): seq<byte>
    requires DirOk(f)
  {
    if Trunc(name) !in DirMap(f) then f else Splice(f, ENTRY * PlaceOf(f, Trunc(name)), EmptyEntry())
  }

  lemma LinkedPerforms(f: seq<byte>, name: seq<byte>, inum: nat)
    requires DirOk(f) && 0 !in name
    ensures Performs(f, Link(name, inum), Linked(f, name, inum))
  {
    FirstEmptyFits(f);
    if Trunc(name) !in DirMap(f) {
      var e := FirstEmpty(f);
      hide Live, DirMap, Trunc, Splice, Dirent;
      assert !Live(f, e) && EntrySet(f, Linked(f, name, inum), e, Dirent(name, inum));
    }
  }

  lemma UnlinkedPerforms(f: seq<byte>, name: seq<byte>)
    requires DirOk(f) && 0 !in name
    ensures Performs(f, Clear(name), Unlinked(f, name))
  {
    if Trunc(name) in DirMap(f) {
      var e := PlaceOf(f, Trunc(name));
      hide DirMap, Trunc, Splice, PlaceOf, NameOf, InumOf;
      assert Has(f, e, Trunc(name)) && EntrySet(f, Unlinked(f, name), e, EmptyEntry());
    }
  }

  // ---------- What is found by a name ----------

  /** Entry e is live and namecmp finds its name equal to this one. */
  ghost predicate Named(f: seq<byte>, e: nat, name: seq<byte>) {
    Live(f, e) && SameName(name, EntryAt(f, e)[2..], DIRSIZ)
  }

  lemma HasIsNamed(f: seq<byte>, e: nat, name: seq<byte>)
    requires 0 !in name
    ensures Has(f, e, Trunc(name)) <==> Named(f, e, name)
  {
    if Live(f, e) {
      EntryNameIs(name, EntryAt(f, e));
    }
  }

  /** The inode number that a name stands for, if any. */
  ghost function FoundIn(f: seq<byte>, name: seq<byte>): Option<nat>
    requires DirOk(f)
  {
    if Trunc(name) in DirMap(f) then Some(DirMap(f)[Trunc(name)]) else None
  }

  /** It is that of the one entry that namecmp finds equal. */
  lemma FoundIs(f: seq<byte>, name: seq<byte>)
    requires DirOk(f) && 0 !in name
    ensures FoundIn(f, name).Some? <==> exists e: nat :: Named(f, e, name)
    ensures forall e: nat :: Named(f, e, name) ==> FoundIn(f, name) == Some(InumOf(EntryAt(f, e)))
    ensures forall d: nat, e: nat :: Named(f, d, name) && Named(f, e, name) ==> d == e
  {
    InMap(f, Trunc(name));
    forall e: nat ensures Has(f, e, Trunc(name)) <==> Named(f, e, name) {
      HasIsNamed(f, e, name);
    }
    hide DirMap, EntryAt, InumOf, Live, Trunc;
    forall d: nat, e: nat | Named(f, d, name) && Named(f, e, name) ensures d == e {
      assert Has(f, d, Trunc(name)) && Has(f, e, Trunc(name));
      OnePlace(f, d, Trunc(name));
      OnePlace(f, e, Trunc(name));
    }
  }

  /** After dirlink a name is found as before, unless it is the one linked, or one that
      agrees with it on the first fourteen bytes, and was not there. */
  lemma LinkFinds(f: seq<byte>, name: seq<byte>, inum: nat, other: seq<byte>)
    requires DirOk(f) && 0 !in name && 0 !in other
    ensures DirOk(Linked(f, name, inum))
    ensures FoundIn(Linked(f, name, inum), other) ==
            if SameName(name, other, DIRSIZ) && FoundIn(f, name).None? && inum % 0x1_0000 != 0
            then Some(inum % 0x1_0000) else FoundIn(f, other)
  {
    LinkedPerforms(f, name, inum);
    Performed(f, Link(name, inum), Linked(f, name, inum));
    TruncSame(name, other);
    hide DirMap, DirOk, Linked, Performs, Trunc;
  }

  /** After the entry of a name is cleared, that name is not found, and every other is
      as before. */
  lemma UnlinkFinds(f: seq<byte>, name: seq<byte>, other: seq<byte>)
    requires DirOk(f) && 0 !in name && 0 !in other
    ensures DirOk(Unlinked(f, name))
    ensures FoundIn(Unlinked(f, name), other) == if SameName(name, other, DIRSIZ) then None else FoundIn(f, other)
  {
    UnlinkedPerforms(f, name);
    Performed(f, Clear(name), Unlinked(f, name));
    TruncSame(name, other);
    hide DirMap, DirOk, Unlinked, Performs, Trunc;
  }

  /** A directory between operations. */
  ghost predicate IsDir(fs: FileSystem, i: nat)
    reads fs
  {
    fs.Valid() && i < |fs.inodes| && fs.inodes[i].kind == DirInode && DirOk(fs.Content(i))
  }

  /** The test of an entry in dirlookup. */
  method EntryMatches(de: seq<byte>, name: seq<byte>) returns (r: bool)
    requires |de| == ENTRY && 0 !in name
    ensures r <==> InumOf(de) != 0 && NameOf(de) == Trunc(name)
    ensures r <==> InumOf(de) != 0 && SameName(name, de[2..], DIRSIZ)
  {
    EntryNameIs(name, de);
    if InumOf(de) == 0 {
      return false;
    }
    var cmp := StrNCmp(name, de[2..], DIRSIZ);
    return cmp == 0;
  }

  /** The scan of one block by dirlookup: the first live entry with the name, or
      the number of entries in a block. */
  method ScanBlock(d: Block, name: seq<byte>) returns (k: nat)
    requires 0 !in name
    ensures k <= PER_BLOCK
    ensures forall e: nat :: e < k ==> !(InumOf(EntryAt(d, e)) != 0 && NameOf(EntryAt(d, e)) == Trunc(name))
    ensures k < PER_BLOCK ==> InumOf(EntryAt(d, k)) != 0 && NameOf(EntryAt(d, k)) == Trunc(name)
  {
    k := 0;
    while k < PER_BLOCK
      invariant k <= PER_BLOCK
      invariant forall e: nat :: e < k ==> !(InumOf(EntryAt(d, e)) != 0 && NameOf(EntryAt(d, e)) == Trunc(name))
    {
      var same := EntryMatches(d[ENTRY * k..ENTRY * k + ENTRY], name);
      if same {
        return;
      }
      k := k + 1;
    }
  }

  lemma EmptyInum(s: seq<byte>)
    requires |s| == ENTRY && s[0] == 0 && s[1] == 0
    ensures InumOf(s) == 0
  {
  }

  /** An entry of a block of the directory is an entry of the file, or lies past
      its end and is empty. */
  lemma BlockEntry(s: State, i: nat, bn: nat, k: nat)
    requires s.Inv() && i < |s.inodes| && s.extent == Sizes(s.inodes) && s.inodes[i].size % ENTRY == 0
    requires bn * BSIZE < s.inodes[i].size && k < PER_BLOCK
    ensures Addr(s.disk, s.inodes[i], bn) < |s.disk|
    ensures var d, f, e := s.disk[Addr(s.disk, s.inodes[i], bn)], FileBytes(s.disk, s.inodes[i], s.inodes[i].size), bn * PER_BLOCK + k;
      && (ENTRY * e < |f| ==> ENTRY * e + ENTRY <= |f| && EntryAt(f, e) == EntryAt(d, k))
      && (ENTRY * e >= |f| ==> InumOf(EntryAt(d, k)) == 0)
  {
    assert InodeOk(s.disk, s.owner, i, s.inodes[i], s.extent[i]);
    assert SlotOk(s.disk, s.owner, i, s.inodes[i], s.extent[i], bn);
    var d, f, e := s.disk[Addr(s.disk, s.inodes[i], bn)], FileBytes(s.disk, s.inodes[i], s.inodes[i].size), bn * PER_BLOCK + k;
    if ENTRY * e < |f| {
      EntryInFile(s, i, bn, k);
    } else {
      EntryPastEnd(s, i, bn, k);
    }
  }

  lemma EntryInFile(s: State, i: nat, bn: nat, k: nat)
    requires i < |s.inodes| && s.inodes[i].size % ENTRY == 0 && s.inodes[i].size <= MAXBYTES && k < PER_BLOCK
    requires bn * BSIZE + ENTRY * k < s.inodes[i].size && Addr(s.disk, s.inodes[i], bn) < |s.disk|
    ensures var d, f, e := s.disk[Addr(s.disk, s.inodes[i], bn)], FileBytes(s.disk, s.inodes[i], s.inodes[i].size), bn * PER_BLOCK + k;
      ENTRY * e + ENTRY <= |f| && EntryAt(f, e) == EntryAt(d, k)
  {
    var o := bn * BSIZE + ENTRY * k;
    assert ENTRY * (bn * PER_BLOCK + k) == o && o / BSIZE == bn && o % BSIZE == ENTRY * k;
    ReadChunk(s.disk, s.inodes[i], s.inodes[i].size, o, ENTRY);
  }

  lemma EntryPastEnd(s: State, i: nat, bn: nat, k: nat)
    requires i < |s.inodes| && |s.extent| == |s.inodes| && s.extent[i] == s.inodes[i].size && k < PER_BLOCK
    requires bn * BSIZE + ENTRY * k >= s.inodes[i].size > bn * BSIZE && bn < MAXFILE && Addr(s.disk, s.inodes[i], bn) < |s.disk|
    requires SlotOk(s.disk, s.owner, i, s.inodes[i], s.extent[i], bn)
    ensures InumOf(EntryAt(s.disk[Addr(s.disk, s.inodes[i], bn)], k)) == 0
  {
    EmptyInum(EntryAt(s.disk[Addr(s.disk, s.inodes[i], bn)], k));
  }

  /** What the scan of block bn says about the file. */
  lemma BlockScanned(s: State, i: nat, bn: nat, k: nat, key: seq<byte>)
    requires s.Inv() && i < |s.inodes| && s.extent == Sizes(s.inodes) && s.inodes[i].size % ENTRY == 0
    requires bn * BSIZE < s.inodes[i].size && k <= PER_BLOCK && Addr(s.disk, s.inodes[i], bn) < |s.disk|
    requires var d := s.disk[Addr(s.disk, s.inodes[i], bn)];
      && (forall e: nat :: e < k ==> !(InumOf(EntryAt(d, e)) != 0 && NameOf(EntryAt(d, e)) == key))
      && (k < PER_BLOCK ==> InumOf(EntryAt(d, k)) != 0 && NameOf(EntryAt(d, k)) == key)
    ensures var f, e0 := FileBytes(s.disk, s.inodes[i], s.inodes[i].size), bn * PER_BLOCK;
      && (forall e: nat :: e0 <= e < e0 + k ==> !Has(f, e, key))
      && (k < PER_BLOCK ==> Has(f, e0 + k, key) && InumOf(EntryAt(f, e0 + k)) == InumOf(EntryAt(s.disk[Addr(s.disk, s.inodes[i], bn)], k)))
  {
    var f, e0 := FileBytes(s.disk, s.inodes[i], s.inodes[i].size), bn * PER_BLOCK;
    hide State.Inv, ByteAt, InumOf, NameOf, EntryAt;
    forall e: nat | e0 <= e < e0 + k ensures !Has(f, e, key) {
      BlockEntry(s, i, bn, e - e0);
    }
    if k < PER_BLOCK {
      BlockEntry(s, i, bn, k);
    }
  }

  /** The body of the loop of dirlookup: entries of block bn before k do not have
      the name, and entry k does unless k is past the block. */
  method LookInBlock(fs: FileSystem, i: nat, bn: nat, name: seq<byte>) returns (k: nat, inum: nat)
    requires fs.Valid() && i < |fs.inodes| && fs.inodes[i].size % ENTRY == 0 && bn * BSIZE < fs.inodes[i].size
    requires 0 !in name
    modifies fs`disk, fs`inodes, fs`owner, fs`extent
    ensures fs.S() == old(fs.S()) && k <= PER_BLOCK
    ensures forall e: nat :: bn * PER_BLOCK <= e < bn * PER_BLOCK + k ==> !Has(fs.Content(i), e, Trunc(name))
    ensures k < PER_BLOCK ==>
              && Has(fs.Content(i), bn * PER_BLOCK + k, Trunc(name))
              && inum == InumOf(EntryAt(fs.Content(i), bn * PER_BLOCK + k))
  {
    assert InodeOk(fs.disk, fs.owner, i, fs.inodes[i], fs.extent[i]);
    var a := fs.BMap(i, bn);
    hide State.Inv, State.Tight, ByteAt;
    BlockEntry(fs.S(), i, bn, 0);
    var d := fs.disk[a];
    k := ScanBlock(d, name);
    inum := 0;
    if k < PER_BLOCK {
      inum := InumOf(d[ENTRY * k..ENTRY * k + ENTRY]);
    }
    BlockScanned(fs.S(), i, bn, k, Trunc(name));
  }

  lemma PastEnd(f: seq<byte>, e: nat, k: seq<byte>)
    requires ENTRY * e >= |f|
    ensures !Has(f, e, k)
  {
  }

  /** The loop of dirlookup. */
  method FindEntry(fs: FileSystem, i: nat, name: seq<byte>) returns (found: bool, inum: nat, off: nat)
    requires fs.Valid() && i < |fs.inodes| && fs.inodes[i].size % ENTRY == 0 && 0 !in name
    modifies fs`disk, fs`inodes, fs`owner, fs`extent
    ensures fs.S() == old(fs.S())
    ensures !found ==> forall e: nat :: !Has(fs.Content(i), e, Trunc(name))
    ensures found ==>
              && off % ENTRY == 0 && Has(fs.Content(i), off / ENTRY, Trunc(name))
              && inum == InumOf(EntryAt(fs.Content(i), off / ENTRY))
  {
    hide State.Inv, State.Tight, ByteAt, Has, FileBytes, EntryAt, InumOf, NameOf, Trunc;
    ghost var s, f, key := fs.S(), fs.Content(i), Trunc(name);
    off := 0;
    ghost var bn: nat := 0;
    while off < fs.inodes[i].size
      invariant fs.S() == s && off == bn * BSIZE
      invariant forall e: nat :: e < bn * PER_BLOCK ==> !Has(f, e, key)
      decreases s.inodes[i].size - off
    {
      assert off / BSIZE == bn;
      var k;
      k, inum := LookInBlock(fs, i, off / BSIZE, name);
      if k < PER_BLOCK {
        assert off + ENTRY * k == ENTRY * (bn * PER_BLOCK + k);
        return true, inum, off + ENTRY * k;
      }
      assert fs.Content(i) == f;
      forall e: nat | e < (bn + 1) * PER_BLOCK ensures !Has(f, e, key) {
        assert e < bn * PER_BLOCK || bn * PER_BLOCK <= e < bn * PER_BLOCK + k;
      }
      off, bn := off + BSIZE, bn + 1;
    }
    forall e: nat ensures !Has(f, e, key) {
      if e >= bn * PER_BLOCK { PastEnd(f, e, key); }
    }
    return false, 0, 0;
  }

  /** dirlookup: the inode number for a name and the place of its entry. */
  method DirLookup(fs: FileSystem, i: nat, name: seq<byte>) returns (r: Option<(nat, nat)>)
    requires IsDir(fs, i) && 0 !in name
    modifies fs`disk, fs`inodes, fs`owner, fs`extent
    ensures fs.S() == old(fs.S())
    ensures r.None? <==> Trunc(name) !in DirMap(fs.Content(i))
    ensures r.Some? ==> DirMap(fs.Content(i))[Trunc(name)] == r.value.0
    ensures r.Some? ==> r.value.1 % ENTRY == 0 && Has(fs.Content(i), r.value.1 / ENTRY, Trunc(name))
    ensures r.Some? <==> exists e: nat :: Named(fs.Content(i), e, name)
    ensures r.Some? ==> Named(fs.Content(i), r.value.1 / ENTRY, name)
    ensures r.Some? ==> r.value.0 == InumOf(EntryAt(fs.Content(i), r.value.1 / ENTRY))
  {
    InMap(fs.Content(i), Trunc(name));
    FoundIs(fs.Content(i), name);
    hide State.Inv, State.Tight, DirMap, ByteAt, Has, FileBytes, EntryAt, InumOf, NameOf, Trunc;
    var found, inum, off := FindEntry(fs, i, name);
    HasIsNamed(fs.Content(i), off / ENTRY, name);
    return if found then Some((inum, off)) else None;
  }

  lemma EntryRead(f: seq<byte>, e: nat)
    requires |f| % ENTRY == 0 && ENTRY * e < |f|
    ensures ENTRY * e + ENTRY <= |f| && EntryAt(f, e) == f[ENTRY * e..ENTRY * e + ENTRY]
    ensures Live(f, e) <==> InumOf(EntryAt(f, e)) != 0
  {
  }

  /** The second loop of dirlink: the first empty entry, or the end. */
  method FindEmpty(fs: FileSystem, i: nat) returns (off: nat)
    requires fs.Valid() && i < |fs.inodes| && fs.inodes[i].kind == DirInode && fs.inodes[i].size % ENTRY == 0
    modifies fs`disk, fs`inodes, fs`owner, fs`extent
    ensures fs.S() == old(fs.S())
    ensures off % ENTRY == 0 && off <= fs.inodes[i].size && !Live(fs.Content(i), off / ENTRY)
    ensures forall e: nat :: e < off / ENTRY ==> Live(fs.Content(i), e)
  {
    assert InodeOk(fs.disk, fs.owner, i, fs.inodes[i], fs.extent[i]);
    hide State.Inv, State.Tight, ByteAt, FileBytes, EntryAt, InumOf, Live, InodeOk;
    ghost var s, f := fs.S(), fs.Content(i);
    off := 0;
    ghost var n: nat := 0;
    while off < fs.inodes[i].size
      invariant fs.S() == s && off == ENTRY * n && off <= s.inodes[i].size
      invariant forall e: nat :: e < n ==> Live(f, e)
      decreases s.inodes[i].size - off
    {
      EntryRead(f, n);
      var r, de := fs.ReadI(i, off, ENTRY);
      assert r == ENTRY && fs.Content(i) == f; // "dirlink read" is not reached
      if InumOf(de) == 0 {
        return;
      }
      off, n := off + ENTRY, n + 1;
    }
    assert !Live(f, n) by { PastLive(f, n); }
  }

  lemma PastLive(f: seq<byte>, e: nat)
    requires ENTRY * e >= |f|
    ensures !Live(f, e)
  {
  }

  /** There is room for one more entry: an empty one, or space to grow, where
      dirlink and balloc would otherwise panic. */
  ghost predicate Room(fs: FileSystem, i: nat)
    requires i < |fs.inodes|
    reads fs
  {
    var n := fs.inodes[i].size;
    || (exists e: nat :: ENTRY * e < n && !Live(fs.Content(i), e))
    || (n + ENTRY <= MAXBYTES && Blocks(n + ENTRY) - Blocks(n) <= |fs.S().Free()|)
  }

  /** Everything but the bytes of inode i is as it was. */
  ghost predicate OnlyFile(s: State, s': State, i: nat) {
    && TagsKept(s, s')
    && forall j: nat :: j < |s.inodes| ==>
         && s'.inodes[j].kind == s.inodes[j].kind
         && (j != i ==> FileBytes(s'.disk, s'.inodes[j], s'.inodes[j].size) == FileBytes(s.disk, s.inodes[j], s.inodes[j].size))
  }

  /** writei of one entry: never short, so "dirlink" and "unlink: writei" are not
      reached. */
  method WriteEntry(fs: FileSystem, i: nat, off: nat, de: seq<byte>)
    requires fs.Valid() && i < |fs.inodes| && fs.inodes[i].kind == DirInode && |de| == ENTRY
    requires fs.inodes[i].size % ENTRY == 0 && off % ENTRY == 0 && off <= fs.inodes[i].size && off + ENTRY <= MAXBYTES
    requires Blocks(Max(fs.inodes[i].size, off + ENTRY)) - Blocks(fs.inodes[i].size) <= |fs.S().Free()|
    modifies fs
    ensures fs.Valid() && |fs.inodes| == |old(fs.inodes)| && OnlyFile(old(fs.S()), fs.S(), i)
    ensures EntrySet(old(fs.Content(i)), fs.Content(i), off / ENTRY, de)
    ensures |fs.S().Free()| == |old(fs.S().Free())| - (Blocks(fs.inodes[i].size) - Blocks(old(fs.inodes[i].size)))
  {
    ghost var s := fs.S();
    hide State.Inv, State.Tight, ByteAt;
    var r := fs.WriteI(i, de, off, ENTRY);
    assert r == ENTRY && de[..ENTRY] == de && ENTRY * (off / ENTRY) == off;
    forall j: nat | j < |s.inodes| && j != i
      ensures FileBytes(fs.disk, fs.inodes[j], fs.inodes[j].size) == FileBytes(s.disk, s.inodes[j], s.inodes[j].size)
    {
      assert fs.Content(j) == old(fs.Content(j));
    }
  }

  /** dirlink: adds the name unless it is there; the inode number is cut to
      sixteen bits, and with none left nothing is added. */
  method DirLink(fs: FileSystem, i: nat, name: seq<byte>, inum: uint32) returns (r: int)
    requires IsDir(fs, i) && 0 !in name
    requires Trunc(name) !in DirMap(fs.Content(i)) ==> Room(fs, i)
    modifies fs
    ensures IsDir(fs, i) && |fs.inodes| == |old(fs.inodes)| && OnlyFile(old(fs.S()), fs.S(), i)
    ensures r == if Trunc(name) in old(DirMap(fs.Content(i))) then -1 else 0
    ensures r == -1 ==> fs.S() == old(fs.S())
    ensures r == 0 ==>
              DirMap(fs.Content(i)) ==
              if inum % 0x1_0000 == 0 then old(DirMap(fs.Content(i)))
              else old(DirMap(fs.Content(i)))[Trunc(name) := inum % 0x1_0000]
    ensures fs.Content(i) == Linked(old(fs.Content(i)), name, inum)
    ensures r == -1 <==> exists e: nat :: Named(old(fs.Content(i)), e, name)
    ensures |fs.S().Free()| == |old(fs.S().Free())| - (Blocks(fs.inodes[i].size) - Blocks(old(fs.inodes[i].size)))
  {
    hide State.Inv, State.Tight, ByteAt, DirMap, DirOk, FileBytes, NameOf, InumOf, Trunc, Live;
    ghost var f, key := fs.Content(i), Trunc(name);
    var found := DirLookup(fs, i, name);
    if found.Some? {
      return -1;
    }
    DirFits(f);
    var off := FindEmpty(fs, i);
    RoomFor(fs, i, off);
    DirentReads(name, inum);
    var de := MakeDirent(name, inum);
    WriteEntry(fs, i, off, de);
    FirstEmptyIs(f, off / ENTRY);
    LinkedPerforms(f, name, inum);
    Performed(f, Link(name, inum), fs.Content(i));
    return 0;
  }

  lemma DirFits(f: seq<byte>)
    requires DirOk(f)
    ensures |f| % ENTRY == 0
  {
  }

  lemma RoomFor(fs: FileSystem, i: nat, off: nat)
    requires fs.Valid() && i < |fs.inodes| && Room(fs, i) && fs.inodes[i].size % ENTRY == 0
    requires off % ENTRY == 0 && off <= fs.inodes[i].size && forall e: nat :: e < off / ENTRY ==> Live(fs.Content(i), e)
    ensures off + ENTRY <= MAXBYTES
    ensures Blocks(Max(fs.inodes[i].size, off + ENTRY)) - Blocks(fs.inodes[i].size) <= |fs.S().Free()|
  {
    assert fs.inodes[i].size <= MAXBYTES by {
      assert InodeOk(fs.disk, fs.owner, i, fs.inodes[i], fs.extent[i]);
    }
    hide State.Inv, State.Tight, Blocks, FileBytes, Live;
    if off == fs.inodes[i].size {
      forall e: nat | ENTRY * e < off ensures Live(fs.Content(i), e) {
        assert e < off / ENTRY;
      }
    } else {
      assert off + ENTRY <= fs.inodes[i].size;
    }
  }

  /** A directory with nothing but its first two entries, "." and "..". */
  ghost predicate EmptyDir(f: seq<byte>) { forall e: nat :: e >= 2 ==> !Live(f, e) }

  /** isdirempty */
  method IsDirEmpty(fs: FileSystem, i: nat) returns (r: bool)
    requires fs.Valid() && i < |fs.inodes| && fs.inodes[i].kind == DirInode && fs.inodes[i].size % ENTRY == 0
    modifies fs`disk, fs`inodes, fs`owner, fs`extent
    ensures fs.S() == old(fs.S())
    ensures r <==> EmptyDir(fs.Content(i))
  {
    assert InodeOk(fs.disk, fs.owner, i, fs.inodes[i], fs.extent[i]);
    hide State.Inv, State.Tight, ByteAt, FileBytes, EntryAt, InumOf, Live, InodeOk;
    ghost var s, f := fs.S(), fs.Content(i);
    var off := 2 * ENTRY;
    ghost var n: nat := 2;
    while off < fs.inodes[i].size
      invariant fs.S() == s && off == ENTRY * n
      invariant forall e: nat :: 2 <= e < n ==> !Live(f, e)
      decreases s.inodes[i].size - off
    {
      EntryRead(f, n);
      var k, de := fs.ReadI(i, off, ENTRY);
      assert k == ENTRY && fs.Content(i) == f; // "isdirempty: readi" is not reached
      if InumOf(de) != 0 {
        assert Live(f, n);
        return false;
      }
      off, n := off + ENTRY, n + 1;
    }
    forall e: nat | e >= 2 ensures !Live(f, e) {
      if e >= n {
        PastLive(f, e);
      }
    }
    return true;
  }

  const DOT: seq<byte> := ['.' as int]
  const DOTDOT: seq<byte> := ['.' as int, '.' as int]

  /** For a directory that begins with "." and "..", that is to have no other name. */
  lemma EmptyDirIs(f: seq<byte>)
    requires DirOk(f) && Named(f, 0, DOT) && Named(f, 1, DOTDOT)
    ensures EmptyDir(f) <==> forall k :: k in DirMap(f) ==> k == DOT || k == DOTDOT
    ensures DOT in DirMap(f) && DOTDOT in DirMap(f)
  {
    DotsHave(f);
    InMap(f, DOT);
    InMap(f, DOTDOT);
    hide NameOf, EntryAt, InumOf, DirMap, DirOk, Named;
    if EmptyDir(f) {
      forall k | k in DirMap(f) ensures k == DOT || k == DOTDOT {
        InMap(f, k);
        var e: nat :| Has(f, e, k);
        assert e == 0 || e == 1;
      }
    } else {
      var e: nat :| e >= 2 && Live(f, e);
      var k := NameOf(EntryAt(f, e));
      assert Has(f, e, k);
      OnePlace(f, e, k);
      OnePlace(f, 0, DOT);
      OnePlace(f, 1, DOTDOT);
      assert k in DirMap(f) && k != DOT && k != DOTDOT;
    }
  }

  lemma DotsHave(f: seq<byte>)
    requires Named(f, 0, DOT) && Named(f, 1, DOTDOT)
    ensures Has(f, 0, DOT) && Has(f, 1, DOTDOT)
  {
    TruncSame(DOT, DOTDOT);
    TruncSame(DOTDOT, DOT);
    HasIsNamed(f, 0, DOT);
    HasIsNamed(f, 1, DOTDOT);
  }

  /** Inode j cannot be unlinked: a directory that is not empty. */
  ghost predicate InUse(fs: FileSystem, j: nat)
    requires j < |fs.inodes|
    reads fs
  {
    fs.inodes[j].kind == DirInode && !EmptyDir(fs.Content(j))
  }

  /** Whether sys_unlink of a name in directory i refuses. */
  ghost predicate Refuses(fs: FileSystem, i: nat, name: seq<byte>)
    requires IsDir(fs, i) && NamesInode(fs, i, name)
    reads fs
  {
    || Trunc(name) == DOT || Trunc(name) == DOTDOT || Trunc(name) !in DirMap(fs.Content(i))
    || InUse(fs, DirMap(fs.Content(i))[Trunc(name)])
  }

  /** What the name stands for, if anything, is an inode, and a directory of whole
      entries if it is one. */
  ghost predicate NamesInode(fs: FileSystem, i: nat, name: seq<byte>)
    requires IsDir(fs, i)
    reads fs
  {
    Trunc(name) in DirMap(fs.Content(i)) ==>
      var j := DirMap(fs.Content(i))[Trunc(name)];
      j < |fs.inodes| && (fs.inodes[j].kind == DirInode ==> fs.inodes[j].size % ENTRY == 0)
  }

  /** sys_unlink, from the directory on: the name goes, unless it is "." or "..",
      is not there, or is that of a directory in use. */
  method Unlink(fs: FileSystem, i: nat, name: seq<byte>) returns (r: int)
    requires IsDir(fs, i) && 0 !in name && NamesInode(fs, i, name)
    modifies fs
    ensures IsDir(fs, i) && |fs.inodes| == |old(fs.inodes)| && OnlyFile(old(fs.S()), fs.S(), i)
    ensures r == if old(Refuses(fs, i, name)) then -1 else 0
    ensures r == -1 ==> fs.S() == old(fs.S())
    ensures r == 0 ==> DirMap(fs.Content(i)) == old(DirMap(fs.Content(i))) - {Trunc(name)}
    ensures r == 0 ==> fs.Content(i) == Unlinked(old(fs.Content(i)), name)
    ensures |fs.S().Free()| == |old(fs.S().Free())| - (Blocks(fs.inodes[i].size) - Blocks(old(fs.inodes[i].size)))
  {
    hide State.Inv, State.Tight, ByteAt, DirMap, DirOk, FileBytes, NameOf, Trunc, EmptyDir, Unlinked, Live;
    TruncSame(name, DOT);
    TruncSame(name, DOTDOT);
    TruncSame(DOT, DOTDOT);
    TruncSame(DOTDOT, DOT);
    var dot := StrNCmp(name, DOT, DIRSIZ);
    var dotdot := StrNCmp(name, DOTDOT, DIRSIZ);
    if dot == 0 || dotdot == 0 {
      return -1;
    }
    var found := DirLookup(fs, i, name);
    if found.None? {
      return -1;
    }
    var ip := found.value.0;
    if fs.inodes[ip].kind == DirInode {
      var empty := IsDirEmpty(fs, ip);
      if !empty {
        return -1;
      }
    }
    ClearEntry(fs, i, name, found.value.1);
    return 0;
  }

  /** The part of sys_unlink that clears the entry found. */
  method ClearEntry(fs: FileSystem, i: nat, ghost name: seq<byte>, off: nat)
    requires IsDir(fs, i) && 0 !in name && off % ENTRY == 0 && Has(fs.Content(i), off / ENTRY, Trunc(name))
    modifies fs
    ensures IsDir(fs, i) && |fs.inodes| == |old(fs.inodes)| && OnlyFile(old(fs.S()), fs.S(), i)
    ensures DirMap(fs.Content(i)) == old(DirMap(fs.Content(i))) - {Trunc(name)}
    ensures fs.Content(i) == Unlinked(old(fs.Content(i)), name)
    ensures |fs.S().Free()| == |old(fs.S().Free())| - (Blocks(fs.inodes[i].size) - Blocks(old(fs.inodes[i].size)))
  {
    hide State.Inv, State.Tight, ByteAt, DirMap, FileBytes, NameOf, Trunc;
    ghost var f := fs.Content(i);
    DirFits(f);
    EntryFits(fs, i, off);
    WriteEntry(fs, i, off, EmptyEntry());
    OnePlace(f, off / ENTRY, Trunc(name));
    UnlinkedPerforms(f, name);
    Performed(f, Clear(name), fs.Content(i));
  }

  lemma EntryFits(fs: FileSystem, i: nat, off: nat)
    requires fs.Valid() && i < |fs.inodes| && off % ENTRY == 0 && Live(fs.Content(i), off / ENTRY)
    ensures off + ENTRY <= fs.inodes[i].size <= MAXBYTES
  {
    assert InodeOk(fs.disk, fs.owner, i, fs.inodes[i], fs.extent[i]);
  }
}

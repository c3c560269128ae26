/** The tag block of a file (kernel/fs.c): sixteen slots of a key, ended by a
    zero within ten bytes, and a value of eighteen bytes. */
module TagBlock {
  import opened Prelude
  import opened Bytes
  import opened Ownership

  const SLOTS := 16
  const SLOT := 32
  const KEY := 10
  const VALUE := 18

  function Zeros(n: nat): seq<byte> { seq(n, _ => 0) }

  /** The C string at the start of s. */
  function Cut(s: seq<byte>): (r: seq<byte>)
    ensures |r| <= |s|
  {
    if s == [] || s[0] == 0 then [] else [s[0]] + Cut(s[1..])
  }

  predicate Used(d: Block, n: nat)
    requires n < SLOTS
  {
    d[SLOT * n] != 0
  }

  function Key(d: Block, n: nat): seq<byte>
    requires n < SLOTS
  {
    Cut(d[SLOT * n..SLOT * n + KEY])
  }

  function Value(d: Block, n: nat): (v: seq<byte>)
    requires n < SLOTS
    ensures |v| == VALUE
  {
    d[SLOT * n + KEY..SLOT * n + KEY + VALUE]
  }

  /** Keys are ended, and no key is in two slots. */
  ghost predicate BlockOk(d: Block) {
    && (forall n: nat :: n < SLOTS ==> |Key(d, n)| < KEY)
    && (forall m: nat, n: nat :: m < n < SLOTS && Used(d, m) && Used(d, n) ==> Key(d, m) != Key(d, n))
  }

  /** Slot m, below n, holds key k. */
  ghost predicate Holds(d: Block, n: nat, m: nat, k: seq<byte>) {
    m < n <= SLOTS && Used(d, m) && Key(d, m) == k
  }

  ghost function TagsBelow(d: Block, n: nat): (t: map<seq<byte>, seq<byte>>)
    requires BlockOk(d) && n <= SLOTS
    ensures forall k :: k in t <==> exists m :: Holds(d, n, m, k)
    ensures forall m, k :: Holds(d, n, m, k) ==> t[k] == Value(d, m)
  {
    if n == 0 then map[]
    else
      var t := TagsBelow(d, n - 1);
      TagsMore(d, n - 1, n, t);
      if Used(d, n - 1) then t[Key(d, n - 1) := Value(d, n - 1)] else t
  }

  /** One more slot. */
  lemma TagsMore(d: Block, l: nat, n: nat, t: map<seq<byte>, seq<byte>>)
    requires BlockOk(d) && n <= SLOTS && n == l + 1
    requires forall k :: k in t <==> exists m :: Holds(d, l, m, k)
    requires forall m, k :: Holds(d, l, m, k) ==> t[k] == Value(d, m)
    ensures var t' := if Used(d, l) then t[Key(d, l) := Value(d, l)] else t;
            && (forall k :: k in t' <==> exists m :: Holds(d, n, m, k))
            && (forall m, k :: Holds(d, n, m, k) ==> t'[k] == Value(d, m))
  {
    var t' := if Used(d, l) then t[Key(d, l) := Value(d, l)] else t;
    hide Key, Value, Used;
    forall k ensures k in t' <==> exists m :: Holds(d, n, m, k) {
      if m: nat :| Holds(d, l, m, k) {
        assert Holds(d, n, m, k);
      }
      if m: nat :| Holds(d, n, m, k) {
        assert m < l ==> Holds(d, l, m, k);
      }
      assert Used(d, l) && k == Key(d, l) ==> Holds(d, n, l, k);
    }
    forall m: nat, k | Holds(d, n, m, k) ensures t'[k] == Value(d, m) {
      assert m < l ==> Holds(d, l, m, k);
    }
  }

  /** The map that a tag block stands for. */
  ghost function Tags(d: Block): map<seq<byte>, seq<byte>>
    requires BlockOk(d)
  {
    TagsBelow(d, SLOTS)
  }

  function Pad(v: seq<byte>): (r: seq<byte>)
    requires |v| <= VALUE
    ensures |r| == VALUE
  {
    v + Zeros(VALUE - |v|)
  }

  // ---------- Strings ----------

  lemma {:induction false} CutIs(s: seq<byte>, key: seq<byte>)
    ensures Cut(s) == key <==>
            0 !in key && |key| <= |s| && s[..|key|] == key && (|key| < |s| ==> s[|key|] == 0)
    decreases |s|
  {
    if s == [] || s[0] == 0 {
      assert key != [] && |key| <= |s| && s[..|key|] == key ==> key[0] == s[0];
    } else if key == [] {
    } else {
      CutIs(s[1..], key[1..]);
      assert key == [key[0]] + key[1..];
      assert |key| <= |s| ==> s[..|key|] == [s[0]] + s[1..][..|key| - 1];
      assert Cut(s)[1..] == Cut(s[1..]);
    }
  }

  // ---------- The scanning loops ----------

  /** searchKey: where the key is, and -1 when no slot has it. */
  method SearchKey(key: seq<byte>, str: Block) returns (pos: int)
    requires 0 !in key
    ensures pos < 0 ==> pos == -1
    ensures pos < 0 <==> |key| >= KEY || forall n: nat :: n < SLOTS ==> Key(str, n) != key
    ensures pos >= 0 ==> exists n: nat :: n < SLOTS && pos == SLOT * n && Key(str, n) == key
                                          && forall m: nat :: m < n ==> Key(str, m) != key
  {
    for n := 0 to SLOTS
      invariant |key| < KEY ==> forall m: nat :: m < n ==> Key(str, m) != key
    {
      var i := SLOT * n;
      var found := KeyAt(key, str, i);
      CutIs(str[i..i + KEY], key);
      if |key| < KEY {
        assert str[i..i + KEY][..|key|] == str[i..i + |key|] && str[i..i + KEY][|key|] == str[i + |key|];
      }
      if found {
        assert Key(str, n) == key;
        return i;
      }
    }
    return -1;
  }

  /** The inner loop of searchKey. */
  method KeyAt(key: seq<byte>, str: Block, i: nat) returns (found: bool)
    requires 0 !in key && i + KEY <= BSIZE
    ensures found <==> |key| < KEY && str[i..i + |key|] == key && str[i + |key|] == 0
  {
    var j := 0;
    while j < KEY && (if j < |key| then key[j] else 0) == str[i + j]
      invariant j <= KEY && j <= |key| && str[i..i + j] == key[..j]
    {
      if j == |key| {
        assert key[..j] == key;
        return true;
      }
      assert str[i..i + (j + 1)] == str[i..i + j] + [str[i + j]] && key[..j + 1] == key[..j] + [key[j]];
      j := j + 1;
    }
    if j < |key| < KEY {
      assert str[i..i + |key|][j] == str[i + j];
    }
    return false;
  }

  /** searchEnd: the first unused slot, and -1 when all are used. */
  method SearchEnd(str: Block) returns (pos: int)
    ensures pos < 0 ==> pos == -1 && forall n: nat :: n < SLOTS ==> Used(str, n)
    ensures pos >= 0 ==> exists n: nat :: n < SLOTS && pos == SLOT * n && !Used(str, n)
                                          && forall m: nat :: m < n ==> Used(str, m)
  {
    ghost var n: nat := 0;
    var i := 0;
    while i < BSIZE && str[i] != 0
      invariant i == SLOT * n && n <= SLOTS
      invariant forall m: nat :: m < n ==> Used(str, m)
    {
      i := i + SLOT;
      n := n + 1;
    }
    if i == BSIZE {
      return -1;
    }
    assert !Used(str, n);
    return i;
  }

  // ---------- Changes to one slot ----------

  lemma SubSlice(d: Block, o: nat, a: nat, b: nat)
    requires o + SLOT <= BSIZE && a <= b <= SLOT
    ensures d[o..o + SLOT][a..b] == d[o + a..o + b]
  {
    var u, v := d[o..o + SLOT][a..b], d[o + a..o + b];
    forall k: nat | k < |u| ensures u[k] == v[k] {
      assert d[o..o + SLOT][a + k] == d[o + a + k];
    }
  }

  lemma SlotFrame(d: Block, d': Block, n: nat)
    requires n < SLOTS && d'[SLOT * n..SLOT * n + SLOT] == d[SLOT * n..SLOT * n + SLOT]
    ensures Used(d', n) == Used(d, n) && Key(d', n) == Key(d, n) && Value(d', n) == Value(d, n)
  {
    var o := SLOT * n;
    assert d[o] == d[o..o + SLOT][0] && d'[o] == d'[o..o + SLOT][0];
    SubSlice(d, o, 0, KEY);
    SubSlice(d', o, 0, KEY);
    SubSlice(d, o, KEY, KEY + VALUE);
    SubSlice(d', o, KEY, KEY + VALUE);
  }

  /** d' differs from d in slot n only. */
  ghost predicate OnlySlot(d: Block, d': Block, n: nat) {
    n < SLOTS && forall k: nat :: k < BSIZE && !(SLOT * n <= k < SLOT * n + SLOT) ==> d'[k] == d[k]
  }

  lemma OtherSlots(d: Block, d': Block, n: nat)
    requires OnlySlot(d, d', n)
    ensures forall m: nat :: m < SLOTS && m != n ==>
              Used(d', m) == Used(d, m) && Key(d', m) == Key(d, m) && Value(d', m) == Value(d, m)
  {
    forall m: nat | m < SLOTS && m != n
      ensures Used(d', m) == Used(d, m) && Key(d', m) == Key(d, m) && Value(d', m) == Value(d, m)
    {
      assert d'[SLOT * m..SLOT * m + SLOT] == d[SLOT * m..SLOT * m + SLOT];
      SlotFrame(d, d', m);
    }
  }

  function Filled(d: Block, n: nat, key: seq<byte>, value: seq<byte>): Block
    requires n < SLOTS && |key| < KEY && |value| <= VALUE
  {
    Overwrite(Overwrite(Overwrite(d, SLOT * n, Zeros(KEY + VALUE)), SLOT * n, key), SLOT * n + KEY, value)
  }

  function Changed(d: Block, n: nat, value: seq<byte>): Block
    requires n < SLOTS && |value| <= VALUE
  {
    Overwrite(Overwrite(d, SLOT * n + KEY, Zeros(VALUE)), SLOT * n + KEY, value)
  }

  function Erased(d: Block, n: nat): Block
    requires n < SLOTS
  {
    Overwrite(d, SLOT * n, Zeros(KEY + VALUE))
  }

  lemma FilledSlot(d: Block, n: nat, key: seq<byte>, value: seq<byte>)
    requires n < SLOTS && 0 < |key| < KEY && 0 !in key && |value| <= VALUE
    ensures var d' := Filled(d, n, key, value);
      OnlySlot(d, d', n) && Used(d', n) && Key(d', n) == key && Value(d', n) == Pad(value)
  {
    var d', o := Filled(d, n, key, value), SLOT * n;
    var s := d'[o..o + KEY];
    assert forall j: nat :: j < |key| ==> s[j] == key[j];
    assert s[..|key|] == key && s[|key|] == 0;
    CutIs(s, key);
    assert key[0] in key;
  }

  lemma ChangedSlot(d: Block, n: nat, value: seq<byte>)
    requires n < SLOTS && |value| <= VALUE
    ensures var d' := Changed(d, n, value);
      OnlySlot(d, d', n) && Used(d', n) == Used(d, n) && Key(d', n) == Key(d, n) && Value(d', n) == Pad(value)
  {
    var d', o := Changed(d, n, value), SLOT * n;
    assert d'[o..o + KEY] == d[o..o + KEY];
  }

  lemma ErasedSlot(d: Block, n: nat)
    requires n < SLOTS
    ensures var d' := Erased(d, n); OnlySlot(d, d', n) && !Used(d', n) && Key(d', n) == []
  {
    assert Erased(d, n)[SLOT * n..SLOT * n + KEY][0] == 0;
  }

  // ---------- What the changes do to the map ----------

  /** d' is d with slot n holding this key and value, or nothing. */
  ghost predicate SlotSet(d: Block, d': Block, n: nat, used: bool, key: seq<byte>, value: seq<byte>) {
    && n < SLOTS && Used(d', n) == used && (used ==> Key(d', n) == key && Value(d', n) == value)
    && forall m: nat :: m < SLOTS && m != n ==>
         Used(d', m) == Used(d, m) && Key(d', m) == Key(d, m) && Value(d', m) == Value(d, m)
  }

  /** Setting a slot sets its key in the map, if no other slot holds the key. */
  lemma SetSlot(d: Block, d': Block, n: nat, key: seq<byte>, value: seq<byte>)
    requires BlockOk(d) && SlotSet(d, d', n, true, key, value) && |key| < KEY
    requires if Used(d, n) then Key(d, n) == key else key !in Tags(d)
    ensures BlockOk(d') && Tags(d') == Tags(d)[key := value]
  {
    hide Key, Used, Value, TagsBelow;
    forall m: nat | m < SLOTS && m != n && Used(d, m) ensures Key(d, m) != key {
      assert Holds(d, SLOTS, m, Key(d, m));
    }
    assert BlockOk(d');
    forall k ensures k in Tags(d') <==> k in Tags(d) || k == key {
      assert forall m :: m != n ==> (Holds(d', SLOTS, m, k) <==> Holds(d, SLOTS, m, k));
      assert Holds(d', SLOTS, n, key);
      assert Holds(d, SLOTS, n, k) ==> k == key;
    }
    forall k | k in Tags(d') ensures Tags(d')[k] == Tags(d)[key := value][k] {
      var m :| Holds(d', SLOTS, m, k);
      assert m != n ==> Holds(d, SLOTS, m, k);
    }
  }

  /** Emptying a slot takes its key out of the map. */
  lemma ClearSlot(d: Block, d': Block, n: nat)
    requires BlockOk(d) && SlotSet(d, d', n, false, [], []) && Used(d, n) && |Key(d', n)| < KEY
    ensures BlockOk(d') && Tags(d') == Tags(d) - {Key(d, n)}
  {
    hide Key, Used, Value, TagsBelow;
    assert BlockOk(d');
    forall k ensures k in Tags(d') <==> k in Tags(d) && k != Key(d, n) {
      assert forall m :: Holds(d', SLOTS, m, k) <==> m != n && Holds(d, SLOTS, m, k);
    }
    forall k | k in Tags(d') ensures Tags(d')[k] == Tags(d)[k] {
      var m :| Holds(d', SLOTS, m, k);
      assert Holds(d, SLOTS, m, k);
    }
  }

  lemma FillAdds(d: Block, n: nat, key: seq<byte>, value: seq<byte>)
    requires BlockOk(d) && n < SLOTS && !Used(d, n) && 0 < |key| < KEY && 0 !in key && |value| <= VALUE
    requires key !in Tags(d)
    ensures BlockOk(Filled(d, n, key, value))
    ensures Tags(Filled(d, n, key, value)) == Tags(d)[key := Pad(value)]
  {
    FilledSlot(d, n, key, value);
    OtherSlots(d, Filled(d, n, key, value), n);
    SetSlot(d, Filled(d, n, key, value), n, key, Pad(value));
  }

  lemma ChangeSets(d: Block, n: nat, value: seq<byte>)
    requires BlockOk(d) && n < SLOTS && Used(d, n) && |value| <= VALUE
    ensures BlockOk(Changed(d, n, value))
    ensures Tags(Changed(d, n, value)) == Tags(d)[Key(d, n) := Pad(value)]
  {
    ChangedSlot(d, n, value);
    OtherSlots(d, Changed(d, n, value), n);
    SetSlot(d, Changed(d, n, value), n, Key(d, n), Pad(value));
  }

  lemma EraseRemoves(d: Block, n: nat)
    requires BlockOk(d) && n < SLOTS && Used(d, n)
    ensures BlockOk(Erased(d, n))
    ensures Tags(Erased(d, n)) == Tags(d) - {Key(d, n)}
  {
    ErasedSlot(d, n);
    OtherSlots(d, Erased(d, n), n);
    ClearSlot(d, Erased(d, n), n);
  }

  // ---------- How many ----------

  /** The keys in the first n slots, in order: what getAllTags copies. */
  function KeysBelow(d: Block, n: nat): seq<seq<byte>>
    requires n <= SLOTS
  {
    if n == 0 then []
    else KeysBelow(d, n - 1) + if Used(d, n - 1) then [Key(d, n - 1)] else []
  }

  function AllKeys(d: Block): seq<seq<byte>> { KeysBelow(d, SLOTS) }

  lemma {:induction false} KeysAre(d: Block, n: nat)
    requires BlockOk(d) && n <= SLOTS
    ensures forall k :: k in KeysBelow(d, n) <==> k in TagsBelow(d, n)
    ensures forall i: nat, j: nat :: i < j < |KeysBelow(d, n)| ==> KeysBelow(d, n)[i] != KeysBelow(d, n)[j]
    ensures |KeysBelow(d, n)| <= n
    ensures |KeysBelow(d, n)| == n <==> forall m: nat :: m < n ==> Used(d, m)
  {
    if n > 0 {
      KeysAre(d, n - 1);
      if Used(d, n - 1) {
        var k, p := Key(d, n - 1), n - 1;
        assert forall m :: !Holds(d, p, m, k);
        assert k !in KeysBelow(d, n - 1);
      }
    }
  }

  lemma {:induction false} DistinctSize<T>(s: seq<T>, a: set<T>)
    requires forall x :: x in s <==> x in a
    requires forall i: nat, j: nat :: i < j < |s| ==> s[i] != s[j]
    ensures |a| == |s|
    decreases |s|
  {
    if s == [] {
      assert a == {};
    } else {
      var n := |s| - 1;
      assert s == s[..n] + [s[n]];
      DistinctSize(s[..n], a - {s[n]});
    }
  }

  /** The map has as many keys as there are used slots, so it is full exactly when
      every slot is used. */
  lemma TagCount(d: Block)
    requires BlockOk(d)
    ensures |Tags(d)| == |AllKeys(d)| <= SLOTS
    ensures |Tags(d)| == SLOTS <==> forall n: nat :: n < SLOTS ==> Used(d, n)
    ensures forall k :: k in Tags(d) ==> 0 < |k| < KEY && 0 !in k && |Tags(d)[k]| == VALUE
  {
    hide TagsBelow, KeysBelow;
    KeysAre(d, SLOTS);
    DistinctSize(KeysBelow(d, SLOTS), Tags(d).Keys);
    forall k | k in Tags(d) ensures 0 < |k| < KEY && 0 !in k && |Tags(d)[k]| == VALUE {
      var n :| Holds(d, SLOTS, n, k);
      CutIs(d[SLOT * n..SLOT * n + KEY], k);
      assert d[SLOT * n..SLOT * n + KEY][0] == d[SLOT * n];
    }
  }
}

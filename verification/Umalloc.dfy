/** user/umalloc.c: the allocator of Kernighan and Ritchie, section 8.7.
    Addresses count units of one Header.  base is the address of the static
    header that starts the ring; it lies below everything sbrk returns. */
module Umalloc {
  import opened Prelude

  datatype Header = Header(ptr: nat, size: nat)

  const UNIT: nat := 8 // sizeof(Header)
  const NALLOC: nat := 4096

  /** n is the element of f that follows a going round: the next one up, or
      from the last one back to the first. */
  ghost predicate IsNext(f: set<nat>, a: nat, n: nat) {
    && n in f
    && if a < n then forall x :: x in f ==> x <= a || n <= x
       else forall x :: x in f ==> n <= x <= a
  }

  /** The memory of a process as the allocator sees it: the headers, the free
      blocks (base among them), the blocks handed out, and every unit that sbrk
      has returned so far. */
  datatype Heap = Heap(base: nat, hdr: map<nat, Header>, free: set<nat>, live: set<nat>,
                       obtained: set<nat>, top: nat)
  {
    ghost predicate IsBlock(a: nat) { (a in free || a in live) && a != base }

    function Size(a: nat): nat { if a in hdr then hdr[a].size else 0 }

    function Next(a: nat): nat { if a in hdr then hdr[a].ptr else 0 }

    /** Unit u lies in block a. */
    ghost predicate Holds(a: nat, u: nat) { IsBlock(a) && a <= u < a + Size(a) }

    /** The free list is one ring in address order. */
    ghost predicate Ring() {
      && base in free && base in hdr && Size(base) == 0
      && (forall a :: a in free ==> a in hdr)
      && (forall a: nat {:trigger IsNext(free, a, Next(a))} :: a in free ==> IsNext(free, a, Next(a)))
    }

    /** Blocks are never empty, never overlap, and lie above base. */
    ghost predicate Apart() {
      && free !! live
      && (forall a: nat {:trigger IsBlock(a)} :: IsBlock(a) ==> a in hdr && base < a && 0 < Size(a) && a + Size(a) <= top)
      && (forall a: nat, b: nat {:trigger IsBlock(a), IsBlock(b)} :: IsBlock(a) && IsBlock(b) && a < b ==> a + Size(a) <= b)
    }

    /** No two free blocks touch: what could be merged has been. */
    ghost predicate Coalesced() {
      forall a, b :: a in free && b in free && a != base ==> a + Size(a) != b
    }

    /** The units of the blocks are exactly the units obtained. */
    ghost predicate Complete() {
      forall u: nat :: u in obtained <==> exists a: nat :: Holds(a, u)
    }

    ghost predicate Ok() {
      Ring() && Apart() && Coalesced() && Complete() && base < top
    }
  }

  // ---------- what free does to the ring ----------

  /** p is where bp belongs: after p, and before the one that follows p unless p
      is the last one. */
  ghost predicate Place(h: Heap, p: nat, bp: nat) {
    p in h.free && p < bp && (h.Next(p) <= p || bp < h.Next(p))
  }

  /** The block bp joins the list after p. */
  function Inserted(h: Heap, p: nat, bp: nat): Heap {
    h.(hdr := h.hdr[bp := Header(h.Next(p), h.Size(bp))][p := Header(bp, h.Size(p))],
       free := h.free + {bp}, live := h.live - {bp})
  }

  /** The block a swallows the one that follows it. */
  function Merged(h: Heap, a: nat): Heap {
    var b := h.Next(a);
    h.(hdr := h.hdr[a := Header(h.Next(b), h.Size(a) + h.Size(b))], free := h.free - {b})
  }

  lemma InsertedRing(h: Heap, p: nat, bp: nat)
    requires h.Ring() && h.Apart() && bp in h.live && Place(h, p, bp)
    ensures Inserted(h, p, bp).Ring()
  {
    var h' := Inserted(h, p, bp);
    assert h.IsBlock(bp);
    forall a: nat | a in h'.free ensures IsNext(h'.free, a, h'.Next(a)) {
      assert IsNext(h.free, p, h.Next(p));
      if a != bp {
        assert IsNext(h.free, a, h.Next(a));
      }
    }
  }

  lemma InsertedBlocks(h: Heap, p: nat, bp: nat)
    requires h.Ring() && h.Apart() && h.Complete() && bp in h.live && Place(h, p, bp)
    ensures Inserted(h, p, bp).Apart() && Inserted(h, p, bp).Complete()
  {
    var h' := Inserted(h, p, bp);
    forall a: nat ensures h'.IsBlock(a) == h.IsBlock(a) && h'.Size(a) == h.Size(a) {
    }
    forall a: nat, u: nat ensures h'.Holds(a, u) == h.Holds(a, u) {
    }
  }

  ghost predicate CanMerge(h: Heap, a: nat) {
    h.Ring() && h.Apart() && a in h.free && a != h.base && a + h.Size(a) == h.Next(a)
  }

  lemma MergedRing(h: Heap, a: nat)
    requires CanMerge(h, a)
    ensures Merged(h, a).Ring()
  {
    var h', b := Merged(h, a), h.Next(a);
    assert h.IsBlock(a) && IsNext(h.free, a, b) && IsNext(h.free, b, h.Next(b));
    forall x: nat | x in h'.free ensures IsNext(h'.free, x, h'.Next(x)) {
      assert IsNext(h.free, x, h.Next(x));
    }
  }

  lemma MergedApart(h: Heap, a: nat)
    requires CanMerge(h, a)
    ensures Merged(h, a).Apart()
  {
    var h', b := Merged(h, a), h.Next(a);
    assert IsNext(h.free, a, b) && h.IsBlock(a) && h.IsBlock(b);
    forall x: nat ensures h'.IsBlock(x) == (h.IsBlock(x) && x != b) {
    }
  }

  lemma MergedComplete(h: Heap, a: nat)
    requires CanMerge(h, a) && h.Complete()
    ensures Merged(h, a).Complete()
  {
    var h', b := Merged(h, a), h.Next(a);
    assert IsNext(h.free, a, b) && h.IsBlock(a) && h.IsBlock(b);
    forall u: nat ensures u in h'.obtained <==> exists x: nat :: h'.Holds(x, u) {
      if x: nat :| h.Holds(x, u) {
        assert h'.Holds(if x == b then a else x, u);
      }
      if x: nat :| h'.Holds(x, u) {
        assert h.Holds(x, u) || h.Holds(b, u);
      }
    }
  }

  ghost predicate Sound(h: Heap) { h.Ring() && h.Apart() && h.Complete() && h.base < h.top }

  /** What free makes of h: bp is put after p and merged with its neighbours. */
  function Freed(h: Heap, p: nat, bp: nat): Heap {
    var h1 := Inserted(h, p, bp);
    var h2 := if bp + h.Size(bp) == h.Next(p) then Merged(h1, bp) else h1;
    if p + h.Size(p) == bp then Merged(h2, p) else h2
  }

  lemma FreedSound(h: Heap, p: nat, bp: nat)
    requires h.Ok() && bp in h.live && Place(h, p, bp)
    ensures Sound(Freed(h, p, bp))
  {
    var h1 := Inserted(h, p, bp);
    assert IsNext(h.free, p, h.Next(p)) && h.IsBlock(bp);
    assert p != h.base ==> h.IsBlock(p);
    InsertedRing(h, p, bp);
    InsertedBlocks(h, p, bp);
    var h2 := if bp + h.Size(bp) == h.Next(p) then Merged(h1, bp) else h1;
    if bp + h.Size(bp) == h.Next(p) {
      MergedRing(h1, bp);
      MergedApart(h1, bp);
      MergedComplete(h1, bp);
    }
    if p + h.Size(p) == bp {
      MergedRing(h2, p);
      MergedApart(h2, p);
      MergedComplete(h2, p);
    }
  }

  /** The headers and the free set that free leaves behind. */
  lemma FreedShape(h: Heap, p: nat, bp: nat)
    requires h.Ok() && bp in h.live && Place(h, p, bp)
    ensures var n := h.Next(p);
            var up := bp + h.Size(bp) == n;
            var down := p + h.Size(p) == bp;
            var next, size := if up then h.Next(n) else n, h.Size(bp) + if up then h.Size(n) else 0;
            var h' := Freed(h, p, bp);
            && (up ==> n in h.free && n != h.base && n != p)
            && h'.free == (if up then h.free - {n} else h.free) + (if down then {} else {bp})
            && h'.live == h.live - {bp}
            && h'.hdr == h.hdr[bp := Header(next, size)]
                              [p := if down then Header(next, h.Size(p) + size) else Header(bp, h.Size(p))]
  {
    assert IsNext(h.free, p, h.Next(p)) && h.IsBlock(bp);
  }

  lemma FreedCoalesced(h: Heap, p: nat, bp: nat, a: nat, b: nat)
    requires h.Ok() && bp in h.live && Place(h, p, bp)
    requires a in Freed(h, p, bp).free && b in Freed(h, p, bp).free && a != h.base
    ensures a + Freed(h, p, bp).Size(a) != b
  {
    FreedShape(h, p, bp);
    assert IsNext(h.free, p, h.Next(p)) && h.IsBlock(bp);
    assert a in h.free ==> h.IsBlock(a);
    assert b in h.free && b != h.base ==> h.IsBlock(b);
    assert p != h.base ==> h.IsBlock(p);
    assert h.Next(p) != h.base ==> h.IsBlock(h.Next(p));
  }

  lemma FreedOk(h: Heap, p: nat, bp: nat)
    requires h.Ok() && bp in h.live && Place(h, p, bp)
    ensures Freed(h, p, bp).Ok()
  {
    FreedSound(h, p, bp);
    forall a, b | a in Freed(h, p, bp).free && b in Freed(h, p, bp).free && a != h.base
      ensures a + Freed(h, p, bp).Size(a) != b
    {
      FreedCoalesced(h, p, bp, a, b);
    }
  }

  lemma FreedKeeps(h: Heap, p: nat, bp: nat)
    requires h.Ok() && bp in h.live && Place(h, p, bp)
    ensures p in Freed(h, p, bp).free && p in h.hdr && bp in h.hdr && h.base <= p < bp
    ensures bp + h.Size(bp) == h.Next(p) ==> h.Next(p) in h.hdr && h.Next(p) != p
    ensures KeepsLive(h.(live := h.live - {bp}), Freed(h, p, bp))
    ensures exists a :: a in Freed(h, p, bp).free && h.Size(bp) <= Freed(h, p, bp).Size(a)
  {
    FreedShape(h, p, bp);
    var h' := Freed(h, p, bp);
    assert h.IsBlock(bp) && (p == h.base || h.IsBlock(p));
    var a := if p + h.Size(p) == bp then p else bp;
    assert a in h'.free && h.Size(bp) <= h'.Size(a);
  }

  // ---------- what malloc takes ----------

  /** The free block p, which follows q, is handed out whole. */
  function TakenWhole(h: Heap, q: nat, p: nat): Heap {
    h.(hdr := h.hdr[q := Header(h.Next(p), h.Size(q))], free := h.free - {p}, live := h.live + {p})
  }

  /** The last n units of the free block p are handed out. */
  function TakenTail(h: Heap, p: nat, n: nat, junk: nat): Heap
    requires n <= h.Size(p)
  {
    var rest := h.Size(p) - n;
    h.(hdr := h.hdr[p := Header(h.Next(p), rest)][p + rest := Header(junk, n)], live := h.live + {p + rest})
  }

  lemma TakenWholeOk(h: Heap, q: nat, p: nat)
    requires h.Ok() && q in h.free && p == h.Next(q) && p != h.base
    ensures TakenWhole(h, q, p).Ok() && p in h.free && p != q
  {
    var h' := TakenWhole(h, q, p);
    assert IsNext(h.free, q, p) && IsNext(h.free, p, h.Next(p)) && h.IsBlock(p);
    forall x: nat | x in h'.free ensures IsNext(h'.free, x, h'.Next(x)) {
      assert IsNext(h.free, x, h.Next(x));
    }
    forall a: nat ensures h'.IsBlock(a) == h.IsBlock(a) && h'.Size(a) == h.Size(a) {
    }
    forall a: nat, u: nat ensures h'.Holds(a, u) == h.Holds(a, u) {
    }
  }

  lemma TakenTailRing(h: Heap, p: nat, n: nat, junk: nat)
    requires h.Ring() && p in h.free && n <= h.Size(p)
    requires p + h.Size(p) - n !in h.free
    ensures TakenTail(h, p, n, junk).Ring()
  {
    var h' := TakenTail(h, p, n, junk);
    forall x: nat | x in h'.free ensures IsNext(h'.free, x, h'.Next(x)) {
      assert IsNext(h.free, x, h.Next(x));
    }
  }

  lemma TakenTailApart(h: Heap, p: nat, n: nat, junk: nat)
    requires h.Ring() && h.Apart() && p in h.free && 0 < n < h.Size(p)
    ensures TakenTail(h, p, n, junk).Apart()
    ensures !h.IsBlock(p + h.Size(p) - n) && p + h.Size(p) - n != h.base
  {
    var h', t := TakenTail(h, p, n, junk), p + h.Size(p) - n;
    assert h.IsBlock(p) && !h.IsBlock(t);
    forall a: nat ensures h'.IsBlock(a) == (h.IsBlock(a) || a == t) {
    }
  }

  lemma TakenTailComplete(h: Heap, p: nat, n: nat, junk: nat)
    requires h.Ring() && h.Apart() && h.Complete() && p in h.free && 0 < n < h.Size(p)
    ensures TakenTail(h, p, n, junk).Complete()
  {
    var h', t := TakenTail(h, p, n, junk), p + h.Size(p) - n;
    assert h.IsBlock(p) && !h.IsBlock(t);
    forall u: nat ensures u in h'.obtained <==> exists a: nat :: h'.Holds(a, u) {
      if a: nat :| h.Holds(a, u) {
        assert h'.Holds(if a == p && t <= u then t else a, u);
      }
      if a: nat :| h'.Holds(a, u) {
        assert h.Holds(a, u) || h.Holds(p, u);
      }
    }
  }

  lemma TakenTailOk(h: Heap, p: nat, n: nat, junk: nat)
    requires h.Ok() && p in h.free && 0 < n < h.Size(p)
    ensures TakenTail(h, p, n, junk).Ok()
    ensures !h.IsBlock(p + h.Size(p) - n) && p + h.Size(p) - n != h.base
  {
    TakenTailApart(h, p, n, junk);
    TakenTailRing(h, p, n, junk);
    TakenTailComplete(h, p, n, junk);
    var h' := TakenTail(h, p, n, junk);
    assert h.IsBlock(p);
    forall a, b | a in h'.free && b in h'.free && a != h'.base ensures a + h'.Size(a) != b {
      assert h.IsBlock(a) && (b != h.base ==> h.IsBlock(b));
    }
  }

  ghost function Units(lo: nat, n: nat): (r: set<nat>)
    ensures forall u: nat :: u in r <==> lo <= u < lo + n
  {
    if n == 0 then {} else Units(lo, n - 1) + {lo + n - 1}
  }

  /** A region from sbrk, as one block in use. */
  ghost function Extended(h: Heap, hp: nat, n: nat, junk: nat): Heap {
    h.(hdr := h.hdr[hp := Header(junk, n)], live := h.live + {hp}, obtained := h.obtained + Units(hp, n), top := hp + n)
  }

  lemma ExtendedRing(h: Heap, hp: nat, n: nat, junk: nat)
    requires h.Ring() && h.Apart() && h.base < h.top <= hp && 0 < n
    ensures Extended(h, hp, n, junk).Ring() && Extended(h, hp, n, junk).Apart()
    ensures !h.IsBlock(hp) && hp !in h.free
  {
    var h' := Extended(h, hp, n, junk);
    assert !h.IsBlock(hp);
    forall x: nat | x in h'.free ensures IsNext(h'.free, x, h'.Next(x)) {
      assert IsNext(h.free, x, h.Next(x));
    }
    forall a: nat ensures h'.IsBlock(a) == (h.IsBlock(a) || a == hp) {
    }
  }

  lemma ExtendedComplete(h: Heap, hp: nat, n: nat, junk: nat)
    requires h.Apart() && h.Complete() && !h.IsBlock(hp) && hp != h.base && 0 < n
    ensures Extended(h, hp, n, junk).Complete()
  {
    var h' := Extended(h, hp, n, junk);
    forall u: nat ensures u in h'.obtained <==> exists a: nat :: h'.Holds(a, u) {
      if u in h'.obtained {
        if a: nat :| h.Holds(a, u) {
          assert h'.Holds(a, u);
        } else {
          assert h'.Holds(hp, u);
        }
      }
      if a: nat :| h'.Holds(a, u) {
        assert a == hp || h.Holds(a, u);
      }
    }
  }

  lemma ExtendedOk(h: Heap, hp: nat, n: nat, junk: nat)
    requires h.Ok() && h.top <= hp && 0 < n
    ensures Extended(h, hp, n, junk).Ok() && !h.IsBlock(hp) && hp !in h.free
  {
    ExtendedRing(h, hp, n, junk);
    ExtendedComplete(h, hp, n, junk);
  }

  /** The ring of base alone, which the first call of malloc sets up. */
  lemma StartOk(h: Heap)
    requires h.free == {h.base} && h.live == {} && h.obtained == {} && h.base < h.top
    requires h.base in h.hdr && h.hdr[h.base] == Header(h.base, 0)
    ensures h.Ok()
  {
    assert IsNext(h.free, h.base, h.base);
  }

  /** The blocks in use in h0 have kept their size. */
  ghost predicate KeepsLive(h0: Heap, h: Heap) {
    forall a: nat {:trigger h.Size(a)} :: a in h0.live ==> h.Size(a) == h0.Size(a)
  }

  // ---------- what the calls do ----------

  /** The units that malloc takes for nbytes: they and a header. */
  function UnitsFor(nbytes: nat): (r: nat)
    ensures nbytes <= (r - 1) * UNIT < nbytes + UNIT
  {
    (nbytes + UNIT - 1) / UNIT + 1
  }

  /** No free block has n units. */
  ghost predicate NoFit(h: Heap, n: nat) { forall a :: a in h.free ==> h.Size(a) < n }

  /** The units that morecore asks sbrk for, and those it gets. */
  function CoreSize(n: nat): nat { if n < NALLOC then NALLOC else n }

  ghost function Core(region: Option<nat>, n: nat): set<nat> {
    if region.None? then {} else Units(region.value, CoreSize(n))
  }

  /** A block of n units at ap - 1 is handed out.  It fails iff no free block is
      large enough and sbrk has no region to give; sbrk is asked only if no free
      block is large enough. */
  ghost predicate Allocates(h: Heap, n: nat, region: Option<nat>, ap: nat, h': Heap) {
    && (ap == 0 <==> NoFit(h, n) && region.None?)
    && (ap == 0 ==> h'.live == h.live)
    && (ap != 0 ==> ap - 1 !in h.live && h'.live == h.live + {ap - 1} && h'.Size(ap - 1) == n)
    && h'.obtained == h.obtained + (if NoFit(h, n) then Core(region, n) else {})
    && h'.top == (if NoFit(h, n) && region.Some? then region.value + CoreSize(n) else h.top)
    && h'.base == h.base && KeepsLive(h, h')
  }

  /** The block at ap - 1 is given back. */
  ghost predicate Releases(h: Heap, ap: nat, h': Heap) {
    && 0 < ap && h'.live == h.live - {ap - 1} && h'.obtained == h.obtained && h'.top == h.top && h'.base == h.base
    && KeepsLive(h.(live := h'.live), h')
    && (exists a :: a in h'.free && h.Size(ap - 1) <= h'.Size(a))
  }

  /** The block is the last n units of the first free one, going round from freep,
      that is large enough, and the next search goes on from the one before it. */
  ghost predicate FirstFit(h: Heap, freep: nat, n: nat, ap: nat, freep': nat) {
    exists p :: p in h.free && n <= h.Size(p) && ap - 1 == p + h.Size(p) - n
                && freep' in h.free && h.Next(freep') == p
                && forall x :: x in h.free && Passed(freep, p, x) ==> h.Size(x) < n
  }

  // ---------- walking the ring ----------

  /** Going up from freep, x is passed before p is reached. */
  ghost predicate Passed(freep: nat, p: nat, x: nat) {
    if freep < p then freep < x < p else x < p || freep < x
  }

  ghost function Ahead(f: set<nat>, freep: nat, p: nat): set<nat> {
    set x | x in f && !Passed(freep, p, x)
  }

  lemma Advance(f: set<nat>, freep: nat, p: nat, n: nat)
    requires freep in f && p in f && IsNext(f, p, n)
    ensures p == freep ==> forall x :: x in f ==> !Passed(freep, n, x)
    ensures p != freep ==> forall x :: x in f ==> (Passed(freep, n, x) <==> x == p || Passed(freep, p, x))
    ensures p != freep ==> |Ahead(f, freep, n)| < |Ahead(f, freep, p)|
  {
    if p != freep {
      assert Ahead(f, freep, n) == Ahead(f, freep, p) - {p};
    }
  }

  /** How far the search of free still has to go for the place of bp. */
  ghost function Rank(f: set<nat>, p: nat, bp: nat): nat {
    if p < bp then |set x | x in f && p < x < bp|
    else 1 + |f| + |set x | x in f && p < x|
  }

  lemma RankDrops(h: Heap, p: nat, bp: nat)
    requires h.Ring() && h.Apart() && p in h.free && bp in h.live
    requires !(p < bp < h.Next(p)) && !(h.Next(p) <= p && (p < bp || bp < h.Next(p)))
    ensures Rank(h.free, h.Next(p), bp) < Rank(h.free, p, bp)
  {
    var f, n := h.free, h.Next(p);
    assert IsNext(f, p, n) && h.IsBlock(bp);
    if p < bp {
      assert (set x | x in f && p < x < bp) == (set x | x in f && n < x < bp) + {n};
    } else if p < n {
      assert (set x | x in f && p < x) == (set x | x in f && n < x) + {n};
    } else {
      assert (set x | x in f && n < x < bp) <= f;
      SubsetSize((set x | x in f && n < x < bp), f);
    }
  }

  lemma SubsetSize(a: set<nat>, b: set<nat>)
    requires a <= b
    ensures |a| <= |b|
  {
    assert b == a + (b - a);
  }

  // ---------- the allocator ----------

  class Allocator {
    const base: nat
    var freep: nat
    var hdr: map<nat, Header>
    ghost var free: set<nat>
    ghost var live: set<nat>
    ghost var obtained: set<nat>
    var top: nat // the end of the last region from sbrk

    constructor (base: nat)
      requires 0 < base
      ensures Valid() && free == {} && freep == 0 && top == base + 1
    {
      this.base := base;
      freep, hdr, top := 0, map[], base + 1;
      free, live, obtained := {}, {}, {};
    }

    ghost function H(): Heap
      reads this
    {
      Heap(base, hdr, free, live, obtained, top)
    }

    ghost predicate Valid()
      reads this
    {
      && 0 < base < top
      && if freep == 0 then free == {} && live == {} && obtained == {} else H().Ok() && freep in free
    }

    /** The loop of free: where in the ring bp belongs. */
    method FindPlace(bp: nat) returns (p: nat)
      requires Valid() && bp in live
      ensures Place(H(), p, bp)
    {
      p := freep;
      while !(bp > p && bp < hdr[p].ptr)
        invariant p in free
        decreases Rank(free, p, bp)
      {
        assert IsNext(free, p, H().Next(p)) && H().IsBlock(bp);
        if p >= hdr[p].ptr && (bp > p || bp < hdr[p].ptr) {
          return;
        }
        RankDrops(H(), p, bp);
        p := hdr[p].ptr;
      }
    }

    /** free */
    method Free(ap: nat)
      requires Valid() && 0 < ap && ap - 1 in live
      modifies this
      ensures Valid() && freep != 0 && Releases(old(H()), ap, H())
      ensures Place(old(H()), freep, ap - 1)
    {
      var bp := ap - 1;
      var p := FindPlace(bp);
      ghost var h := H();
      FreedOk(h, p, bp);
      FreedKeeps(h, p, bp);
      FreedShape(h, p, bp);
      hide Heap.Ring, Heap.Apart, Heap.Complete, Heap.Coalesced, Place;
      var n := hdr[p].ptr;
      if bp + hdr[bp].size == n {
        hdr := hdr[bp := Header(hdr[n].ptr, hdr[bp].size + hdr[n].size)];
      } else {
        hdr := hdr[bp := Header(n, hdr[bp].size)];
      }
      if p + hdr[p].size == bp {
        hdr := hdr[p := Header(hdr[bp].ptr, hdr[p].size + hdr[bp].size)];
      } else {
        hdr := hdr[p := Header(bp, hdr[p].size)];
      }
      freep := p;
      free, live := Freed(h, p, bp).free, live - {bp};
      assert H() == Freed(h, p, bp);
    }

    /** morecore; region is what sbrk returns, above everything before it. */
    method MoreCore(n: nat, region: Option<nat>) returns (p: nat)
      requires Valid() && freep != 0 && (region.Some? ==> top <= region.value)
      modifies this
      ensures Valid() && freep != 0
      ensures p == if region.None? then 0 else freep
      ensures region.None? ==> H() == old(H()) && freep == old(freep)
      ensures live == old(live)
      ensures KeepsLive(old(H()), H())
      ensures region.Some? ==> exists a :: a in free && n <= H().Size(a)
      ensures obtained == old(obtained) + Core(region, n)
      ensures region.Some? ==> top == region.value + CoreSize(n)
    {
      var nu := if n < NALLOC then NALLOC else n;
      if region.None? {
        return 0;
      }
      hide Heap.Ring, Heap.Apart, Heap.Complete, Heap.Coalesced, Place;
      ghost var h0 := H();
      AddRegion(region.value, nu);
      ghost var h1 := H();
      Free(region.value + 1);
      forall a: nat | a in h0.live ensures H().Size(a) == h0.Size(a) {
        assert h1.Size(a) == h0.Size(a);
      }
      p := freep;
    }

    /** A region from sbrk becomes one block in use. */
    method AddRegion(hp: nat, nu: nat)
      requires Valid() && freep != 0 && top <= hp && 0 < nu
      modifies this`hdr, this`top, this`live, this`obtained
      ensures Valid() && hp !in old(live) && live == old(live) + {hp} && H().Size(hp) == nu
      ensures KeepsLive(old(H()), H()) && obtained == old(obtained) + Units(hp, nu) && top == hp + nu
    {
      ExtendedOk(H(), hp, nu, H().Next(hp));
      assert hp !in live by { assert !H().IsBlock(hp); }
      hdr := hdr[hp := Header(if hp in hdr then hdr[hp].ptr else 0, nu)];
      top := hp + nu;
      live, obtained := live + {hp}, obtained + Units(hp, nu);
    }

    /** The part of malloc that hands out n units of the block p. */
    method Take(prevp: nat, p: nat, n: nat) returns (ap: nat)
      requires Valid() && freep != 0 && 0 < n
      requires prevp in free && p == H().Next(prevp) && n <= H().Size(p)
      modifies this`freep, this`hdr, this`free, this`live
      ensures Valid() && freep == prevp && freep != 0
      ensures 0 < ap && ap - 1 !in old(live) && live == old(live) + {ap - 1}
      ensures H().Size(ap - 1) == n && ap - 1 == p + old(H().Size(p)) - n
      ensures KeepsLive(old(H()), H())
    {
      ghost var h := H();
      assert prevp == base || h.IsBlock(prevp);
      TakenWholeOk(h, prevp, p);
      if hdr[p].size == n {
        hdr := hdr[prevp := Header(hdr[p].ptr, hdr[prevp].size)];
        free, live := free - {p}, live + {p};
        assert H() == TakenWhole(h, prevp, p);
        ap := p + 1;
      } else {
        var q := p + hdr[p].size - n;
        TakenTailOk(h, p, n, h.Next(q));
        hdr := hdr[p := Header(hdr[p].ptr, hdr[p].size - n)];
        hdr := hdr[q := Header(if q in hdr then hdr[q].ptr else 0, n)];
        live := live + {q};
        assert H() == TakenTail(h, p, n, h.Next(q));
        ap := q + 1;
      }
      freep := prevp;
    }

    /** malloc */
    method Malloc(nbytes: nat, region: Option<nat>) returns (ap: nat)
      requires Valid() && (region.Some? ==> top <= region.value)
      modifies this
      ensures Valid() && freep != 0 && Allocates(old(H()), UnitsFor(nbytes), region, ap, H())
      ensures !NoFit(old(H()), UnitsFor(nbytes)) ==> FirstFit(old(H()), old(freep), UnitsFor(nbytes), ap, freep)
    {
      var nunits := (nbytes + UNIT - 1) / UNIT + 1;
      if freep == 0 {
        freep := base;
        hdr := hdr[base := Header(base, 0)];
        free := {base};
        StartOk(H());
      }
      ap := Fit(nunits, region);
    }

    /** The loop of malloc: first fit, starting after freep. */
    method Fit(nunits: nat, region: Option<nat>) returns (ap: nat)
      requires Valid() && freep != 0 && 0 < nunits && (region.Some? ==> top <= region.value)
      modifies this
      ensures Valid() && freep != 0 && Allocates(old(H()), nunits, region, ap, H())
      ensures !NoFit(old(H()), nunits) ==> FirstFit(old(H()), old(freep), nunits, ap, freep)
    {
      hide Heap.Apart;
      hide Heap.Complete;
      hide Heap.Coalesced;
      ghost var h0, cores := H(), 0;
      var prevp := freep;
      assert IsNext(free, prevp, H().Next(prevp));
      var p := hdr[prevp].ptr;
      Advance(free, freep, prevp, p);
      while true
        invariant Valid() && freep != 0 && cores <= 1
        invariant live == h0.live && KeepsLive(h0, H())
        invariant cores == 0 ==> H() == h0 && freep == old(freep)
        invariant cores == 1 ==> region.Some? && NoFit(h0, nunits) && obtained == h0.obtained + Core(region, nunits)
        invariant cores == 1 ==> top == region.value + CoreSize(nunits)
        invariant prevp in free && p == H().Next(prevp)
        invariant forall x :: x in free && Passed(freep, p, x) ==> H().Size(x) < nunits
        invariant cores == 1 ==> exists x :: x in free && nunits <= H().Size(x)
        decreases 1 - cores, |Ahead(free, freep, p)|
      {
        assert IsNext(free, prevp, p);
        if hdr[p].size >= nunits {
          ap := Take(prevp, p, nunits);
          return;
        }
        if p == freep {
          p := MoreCore(nunits, region);
          cores := cores + 1;
          if p == 0 {
            return 0;
          }
        }
        assert IsNext(free, p, H().Next(p));
        Advance(free, freep, p, H().Next(p));
        prevp, p := p, hdr[p].ptr;
      }
    }
  }
}

/** What the invariant of the allocator means: the ring visits every free block
    in address order, no unit is lost, and every run keeps this. */
module UmallocRuns {
  import opened Prelude
  import opened Umalloc

  // ---------- one ring ----------

  /** The block reached after k links from base. */
  ghost function Follow(h: Heap, k: nat): nat {
    if k == 0 then h.base else h.Next(Follow(h, k - 1))
  }

  ghost function Below(f: set<nat>, x: nat): set<nat> { set y | y in f && y < x }

  lemma {:induction false} Largest(s: set<nat>) returns (m: nat)
    requires s != {}
    ensures m in s && forall x :: x in s ==> x <= m
  {
    var a :| a in s;
    if s == {a} {
      m := a;
    } else {
      var r := Largest(s - {a});
      m := if r < a then a else r;
      assert s == s - {a} + {a};
    }
  }

  /** Every free block but base is the next of the largest one below it. */
  lemma Previous(h: Heap, x: nat) returns (y: nat)
    requires h.Ring() && x in h.free && h.base < x
    ensures y in h.free && y < x && h.Next(y) == x && Below(h.free, x) == Below(h.free, y) + {y}
  {
    assert h.base in Below(h.free, x);
    y := Largest(Below(h.free, x));
    assert IsNext(h.free, y, h.Next(y));
    assert h.Next(y) < x ==> h.Next(y) in Below(h.free, x);
  }

  lemma BaseFirst(h: Heap)
    requires h.Ok()
    ensures Below(h.free, h.base) == {}
    ensures forall y :: y in h.free ==> h.base <= y
  {
    forall y | y in h.free ensures h.base <= y {
      assert y == h.base || h.IsBlock(y);
    }
  }

  /** The links from base visit the free blocks in address order: the one with k
      blocks below it comes k-th. */
  lemma {:induction false} RingInOrder(h: Heap, x: nat)
    requires h.Ok() && x in h.free
    ensures Follow(h, |Below(h.free, x)|) == x
    decreases x
  {
    BaseFirst(h);
    if x != h.base {
      var y := Previous(h, x);
      RingInOrder(h, y);
    }
  }

  /** After |free| links, and not before, the walk is back at base. */
  lemma RingCloses(h: Heap, k: nat)
    requires h.Ok() && k <= |h.free|
    ensures Follow(h, |h.free|) == h.base
    ensures 0 < k < |h.free| ==> Follow(h, k) != h.base
  {
    var m := Largest(h.free);
    assert h.free == Below(h.free, m) + {m};
    RingInOrder(h, m);
    assert IsNext(h.free, m, h.Next(m));
    BaseFirst(h);
    if 0 < k < |h.free| {
      WalkClimbs(h, m, k);
    }
  }

  lemma {:induction false} WalkClimbs(h: Heap, x: nat, k: nat)
    requires h.Ok() && x in h.free && 0 < k <= |Below(h.free, x)|
    ensures h.base < Follow(h, k)
    decreases x
  {
    BaseFirst(h);
    RingInOrder(h, x);
    if k < |Below(h.free, x)| {
      var y := Previous(h, x);
      WalkClimbs(h, y, k);
    }
  }

  // ---------- conservation ----------

  ghost function Total(h: Heap, bs: set<nat>): nat {
    if bs == {} then 0 else
    var x :| x in bs;
    h.Size(x) + Total(h, bs - {x})
  }

  lemma {:induction false} TotalRemove(h: Heap, bs: set<nat>, a: nat)
    requires a in bs
    ensures Total(h, bs) == h.Size(a) + Total(h, bs - {a})
  {
    var x :| x in bs && Total(h, bs) == h.Size(x) + Total(h, bs - {x});
    if x != a {
      TotalRemove(h, bs - {x}, a);
      TotalRemove(h, bs - {a}, x);
      assert bs - {x} - {a} == bs - {a} - {x};
    }
  }

  lemma {:induction false} TotalSum(h: Heap, bs: set<nat>, cs: set<nat>)
    requires bs !! cs
    ensures Total(h, bs + cs) == Total(h, bs) + Total(h, cs)
  {
    if bs == {} {
      assert bs + cs == cs;
    } else {
      var x :| x in bs;
      TotalRemove(h, bs, x);
      TotalRemove(h, bs + cs, x);
      assert bs + cs - {x} == (bs - {x}) + cs;
      TotalSum(h, bs - {x}, cs);
    }
  }

  lemma {:induction false} UnitsSize(lo: nat, n: nat)
    ensures |Units(lo, n)| == n
  {
    if n > 0 {
      UnitsSize(lo, n - 1);
    }
  }

  ghost predicate InSome(h: Heap, bs: set<nat>, u: nat) { exists a: nat :: a in bs && h.Holds(a, u) }

  /** A unit lies in one block only. */
  lemma OneBlock(h: Heap, bs: set<nat>, x: nat, u: nat)
    requires h.Apart() && x in bs && h.IsBlock(x)
    ensures InSome(h, bs - {x}, u) <==> InSome(h, bs, u) && !h.Holds(x, u)
  {
    if InSome(h, bs, u) && !h.Holds(x, u) {
      var a: nat :| a in bs && h.Holds(a, u);
      assert a in bs - {x};
    }
    if a: nat :| a in bs - {x} && h.Holds(a, u) {
      assert h.IsBlock(a);
    }
  }

  /** Taking a block out of a set of blocks takes out as many units as it has. */
  lemma UnitsOut(h: Heap, bs: set<nat>, us: set<nat>, x: nat)
    requires h.Apart() && x in bs && h.IsBlock(x)
    requires forall u: nat :: u in us <==> InSome(h, bs, u)
    ensures forall u: nat :: u in us - Units(x, h.Size(x)) <==> InSome(h, bs - {x}, u)
    ensures |us| == h.Size(x) + |us - Units(x, h.Size(x))|
  {
    var mine := Units(x, h.Size(x));
    forall u: nat
      ensures u in us - mine <==> InSome(h, bs - {x}, u)
      ensures u in mine ==> u in us
    {
      OneBlock(h, bs, x, u);
      assert u in mine <==> h.Holds(x, u);
      assert h.Holds(x, u) ==> InSome(h, bs, u);
    }
    assert us == mine + (us - mine);
    UnitsSize(x, h.Size(x));
  }

  lemma {:induction false} TotalUnits(h: Heap, bs: set<nat>, us: set<nat>)
    requires h.Apart() && (forall a :: a in bs ==> h.IsBlock(a))
    requires forall u: nat :: u in us <==> InSome(h, bs, u)
    ensures Total(h, bs) == |us|
  {
    if bs == {} {
      assert us == {};
    } else {
      var x :| x in bs;
      UnitsOut(h, bs, us, x);
      hide InSome, Units, Heap.Apart, Heap.IsBlock, Total;
      TotalUnits(h, bs - {x}, us - Units(x, h.Size(x)));
      TotalRemove(h, bs, x);
    }
  }

  /** Free units and units in use add up to the units sbrk has returned. */
  lemma Conservation(h: Heap)
    requires h.Ok()
    ensures Total(h, h.free) + Total(h, h.live) == |h.obtained|
  {
    var bs := h.free - {h.base} + h.live;
    assert forall a :: a in bs ==> h.IsBlock(a);
    assert h.base !in h.live by { assert !h.IsBlock(h.base); }
    forall u: nat ensures u in h.obtained <==> InSome(h, bs, u) {
      if u in h.obtained {
        var a: nat :| h.Holds(a, u);
        assert a in bs;
      }
    }
    TotalUnits(h, bs, h.obtained);
    TotalRemove(h, h.free, h.base);
    TotalSum(h, h.free - {h.base}, h.live);
  }

  // ---------- what the blocks in use are for ----------

  /** Pointer ap, given out for n bytes, names a block in use that is large
      enough. */
  ghost predicate Serves(h: Heap, ap: nat, n: nat) {
    0 < ap && ap - 1 in h.live && n <= (h.Size(ap - 1) - 1) * UNIT
  }

  ghost predicate ServesAll(h: Heap, given: map<nat, nat>) {
    (forall ap :: ap in given ==> Serves(h, ap, given[ap])) && (forall a :: a in h.live ==> a + 1 in given)
  }

  /** The bytes of two pointers in use do not overlap. */
  lemma PointersApart(h: Heap, given: map<nat, nat>, p: nat, q: nat)
    requires h.Ok() && ServesAll(h, given) && p in given && q in given && p < q
    ensures p * UNIT + given[p] <= (q - 1) * UNIT
  {
    assert Serves(h, p, given[p]) && Serves(h, q, given[q]);
    assert h.IsBlock(p - 1) && h.IsBlock(q - 1);
  }

  /** The bytes of a pointer in use lie in no free block. */
  lemma PointerNotFree(h: Heap, given: map<nat, nat>, p: nat, f: nat)
    requires h.Ok() && ServesAll(h, given) && p in given && f in h.free && f != h.base
    ensures p * UNIT + given[p] <= f * UNIT || (f + h.Size(f)) * UNIT <= (p - 1) * UNIT
  {
    assert Serves(h, p, given[p]);
    assert h.IsBlock(p - 1) && h.IsBlock(f);
  }

  // ---------- every run ----------

  /** sbrk answers a request of malloc with a region this far above the end of
      the heap, or not at all. */
  datatype Op = Alloc(nbytes: nat, gap: Option<nat>) | Release(ap: nat)

  function RegionOf(top: nat, gap: Option<nat>): Option<nat> {
    if gap.None? then None else Some(top + gap.value)
  }

  /** Pointers in use after calls ops have answered answers, with the bytes
      asked for.  A program frees only what it was given. */
  function Given(ops: seq<Op>, answers: seq<nat>): map<nat, nat>
    requires |answers| == |ops|
  {
    if ops == [] then map[] else
    var n := |ops| - 1;
    Next(Given(ops[..n], answers[..n]), ops[n], answers[n])
  }

  function Next(given: map<nat, nat>, op: Op, answer: nat): map<nat, nat> {
    match op
    case Alloc(n, _) => if answer == 0 then given else given[answer := n]
    case Release(ap) => given - {ap}
  }

  /** The heap before the first call of malloc, or a sound one. */
  ghost predicate Good(h: Heap) { h.Ok() || (h.free == {} && h.live == {} && h.obtained == {}) }

  /** What one call does. */
  ghost predicate Step(h: Heap, given: map<nat, nat>, op: Op, answer: nat, h': Heap) {
    && Good(h')
    && match op
       case Alloc(n, gap) => Allocates(h, UnitsFor(n), RegionOf(h.top, gap), answer, h')
       case Release(ap) => if ap in given then Releases(h, ap, h') else h' == h
  }

  /** heaps are what a program sees that makes the calls ops from the start. */
  ghost predicate IsRun(ops: seq<Op>, answers: seq<nat>, heaps: seq<Heap>) {
    && |answers| == |ops| && |heaps| == |ops| + 1 && Good(heaps[0]) && heaps[0].live == {}
    && (forall k: nat {:trigger ops[k]} :: k < |ops| ==>
          Step(heaps[k], Given(ops[..k], answers[..k]), ops[k], answers[k], heaps[k + 1]))
  }

  /** Blocks that stay in use go on serving. */
  lemma StillServes(h: Heap, h': Heap, ap: nat, n: nat)
    requires Serves(h, ap, n) && ap - 1 in h'.live && h'.Size(ap - 1) == h.Size(ap - 1)
    ensures Serves(h', ap, n)
  {
  }

  lemma AllocServes(h: Heap, given: map<nat, nat>, n: nat, region: Option<nat>, answer: nat, h': Heap)
    requires ServesAll(h, given) && Allocates(h, UnitsFor(n), region, answer, h')
    ensures ServesAll(h', if answer == 0 then given else given[answer := n])
    ensures answer != 0 ==> answer !in given
  {
    hide Heap.Size, NoFit;
    var given' := if answer == 0 then given else given[answer := n];
    assert answer != 0 ==> Serves(h', answer, n);
    forall p | p in given ensures Serves(h', p, given[p]) && (answer != 0 ==> p != answer) {
      assert Serves(h, p, given[p]) && h'.Size(p - 1) == h.Size(p - 1);
      StillServes(h, h', p, given[p]);
    }
    hide Serves;
  }

  lemma ReleaseServes(h: Heap, given: map<nat, nat>, ap: nat, h': Heap)
    requires ServesAll(h, given) && Releases(h, ap, h')
    ensures ServesAll(h', given - {ap})
  {
    forall p | p in given && p != ap ensures Serves(h', p, given[p]) {
      assert Serves(h, p, given[p]) && h'.Size(p - 1) == h.(live := h'.live).Size(p - 1) == h.Size(p - 1);
      StillServes(h, h', p, given[p]);
    }
    hide Serves;
  }

  lemma StepServes(h: Heap, given: map<nat, nat>, op: Op, answer: nat, h': Heap)
    requires ServesAll(h, given) && Step(h, given, op, answer, h')
    ensures ServesAll(h', Next(given, op, answer))
    ensures op.Alloc? && answer != 0 ==> answer !in given
  {
    match op
    case Alloc(n, gap) =>
      AllocServes(h, given, n, RegionOf(h.top, gap), answer, h');
    case Release(ap) =>
      if ap in given {
        ReleaseServes(h, given, ap, h');
      } else {
        assert given - {ap} == given;
      }
  }

  lemma {:induction false} RunServes(ops: seq<Op>, answers: seq<nat>, heaps: seq<Heap>, k: nat)
    requires IsRun(ops, answers, heaps) && k <= |ops|
    ensures Good(heaps[k]) && ServesAll(heaps[k], Given(ops[..k], answers[..k]))
  {
    if k > 0 {
      var n := k - 1;
      RunServes(ops, answers, heaps, n);
      assert Step(heaps[n], Given(ops[..n], answers[..n]), ops[n], answers[n], heaps[n + 1]);
      StepServes(heaps[n], Given(ops[..n], answers[..n]), ops[n], answers[n], heaps[n + 1]);
      assert ops[..k][..n] == ops[..n] && answers[..k][..n] == answers[..n];
    }
  }

  /** The free list is one ring in address order, and every unit of every region
      is in a free block or in one in use. */
  ghost predicate Whole(h: Heap) {
    && Follow(h, |h.free|) == h.base && (forall x :: x in h.free ==> Follow(h, |Below(h.free, x)|) == x)
    && Total(h, h.free) + Total(h, h.live) == |h.obtained|
  }

  /** Pointers in use have the bytes asked for to themselves. */
  ghost predicate Private(h: Heap, given: map<nat, nat>) {
    && (forall p, q :: p in given && q in given && p < q ==> p * UNIT + given[p] <= (q - 1) * UNIT)
    && (forall p, f :: p in given && f in h.free && f != h.base ==>
          p * UNIT + given[p] <= f * UNIT || (f + h.Size(f)) * UNIT <= (p - 1) * UNIT)
  }

  lemma OkWhole(h: Heap, given: map<nat, nat>)
    requires h.Ok() && ServesAll(h, given)
    ensures Whole(h) && Private(h, given)
  {
    RingCloses(h, 0);
    Conservation(h);
    forall x | x in h.free ensures Follow(h, |Below(h.free, x)|) == x {
      RingInOrder(h, x);
    }
    forall p, q | p in given && q in given && p < q ensures p * UNIT + given[p] <= (q - 1) * UNIT {
      PointersApart(h, given, p, q);
    }
    forall p, f | p in given && f in h.free && f != h.base
      ensures p * UNIT + given[p] <= f * UNIT || (f + h.Size(f)) * UNIT <= (p - 1) * UNIT
    {
      PointerNotFree(h, given, p, f);
    }
  }

  /** Any run of malloc and free: after every call pointers in use are those
      of the calls and answers so far, each has its bytes to itself, the ring is
      whole and no unit is lost; and a call of malloc fails iff no free block is
      large enough and sbrk has nothing to give, and otherwise its answer is new. */
  lemma EveryRun(ops: seq<Op>, answers: seq<nat>, heaps: seq<Heap>, k: nat)
    requires IsRun(ops, answers, heaps) && k <= |ops|
    ensures ServesAll(heaps[k], Given(ops[..k], answers[..k])) && Private(heaps[k], Given(ops[..k], answers[..k]))
    ensures heaps[k].free != {} ==> Whole(heaps[k])
    ensures k < |ops| && ops[k].Alloc? ==>
              && (answers[k] == 0 <==> NoFit(heaps[k], UnitsFor(ops[k].nbytes)) && ops[k].gap.None?)
              && (answers[k] != 0 ==> answers[k] !in Given(ops[..k], answers[..k]))
  {
    RunServes(ops, answers, heaps, k);
    var h, given := heaps[k], Given(ops[..k], answers[..k]);
    if h.Ok() {
      OkWhole(h, given);
    }
    if k < |ops| {
      assert Step(h, given, ops[k], answers[k], heaps[k + 1]);
      StepServes(h, given, ops[k], answers[k], heaps[k + 1]);
    }
  }

  /** Any sequence of malloc and of free of pointers in use. */
  method Run(h: Allocator, ops: seq<Op>) returns (answers: seq<nat>, given: map<nat, nat>, ghost heaps: seq<Heap>)
    requires h.Valid() && h.live == {}
    modifies h
    ensures IsRun(ops, answers, heaps) && heaps[0] == old(h.H()) && heaps[|ops|] == h.H()
    ensures h.Valid() && given == Given(ops, answers)
  {
    given, answers, heaps := map[], [], [h.H()];
    for k := 0 to |ops|
      invariant h.Valid() && IsRun(ops[..k], answers, heaps) && heaps[0] == old(h.H()) && heaps[k] == h.H()
      invariant given == Given(ops[..k], answers)
    {
      RunServes(ops[..k], answers, heaps, k);
      assert ops[..k][..k] == ops[..k] && answers[..k] == answers;
      var answer := Call(h, ops[k], given);
      RunOn(ops[..k], answers, heaps, ops[k], answer, h.H());
      given, answers, heaps := Next(given, ops[k], answer), answers + [answer], heaps + [h.H()];
      assert ops[..k] + [ops[k]] == ops[..k + 1];
    }
    assert ops[..|ops|] == ops;
  }

  method Call(h: Allocator, op: Op, given: map<nat, nat>) returns (answer: nat)
    requires h.Valid() && ServesAll(h.H(), given)
    modifies h
    ensures h.Valid() && Step(old(h.H()), given, op, answer, h.H())
  {
    answer := 0;
    match op {
      case Alloc(n, gap) =>
        answer := h.Malloc(n, RegionOf(h.top, gap));
      case Release(ap) =>
        if ap in given {
          assert Serves(h.H(), ap, given[ap]);
          h.Free(ap);
        }
    }
  }

  lemma RunOn(ops: seq<Op>, answers: seq<nat>, heaps: seq<Heap>, op: Op, answer: nat, h: Heap)
    requires IsRun(ops, answers, heaps) && Step(heaps[|ops|], Given(ops, answers), op, answer, h)
    ensures IsRun(ops + [op], answers + [answer], heaps + [h])
    ensures Given(ops + [op], answers + [answer]) == Next(Given(ops, answers), op, answer)
  {
    var ops', answers', heaps' := ops + [op], answers + [answer], heaps + [h];
    assert ops'[..|ops|] == ops && answers'[..|ops|] == answers;
    forall k: nat {:trigger ops'[k]} | k < |ops'|
      ensures Step(heaps'[k], Given(ops'[..k], answers'[..k]), ops'[k], answers'[k], heaps'[k + 1])
    {
      assert ops'[..k] == ops[..k] && answers'[..k] == answers[..k];
      if k < |ops| {
        assert Step(heaps[k], Given(ops[..k], answers[..k]), ops[k], answers[k], heaps[k + 1]);
      } else {
        assert ops[..k] == ops && answers[..k] == answers;
      }
    }
  }
}

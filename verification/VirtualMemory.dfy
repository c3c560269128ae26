/** kernel/vm.c and kernel/kalloc.c: building, growing, shrinking, copying and
    freeing address spaces. */
module VirtualMemory {
  import opened Prelude
  import opened Paging
  import opened PagingSteps

  /** The kernel part of every address space: page v is mapped to frame v, for
      the kernel only, and read-only in the kernel text. */
  function KernelPte(v: nat, dataPage: nat): Pte {
    if USERPAGES <= v < PHYSPAGES then Pte(true, !(IOEND <= v < dataPage), false, v)
    else if DEVPAGE <= v < LASTPAGE then Pte(true, true, false, v)
    else ZeroPte
  }

  /** d is an address space as setupkvm makes them: its kernel part is in place,
      and so is the page table that covers user memory. */
  ghost predicate Ready(vm: Vm, d: nat, dataPage: nat) {
    && IsSpace(vm, d) && Pde(vm.mem, d, 0).present
    && (forall v: nat :: USERPAGES <= v < LASTPAGE ==> Walk(vm.mem, d, v) == KernelPte(v, dataPage))
    && (forall v: nat :: v < USERPAGES && !Walk(vm.mem, d, v).present ==> Walk(vm.mem, d, v) == ZeroPte)
  }

  /** The frames of the free list. */
  ghost function FreeSet(vm: Vm): set<nat> { set f | f in vm.free }

  /** Every frame that is free or in use. */
  ghost function Pool(vm: Vm): set<nat> { FreeSet(vm) + vm.owner.Keys }

  /** PGROUNDUP(n) / PGSIZE */
  function PagesUp(n: nat): nat { (n + PGSIZE - 1) / PGSIZE }

  /** Which page tables directory d has. */
  ghost function Tables(mem: seq<Frame>, d: nat): set<nat> { set x: nat | x < NENTRIES && Pde(mem, d, x).present }

  /** The tables that cover pages lo <= v < hi. */
  ghost function Covering(lo: nat, hi: nat): set<nat>
    requires lo < hi
  {
    Interval(lo / NENTRIES, (hi - 1) / NENTRIES + 1)
  }

  /** The tables that the kernel's part of a space takes. */
  ghost function KernelTables(): set<nat> { Covering(USERPAGES, PHYSPAGES) + Covering(DEVPAGE, LASTPAGE) }

  /** The frames of an empty space: a directory and the kernel's tables. */
  const KERNELFRAMES := 13

  lemma KernelTableCount()
    ensures |KernelTables()| == KERNELFRAMES - 1
  {
    hide Interval;
    assert Covering(USERPAGES, PHYSPAGES) == Interval(0, 4);
    assert Covering(DEVPAGE, LASTPAGE) == Interval(1016, 1024);
    assert Interval(0, 4) * Interval(1016, 1024) == {};
  }

  lemma SmallerSet<T>(a: set<T>, b: set<T>)
    requires a <= b
    ensures |a| <= |b| && (a != b ==> |a| < |b|)
  {
    assert b == a + (b - a);
    if a != b {
      var x :| x in b - a;
      assert b - a == {x} + (b - a - {x});
    }
  }

  /** Frames went from the head of the free list to tables of d, and nowhere else. */
  ghost predicate Spends(vm: Vm, vm': Vm, d: nat) {
    && |vm'.free| <= |vm.free| && vm'.free == vm.free[|vm.free| - |vm'.free|..]
    && |vm'.free| + |Tables(vm'.mem, d)| == |vm.free| + |Tables(vm.mem, d)|
  }

  lemma TakeTableSpends(vm: Vm, d: nat, x: nat)
    requires vm.Inv() && IsSpace(vm, d) && vm.free != [] && x < NENTRIES && !Pde(vm.mem, d, x).present
    ensures vm.free[0] < |vm.mem| && d < |vm.mem| && d != vm.free[0] && vm.mem[d].Table?
    ensures Spends(vm, TakeTable(vm, d, x), d) && Tables(TakeTable(vm, d, x).mem, d) == Tables(vm.mem, d) + {x}
  {
    TakeTableWalk(vm, d, x);
    var vm' := TakeTable(vm, d, x);
    assert x !in Tables(vm.mem, d) && Tables(vm'.mem, d) == Tables(vm.mem, d) + {x} by {
      hide Pde, Walk;
    }
  }

  lemma SpendsTwice(vm: Vm, vm1: Vm, vm2: Vm, d: nat)
    requires Spends(vm, vm1, d) && Spends(vm1, vm2, d)
    ensures Spends(vm, vm2, d)
  {
  }

  /** No user page at or above from is mapped. */
  ghost predicate EmptyFrom(vm: Vm, d: nat, from: nat) {
    forall v: nat :: from <= v < USERPAGES ==> !Walk(vm.mem, d, v).present
  }

  lemma ReadyHasTable(vm: Vm, d: nat, dataPage: nat, v: nat)
    requires vm.Inv() && Ready(vm, d, dataPage) && v < NENTRIES
    ensures HasTable(vm, d, v)
  {
    TableOwned(vm, d, 0);
    assert v / NENTRIES == 0;
  }

  /** With the same pool and the same owners, the same frames are free. */
  lemma SameFree(vm: Vm, vm': Vm)
    requires vm.FreeOk() && vm'.FreeOk() && Pool(vm) == Pool(vm') && vm.owner.Keys == vm'.owner.Keys
    ensures FreeSet(vm) == FreeSet(vm')
  {
    forall f ensures f in FreeSet(vm) <==> f in FreeSet(vm') {
      assert f in FreeSet(vm) <==> f in Pool(vm) && f !in vm.owner.Keys;
      assert f in FreeSet(vm') <==> f in Pool(vm') && f !in vm'.owner.Keys;
    }
  }

  lemma TakenOk(vm: Vm, vm': Vm)
    requires vm.free != [] && vm' == vm.(free := vm.free[1..])
    ensures FreeSet(vm') + {vm.free[0]} == FreeSet(vm)
    ensures vm.FreeOk() ==> vm'.FreeOk() && vm.free[0] !in FreeSet(vm') && vm.free[0] !in vm.owner
  {
    assert vm.free == [vm.free[0]] + vm'.free;
    forall f ensures f in vm.free <==> f == vm.free[0] || f in vm'.free {
    }
    if vm.FreeOk() {
      forall i: nat, j: nat | i < j < |vm'.free| ensures vm'.free[i] != vm'.free[j] {
        assert vm'.free[i] == vm.free[i + 1] && vm'.free[j] == vm.free[j + 1];
      }
    }
  }

  lemma FreedOk(vm: Vm, vm': Vm, f: nat)
    requires f < |vm.mem| && vm' == Vm(vm.mem[f := Junk], [f] + vm.free, vm.owner - {f})
    ensures vm.FreeOk() && f in vm.owner ==> vm'.FreeOk() && Pool(vm') == Pool(vm)
  {
    if vm.FreeOk() && f in vm.owner {
      forall i: nat, j: nat | i < j < |vm'.free| ensures vm'.free[i] != vm'.free[j] {
        assert vm.free[j - 1] in vm.free;
      }
      forall g ensures g in Pool(vm') <==> g in Pool(vm) {
        assert g in vm'.free <==> g == f || g in vm.free;
      }
    }
  }

  // ---------- freevm ----------

  /** The owners outside space d, and the frames inside it. */
  ghost function Others(owner: map<nat, Owner>, d: nat): map<nat, Owner> {
    map f | f in owner && SpaceOf(owner[f]) != d :: owner[f]
  }

  ghost function SpaceFrames(owner: map<nat, Owner>, d: nat): set<nat> {
    set f | f in owner && SpaceOf(owner[f]) == d
  }

  /** freevm has freed the page tables of entries below k; vm is how it started,
      with no user pages. */
  ghost predicate Tearing(vm: Vm, vm': Vm, d: nat, k: nat) {
    && |vm'.mem| == |vm.mem| && d < |vm.mem| && vm'.mem[d] == vm.mem[d] && vm'.mem[d].Table?
    && vm'.FreeOk() && Pool(vm') == Pool(vm)
    && (forall f :: f in vm'.owner <==> f in vm.owner && !(vm.owner[f].PageTable? && vm.owner[f].d == d && vm.owner[f].x < k))
    && (forall f :: f in vm'.owner && f < |vm.mem| ==> vm'.owner[f] == vm.owner[f] && vm'.mem[f] == vm.mem[f])
  }

  lemma TearStart(vm: Vm, d: nat)
    requires vm.Inv() && IsSpace(vm, d)
    ensures Tearing(vm, vm, d, 0)
  {
    DirIsTable(vm, d);
  }

  lemma TearOne(vm: Vm, vm1: Vm, d: nat, k: nat)
    requires vm.Inv() && IsSpace(vm, d) && Tearing(vm, vm1, d, k) && k < NENTRIES && vm1.mem[d].e[k].present
    ensures var f := vm1.mem[d].e[k].frame;
            f < |vm.mem| &&
            Tearing(vm, Vm(vm1.mem[f := Junk], [f] + vm1.free, vm1.owner - {f}), d, k + 1)
  {
    assert Pde(vm.mem, d, k) == vm1.mem[d].e[k];
    TableOwned(vm, d, k);
    var f := vm1.mem[d].e[k].frame;
    forall g | g in vm.owner && vm.owner[g] == PageTable(d, k) ensures g == f {
      assert Referenced(vm.mem, vm.owner, g, vm.owner[g]);
    }
  }

  lemma TearSkip(vm: Vm, vm1: Vm, d: nat, k: nat)
    requires vm.Inv() && IsSpace(vm, d) && Tearing(vm, vm1, d, k) && k < NENTRIES && !vm1.mem[d].e[k].present
    ensures Tearing(vm, vm1, d, k + 1)
  {
    assert Pde(vm.mem, d, k) == vm1.mem[d].e[k];
    forall g | g in vm.owner ensures vm.owner[g] != PageTable(d, k) {
      assert Referenced(vm.mem, vm.owner, g, vm.owner[g]);
    }
  }

  ghost predicate NoUserPages(vm: Vm, d: nat) {
    forall f :: f in vm.owner ==> !(vm.owner[f].UserPage? && vm.owner[f].d == d)
  }

  lemma UserPagesGone(vm: Vm, vm1: Vm, d: nat, dataPage: nat)
    requires vm1.Inv() && Shrinks(vm, vm1, d, PagesUp(0), PagesUp(USERPAGES * PGSIZE), dataPage)
    ensures NoUserPages(vm1, d)
  {
    forall f | f in vm1.owner ensures !(vm1.owner[f].UserPage? && vm1.owner[f].d == d) {
      assert Referenced(vm1.mem, vm1.owner, f, vm1.owner[f]);
    }
  }

  lemma TornDown(vm: Vm, vm2: Vm, vm3: Vm, d: nat)
    requires vm.Inv() && IsSpace(vm, d) && NoUserPages(vm, d) && Tearing(vm, vm2, d, NENTRIES)
    requires vm3 == Vm(vm2.mem[d := Junk], [d] + vm2.free, vm2.owner - {d})
    ensures vm3.Inv() && SameElsewhere(vm, vm3, d) && Pool(vm3) == Pool(vm) && vm3.owner == Others(vm.owner, d)
  {
    DirIsTable(vm, d);
    forall f | f in vm.owner ensures f in vm3.owner <==> SpaceOf(vm.owner[f]) != d {
      assert Referenced(vm.mem, vm.owner, f, vm.owner[f]);
    }
    StepKeepsInv(vm, vm3, d);
  }

  lemma OthersSame(vm: Vm, vm1: Vm, vm3: Vm, d: nat)
    requires vm.Inv() && vm3.Inv() && SameElsewhere(vm, vm1, d) && 0 < d && Pool(vm3) == Pool(vm)
    requires vm3.owner == Others(vm1.owner, d)
    ensures vm3.owner == Others(vm.owner, d)
    ensures FreeSet(vm3) == FreeSet(vm) + SpaceFrames(vm.owner, d)
  {
    forall f ensures f in FreeSet(vm3) <==> f in FreeSet(vm) || f in SpaceFrames(vm.owner, d) {
      assert f in FreeSet(vm3) <==> f in Pool(vm3) && f !in vm3.owner;
      assert f in FreeSet(vm) <==> f in Pool(vm) && f !in vm.owner;
    }
  }

  // ---------- copyuvm ----------

  /** Space c is new, and its first n user pages hold the bytes that those of d
      held in vm; it has no other user pages. */
  ghost predicate Copies(vm: Vm, vm': Vm, d: nat, c: nat, n: nat, dataPage: nat) {
    && Ready(vm', c, dataPage) && SameElsewhere(vm, vm', c) && !IsSpace(vm, c)
    && (forall v: nat :: v < n && v < USERPAGES ==> UserData(vm'.mem, c, v) == UserData(vm.mem, d, v))
    && (forall v: nat :: v < n ==> Walk(vm'.mem, c, v) == Pte(true, true, true, Walk(vm'.mem, c, v).frame))
    && EmptyFrom(vm', c, n)
  }

  /** The space copied from is as it was. */
  lemma SourceKept(vm: Vm, vm1: Vm, d: nat, c: nat, i: nat, dataPage: nat)
    requires vm.Inv() && vm1.Inv() && Ready(vm, d, dataPage) && Copies(vm, vm1, d, c, i, dataPage) && i < USERPAGES
    ensures Ready(vm1, d, dataPage) && Walk(vm1.mem, d, i) == Walk(vm.mem, d, i)
    ensures UserData(vm1.mem, d, i) == UserData(vm.mem, d, i)
    ensures !Walk(vm1.mem, c, i).present
  {
    assert d != c;
    PdeElsewhere(vm, vm1, c, d, 0);
    DirIsTable(vm, d);
    forall v: nat ensures Walk(vm1.mem, d, v) == Walk(vm.mem, d, v) {
      WalkElsewhere(vm, vm1, c, d, v);
    }
    UserDataElsewhere(vm, vm1, c, d, i);
  }

  lemma CopyMore(vm: Vm, vm1: Vm, vm2: Vm, d: nat, c: nat, i: nat, data: Page, dataPage: nat)
    requires Copies(vm, vm1, d, c, i, dataPage) && Adds(vm1, vm2, c, i, data, dataPage)
    requires data == UserData(vm.mem, d, i) && i < USERPAGES
    ensures Copies(vm, vm2, d, c, i + 1, dataPage)
  {
    ElsewhereTwice(vm, vm1, vm2, c);
  }

  lemma CopyUndone(vm: Vm, vm1: Vm, vm2: Vm, d: nat, c: nat, i: nat, dataPage: nat)
    requires vm.Inv() && vm1.Inv() && vm2.Inv() && Copies(vm, vm1, d, c, i, dataPage) && SameElsewhere(vm1, vm2, c)
    requires vm2.owner == Others(vm1.owner, c) && Pool(vm2) == Pool(vm)
    ensures vm2.owner == vm.owner && FreeSet(vm2) == FreeSet(vm) && SameElsewhere(vm, vm2, c)
  {
    ElsewhereTwice(vm, vm1, vm2, c);
    DirIsTable(vm1, c);
    forall f | f in vm.owner ensures SpaceOf(vm.owner[f]) != c {
      assert Referenced(vm.mem, vm.owner, f, vm.owner[f]);
    }
    SameFree(vm, vm2);
  }

  // ---------- setupkvm ----------

  /** Kernel pages lo <= v < a of space d map to themselves, and the tables that
      cover them came from the free list where d did not have them. */
  ghost predicate Mapped(vm: Vm, vm': Vm, d: nat, lo: nat, a: nat, writable: bool) {
    && IsSpace(vm', d) && SameElsewhere(vm, vm', d) && Pool(vm') == Pool(vm) && Spends(vm, vm', d)
    && Tables(vm'.mem, d) == Tables(vm.mem, d) + (if lo < a then Covering(lo, a) else {})
    && (forall v: nat :: Walk(vm'.mem, d, v) == if lo <= v < a then Pte(true, writable, false, v) else Walk(vm.mem, d, v))
  }

  lemma MappedNone(vm: Vm, d: nat, lo: nat, writable: bool)
    requires IsSpace(vm, d)
    ensures Mapped(vm, vm, d, lo, lo, writable)
  {
    ElsewhereSelf(vm, d);
  }

  lemma SameTables(mem: seq<Frame>, mem': seq<Frame>, d: nat)
    requires forall x: nat :: Pde(mem', d, x) == Pde(mem, d, x)
    ensures Tables(mem', d) == Tables(mem, d)
  {
    hide Pde;
  }

  lemma SetEntryFrames(vm: Vm, d: nat, vpn: nat, pte: Pte)
    requires HasTable(vm, d, vpn)
    ensures var vm' := SetEntry(vm, d, vpn, pte);
            IsSpace(vm', d) && Pool(vm') == Pool(vm) && vm'.free == vm.free && |vm'.mem| == |vm.mem|
  {
  }

  lemma SpendsSame(vm: Vm, vm1: Vm, vm2: Vm, d: nat)
    requires Spends(vm, vm1, d) && vm2.free == vm1.free && Tables(vm2.mem, d) == Tables(vm1.mem, d)
    ensures Spends(vm, vm2, d)
  {
    hide Tables;
  }

  lemma MappedBy(vm: Vm, vm': Vm, d: nat, vpn: nat, writable: bool)
    requires IsSpace(vm', d) && SameElsewhere(vm, vm', d) && Pool(vm') == Pool(vm) && Spends(vm, vm', d)
    requires Tables(vm'.mem, d) == Tables(vm.mem, d) + Covering(vpn, vpn + 1)
    requires forall v: nat :: Walk(vm'.mem, d, v) == if v == vpn then Pte(true, writable, false, vpn) else Walk(vm.mem, d, v)
    ensures Mapped(vm, vm', d, vpn, vpn + 1, writable)
  {
    hide SameElsewhere, Pool, Spends, Tables, Covering, Walk;
  }

  /** The entry of one page, once there is a table for it. */
  lemma MappedOne(vm: Vm, vm1: Vm, d: nat, vpn: nat, writable: bool)
    requires vm1.Inv() && HasTable(vm1, d, vpn) && USERPAGES <= vpn && SameElsewhere(vm, vm1, d) && Pool(vm1) == Pool(vm)
    requires (forall v: nat :: Walk(vm1.mem, d, v) == Walk(vm.mem, d, v)) && Spends(vm, vm1, d)
    requires Tables(vm1.mem, d) == Tables(vm.mem, d) + {vpn / NENTRIES}
    ensures Mapped(vm, SetEntry(vm1, d, vpn, Pte(true, writable, false, vpn)), d, vpn, vpn + 1, writable)
  {
    var pte := Pte(true, writable, false, vpn);
    var vm2 := SetEntry(vm1, d, vpn, pte);
    hide *;
    SetEntryOk(vm1, d, vpn, pte);
    SetEntryWalk(vm1, d, vpn, pte);
    SetEntryFrames(vm1, d, vpn, pte);
    ElsewhereTwice(vm, vm1, vm2, d);
    SameTables(vm1.mem, vm2.mem, d);
    SpendsSame(vm, vm1, vm2, d);
    CoveringOne(vpn);
    MappedBy(vm, vm2, d, vpn, writable);
  }

  lemma CoveringOne(v: nat)
    ensures Covering(v, v + 1) == {v / NENTRIES}
  {
    hide Interval;
    var x := v / NENTRIES;
    assert Interval(x, x + 1) == {x};
  }

  lemma CoveringMore(lo: nat, a: nat)
    requires lo <= a
    ensures Covering(lo, a + 1) == (if lo < a then Covering(lo, a) else {}) + Covering(a, a + 1)
  {
    hide Interval;
  }

  lemma MappedMore(vm: Vm, vm1: Vm, vm2: Vm, d: nat, lo: nat, a: nat, writable: bool)
    requires Mapped(vm, vm1, d, lo, a, writable) && Mapped(vm1, vm2, d, a, a + 1, writable) && lo <= a
    ensures Mapped(vm, vm2, d, lo, a + 1, writable)
  {
    hide Walk;
    hide Pool;
    hide Tables;
    hide Covering;
    ElsewhereTwice(vm, vm1, vm2, d);
    SpendsTwice(vm, vm1, vm2, d);
    CoveringMore(lo, a);
  }

  lemma MapStops(vm: Vm, vm': Vm, d: nat, lo: nat, a: nat, hi: nat, writable: bool)
    requires Mapped(vm, vm', d, lo, a, writable) && lo <= a < hi && vm'.free == [] && a / NENTRIES !in Tables(vm'.mem, d)
    ensures |Covering(lo, hi) - Tables(vm.mem, d)| > |vm.free|
  {
    hide Interval;
    hide Tables;
    var t, t', c := Tables(vm.mem, d), Tables(vm'.mem, d), Covering(lo, hi);
    assert t' - t < c - t by {
      assert a / NENTRIES in c - t;
    }
    SmallerSet(t' - t, c - t);
    assert t' == t + (t' - t);
  }

  lemma MapEnds(vm: Vm, vm': Vm, d: nat, lo: nat, hi: nat, writable: bool)
    requires Mapped(vm, vm', d, lo, hi, writable) && lo < hi
    ensures |Covering(lo, hi) - Tables(vm.mem, d)| <= |vm.free|
  {
    var t, t', c := Tables(vm.mem, d), Tables(vm'.mem, d), Covering(lo, hi);
    assert t' == t + (c - t);
  }

  /** Space d, empty in vm, has some of the kernel's tables. */
  ghost predicate Building(vm: Vm, vm': Vm, d: nat) {
    && IsSpace(vm', d) && SameElsewhere(vm, vm', d) && Pool(vm') == Pool(vm) && Spends(vm, vm', d)
    && Tables(vm.mem, d) == {} && Tables(vm'.mem, d) <= KernelTables()
  }

  lemma BuildStart(vm: Vm, d: nat)
    requires IsSpace(vm, d) && forall x: nat :: Pde(vm.mem, d, x) == ZeroPte
    ensures Building(vm, vm, d)
  {
    ElsewhereSelf(vm, d);
  }

  /** No page at or above lo is mapped. */
  ghost predicate EmptyAbove(vm: Vm, d: nat, lo: nat) {
    forall v: nat :: lo <= v ==> !Walk(vm.mem, d, v).present
  }

  /** A range of kmap is mapped as far as page to. */
  lemma BuildOn(vm: Vm, vm1: Vm, vm2: Vm, d: nat, lo: nat, to: nat, hi: nat, writable: bool)
    requires Building(vm, vm1, d) && Mapped(vm1, vm2, d, lo, to, writable) && lo <= to <= hi && EmptyAbove(vm1, d, lo)
    requires USERPAGES <= lo < hi <= PHYSPAGES || DEVPAGE <= lo < hi <= LASTPAGE
    ensures Building(vm, vm2, d) && IsSpace(vm2, d) && EmptyAbove(vm2, d, to)
    ensures to < hi && vm2.free == [] && to / NENTRIES !in Tables(vm2.mem, d) ==> |vm.free| < KERNELFRAMES - 1
  {
    hide Walk;
    hide Pool;
    hide Tables;
    hide Interval;
    ElsewhereTwice(vm, vm1, vm2, d);
    SpendsTwice(vm, vm1, vm2, d);
    var t := Tables(vm2.mem, d);
    assert t <= KernelTables();
    if to < hi && vm2.free == [] && to / NENTRIES !in t {
      assert to / NENTRIES in KernelTables();
      SmallerSet(t, KernelTables());
      KernelTableCount();
    }
  }

  /** The four ranges of kmap are mapped one after the other. */
  ghost predicate Ranges(vm: Vm, vm1: Vm, vm2: Vm, vm3: Vm, vm4: Vm, d: nat, dataPage: nat) {
    && Mapped(vm, vm1, d, USERPAGES, IOEND, true) && Mapped(vm1, vm2, d, IOEND, dataPage, false)
    && Mapped(vm2, vm3, d, dataPage, PHYSPAGES, true) && Mapped(vm3, vm4, d, DEVPAGE, LASTPAGE, true)
  }

  lemma RangesReady(vm: Vm, vm1: Vm, vm2: Vm, vm3: Vm, vm4: Vm, d: nat, dataPage: nat)
    requires IOEND < dataPage < PHYSPAGES && (forall v: nat :: Walk(vm.mem, d, v) == ZeroPte)
    requires Ranges(vm, vm1, vm2, vm3, vm4, d, dataPage) && Building(vm, vm4, d)
    ensures Ready(vm4, d, dataPage) && EmptyFrom(vm4, d, 0)
    ensures |vm4.free| == |vm.free| - (KERNELFRAMES - 1)
  {
    hide *;
    RangesTables(vm, vm1, vm2, vm3, vm4, d, dataPage);
    KernelTableCount();
    BuildSpends(vm, vm4, d);
    RangesWalk(vm, vm1, vm2, vm3, vm4, d, dataPage);
  }

  lemma RangesWalk(vm: Vm, vm1: Vm, vm2: Vm, vm3: Vm, vm4: Vm, d: nat, dataPage: nat)
    requires IOEND < dataPage < PHYSPAGES && (forall v: nat :: Walk(vm.mem, d, v) == ZeroPte)
    requires Ranges(vm, vm1, vm2, vm3, vm4, d, dataPage) && Tables(vm4.mem, d) == KernelTables()
    ensures Ready(vm4, d, dataPage) && EmptyFrom(vm4, d, 0)
  {
    hide Walk;
    hide Ready;
    hide EmptyFrom;
    forall v: nat ensures Walk(vm4.mem, d, v) == if v < LASTPAGE then KernelPte(v, dataPage) else ZeroPte {
      RangeAt(vm, vm1, vm2, vm3, vm4, d, dataPage, v);
    }
    hide Interval;
    assert 0 in KernelTables();
    assert 0 in Tables(vm4.mem, d);
    hide Tables;
    KernelReady(vm4, d, dataPage);
  }

  lemma KernelReady(vm: Vm, d: nat, dataPage: nat)
    requires IsSpace(vm, d) && Pde(vm.mem, d, 0).present
    requires forall v: nat :: Walk(vm.mem, d, v) == if v < LASTPAGE then KernelPte(v, dataPage) else ZeroPte
    ensures Ready(vm, d, dataPage) && EmptyFrom(vm, d, 0)
  {
    hide Walk;
    hide Pde;
  }

  lemma RangeAt(vm: Vm, vm1: Vm, vm2: Vm, vm3: Vm, vm4: Vm, d: nat, dataPage: nat, v: nat)
    requires IOEND < dataPage < PHYSPAGES && Walk(vm.mem, d, v) == ZeroPte && Ranges(vm, vm1, vm2, vm3, vm4, d, dataPage)
    ensures Walk(vm4.mem, d, v) == if v < LASTPAGE then KernelPte(v, dataPage) else ZeroPte
  {
    hide Walk;
    hide Tables;
    hide Spends;
    hide SameElsewhere;
    hide Pool;
    hide Covering;
  }

  lemma BuildSpends(vm: Vm, vm': Vm, d: nat)
    requires Building(vm, vm', d)
    ensures |vm'.free| + |Tables(vm'.mem, d)| == |vm.free|
  {
  }

  lemma RangesTables(vm: Vm, vm1: Vm, vm2: Vm, vm3: Vm, vm4: Vm, d: nat, dataPage: nat)
    requires IOEND < dataPage < PHYSPAGES && Ranges(vm, vm1, vm2, vm3, vm4, d, dataPage) && Building(vm, vm4, d)
    ensures Tables(vm4.mem, d) == KernelTables()
  {
    hide Walk;
    hide Pool;
    hide Spends;
    hide SameElsewhere;
    hide Interval;
    hide Tables;
    assert Covering(USERPAGES, IOEND) + Covering(IOEND, dataPage) + Covering(dataPage, PHYSPAGES) == Covering(USERPAGES, PHYSPAGES);
  }

  /** No frame is free any more, and what was free belongs to space d. */
  ghost predicate Leaked(vm: Vm, vm': Vm, d: nat) {
    vm'.free == [] && forall f :: f in vm.free ==> f in vm'.owner && SpaceOf(vm'.owner[f]) == d
  }

  lemma LeaksAll(vm: Vm, vm': Vm, d: nat)
    requires vm.Inv() && vm'.Inv() && SameElsewhere(vm, vm', d) && Pool(vm') == Pool(vm) && vm'.free == []
    ensures Leaked(vm, vm', d)
  {
    forall f | f in vm.free ensures f in vm'.owner && SpaceOf(vm'.owner[f]) == d {
      assert f in Pool(vm');
    }
  }

  lemma LeakedSome(vm: Vm, vm': Vm, d: nat)
    requires Leaked(vm, vm', d)
    ensures FreeSet(vm') == FreeSet(vm) <==> |vm.free| == 0
  {
    if |vm.free| > 0 {
      assert vm.free[0] in FreeSet(vm) && vm.free[0] !in FreeSet(vm');
    }
  }

  /** User pages from <= v < to of space d are gone, the others are as before. */
  ghost predicate Shrinks(vm: Vm, vm': Vm, d: nat, from: nat, to: nat, dataPage: nat) {
    && Ready(vm', d, dataPage) && SameElsewhere(vm, vm', d) && Pool(vm') == Pool(vm)
    && (forall x: nat :: Pde(vm'.mem, d, x) == Pde(vm.mem, d, x))
    && (forall v: nat :: Walk(vm'.mem, d, v) ==
                         if from <= v < to && Walk(vm.mem, d, v).present then ZeroPte else Walk(vm.mem, d, v))
    && (forall v: nat :: v < USERPAGES && !(from <= v < to) ==> UserData(vm'.mem, d, v) == UserData(vm.mem, d, v))
  }

  lemma ShrinkNone(vm: Vm, d: nat, from: nat, dataPage: nat)
    requires Ready(vm, d, dataPage)
    ensures Shrinks(vm, vm, d, from, from, dataPage)
  {
  }

  lemma ShrinkMore(vm: Vm, vm1: Vm, vm2: Vm, d: nat, from: nat, a: nat, dataPage: nat)
    requires Shrinks(vm, vm1, d, from, a, dataPage) && Drops(vm1, vm2, d, a, dataPage) && from <= a
    ensures Shrinks(vm, vm2, d, from, a + 1, dataPage)
  {
    ElsewhereTwice(vm, vm1, vm2, d);
    hide SameElsewhere;
    hide Walk;
    hide Pde;
    hide UserData;
    hide Pool;
  }

  /** User pages from <= v < to of space d are new, zeroed, writable, and in
      distinct frames from the free list; everything else is as before. */
  ghost predicate Grows(vm: Vm, vm': Vm, d: nat, from: nat, to: nat, dataPage: nat) {
    && Ready(vm', d, dataPage) && SameElsewhere(vm, vm', d) && Pool(vm') == Pool(vm)
    && from <= to && to - from <= |vm.free| && vm'.free == vm.free[to - from..]
    && (forall x: nat :: Pde(vm'.mem, d, x) == Pde(vm.mem, d, x))
    && (forall v: nat :: Walk(vm'.mem, d, v) ==
                         if from <= v < to then Pte(true, true, true, vm.free[v - from]) else Walk(vm.mem, d, v))
    && (forall v: nat :: v < USERPAGES ==>
          UserData(vm'.mem, d, v) == if from <= v < to then ZeroPage() else UserData(vm.mem, d, v))
  }

  lemma GrowNone(vm: Vm, d: nat, from: nat, dataPage: nat)
    requires Ready(vm, d, dataPage)
    ensures Grows(vm, vm, d, from, from, dataPage)
  {
  }

  lemma PageBelow(a: nat, oldsz: nat, newsz: nat)
    requires oldsz <= newsz <= USERPAGES * PGSIZE
    ensures a * PGSIZE < newsz <==> a < PagesUp(newsz)
    ensures PagesUp(oldsz) <= PagesUp(newsz) <= USERPAGES
  {
  }

  lemma GrowEmpty(vm: Vm, vm1: Vm, d: nat, from: nat, a: nat, dataPage: nat)
    requires Grows(vm, vm1, d, from, a, dataPage) && EmptyFrom(vm, d, from) && a < USERPAGES
    ensures !Walk(vm1.mem, d, a).present && Ready(vm1, d, dataPage)
    ensures a - from <= |vm.free| && vm1.free == vm.free[a - from..]
  {
  }

  lemma GrowMore(vm: Vm, vm1: Vm, vm2: Vm, d: nat, from: nat, a: nat, dataPage: nat)
    requires Grows(vm, vm1, d, from, a, dataPage) && Adds(vm1, vm2, d, a, ZeroPage(), dataPage) && from <= a
    ensures Grows(vm, vm2, d, from, a + 1, dataPage)
  {
    ElsewhereTwice(vm, vm1, vm2, d);
    hide SameElsewhere;
    hide Walk;
    hide Pde;
    hide UserData;
    hide Pool;
  }

  /** The address spaces and the set of free frames are those of vm. */
  ghost predicate Restored(vm: Vm, vm': Vm, d: nat, dataPage: nat) {
    && Ready(vm', d, dataPage) && SameElsewhere(vm, vm', d)
    && vm'.owner == vm.owner && FreeSet(vm') == FreeSet(vm)
    && (forall v: nat :: Walk(vm'.mem, d, v) == Walk(vm.mem, d, v))
    && (forall v: nat :: v < USERPAGES ==> UserData(vm'.mem, d, v) == UserData(vm.mem, d, v))
  }

  /** The tables of a space determine what it owns. */
  lemma SameTablesSameOwners(vm: Vm, vm': Vm, d: nat)
    requires vm.Inv() && vm'.Inv() && SameElsewhere(vm, vm', d) && IsSpace(vm, d) && IsSpace(vm', d)
    requires forall x: nat :: Pde(vm'.mem, d, x) == Pde(vm.mem, d, x)
    requires forall v: nat :: Walk(vm'.mem, d, v) == Walk(vm.mem, d, v)
    ensures vm'.owner == vm.owner
  {
    SameOwnersOneWay(vm, vm', d);
    SameOwnersOneWay(vm', vm, d);
  }

  lemma SameOwnersOneWay(vm: Vm, vm': Vm, d: nat)
    requires vm.Inv() && vm'.Inv() && IsSpace(vm, d) && IsSpace(vm', d)
    requires forall f :: f in vm.owner && SpaceOf(vm.owner[f]) != d && f < |vm.mem| ==> f in vm'.owner && vm'.owner[f] == vm.owner[f]
    requires forall x: nat :: Pde(vm'.mem, d, x) == Pde(vm.mem, d, x)
    requires forall v: nat :: Walk(vm'.mem, d, v) == Walk(vm.mem, d, v)
    ensures forall f :: f in vm.owner ==> f in vm'.owner && vm'.owner[f] == vm.owner[f]
  {
    assert SpaceOk(vm'.mem, vm'.owner, d);
    forall f | f in vm.owner ensures f in vm'.owner && vm'.owner[f] == vm.owner[f] {
      assert Referenced(vm.mem, vm.owner, f, vm.owner[f]);
      var o := vm.owner[f];
      if SpaceOf(o) == d && o.PageTable? {
        assert Pde(vm'.mem, d, o.x).present;
      } else if SpaceOf(o) == d && o.UserPage? {
        assert Walk(vm'.mem, d, o.vpn).present;
      }
    }
  }

  lemma GrowUndone(vm: Vm, vm1: Vm, vm2: Vm, d: nat, from: nat, a: nat, to: nat, dataPage: nat)
    requires vm.Inv() && vm2.Inv() && Ready(vm, d, dataPage) && EmptyFrom(vm, d, from)
    requires Grows(vm, vm1, d, from, a, dataPage) && a <= to <= USERPAGES
    requires if from < to then Shrinks(vm1, vm2, d, from, to, dataPage) else vm2 == vm1
    ensures Restored(vm, vm2, d, dataPage)
  {
    hide *;
    forall v: nat
      ensures Walk(vm2.mem, d, v) == Walk(vm.mem, d, v)
      ensures v < USERPAGES ==> UserData(vm2.mem, d, v) == UserData(vm.mem, d, v)
    {
      UndoneAt(vm, vm1, vm2, d, from, a, to, dataPage, v);
    }
    UndoneSpace(vm, vm1, vm2, d, from, a, to, dataPage);
    SameTablesSameOwners(vm, vm2, d);
    InvFreeOk(vm);
    InvFreeOk(vm2);
    SameFree(vm, vm2);
    RestoredBy(vm, vm2, d, dataPage);
  }

  lemma RestoredBy(vm: Vm, vm': Vm, d: nat, dataPage: nat)
    requires Ready(vm', d, dataPage) && SameElsewhere(vm, vm', d) && vm'.owner == vm.owner && FreeSet(vm') == FreeSet(vm)
    requires forall v: nat :: Walk(vm'.mem, d, v) == Walk(vm.mem, d, v)
    requires forall v: nat :: v < USERPAGES ==> UserData(vm'.mem, d, v) == UserData(vm.mem, d, v)
    ensures Restored(vm, vm', d, dataPage)
  {
  }

  lemma UndoneSpace(vm: Vm, vm1: Vm, vm2: Vm, d: nat, from: nat, a: nat, to: nat, dataPage: nat)
    requires Ready(vm, d, dataPage) && Grows(vm, vm1, d, from, a, dataPage)
    requires if from < to then Shrinks(vm1, vm2, d, from, to, dataPage) else vm2 == vm1
    ensures Ready(vm2, d, dataPage) && SameElsewhere(vm, vm2, d) && Pool(vm2) == Pool(vm)
    ensures IsSpace(vm, d) && IsSpace(vm2, d)
    ensures forall x: nat :: Pde(vm2.mem, d, x) == Pde(vm.mem, d, x)
  {
    ElsewhereTwice(vm, vm1, vm2, d);
    hide SameElsewhere;
    hide Pool;
    hide Pde;
    hide Walk;
    hide UserData;
  }

  lemma UndoneAt(vm: Vm, vm1: Vm, vm2: Vm, d: nat, from: nat, a: nat, to: nat, dataPage: nat, v: nat)
    requires Ready(vm, d, dataPage) && EmptyFrom(vm, d, from)
    requires Grows(vm, vm1, d, from, a, dataPage) && a <= to <= USERPAGES
    requires if from < to then Shrinks(vm1, vm2, d, from, to, dataPage) else vm2 == vm1
    ensures Walk(vm2.mem, d, v) == Walk(vm.mem, d, v)
    ensures v < USERPAGES ==> UserData(vm2.mem, d, v) == UserData(vm.mem, d, v)
  {
    hide SameElsewhere;
    hide Pde;
    hide Walk;
    hide Pool;
    if from <= v < to {
      assert !Walk(vm.mem, d, v).present;
    }
  }

  lemma InvFreeOk(vm: Vm)
    requires vm.Inv()
    ensures vm.FreeOk()
  {
  }

  /** A user page of space d is added. */
  ghost predicate Adds(vm: Vm, vm': Vm, d: nat, vpn: nat, data: Page, dataPage: nat) {
    && Ready(vm', d, dataPage) && SameElsewhere(vm, vm', d) && Pool(vm') == Pool(vm)
    && vm.free != [] && vm'.free == vm.free[1..]
    && (forall x: nat :: Pde(vm'.mem, d, x) == Pde(vm.mem, d, x))
    && (forall v: nat :: Walk(vm'.mem, d, v) == if v == vpn then Pte(true, true, true, vm.free[0]) else Walk(vm.mem, d, v))
    && (forall v: nat :: v < USERPAGES ==> UserData(vm'.mem, d, v) == if v == vpn then data else UserData(vm.mem, d, v))
  }

  lemma AddsPage(vm: Vm, d: nat, vpn: nat, data: Page, dataPage: nat)
    requires vm.Inv() && Ready(vm, d, dataPage) && vm.free != [] && vpn < USERPAGES && !Walk(vm.mem, d, vpn).present
    requires HasTable(vm, d, vpn)
    ensures vm.free[0] < |vm.mem| && TableOf(vm.mem, d, vpn) != vm.free[0]
    ensures Adds(vm, TakeUser(vm, d, vpn, data), d, vpn, data, dataPage)
  {
    TakeUserOk(vm, d, vpn, data);
    TakeUserWalk(vm, d, vpn, data);
    var vm' := TakeUser(vm, d, vpn, data);
    PoolTake(vm, vm', UserPage(d, vpn));
    FirstFree(vm);
    forall v: nat | v < USERPAGES ensures UserData(vm'.mem, d, v) == if v == vpn then data else UserData(vm.mem, d, v) {
      TakeUserData(vm, d, vpn, data, v);
    }
  }

  /** A user page of space d is dropped, if it is there. */
  ghost predicate Drops(vm: Vm, vm': Vm, d: nat, vpn: nat, dataPage: nat) {
    && Ready(vm', d, dataPage) && SameElsewhere(vm, vm', d) && Pool(vm') == Pool(vm)
    && (forall x: nat :: Pde(vm'.mem, d, x) == Pde(vm.mem, d, x))
    && (forall v: nat :: Walk(vm'.mem, d, v) ==
                         if v == vpn && Walk(vm.mem, d, v).present then ZeroPte else Walk(vm.mem, d, v))
    && (forall v: nat :: v < USERPAGES && v != vpn ==> UserData(vm'.mem, d, v) == UserData(vm.mem, d, v))
  }

  lemma DropsPage(vm: Vm, d: nat, vpn: nat, dataPage: nat)
    requires vm.Inv() && Ready(vm, d, dataPage) && vpn < USERPAGES && Walk(vm.mem, d, vpn).present
    ensures HasTable(vm, d, vpn) && Walk(vm.mem, d, vpn).frame < |vm.mem|
    ensures Walk(vm.mem, d, vpn).frame != TableOf(vm.mem, d, vpn)
    ensures Drops(vm, DropUser(vm, d, vpn), d, vpn, dataPage)
  {
    DropUserOk(vm, d, vpn);
    DropUserWalk(vm, d, vpn);
    PageOwned(vm, d, vpn);
    var vm' := DropUser(vm, d, vpn);
    forall v: nat | v < USERPAGES && v != vpn ensures UserData(vm'.mem, d, v) == UserData(vm.mem, d, v) {
      DropUserData(vm, d, vpn, v);
    }
    var f := Walk(vm.mem, d, vpn).frame;
    forall g ensures g in Pool(vm') <==> g in Pool(vm) {
    }
  }

  lemma ElsewhereTwice(vm: Vm, vm1: Vm, vm2: Vm, d: nat)
    requires SameElsewhere(vm, vm1, d) && SameElsewhere(vm1, vm2, d)
    ensures SameElsewhere(vm, vm2, d)
  {
  }

  lemma ElsewhereSelf(vm: Vm, d: nat)
    ensures SameElsewhere(vm, vm, d)
  {
  }

  lemma PoolTake(vm: Vm, vm': Vm, o: Owner)
    requires vm.free != [] && vm'.free == vm.free[1..] && vm'.owner == vm.owner[vm.free[0] := o]
    ensures Pool(vm') == Pool(vm)
  {
    assert vm.free == [vm.free[0]] + vm'.free;
  }

  class Memory {
    const dataPage: nat // data / PGSIZE
    var mem: seq<Frame>
    var freelist: seq<nat>
    ghost var owner: map<nat, Owner>

    ghost function V(): Vm
      reads this
    {
      Vm(mem, freelist, owner)
    }

    ghost predicate Valid()
      reads this
    {
      V().Inv() && IOEND < dataPage < PHYSPAGES
    }

    /** kinit: every page from the end of the kernel to the end of memory goes to the
        free list once. */
    constructor (dataPage: nat, endPage: nat, mem: seq<Frame>)
      requires IOEND < dataPage <= endPage < PHYSPAGES == |mem|
      ensures Valid() && this.dataPage == dataPage && owner == map[]
      ensures |freelist| == PHYSPAGES - endPage && forall f: nat :: f in FreeSet(V()) <==> endPage <= f < PHYSPAGES
    {
      this.dataPage := dataPage;
      var m := mem;
      var fl: seq<nat> := [];
      for p := endPage to PHYSPAGES
        invariant |m| == PHYSPAGES && NoDup(fl) && |fl| == p - endPage
        invariant forall f: nat :: f in fl <==> endPage <= f < p
      {
        ghost var longer: seq<nat> := [p] + fl;
        forall i: nat, j: nat | i < j < |longer| ensures longer[i] != longer[j] {
          assert fl[j - 1] in fl;
        }
        m := m[p := Junk];
        fl := [p] + fl;
      }
      this.mem := m;
      freelist := fl;
      owner := map[];
    }

    /** kalloc: the page it gives is in no use and on the free list no longer, and
        the rest of the list is as it was. */
    method Kalloc() returns (r: Option<nat>)
      modifies this`freelist
      ensures r.None? <==> old(freelist) == []
      ensures r.None? ==> freelist == []
      ensures r.Some? ==> r.value == old(freelist)[0] && freelist == old(freelist)[1..]
      ensures old(V()).FreeOk() ==> V().FreeOk()
      ensures old(V()).FreeOk() && r.Some? ==>
                r.value !in FreeSet(V()) && r.value !in owner && FreeSet(V()) + {r.value} == old(FreeSet(V()))
    {
      if freelist == [] {
        return None;
      }
      r := Some(freelist[0]);
      ghost var vm := V();
      freelist := freelist[1..];
      TakenOk(vm, V());
    }

    /** kfree: a page in use becomes a free one, and no page is free twice. */
    method Kfree(f: nat)
      requires f < |mem|
      modifies this
      ensures freelist == [f] + old(freelist) && mem == old(mem)[f := Junk] && owner == old(owner) - {f}
      ensures old(V()).FreeOk() && f in old(owner) ==> V().FreeOk() && Pool(V()) == old(Pool(V()))
    {
      ghost var vm := V();
      mem := mem[f := Junk];
      freelist := [f] + freelist;
      owner := owner - {f};
      FreedOk(vm, V(), f);
    }

    /** walkpgdir with create: there is a page table for vpn afterwards, unless no
        page was free for it. */
    method WalkCreate(d: nat, vpn: nat) returns (ok: bool)
      requires Valid() && IsSpace(V(), d) && vpn < LASTPAGE
      modifies this
      ensures Valid() && IsSpace(V(), d) && SameElsewhere(old(V()), V(), d) && Pool(V()) == old(Pool(V()))
      ensures forall v: nat :: Walk(mem, d, v) == old(Walk(mem, d, v))
      ensures forall x: nat :: old(Pde(mem, d, x)).present ==> Pde(mem, d, x) == old(Pde(mem, d, x))
      ensures ok ==> HasTable(V(), d, vpn)
      ensures !ok ==> V() == old(V()) && freelist == [] && !Pde(mem, d, vpn / NENTRIES).present
      ensures old(Pde(mem, d, vpn / NENTRIES)).present ==> ok && V() == old(V())
      ensures Spends(old(V()), V(), d)
      ensures Tables(mem, d) == old(Tables(mem, d)) + (if ok then {vpn / NENTRIES} else {})
    {
      var x := vpn / NENTRIES;
      DirIsTable(V(), d);
      if mem[d].e[x].present {
        TableOwned(V(), d, x);
        assert x in Tables(mem, d);
        return true;
      }
      ghost var vm := V();
      var f := Kalloc();
      if f.None? {
        return false;
      }
      TakeTableOk(vm, d, x);
      TakeTableWalk(vm, d, x);
      TakeTableSpends(vm, d, x);
      mem := mem[f.value := Table(ZeroTable())];
      mem := mem[d := Table(mem[d].e[x := Pte(true, true, true, f.value)])];
      owner := owner[f.value := PageTable(d, x)];
      assert V() == TakeTable(vm, d, x);
      PoolTake(vm, V(), PageTable(d, x));
      TableOwned(V(), d, x);
      ok := true;
    }

    /** The body of the loop of mappages, for a kernel page. */
    method MapOne(d: nat, vpn: nat, writable: bool) returns (ok: bool)
      requires Valid() && IsSpace(V(), d) && USERPAGES <= vpn < LASTPAGE && !Walk(mem, d, vpn).present
      modifies this
      ensures Valid() && (ok ==> Mapped(old(V()), V(), d, vpn, vpn + 1, writable))
      ensures !ok ==> V() == old(V()) && freelist == [] && vpn / NENTRIES !in Tables(mem, d)
    {
      ghost var vm := V();
      ok := WalkCreate(d, vpn);
      if ok {
        ghost var vm1 := V();
        assert !Walk(mem, d, vpn).present; // "remap" is not reached
        var pte := Pte(true, writable, false, vpn);
        DirIsTable(vm1, d);
        TableOwned(vm1, d, vpn / NENTRIES);
        SetEntryOk(vm1, d, vpn, pte);
        MappedOne(vm, vm1, d, vpn, writable);
        hide Walk, Vm.Inv, Mapped, SameElsewhere, Spends, Tables, Pool;
        var t := mem[d].e[vpn / NENTRIES].frame;
        mem := mem[t := Table(mem[t].e[vpn % NENTRIES := pte])];
        assert V() == SetEntry(vm1, d, vpn, pte);
      }
    }

    /** mappages for kernel memory: frame v at page v, for lo <= v < hi.  It gets
        as far as page to, and it fails exactly when the free list does not have
        the tables that are missing. */
    method MapKernel(d: nat, lo: nat, hi: nat, writable: bool) returns (ok: bool, ghost to: nat)
      requires Valid() && IsSpace(V(), d) && USERPAGES <= lo < hi <= LASTPAGE
      requires forall v: nat :: lo <= v < hi ==> !Walk(mem, d, v).present
      modifies this
      ensures Valid() && lo <= to <= hi && Mapped(old(V()), V(), d, lo, to, writable)
      ensures ok <==> to == hi
      ensures !ok ==> freelist == [] && to / NENTRIES !in Tables(mem, d)
      ensures ok <==> |Covering(lo, hi) - old(Tables(mem, d))| <= |old(freelist)|
    {
      hide Vm.Inv;
      hide Walk;
      hide Pde;
      hide Pool;
      hide Tables;
      hide Covering;
      hide SameElsewhere;
      ghost var vm := V();
      var a := lo;
      MappedNone(vm, d, lo, writable);
      while true
        invariant lo <= a < hi && Valid() && Mapped(vm, V(), d, lo, a, writable)
        decreases hi - a
      {
        ghost var vm1 := V();
        ok := MapOne(d, a, writable);
        if !ok {
          MapStops(vm, V(), d, lo, a, hi, writable);
          return false, a;
        }
        MappedMore(vm, vm1, V(), d, lo, a, writable);
        if a == hi - 1 {
          MapEnds(vm, V(), d, lo, hi, writable);
          return true, hi;
        }
        a := a + 1;
      }
    }

    /** The loop of setupkvm over kmap, on an empty directory. */
    method MapRanges(d: nat) returns (ok: bool)
      requires Valid() && IsSpace(V(), d) && forall x: nat :: Pde(mem, d, x) == ZeroPte
      modifies this
      ensures Valid() && Building(old(V()), V(), d)
      ensures ok <==> |old(freelist)| >= KERNELFRAMES - 1
      ensures ok ==> Ready(V(), d, dataPage) && EmptyFrom(V(), d, 0) && |freelist| == |old(freelist)| - (KERNELFRAMES - 1)
      ensures !ok ==> freelist == []
    {
      ghost var vm := V();
      assert forall v: nat :: Walk(mem, d, v) == ZeroPte;
      BuildStart(vm, d);
      hide Building;
      hide Mapped;
      hide Vm.Inv;
      hide Walk;
      hide Pde;
      hide Pool;
      hide SameElsewhere;
      hide Spends;
      hide Tables;
      hide Covering;
      hide Ready;
      hide EmptyFrom;
      ghost var to;
      ok, to := MapKernel(d, USERPAGES, IOEND, true);
      BuildOn(vm, vm, V(), d, USERPAGES, to, IOEND, true);
      if !ok {
        return;
      }
      ghost var vm1 := V();
      ok, to := MapKernel(d, IOEND, dataPage, false);
      BuildOn(vm, vm1, V(), d, IOEND, to, dataPage, false);
      if !ok {
        return;
      }
      ghost var vm2 := V();
      ok, to := MapKernel(d, dataPage, PHYSPAGES, true);
      BuildOn(vm, vm2, V(), d, dataPage, to, PHYSPAGES, true);
      if !ok {
        return;
      }
      ghost var vm3 := V();
      ok, to := MapKernel(d, DEVPAGE, LASTPAGE, true);
      BuildOn(vm, vm3, V(), d, DEVPAGE, to, LASTPAGE, true);
      if ok {
        RangesReady(vm, vm1, vm2, vm3, V(), d, dataPage);
      }
    }

    /** setupkvm.  d is the directory taken, if any: when a later page table
        cannot be had, it and its tables so far are not given back. */
    method SetupKvm() returns (r: Option<nat>, ghost d: nat)
      requires Valid()
      modifies this
      ensures Valid() && Pool(V()) == old(Pool(V()))
      ensures SameElsewhere(old(V()), V(), d) && !IsSpace(old(V()), d)
      ensures r.Some? <==> |old(freelist)| >= KERNELFRAMES
      ensures r.Some? ==> r.value == d && Ready(V(), d, dataPage) && EmptyFrom(V(), d, 0)
      ensures r.Some? ==> |freelist| == |old(freelist)| - KERNELFRAMES
      ensures r.None? ==> Leaked(old(V()), V(), d)
      ensures r.None? && old(freelist) == [] ==> V() == old(V())
    {
      ghost var vm := V();
      var f := Kalloc();
      if f.None? {
        ElsewhereSelf(vm, 0);
        return None, 0;
      }
      d := f.value;
      TakeDirOk(vm);
      mem := mem[f.value := Table(ZeroTable())];
      owner := owner[d := Dir(d)];
      assert V() == TakeDir(vm);
      PoolTake(vm, V(), Dir(d));
      hide Vm.Inv;
      var ok := MapRanges(f.value);
      ElsewhereTwice(vm, TakeDir(vm), V(), d);
      if !ok {
        LeaksAll(vm, V(), d);
      }
      r := if ok then Some(f.value) else None;
    }

    /** The body of the loops of allocuvm and copyuvm: a page from kalloc is
        filled and mapped at vpn.  mappages cannot fail here. */
    method AddPage(d: nat, vpn: nat, data: Page) returns (ok: bool)
      requires Valid() && Ready(V(), d, dataPage) && vpn < USERPAGES && !Walk(mem, d, vpn).present
      modifies this
      ensures Valid() && ok == (old(freelist) != [])
      ensures !ok ==> V() == old(V())
      ensures ok ==> Adds(old(V()), V(), d, vpn, data, dataPage)
    {
      ghost var vm := V();
      var f := Kalloc();
      if f.None? {
        return false;
      }
      ReadyHasTable(vm, d, dataPage, vpn);
      TakeUserOk(vm, d, vpn, data);
      AddsPage(vm, d, vpn, data, dataPage);
      DirIsTable(vm, d);
      assert vpn / NENTRIES == 0;
      mem := mem[f.value := Data(data)];
      var t := mem[d].e[0].frame;
      mem := mem[t := Table(mem[t].e[vpn % NENTRIES := Pte(true, true, true, f.value)])];
      owner := owner[f.value := UserPage(d, vpn)];
      assert V() == TakeUser(vm, d, vpn, data);
      ok := true;
    }

    /** The body of the loop of deallocuvm. */
    method DropPage(d: nat, vpn: nat)
      requires Valid() && Ready(V(), d, dataPage) && vpn < USERPAGES
      modifies this
      ensures Valid() && Drops(old(V()), V(), d, vpn, dataPage)
    {
      ghost var vm := V();
      ReadyHasTable(vm, d, dataPage, vpn);
      TableOwned(vm, d, 0);
      DirIsTable(vm, d);
      assert vpn / NENTRIES == 0;
      var t := mem[d].e[0].frame;
      var pte := mem[t].e[vpn % NENTRIES];
      if pte.present {
        DropUserOk(vm, d, vpn);
        DropsPage(vm, d, vpn, dataPage);
        PageOwned(vm, d, vpn); // so pte.frame is not 0: "kfree" is not reached
        Kfree(pte.frame);
        mem := mem[t := Table(mem[t].e[vpn % NENTRIES := ZeroPte])];
        assert V() == DropUser(vm, d, vpn);
      } else {
        ElsewhereSelf(vm, d);
      }
    }

    /** deallocuvm */
    method DeallocUvm(d: nat, oldsz: nat, newsz: nat) returns (r: nat)
      requires Valid() && Ready(V(), d, dataPage) && oldsz <= USERPAGES * PGSIZE
      modifies this
      ensures Valid()
      ensures newsz >= oldsz ==> r == oldsz && V() == old(V())
      ensures newsz < oldsz ==> r == newsz && Shrinks(old(V()), V(), d, PagesUp(newsz), PagesUp(oldsz), dataPage)
    {
      if newsz >= oldsz {
        return oldsz;
      }
      hide Vm.Inv;
      hide Walk;
      hide Pde;
      hide UserData;
      hide Pool;
      hide SameElsewhere;
      ghost var vm := V();
      var a := PagesUp(newsz);
      ShrinkNone(vm, d, a, dataPage);
      while a * PGSIZE < oldsz
        invariant PagesUp(newsz) <= a <= PagesUp(oldsz)
        invariant Valid() && Shrinks(vm, V(), d, PagesUp(newsz), a, dataPage)
        decreases oldsz - a * PGSIZE
      {
        ghost var vm1 := V();
        DropPage(d, a);
        ShrinkMore(vm, vm1, V(), d, PagesUp(newsz), a, dataPage);
        a := a + 1;
      }
      r := newsz;
    }

    /** allocuvm: every page of [PGROUNDUP(oldsz), newsz) is mapped to a zeroed
        frame of its own, or nothing changes. */
    method AllocUvm(d: nat, oldsz: nat, newsz: nat) returns (r: nat)
      requires Valid() && Ready(V(), d, dataPage) && EmptyFrom(V(), d, PagesUp(oldsz))
      modifies this
      ensures Valid()
      ensures newsz > USERPAGES * PGSIZE ==> r == 0 && V() == old(V())
      ensures newsz <= USERPAGES * PGSIZE && newsz < oldsz ==> r == oldsz && V() == old(V())
      ensures oldsz <= newsz <= USERPAGES * PGSIZE ==>
                if PagesUp(newsz) - PagesUp(oldsz) <= |old(freelist)|
                then r == newsz && Grows(old(V()), V(), d, PagesUp(oldsz), PagesUp(newsz), dataPage)
                else r == 0 && Restored(old(V()), V(), d, dataPage)
    {
      if newsz > USERPAGES * PGSIZE {
        return 0;
      }
      if newsz < oldsz {
        return oldsz;
      }
      PageBelow(0, oldsz, newsz);
      var ok := GrowPages(d, oldsz, newsz);
      r := if ok then newsz else 0;
    }

    /** The loop of allocuvm. */
    method GrowPages(d: nat, oldsz: nat, newsz: nat) returns (ok: bool)
      requires Valid() && Ready(V(), d, dataPage) && EmptyFrom(V(), d, PagesUp(oldsz))
      requires oldsz <= newsz <= USERPAGES * PGSIZE && PagesUp(oldsz) <= PagesUp(newsz) <= USERPAGES
      modifies this
      ensures Valid() && (ok <==> PagesUp(newsz) - PagesUp(oldsz) <= |old(freelist)|)
      ensures ok ==> Grows(old(V()), V(), d, PagesUp(oldsz), PagesUp(newsz), dataPage)
      ensures !ok ==> Restored(old(V()), V(), d, dataPage)
    {
      hide Vm.Inv;
      hide Walk;
      hide Pde;
      hide UserData;
      hide Pool;
      hide SameElsewhere;
      ghost var vm := V();
      var a := PagesUp(oldsz);
      GrowNone(vm, d, a, dataPage);
      while a * PGSIZE < newsz
        invariant PagesUp(oldsz) <= a <= PagesUp(newsz)
        invariant Valid() && Grows(vm, V(), d, PagesUp(oldsz), a, dataPage)
        decreases newsz - a * PGSIZE
      {
        PageBelow(a, oldsz, newsz);
        ghost var vm1 := V();
        GrowEmpty(vm, vm1, d, PagesUp(oldsz), a, dataPage);
        var took := AddPage(d, a, ZeroPage());
        if !took {
          var _ := DeallocUvm(d, newsz, oldsz);
          GrowUndone(vm, vm1, V(), d, PagesUp(oldsz), a, PagesUp(newsz), dataPage);
          return false;
        }
        GrowMore(vm, vm1, V(), d, PagesUp(oldsz), a, dataPage);
        a := a + 1;
      }
      PageBelow(a, oldsz, newsz);
      return true;
    }

    /** freevm: exactly the frames of the space go back to the free list. */
    method FreeVm(d: nat)
      requires Valid() && Ready(V(), d, dataPage)
      modifies this
      ensures Valid() && SameElsewhere(old(V()), V(), d) && Pool(V()) == old(Pool(V()))
      ensures owner == Others(old(owner), d)
      ensures FreeSet(V()) == old(FreeSet(V())) + SpaceFrames(old(owner), d)
    {
      ghost var vm := V();
      var _ := DeallocUvm(d, USERPAGES * PGSIZE, 0);
      ghost var vm1 := V();
      UserPagesGone(vm, vm1, d, dataPage);
      FreeTables(d);
      ghost var vm2 := V();
      Kfree(d);
      TornDown(vm1, vm2, V(), d);
      ElsewhereTwice(vm, vm1, V(), d);
      OthersSame(vm, vm1, V(), d);
    }

    /** The loop of freevm over the directory: its page tables are freed. */
    method FreeTables(d: nat)
      requires Valid() && Ready(V(), d, dataPage)
      modifies this
      ensures Tearing(old(V()), V(), d, NENTRIES)
    {
      ghost var vm := V();
      DirIsTable(vm, d);
      TearStart(vm, d);
      var i := 0;
      while i < NENTRIES
        invariant i <= NENTRIES && Tearing(vm, V(), d, i)
      {
        ghost var vm1 := V();
        var pde := mem[d].e[i];
        if pde.present {
          TearOne(vm, vm1, d, i);
          Kfree(pde.frame);
        } else {
          TearSkip(vm, vm1, d, i);
        }
        i := i + 1;
      }
    }

    /** copyuvm.  c is the new space, or the one that was begun. */
    method CopyUvm(d: nat, sz: nat) returns (r: Option<nat>, ghost c: nat)
      requires Valid() && Ready(V(), d, dataPage) && sz <= USERPAGES * PGSIZE
      requires forall v: nat :: v < PagesUp(sz) ==> Walk(mem, d, v).present
      modifies this
      ensures Valid() && Pool(V()) == old(Pool(V()))
      ensures SameElsewhere(old(V()), V(), c) && !IsSpace(old(V()), c)
      ensures r.Some? <==> |old(freelist)| >= KERNELFRAMES + PagesUp(sz)
      ensures r.Some? ==> r.value == c && Copies(old(V()), V(), d, c, PagesUp(sz), dataPage)
      ensures r.None? && |old(freelist)| >= KERNELFRAMES ==> owner == old(owner) && FreeSet(V()) == old(FreeSet(V()))
      ensures |old(freelist)| < KERNELFRAMES ==> Leaked(old(V()), V(), c)
      ensures r.None? ==> (FreeSet(V()) == old(FreeSet(V())) <==> |old(freelist)| == 0 || |old(freelist)| >= KERNELFRAMES)
    {
      ghost var vm := V();
      r, c := SetupKvm();
      if r.None? {
        LeakedSome(vm, V(), c);
        return;
      }
      var ok := CopyPages(d, r.value, sz, vm);
      if !ok {
        r := None;
      }
    }

    /** The loop of copyuvm, with space c just made in memory vm. */
    method CopyPages(d: nat, c: nat, sz: nat, ghost vm: Vm) returns (ok: bool)
      requires vm.Inv() && Ready(vm, d, dataPage) && sz <= USERPAGES * PGSIZE
      requires forall v: nat :: v < PagesUp(sz) ==> Walk(vm.mem, d, v).present
      requires Valid() && Pool(V()) == Pool(vm) && Copies(vm, V(), d, c, 0, dataPage)
      modifies this
      ensures Valid() && Pool(V()) == Pool(vm) && SameElsewhere(vm, V(), c)
      ensures ok <==> |old(freelist)| >= PagesUp(sz)
      ensures ok ==> Copies(vm, V(), d, c, PagesUp(sz), dataPage)
      ensures !ok ==> owner == vm.owner && FreeSet(V()) == FreeSet(vm)
    {
      hide Vm.Inv;
      hide Walk;
      hide Pde;
      hide UserData;
      hide Pool;
      hide SameElsewhere;
      var i := 0;
      while i * PGSIZE < sz
        invariant i <= PagesUp(sz) && Valid() && Pool(V()) == Pool(vm) && Copies(vm, V(), d, c, i, dataPage)
        invariant |freelist| + i == |old(freelist)|
        decreases sz - i * PGSIZE
      {
        PageBelow(i, sz, sz);
        ghost var vm1 := V();
        SourceKept(vm, vm1, d, c, i, dataPage);
        var data := PageAt(d, i);
        ok := AddPage(c, i, data);
        if !ok {
          FreeVm(c);
          CopyUndone(vm, vm1, V(), d, c, i, dataPage);
          return;
        }
        CopyMore(vm, vm1, V(), d, c, i, data, dataPage);
        i := i + 1;
      }
      PageBelow(i, sz, sz);
      ok := true;
    }

    /** The bytes of the frame that user page vpn of d is mapped to. */
    method PageAt(d: nat, vpn: nat) returns (data: Page)
      requires Valid() && Ready(V(), d, dataPage) && vpn < USERPAGES && Walk(mem, d, vpn).present
      ensures data == UserData(mem, d, vpn)
    {
      PageOwned(V(), d, vpn);
      TableOwned(V(), d, 0);
      DirIsTable(V(), d);
      assert vpn / NENTRIES == 0;
      var pte := mem[mem[d].e[0].frame].e[vpn % NENTRIES];
      data := mem[pte.frame].d;
    }
  }

  /** The first address space of a machine: kinit and then setupkvm. */
  method FirstSpace(dataPage: nat, endPage: nat, mem: seq<Frame>) returns (m: Memory, r: Option<nat>, ghost d: nat)
    requires IOEND < dataPage <= endPage < PHYSPAGES == |mem|
    ensures fresh(m) && m.Valid() && m.dataPage == dataPage
    ensures r.Some? <==> PHYSPAGES - endPage >= KERNELFRAMES
    ensures r.Some? ==> Ready(m.V(), r.value, dataPage) && |m.freelist| == PHYSPAGES - endPage - KERNELFRAMES
    ensures r.Some? ==> forall f :: f in m.owner ==> SpaceOf(m.owner[f]) == r.value
    ensures r.None? ==> m.freelist == [] && forall f: nat :: endPage <= f < PHYSPAGES ==> f in m.owner && SpaceOf(m.owner[f]) == d
  {
    m := new Memory(dataPage, endPage, mem);
    ghost var vm := m.V();
    r, d := m.SetupKvm();
    if r.None? {
      assert forall f: nat :: endPage <= f < PHYSPAGES ==> f in FreeSet(vm);
    }
  }

  /** copyuvm loses memory: with one page left beside the first space, the copy of
      that space fails, and the page then belongs to a space that nobody has. */
  method LeakingCopy(dataPage: nat, mem: seq<Frame>) returns (m: Memory, d: nat, r: Option<nat>, ghost c: nat)
    requires IOEND < dataPage <= PHYSPAGES - KERNELFRAMES - 1 && |mem| == PHYSPAGES
    ensures fresh(m) && m.Valid() && IsSpace(m.V(), d) && r.None? && m.freelist == [] && c != d
    ensures exists f :: f in m.owner && SpaceOf(m.owner[f]) == c
  {
    var first: Option<nat>;
    ghost var g;
    m, first, g := FirstSpace(dataPage, PHYSPAGES - KERNELFRAMES - 1, mem);
    d := first.value;
    ghost var vm := m.V();
    assert vm.free[0] in vm.free;
    DirIsTable(vm, d);
    r, c := m.CopyUvm(d, 0);
    assert vm.free[0] in m.owner;
    assert SpaceOf(vm.owner[d]) != c;
    assert IsSpace(m.V(), d);
  }
}

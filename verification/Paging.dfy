/** Physical pages and two-level page tables, as kernel/vm.c and kernel/kalloc.c
    use them.  Addresses count pages: a frame is a physical page, a vpn a virtual
    one.

    Every page taken from the free list has one owner: a page directory, one
    entry of a directory (a page table), or one user page of an address space. */
module Paging {
  import opened Prelude

  const PGSIZE: nat := 4096
  const NENTRIES: nat := 1024
  const USERPAGES: nat := 160 // USERTOP / PGSIZE
  const IOEND: nat := 256 // 0x100000 / PGSIZE
  const PHYSPAGES: nat := 4096 // PHYSTOP / PGSIZE
  const DEVPAGE: nat := 0xFE000 // 0xFE000000 / PGSIZE
  const LASTPAGE: nat := 0x10_0000 // 2^32 / PGSIZE

  datatype Pte = Pte(present: bool, writable: bool, user: bool, frame: nat)

  const ZeroPte: Pte := Pte(false, false, false, 0)

  type Entries = e: seq<Pte> | |e| == NENTRIES witness seq(NENTRIES, _ => ZeroPte)
  type Page = d: seq<byte> | |d| == PGSIZE witness seq(PGSIZE, _ => 0)

  /** What a frame holds.  kfree fills it with junk. */
  datatype Frame = Table(e: Entries) | Data(d: Page) | Junk

  function ZeroTable(): (e: Entries)
    ensures forall x :: 0 <= x < NENTRIES ==> e[x] == ZeroPte
  {
    seq(NENTRIES, _ => ZeroPte)
  }

  function ZeroPage(): (d: Page)
    ensures forall k :: 0 <= k < PGSIZE ==> d[k] == 0
  {
    seq(PGSIZE, _ => 0)
  }

  datatype Owner = Dir(d: nat) | PageTable(d: nat, x: nat) | UserPage(d: nat, vpn: nat) | Other

  /** Page directory entry x of directory d. */
  function Pde(mem: seq<Frame>, d: nat, x: nat): Pte {
    if d < |mem| && mem[d].Table? && x < NENTRIES then mem[d].e[x] else ZeroPte
  }

  /** walkpgdir without create: the entry for vpn, not present if there is no
      page table for it. */
  function Walk(mem: seq<Frame>, d: nat, vpn: nat): Pte {
    var pde := Pde(mem, d, vpn / NENTRIES);
    if pde.present then Pde(mem, pde.frame, vpn % NENTRIES) else ZeroPte
  }

  /** The bytes of user page vpn. */
  function UserData(mem: seq<Frame>, d: nat, vpn: nat): seq<byte> {
    var pte := Walk(mem, d, vpn);
    if pte.present && pte.frame < |mem| && mem[pte.frame].Data? then mem[pte.frame].d else []
  }

  /** Frame f is what its owner says, and its owner points at it. */
  ghost predicate Referenced(mem: seq<Frame>, owner: map<nat, Owner>, f: nat, o: Owner) {
    match o
    case Dir(d) => f == d && f < |mem| && mem[f].Table?
    case PageTable(d, x) =>
      && d in owner && owner[d] == Dir(d) && x < NENTRIES && f < |mem| && mem[f].Table?
      && Pde(mem, d, x).present && Pde(mem, d, x).frame == f
    case UserPage(d, vpn) =>
      && d in owner && owner[d] == Dir(d) && vpn < USERPAGES && f < |mem| && mem[f].Data?
      && Walk(mem, d, vpn).present && Walk(mem, d, vpn).frame == f
    case Other => true
  }

  ghost predicate OwnedAs(owner: map<nat, Owner>, f: nat, o: Owner) { f in owner && owner[f] == o }

  /** What directory d points at, it owns. */
  ghost predicate SpaceOk(mem: seq<Frame>, owner: map<nat, Owner>, d: nat) {
    && (forall x: nat {:trigger Pde(mem, d, x)} :: Pde(mem, d, x).present ==> OwnedAs(owner, Pde(mem, d, x).frame, PageTable(d, x)))
    && (forall v: nat {:trigger Walk(mem, d, v)} :: v < USERPAGES && Walk(mem, d, v).present ==>
          OwnedAs(owner, Walk(mem, d, v).frame, UserPage(d, v)))
  }

  datatype Vm = Vm(mem: seq<Frame>, free: seq<nat>, owner: map<nat, Owner>) {

    ghost predicate FreeOk() {
      && NoDup(free)
      && (forall f :: f in free ==> 0 < f < |mem| && f !in owner)
      && (forall f :: f in owner ==> 0 < f < |mem|)
    }

    ghost predicate Inv() {
      && FreeOk()
      && (forall f {:trigger Referenced(mem, owner, f, owner[f])} :: f in owner ==> Referenced(mem, owner, f, owner[f]))
      && (forall d {:trigger SpaceOk(mem, owner, d)} :: d in owner && owner[d] == Dir(d) ==> SpaceOk(mem, owner, d))
    }
  }

  /** d is an address space. */
  ghost predicate IsSpace(vm: Vm, d: nat) { OwnedAs(vm.owner, d, Dir(d)) }

  /** The space an owner belongs to; 0 for frames outside any space. */
  function SpaceOf(o: Owner): nat { if o.Other? then 0 else o.d }

  // ---------- steps on one space leave the others alone ----------

  ghost predicate SameElsewhere(vm: Vm, vm': Vm, d: nat) {
    && |vm'.mem| == |vm.mem|
    && (forall f :: f in vm.owner && SpaceOf(vm.owner[f]) != d && f < |vm.mem| ==>
                      f in vm'.owner && vm'.owner[f] == vm.owner[f] && vm'.mem[f] == vm.mem[f])
    && (forall f :: f in vm'.owner && SpaceOf(vm'.owner[f]) != d ==> f in vm.owner && vm.owner[f] == vm'.owner[f])
  }

  lemma PdeElsewhere(vm: Vm, vm': Vm, d: nat, c: nat, x: nat)
    requires vm.Inv() && SameElsewhere(vm, vm', d) && IsSpace(vm, c) && c != d
    ensures Pde(vm'.mem, c, x) == Pde(vm.mem, c, x)
  {
  }

  lemma WalkElsewhere(vm: Vm, vm': Vm, d: nat, c: nat, v: nat)
    requires vm.Inv() && SameElsewhere(vm, vm', d) && IsSpace(vm, c) && c != d
    ensures Walk(vm'.mem, c, v) == Walk(vm.mem, c, v)
  {
    var x := v / NENTRIES;
    PdeElsewhere(vm, vm', d, c, x);
    var pde := Pde(vm.mem, c, x);
    if pde.present {
      assert SpaceOk(vm.mem, vm.owner, c);
      assert OwnedAs(vm.owner, pde.frame, PageTable(c, x));
    }
  }

  lemma UserDataElsewhere(vm: Vm, vm': Vm, d: nat, c: nat, v: nat)
    requires vm.Inv() && SameElsewhere(vm, vm', d) && IsSpace(vm, c) && c != d && v < USERPAGES
    ensures UserData(vm'.mem, c, v) == UserData(vm.mem, c, v)
  {
    WalkElsewhere(vm, vm', d, c, v);
    assert SpaceOk(vm.mem, vm.owner, c);
  }

  /** A step on space d keeps the invariant when it does so for d. */
  lemma StepKeepsInv(vm: Vm, vm': Vm, d: nat)
    requires vm.Inv() && SameElsewhere(vm, vm', d) && vm'.FreeOk() && 0 < d
    requires IsSpace(vm', d) ==> SpaceOk(vm'.mem, vm'.owner, d)
    requires forall f :: f in vm'.owner && SpaceOf(vm'.owner[f]) == d ==> Referenced(vm'.mem, vm'.owner, f, vm'.owner[f])
    ensures vm'.Inv()
  {
    forall f | f in vm'.owner ensures Referenced(vm'.mem, vm'.owner, f, vm'.owner[f]) {
      var o := vm'.owner[f];
      if SpaceOf(o) != d {
        assert Referenced(vm.mem, vm.owner, f, o);
        if o.PageTable? {
          PdeElsewhere(vm, vm', d, o.d, o.x);
        } else if o.UserPage? {
          WalkElsewhere(vm, vm', d, o.d, o.vpn);
        }
      }
    }
    forall c | c in vm'.owner && vm'.owner[c] == Dir(c) ensures SpaceOk(vm'.mem, vm'.owner, c) {
      if c != d {
        SpaceElsewhere(vm, vm', d, c);
      }
    }
  }

  lemma SpaceElsewhere(vm: Vm, vm': Vm, d: nat, c: nat)
    requires vm.Inv() && SameElsewhere(vm, vm', d) && vm'.FreeOk() && IsSpace(vm, c) && c != d
    ensures SpaceOk(vm'.mem, vm'.owner, c)
  {
    assert SpaceOk(vm.mem, vm.owner, c);
    forall x: nat | Pde(vm'.mem, c, x).present ensures OwnedAs(vm'.owner, Pde(vm'.mem, c, x).frame, PageTable(c, x)) {
      PdeElsewhere(vm, vm', d, c, x);
    }
    forall v: nat | v < USERPAGES && Walk(vm'.mem, c, v).present
      ensures OwnedAs(vm'.owner, Walk(vm'.mem, c, v).frame, UserPage(c, v))
    {
      WalkElsewhere(vm, vm', d, c, v);
    }
  }
}

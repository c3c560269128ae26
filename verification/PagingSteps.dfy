/** The changes vm.c makes to pages and page tables, one at a time. */
module PagingSteps {
  import opened Prelude
  import opened Paging

  /** The frame of the page table that covers vpn. */
  function TableOf(mem: seq<Frame>, d: nat, vpn: nat): nat { Pde(mem, d, vpn / NENTRIES).frame }

  function WithEntry(mem: seq<Frame>, t: nat, x: nat, pte: Pte): seq<Frame>
    requires t < |mem| && mem[t].Table? && x < NENTRIES
  {
    mem[t := Table(mem[t].e[x := pte])]
  }

  /** A new, empty page directory. */
  function TakeDir(vm: Vm): Vm
    requires vm.free != [] && vm.free[0] < |vm.mem|
  {
    var f := vm.free[0];
    Vm(vm.mem[f := Table(ZeroTable())], vm.free[1..], vm.owner[f := Dir(f)])
  }

  /** A new, empty page table as entry x of directory d. */
  function TakeTable(vm: Vm, d: nat, x: nat): Vm
    requires vm.free != [] && vm.free[0] < |vm.mem| && d < |vm.mem| && d != vm.free[0] && vm.mem[d].Table? && x < NENTRIES
  {
    var f := vm.free[0];
    Vm(WithEntry(vm.mem[f := Table(ZeroTable())], d, x, Pte(true, true, true, f)), vm.free[1..],
       vm.owner[f := PageTable(d, x)])
  }

  ghost predicate HasTable(vm: Vm, d: nat, vpn: nat) {
    && IsSpace(vm, d) && Pde(vm.mem, d, vpn / NENTRIES).present
    && TableOf(vm.mem, d, vpn) < |vm.mem| && vm.mem[TableOf(vm.mem, d, vpn)].Table?
  }

  /** Entry vpn of space d becomes pte. */
  function SetEntry(vm: Vm, d: nat, vpn: nat, pte: Pte): Vm
    requires TableOf(vm.mem, d, vpn) < |vm.mem| && vm.mem[TableOf(vm.mem, d, vpn)].Table?
  {
    vm.(mem := WithEntry(vm.mem, TableOf(vm.mem, d, vpn), vpn % NENTRIES, pte))
  }

  /** A new user page vpn that holds data. */
  function TakeUser(vm: Vm, d: nat, vpn: nat, data: Page): Vm
    requires vm.free != [] && vm.free[0] < |vm.mem|
    requires TableOf(vm.mem, d, vpn) < |vm.mem| && vm.mem[TableOf(vm.mem, d, vpn)].Table?
    requires TableOf(vm.mem, d, vpn) != vm.free[0]
  {
    var f := vm.free[0];
    Vm(WithEntry(vm.mem[f := Data(data)], TableOf(vm.mem, d, vpn), vpn % NENTRIES, Pte(true, true, true, f)),
       vm.free[1..], vm.owner[f := UserPage(d, vpn)])
  }

  /** User page vpn is unmapped and its frame goes back on the free list. */
  function DropUser(vm: Vm, d: nat, vpn: nat): Vm
    requires TableOf(vm.mem, d, vpn) < |vm.mem| && vm.mem[TableOf(vm.mem, d, vpn)].Table?
    requires Walk(vm.mem, d, vpn).frame < |vm.mem| && Walk(vm.mem, d, vpn).frame != TableOf(vm.mem, d, vpn)
  {
    var f := Walk(vm.mem, d, vpn).frame;
    Vm(WithEntry(vm.mem[f := Junk], TableOf(vm.mem, d, vpn), vpn % NENTRIES, ZeroPte), [f] + vm.free, vm.owner - {f})
  }

  // ---------- facts about a space ----------

  lemma TableOwned(vm: Vm, d: nat, x: nat)
    requires vm.Inv() && IsSpace(vm, d) && Pde(vm.mem, d, x).present
    ensures var t := Pde(vm.mem, d, x).frame;
            OwnedAs(vm.owner, t, PageTable(d, x)) && 0 < t < |vm.mem| && vm.mem[t].Table? && t != d && t !in vm.free
  {
    assert SpaceOk(vm.mem, vm.owner, d);
    assert Referenced(vm.mem, vm.owner, Pde(vm.mem, d, x).frame, PageTable(d, x));
  }

  lemma PageOwned(vm: Vm, d: nat, v: nat)
    requires vm.Inv() && IsSpace(vm, d) && v < USERPAGES && Walk(vm.mem, d, v).present
    ensures var f := Walk(vm.mem, d, v).frame;
            OwnedAs(vm.owner, f, UserPage(d, v)) && 0 < f < |vm.mem| && vm.mem[f].Data? && f !in vm.free
    ensures HasTable(vm, d, v) && TableOf(vm.mem, d, v) != Walk(vm.mem, d, v).frame
    ensures UserData(vm.mem, d, v) == vm.mem[Walk(vm.mem, d, v).frame].d
  {
    assert SpaceOk(vm.mem, vm.owner, d);
    assert Referenced(vm.mem, vm.owner, Walk(vm.mem, d, v).frame, UserPage(d, v));
    TableOwned(vm, d, v / NENTRIES);
  }

  /** No frame is mapped at two user pages, of one space or of two, and none that
      is mapped is free, a page table or a directory. */
  lemma FramesApart(vm: Vm, d: nat, v: nat, c: nat, w: nat)
    requires vm.Inv() && IsSpace(vm, d) && v < USERPAGES && Walk(vm.mem, d, v).present
    requires IsSpace(vm, c) && w < USERPAGES && Walk(vm.mem, c, w).present
    ensures Walk(vm.mem, d, v).frame == Walk(vm.mem, c, w).frame <==> d == c && v == w
    ensures var f := Walk(vm.mem, d, v).frame; f !in vm.free && f < |vm.mem| && vm.mem[f].Data?
  {
    PageOwned(vm, d, v);
    PageOwned(vm, c, w);
  }

  lemma DirIsTable(vm: Vm, d: nat)
    requires vm.Inv() && IsSpace(vm, d)
    ensures 0 < d < |vm.mem| && vm.mem[d].Table? && d !in vm.free
  {
    assert Referenced(vm.mem, vm.owner, d, vm.owner[d]);
  }

  lemma FirstFree(vm: Vm)
    requires vm.FreeOk() && vm.free != []
    ensures var f := vm.free[0]; 0 < f < |vm.mem| && f !in vm.owner && f !in vm.free[1..] && f in vm.free
    ensures NoDup(vm.free[1..]) && forall f :: f in vm.free[1..] ==> f in vm.free
  {
    var rest := vm.free[1..];
    assert vm.free[0] in vm.free;
    forall i: nat, j: nat | i < j < |rest| ensures rest[i] != rest[j] {
      assert rest[i] == vm.free[i + 1] && rest[j] == vm.free[j + 1];
    }
  }

  // ---------- each change keeps the invariant ----------

  lemma TakeDirOk(vm: Vm)
    requires vm.Inv() && vm.free != []
    ensures vm.free[0] < |vm.mem|
    ensures var d := vm.free[0]; var vm' := TakeDir(vm);
            && vm'.Inv() && IsSpace(vm', d) && !IsSpace(vm, d) && SameElsewhere(vm, vm', d)
            && forall x: nat :: Pde(vm'.mem, d, x) == ZeroPte
  {
    FirstFree(vm);
    var d, vm' := vm.free[0], TakeDir(vm);
    forall f | f in vm.owner ensures SpaceOf(vm.owner[f]) != d {
      assert Referenced(vm.mem, vm.owner, f, vm.owner[f]);
    }
    StepKeepsInv(vm, vm', d);
  }

  /** Entries of the directory after a new table. */
  lemma TakeTableWalk(vm: Vm, d: nat, x: nat)
    requires vm.Inv() && IsSpace(vm, d) && vm.free != [] && x < NENTRIES && !Pde(vm.mem, d, x).present
    ensures vm.free[0] < |vm.mem| && d < |vm.mem| && d != vm.free[0] && vm.mem[d].Table?
    ensures var vm' := TakeTable(vm, d, x);
            && (forall y: nat :: Pde(vm'.mem, d, y) == if y == x then Pte(true, true, true, vm.free[0]) else Pde(vm.mem, d, y))
            && (forall v: nat :: Walk(vm'.mem, d, v) == Walk(vm.mem, d, v))
  {
    FirstFree(vm);
    DirIsTable(vm, d);
    var vm' := TakeTable(vm, d, x);
    forall v: nat ensures Walk(vm'.mem, d, v) == Walk(vm.mem, d, v) {
      var y := v / NENTRIES;
      if y != x && Pde(vm.mem, d, y).present {
        TableOwned(vm, d, y);
      }
    }
  }

  lemma TakeTableOk(vm: Vm, d: nat, x: nat)
    requires vm.Inv() && IsSpace(vm, d) && vm.free != [] && x < NENTRIES && !Pde(vm.mem, d, x).present
    ensures vm.free[0] < |vm.mem| && d < |vm.mem| && d != vm.free[0] && vm.mem[d].Table?
    ensures TakeTable(vm, d, x).Inv() && IsSpace(TakeTable(vm, d, x), d) && SameElsewhere(vm, TakeTable(vm, d, x), d)
  {
    TakeTableWalk(vm, d, x);
    FirstFree(vm);
    var vm' := TakeTable(vm, d, x);
    assert SpaceOk(vm.mem, vm.owner, d);
    forall f | f in vm'.owner && SpaceOf(vm'.owner[f]) == d ensures Referenced(vm'.mem, vm'.owner, f, vm'.owner[f]) {
      if f != vm.free[0] {
        assert Referenced(vm.mem, vm.owner, f, vm.owner[f]);
      }
    }
    StepKeepsInv(vm, vm', d);
  }

  lemma SetEntryWalk(vm: Vm, d: nat, vpn: nat, pte: Pte)
    requires vm.Inv() && HasTable(vm, d, vpn)
    ensures var vm' := SetEntry(vm, d, vpn, pte);
            && (forall x: nat :: Pde(vm'.mem, d, x) == Pde(vm.mem, d, x))
            && (forall v: nat :: Walk(vm'.mem, d, v) == if v == vpn then pte else Walk(vm.mem, d, v))
  {
    TableOwned(vm, d, vpn / NENTRIES);
    var vm' := SetEntry(vm, d, vpn, pte);
    forall v: nat ensures Walk(vm'.mem, d, v) == if v == vpn then pte else Walk(vm.mem, d, v) {
      var y := v / NENTRIES;
      if Pde(vm.mem, d, y).present {
        TableOwned(vm, d, y);
      }
    }
  }

  lemma SetEntryOk(vm: Vm, d: nat, vpn: nat, pte: Pte)
    requires vm.Inv() && HasTable(vm, d, vpn) && USERPAGES <= vpn
    ensures SetEntry(vm, d, vpn, pte).Inv() && SameElsewhere(vm, SetEntry(vm, d, vpn, pte), d)
  {
    TableOwned(vm, d, vpn / NENTRIES);
    SetEntryWalk(vm, d, vpn, pte);
    var vm' := SetEntry(vm, d, vpn, pte);
    assert SpaceOk(vm.mem, vm.owner, d);
    forall f | f in vm'.owner && SpaceOf(vm'.owner[f]) == d ensures Referenced(vm'.mem, vm'.owner, f, vm'.owner[f]) {
      assert Referenced(vm.mem, vm.owner, f, vm.owner[f]);
    }
    StepKeepsInv(vm, vm', d);
  }

  /** Taking a frame for a user page is storing the data, then setting the entry. */
  lemma TakeUserWalk(vm: Vm, d: nat, vpn: nat, data: Page)
    requires vm.Inv() && HasTable(vm, d, vpn) && vm.free != []
    ensures vm.free[0] < |vm.mem| && TableOf(vm.mem, d, vpn) != vm.free[0]
    ensures var vm' := TakeUser(vm, d, vpn, data);
            && (forall x: nat :: Pde(vm'.mem, d, x) == Pde(vm.mem, d, x))
            && (forall v: nat :: Walk(vm'.mem, d, v) ==
                  if v == vpn then Pte(true, true, true, vm.free[0]) else Walk(vm.mem, d, v))
  {
    TableOwned(vm, d, vpn / NENTRIES);
    FirstFree(vm);
    DirIsTable(vm, d);
    var vm' := TakeUser(vm, d, vpn, data);
    forall v: nat ensures Walk(vm'.mem, d, v) == if v == vpn then Pte(true, true, true, vm.free[0]) else Walk(vm.mem, d, v) {
      var y := v / NENTRIES;
      if Pde(vm.mem, d, y).present {
        TableOwned(vm, d, y);
      }
    }
  }

  lemma TakeUserOk(vm: Vm, d: nat, vpn: nat, data: Page)
    requires vm.Inv() && HasTable(vm, d, vpn) && vm.free != [] && vpn < USERPAGES && !Walk(vm.mem, d, vpn).present
    ensures vm.free[0] < |vm.mem| && TableOf(vm.mem, d, vpn) != vm.free[0]
    ensures TakeUser(vm, d, vpn, data).Inv() && SameElsewhere(vm, TakeUser(vm, d, vpn, data), d)
  {
    TableOwned(vm, d, vpn / NENTRIES);
    TakeUserWalk(vm, d, vpn, data);
    FirstFree(vm);
    var vm' := TakeUser(vm, d, vpn, data);
    assert SpaceOk(vm.mem, vm.owner, d);
    forall f | f in vm'.owner && SpaceOf(vm'.owner[f]) == d ensures Referenced(vm'.mem, vm'.owner, f, vm'.owner[f]) {
      if f != vm.free[0] {
        assert Referenced(vm.mem, vm.owner, f, vm.owner[f]);
      }
    }
    StepKeepsInv(vm, vm', d);
  }

  lemma TakeUserData(vm: Vm, d: nat, vpn: nat, data: Page, v: nat)
    requires vm.Inv() && HasTable(vm, d, vpn) && vm.free != [] && vpn < USERPAGES && !Walk(vm.mem, d, vpn).present
    requires v < USERPAGES
    ensures vm.free[0] < |vm.mem| && TableOf(vm.mem, d, vpn) != vm.free[0]
    ensures UserData(TakeUser(vm, d, vpn, data).mem, d, v) == if v == vpn then data else UserData(vm.mem, d, v)
  {
    TableOwned(vm, d, vpn / NENTRIES);
    TakeUserWalk(vm, d, vpn, data);
    FirstFree(vm);
    if v != vpn && Walk(vm.mem, d, v).present {
      PageOwned(vm, d, v);
    }
  }

  lemma DropUserWalk(vm: Vm, d: nat, vpn: nat)
    requires vm.Inv() && IsSpace(vm, d) && vpn < USERPAGES && Walk(vm.mem, d, vpn).present
    ensures HasTable(vm, d, vpn) && Walk(vm.mem, d, vpn).frame < |vm.mem|
    ensures Walk(vm.mem, d, vpn).frame != TableOf(vm.mem, d, vpn)
    ensures var vm' := DropUser(vm, d, vpn);
            && (forall x: nat :: Pde(vm'.mem, d, x) == Pde(vm.mem, d, x))
            && (forall v: nat :: Walk(vm'.mem, d, v) == if v == vpn then ZeroPte else Walk(vm.mem, d, v))
  {
    PageOwned(vm, d, vpn);
    TableOwned(vm, d, vpn / NENTRIES);
    DirIsTable(vm, d);
    var vm' := DropUser(vm, d, vpn);
    forall v: nat ensures Walk(vm'.mem, d, v) == if v == vpn then ZeroPte else Walk(vm.mem, d, v) {
      var y := v / NENTRIES;
      if Pde(vm.mem, d, y).present {
        TableOwned(vm, d, y);
      }
    }
  }

  lemma DropUserOk(vm: Vm, d: nat, vpn: nat)
    requires vm.Inv() && IsSpace(vm, d) && vpn < USERPAGES && Walk(vm.mem, d, vpn).present
    ensures HasTable(vm, d, vpn) && Walk(vm.mem, d, vpn).frame < |vm.mem|
    ensures Walk(vm.mem, d, vpn).frame != TableOf(vm.mem, d, vpn)
    ensures DropUser(vm, d, vpn).Inv() && IsSpace(DropUser(vm, d, vpn), d) && SameElsewhere(vm, DropUser(vm, d, vpn), d)
  {
    PageOwned(vm, d, vpn);
    DirIsTable(vm, d);
    DropUserWalk(vm, d, vpn);
    var vm' := DropUser(vm, d, vpn);
    assert SpaceOk(vm.mem, vm.owner, d);
    forall f | f in vm'.owner && SpaceOf(vm'.owner[f]) == d ensures Referenced(vm'.mem, vm'.owner, f, vm'.owner[f]) {
      assert Referenced(vm.mem, vm.owner, f, vm.owner[f]);
    }
    assert SpaceOk(vm'.mem, vm'.owner, d);
    StepKeepsInv(vm, vm', d);
  }

  lemma DropUserData(vm: Vm, d: nat, vpn: nat, v: nat)
    requires vm.Inv() && IsSpace(vm, d) && vpn < USERPAGES && Walk(vm.mem, d, vpn).present && v < USERPAGES
    ensures HasTable(vm, d, vpn) && Walk(vm.mem, d, vpn).frame < |vm.mem|
    ensures Walk(vm.mem, d, vpn).frame != TableOf(vm.mem, d, vpn)
    ensures UserData(DropUser(vm, d, vpn).mem, d, v) == if v == vpn then [] else UserData(vm.mem, d, v)
  {
    PageOwned(vm, d, vpn);
    DropUserWalk(vm, d, vpn);
    if v != vpn && Walk(vm.mem, d, v).present {
      PageOwned(vm, d, v);
    }
  }
}

/** copyout and uva2ka of kernel/vm.c: the kernel writes into the memory of a
    process page by page, through the process's own page table. */
module UserCopy {
  import opened Prelude
  import opened Paging
  import opened PagingSteps
  import opened VirtualMemory

  /** User code may use page v of space d. */
  predicate Usable(mem: seq<Frame>, d: nat, v: nat) {
    Walk(mem, d, v).present && Walk(mem, d, v).user
  }

  /** User code may use every address from va on, for n bytes. */
  ghost predicate AllUsable(mem: seq<Frame>, d: nat, va: nat, n: nat) {
    forall a: nat :: va <= a < va + n ==> Usable(mem, d, a / PGSIZE)
  }

  lemma UsableMore(mem: seq<Frame>, d: nat, va: nat, k: nat, n: nat)
    requires AllUsable(mem, d, va, k) && Usable(mem, d, (va + k) / PGSIZE) && n <= PGSIZE - (va + k) % PGSIZE
    ensures AllUsable(mem, d, va, k + n)
  {
    forall a: nat | va + k <= a < va + k + n ensures Usable(mem, d, a / PGSIZE) {
      assert a / PGSIZE == (va + k) / PGSIZE;
    }
  }

  lemma UnusableThere(mem: seq<Frame>, d: nat, va: nat, k: nat, n: nat)
    requires k < n && !Usable(mem, d, (va + k) / PGSIZE)
    ensures !AllUsable(mem, d, va, n)
  {
    var a: nat := va + k;
    assert va <= a < va + n && !Usable(mem, d, a / PGSIZE);
  }

  /** The byte at user address a. */
  function UserByte(mem: seq<Frame>, d: nat, a: nat): byte {
    var p := UserData(mem, d, a / PGSIZE);
    if a % PGSIZE < |p| then p[a % PGSIZE] else 0
  }

  /** The data of a mapped user page is replaced. */
  ghost predicate Stores(vm: Vm, vm': Vm, d: nat, vpn: nat, data: Page) {
    && IsSpace(vm, d) && vpn < USERPAGES && Walk(vm.mem, d, vpn).present && Walk(vm.mem, d, vpn).frame < |vm.mem|
    && vm' == vm.(mem := vm.mem[Walk(vm.mem, d, vpn).frame := Data(data)])
  }

  /** Page tables and directories are not data, so no translation changes. */
  lemma StoreWalk(vm: Vm, vm': Vm, d: nat, vpn: nat, data: Page, v: nat)
    requires vm.Inv() && Stores(vm, vm', d, vpn, data)
    ensures Walk(vm'.mem, d, v) == Walk(vm.mem, d, v) && forall x: nat :: Pde(vm'.mem, d, x) == Pde(vm.mem, d, x)
  {
    PageOwned(vm, d, vpn);
    DirIsTable(vm, d);
    if Pde(vm.mem, d, v / NENTRIES).present {
      TableOwned(vm, d, v / NENTRIES);
    }
  }

  lemma StoreData(vm: Vm, vm': Vm, d: nat, vpn: nat, data: Page, v: nat)
    requires vm.Inv() && Stores(vm, vm', d, vpn, data) && v < USERPAGES
    ensures UserData(vm'.mem, d, v) == if v == vpn then data else UserData(vm.mem, d, v)
  {
    StoreWalk(vm, vm', d, vpn, data, v);
    PageOwned(vm, d, vpn);
    if Walk(vm.mem, d, v).present {
      PageOwned(vm, d, v);
    }
  }

  lemma StoreKeepsInv(vm: Vm, vm': Vm, d: nat, vpn: nat, data: Page)
    requires vm.Inv() && Stores(vm, vm', d, vpn, data)
    ensures vm'.Inv() && SameElsewhere(vm, vm', d)
  {
    PageOwned(vm, d, vpn);
    DirIsTable(vm, d);
    assert SameElsewhere(vm, vm', d);
    forall v: nat ensures Walk(vm'.mem, d, v) == Walk(vm.mem, d, v) && forall x: nat :: Pde(vm'.mem, d, x) == Pde(vm.mem, d, x) {
      StoreWalk(vm, vm', d, vpn, data, v);
    }
    assert SpaceOk(vm.mem, vm.owner, d);
    hide Walk, Pde;
    assert SpaceOk(vm'.mem, vm'.owner, d);
    forall f | f in vm'.owner && SpaceOf(vm'.owner[f]) == d ensures Referenced(vm'.mem, vm'.owner, f, vm'.owner[f]) {
      assert Referenced(vm.mem, vm.owner, f, vm.owner[f]);
    }
    StepKeepsInv(vm, vm', d);
  }

  /** The bytes w are at user addresses from va on; nothing else has changed. */
  ghost predicate Copied(vm: Vm, vm': Vm, d: nat, va: nat, w: seq<byte>) {
    && vm'.owner == vm.owner && vm'.free == vm.free && SameElsewhere(vm, vm', d)
    && (forall v: nat :: Walk(vm'.mem, d, v) == Walk(vm.mem, d, v))
    && (forall x: nat :: Pde(vm'.mem, d, x) == Pde(vm.mem, d, x))
    && (forall a: nat :: a < USERPAGES * PGSIZE ==>
          UserByte(vm'.mem, d, a) == if va <= a < va + |w| then w[a - va] else UserByte(vm.mem, d, a))
  }

  /** The page after memmove of w to place o of it. */
  function Patched(p: Page, o: nat, w: seq<byte>): (r: Page)
    requires o + |w| <= PGSIZE
    ensures forall k: nat :: k < PGSIZE ==> r[k] == if o <= k < o + |w| then w[k - o] else p[k]
  {
    p[..o] + w + p[o + |w|..]
  }

  lemma StoredByte(vm: Vm, vm': Vm, d: nat, vpn: nat, o: nat, w: seq<byte>, a: nat)
    requires vm.Inv() && o + |w| <= PGSIZE && a < USERPAGES * PGSIZE && |UserData(vm.mem, d, vpn)| == PGSIZE
    requires Stores(vm, vm', d, vpn, Patched(UserData(vm.mem, d, vpn), o, w))
    ensures var b := vpn * PGSIZE + o;
      UserByte(vm'.mem, d, a) == if b <= a < b + |w| then w[a - b] else UserByte(vm.mem, d, a)
  {
    StoreData(vm, vm', d, vpn, Patched(UserData(vm.mem, d, vpn), o, w), a / PGSIZE);
  }

  lemma StoreTables(vm: Vm, vm': Vm, d: nat, vpn: nat, data: Page)
    requires vm.Inv() && Stores(vm, vm', d, vpn, data)
    ensures forall v: nat :: Walk(vm'.mem, d, v) == Walk(vm.mem, d, v)
    ensures forall x: nat :: Pde(vm'.mem, d, x) == Pde(vm.mem, d, x)
  {
    forall v: nat ensures Walk(vm'.mem, d, v) == Walk(vm.mem, d, v) {
      StoreWalk(vm, vm', d, vpn, data, v);
    }
    StoreWalk(vm, vm', d, vpn, data, 0);
  }

  lemma ByteMore(vm1: Vm, vm2: Vm, d: nat, va: nat, buf: seq<byte>, k: nat, n: nat, vpn: nat, o: nat, a: nat, was: byte)
    requires k + n <= |buf| && o + n <= PGSIZE && vm1.Inv() && a < USERPAGES * PGSIZE
    requires |UserData(vm1.mem, d, vpn)| == PGSIZE && va + k == vpn * PGSIZE + o
    requires Stores(vm1, vm2, d, vpn, Patched(UserData(vm1.mem, d, vpn), o, buf[k..k + n]))
    requires UserByte(vm1.mem, d, a) == if va <= a < va + k then buf[a - va] else was
    ensures UserByte(vm2.mem, d, a) == if va <= a < va + k + n then buf[a - va] else was
  {
    hide Walk, UserByte, Vm.Inv, Patched, UserData, Stores;
    StoredByte(vm1, vm2, d, vpn, o, buf[k..k + n], a);
  }

  /** One more page of a copy. */
  lemma CopiedMore(vm: Vm, vm1: Vm, vm2: Vm, d: nat, va: nat, buf: seq<byte>, k: nat, n: nat, vpn: nat, o: nat)
    requires k + n <= |buf| && o + n <= PGSIZE && vm.Inv() && vm1.Inv() && Copied(vm, vm1, d, va, buf[..k])
    requires |UserData(vm1.mem, d, vpn)| == PGSIZE && va + k == vpn * PGSIZE + o
    requires Stores(vm1, vm2, d, vpn, Patched(UserData(vm1.mem, d, vpn), o, buf[k..k + n]))
    ensures vm2.Inv() && Copied(vm, vm2, d, va, buf[..k + n])
  {
    var data := Patched(UserData(vm1.mem, d, vpn), o, buf[k..k + n]);
    assert vm2.owner == vm1.owner && vm2.free == vm1.free;
    hide Walk, Pde, UserByte, Vm.Inv, SameElsewhere, Patched, UserData, Stores;
    StoreKeepsInv(vm1, vm2, d, vpn, data);
    StoreTables(vm1, vm2, d, vpn, data);
    ElsewhereTwice(vm, vm1, vm2, d);
    forall a: nat | a < USERPAGES * PGSIZE
      ensures UserByte(vm2.mem, d, a) == if va <= a < va + k + n then buf[a - va] else UserByte(vm.mem, d, a)
    {
      ByteMore(vm1, vm2, d, va, buf, k, n, vpn, o, a, UserByte(vm.mem, d, a));
    }
  }

  lemma CopiedReady(vm: Vm, vm': Vm, d: nat, va: nat, w: seq<byte>, dataPage: nat)
    requires Ready(vm, d, dataPage) && Copied(vm, vm', d, va, w)
    ensures Ready(vm', d, dataPage)
  {
    hide Walk, Pde, UserByte, SameElsewhere;
  }

  /** There is a page table for the page, so that walkpgdir does not return 0. */
  predicate Tabled(mem: seq<Frame>, d: nat, vpn: nat) { Pde(mem, d, vpn / NENTRIES).present }

  /** Only user memory is for user code. */
  lemma UsableBelow(vm: Vm, d: nat, dataPage: nat, vpn: nat)
    requires Ready(vm, d, dataPage) && Usable(vm.mem, d, vpn)
    ensures vpn < USERPAGES && Tabled(vm.mem, d, vpn + 1)
  {
    assert vpn < LASTPAGE;
    assert vpn >= USERPAGES ==> Walk(vm.mem, d, vpn) == KernelPte(vpn, dataPage);
    assert (vpn + 1) / NENTRIES == 0;
  }

  /** The page after a usable one has a page table. */
  lemma NextPage(vm: Vm, vm1: Vm, d: nat, dataPage: nat, vpn: nat, va: nat, done: nat, n: nat, len: nat)
    requires Ready(vm, d, dataPage) && Usable(vm1.mem, d, vpn) && Walk(vm1.mem, d, vpn) == Walk(vm.mem, d, vpn)
    requires vpn == (va + done) / PGSIZE && done <= len
    requires n == if PGSIZE - (va + done) % PGSIZE > len - done then len - done else PGSIZE - (va + done) % PGSIZE
    ensures Usable(vm.mem, d, vpn) && (done + n < len ==> Tabled(vm.mem, d, (va + done + n) / PGSIZE))
  {
    UsableBelow(vm, d, dataPage, vpn);
    if done + n < len {
      assert (va + done + n) / PGSIZE == vpn + 1;
    }
  }

  /** uva2ka.  It looks at the page table without asking whether there is one. */
  method Uva2ka(m: Memory, d: nat, vpn: nat) returns (r: Option<nat>)
    requires m.Valid() && Ready(m.V(), d, m.dataPage) && Tabled(m.mem, d, vpn)
    ensures r == if Usable(m.mem, d, vpn) then Some(Walk(m.mem, d, vpn).frame) else None
    ensures r.Some? ==> vpn < USERPAGES
  {
    DirIsTable(m.V(), d);
    TableOwned(m.V(), d, vpn / NENTRIES);
    var pte := m.mem[m.mem[d].e[vpn / NENTRIES].frame].e[vpn % NENTRIES];
    if !pte.present {
      return None;
    }
    if !pte.user {
      return None;
    }
    UsableBelow(m.V(), d, m.dataPage, vpn);
    return Some(pte.frame);
  }

  /** memmove into the frame of a user page. */
  method PutBytes(m: Memory, d: nat, vpn: nat, pa: nat, o: nat, w: seq<byte>)
    requires m.Valid() && IsSpace(m.V(), d) && vpn < USERPAGES && Walk(m.mem, d, vpn).present && pa == Walk(m.mem, d, vpn).frame
    requires o + |w| <= PGSIZE
    modifies m`mem
    ensures |UserData(old(m.mem), d, vpn)| == PGSIZE
    ensures Stores(old(m.V()), m.V(), d, vpn, Patched(UserData(old(m.mem), d, vpn), o, w))
  {
    PageOwned(m.V(), d, vpn);
    m.mem := m.mem[pa := Data(Patched(m.mem[pa].d, o, w))];
  }

  /** The loop of copyout: the bytes before the first page that user code may not
      use. */
  method CopyPages(m: Memory, d: nat, va: nat, buf: seq<byte>) returns (done: nat)
    requires m.Valid() && Ready(m.V(), d, m.dataPage) && (|buf| > 0 ==> Tabled(m.mem, d, va / PGSIZE))
    modifies m`mem
    ensures m.Valid() && done <= |buf| && Copied(old(m.V()), m.V(), d, va, buf[..done])
    ensures AllUsable(old(m.mem), d, va, done)
    ensures done < |buf| ==> !Usable(old(m.mem), d, (va + done) / PGSIZE)
  {
    ghost var vm := m.V();
    done := 0;
    assert AllUsable(vm.mem, d, va, 0);
    hide Walk, Pde, UserData, Vm.Inv, SameElsewhere, KernelPte, Stores, UserByte, Patched, AllUsable, Usable;
    while done < |buf|
      invariant done <= |buf| && m.Valid() && Copied(vm, m.V(), d, va, buf[..done]) && AllUsable(vm.mem, d, va, done)
      invariant done < |buf| ==> Tabled(vm.mem, d, (va + done) / PGSIZE)
    {
      CopiedReady(vm, m.V(), d, va, buf[..done], m.dataPage);
      var vpn, o := (va + done) / PGSIZE, (va + done) % PGSIZE;
      var pa := Uva2ka(m, d, vpn);
      if pa.None? {
        return;
      }
      var n := if PGSIZE - o > |buf| - done then |buf| - done else PGSIZE - o;
      ghost var vm1 := m.V();
      PutBytes(m, d, vpn, pa.value, o, buf[done..done + n]);
      CopiedMore(vm, vm1, m.V(), d, va, buf, done, n, vpn, o);
      NextPage(vm, vm1, d, m.dataPage, vpn, va, done, n, |buf|);
      UsableMore(vm.mem, d, va, done, n);
      done := done + n;
    }
  }

  /** copyout: all bytes arrive iff user code may use every page they go to;
      otherwise exactly those before the first page it may not use. */
  method CopyOut(m: Memory, d: nat, va: nat, buf: seq<byte>) returns (r: int, ghost done: nat)
    requires m.Valid() && Ready(m.V(), d, m.dataPage) && (|buf| > 0 ==> Tabled(m.mem, d, va / PGSIZE))
    modifies m`mem
    ensures m.Valid() && done <= |buf| && Copied(old(m.V()), m.V(), d, va, buf[..done])
    ensures r == if AllUsable(old(m.mem), d, va, |buf|) then 0 else -1
    ensures r == 0 ==> done == |buf|
    ensures r == -1 ==>
              done < |buf| && !Usable(old(m.mem), d, (va + done) / PGSIZE) && AllUsable(old(m.mem), d, va, done)
  {
    var n := CopyPages(m, d, va, buf);
    if n < |buf| {
      UnusableThere(old(m.mem), d, va, n, |buf|);
      return -1, n;
    }
    return 0, n;
  }
}

/** The loops of kernel/proc.c over ptable.proc, in place, against the functions
    that the step model uses. */
module ProcLoops {
  import opened Prelude
  import opened Proc

  /** wakeup1 */
  method Wakeup1(t: array<Slot>, c: Chan)
    modifies t
    ensures t[..] == WakeAll(old(t[..]), c)
  {
    for i := 0 to t.Length
      invariant forall j: nat :: j < t.Length ==> t[j] == if j < i then WakeOne(old(t[j]), c) else old(t[j])
    {
      if t[i].state == SLEEPING && t[i].chan == Some(c) {
        t[i] := t[i].(state := RUNNABLE);
      }
    }
  }

  /** allocproc: the first free slot, marked EMBRYO with the next pid. */
  method AllocProc(t: array<Slot>, nextpid: nat) returns (r: Option<nat>)
    modifies t
    ensures r.None? ==> t[..] == old(t[..]) && forall j: nat :: j < t.Length ==> old(t[j]).state != UNUSED
    ensures r.Some? ==>
              && r.value < t.Length && old(t[r.value]).state == UNUSED
              && (forall j: nat :: j < r.value ==> old(t[j]).state != UNUSED)
              && t[..] == old(t[..])[r.value := old(t[r.value]).(state := EMBRYO, pid := nextpid)]
  {
    for i := 0 to t.Length
      invariant t[..] == old(t[..])
      invariant forall j: nat :: j < i ==> t[j].state != UNUSED
    {
      if t[i].state == UNUSED {
        t[i] := t[i].(state := EMBRYO, pid := nextpid);
        return Some(i);
      }
    }
    return None;
  }

  /** The table part of exit: wake the parent, hand the children to init, wake
      init if one of them is a zombie, become a zombie. */
  method ExitTable(t: array<Slot>, me: nat, init: nat)
    requires me < t.Length && t[me].state == RUNNING
    modifies t
    ensures t[..] == Exited(old(t[..]), me, init)
  {
    ghost var t0 := t[..];
    var parent := t[me].parent;
    if parent.Some? {
      Wakeup1(t, Entry(parent.value));
    }
    ghost var zombie := false;
    for i := 0 to t.Length
      invariant zombie <==> exists j: nat :: j < i && t0[j].parent == Some(me) && t0[j].state == ZOMBIE
      invariant forall j: nat :: j < t.Length ==> t[j] == Underway(t0, me, init, parent, zombie, i, j)
    {
      if t[i].parent == Some(me) {
        t[i] := t[i].(parent := Some(init));
        if t[i].state == ZOMBIE {
          Wakeup1(t, Entry(init));
          zombie := true;
        }
      }
    }
    t[me] := t[me].(state := ZOMBIE);
    assert zombie <==> ZombieChild(t0, me);
  }

  /** Slot j of the table when exit has passed i slots. */
  ghost function Underway(t: seq<Slot>, me: nat, init: nat, parent: Option<nat>, zombie: bool, i: nat, j: nat): Slot
    requires j < |t|
  {
    var p := t[j];
    var woken := p.state == SLEEPING &&
                 ((parent.Some? && p.chan == Some(Entry(parent.value))) || (zombie && p.chan == Some(Entry(init))));
    p.(parent := if j < i && p.parent == Some(me) then Some(init) else p.parent,
       state := if woken then RUNNABLE else p.state)
  }

  /** The scan of wait: a zombie child, or whether there is any child at all. */
  method WaitScan(t: array<Slot>, me: nat) returns (zombie: Option<nat>, havekids: bool)
    ensures zombie.Some? ==>
              zombie.value < t.Length && t[zombie.value].parent == Some(me) && t[zombie.value].state == ZOMBIE
    ensures zombie.None? <==> !ZombieChild(t[..], me)
    ensures zombie.None? ==> (havekids <==> HasChild(t[..], me))
  {
    havekids := false;
    for i := 0 to t.Length
      invariant forall j: nat :: j < i ==> !(t[j].parent == Some(me) && t[j].state == ZOMBIE)
      invariant havekids <==> exists j: nat :: j < i && t[..][j].parent == Some(me)
    {
      if t[i].parent == Some(me) {
        havekids := true;
        assert t[..][i].parent == Some(me);
        if t[i].state == ZOMBIE {
          assert t[..][i].state == ZOMBIE;
          return Some(i), true;
        }
      }
    }
    return None, havekids;
  }

  /** kill: the first process with the pid is marked and woken. */
  method KillPid(t: array<Slot>, pid: nat) returns (r: int)
    modifies t
    ensures r == -1 ==> t[..] == old(t[..]) && forall j: nat :: j < t.Length ==> old(t[j]).pid != pid
    ensures r != -1 ==>
              r == 0 && exists i: nat :: && i < t.Length && old(t[i]).pid == pid
                                         && (forall j: nat :: j < i ==> old(t[j]).pid != pid)
                                         && t[..] == old(t[..])[i := Killed(old(t[i]))]
                                         && t[i].killed && t[i].state != SLEEPING && t[i].pid == pid
                                         && (old(t[i]).state != SLEEPING ==> t[i] == old(t[i]).(killed := true))
  {
    for i := 0 to t.Length
      invariant t[..] == old(t[..])
      invariant forall j: nat :: j < i ==> t[j].pid != pid
    {
      if t[i].pid == pid {
        t[i] := t[i].(killed := true);
        if t[i].state == SLEEPING {
          t[i] := t[i].(state := RUNNABLE);
        }
        assert t[..] == old(t[..])[i := Killed(old(t[i]))];
        return 0;
      }
    }
    return -1;
  }
}

/** Every step keeps the cache in agreement with the disk, the ring in order of
    release and the disk queue first-in first-out. */
module BcacheProof {
  import opened Prelude
  import opened Bcache

  /** Client c has buffer b. */
  predicate UsedBy(s: State, c: nat, b: nat) { c < |s.clients| && Uses(s.clients[c]) && s.clients[c].b == b }

  ghost predicate BufOk(s: State, b: nat)
    requires b < |s.bufs|
  {
    var buf := s.bufs[b];
    && (buf.busy <==> exists c: nat :: UsedBy(s, c, b))
    && (buf.busy || buf.valid ==> buf.key.Some?)
    && (!buf.busy ==> !buf.dirty && !buf.changed)
    && (buf.valid && !buf.changed && !buf.dirty ==> buf.data == Sector(s.disk, buf.key.value))
  }

  predicate RequestOk(buf: Buf, queued: bool) {
    && (queued <==> !(buf.valid && !buf.dirty))
    && (queued && !buf.dirty ==> !buf.changed)
    && (!queued ==> !buf.changed)
  }

  ghost predicate ClientOk(s: State, c: nat)
    requires c < |s.clients|
  {
    var cl := s.clients[c];
    Uses(cl) ==>
      && cl.b < |s.bufs|
      && var buf := s.bufs[cl.b];
         match cl
         case Fetching(b) => !buf.valid && !buf.dirty && !buf.changed && b !in s.queue
         case Flushing(b) => buf.valid && buf.dirty && b !in s.queue
         case Queued(b) => RequestOk(buf, b in s.queue)
         case Sleeps(b) => RequestOk(buf, b in s.queue)
         case Holds(b) => buf.valid && !buf.dirty && b !in s.queue
  }

  /** At most one buffer caches a sector, and it has at most one holder. */
  ghost predicate Single(s: State) {
    && (forall c: nat, d: nat, b: nat :: UsedBy(s, c, b) && UsedBy(s, d, b) ==> c == d)
    && (forall a: nat, b: nat :: a < b < |s.bufs| && s.bufs[a].key.Some? ==> s.bufs[a].key != s.bufs[b].key)
  }

  /** The queue holds distinct buffers of waiting clients, the disk works for the
      first of them, and requests are served in the order they were made. */
  ghost predicate QueueOk(s: State) {
    && NoDup(s.queue)
    && (forall b :: b in s.queue ==> b < |s.bufs| && exists c: nat :: UsedBy(s, c, b) && InIderw(s.clients[c]))
    && (s.queue == [] ==> s.active.None?)
    && (s.queue != [] ==> s.active.Some? && s.active == StartCommand(s.bufs, s.queue[0]))
    && s.served <= |s.requests| && s.requests[s.served..] == s.queue
  }

  /** The ring is a permutation of the buffers, ordered by latest release. */
  ghost predicate RingOk(s: State) {
    && |s.ring| == |s.bufs| == |s.stamp|
    && NoDup(s.ring)
    && (forall b: nat :: b in s.ring <==> b < |s.bufs|)
    && (forall b: nat :: b < |s.stamp| ==> s.stamp[b] < s.clock)
    && (forall i: nat, j: nat :: i < j < |s.ring| && s.ring[i] < |s.stamp| && s.ring[j] < |s.stamp| ==>
          s.stamp[s.ring[i]] > s.stamp[s.ring[j]])
  }

  ghost predicate CacheOk(s: State) {
    && (forall b: nat :: b < |s.bufs| ==> BufOk(s, b))
    && (forall c: nat :: c < |s.clients| ==> ClientOk(s, c))
    && Single(s)
  }

  ghost predicate Core(s: State) { CacheOk(s) && QueueOk(s) && RingOk(s) }

  /** Who sleeps has something to sleep for: in bget a buffer that is held and
      caches the sector, in iderw a request that is not served. */
  ghost predicate SleeperOk(s: State, c: nat)
    requires c < |s.clients|
  {
    match s.clients[c]
    case Dozes(k, b) => b < |s.bufs| && s.bufs[b].busy && s.bufs[b].key == Some(k)
    case Sleeps(b) => b in s.queue
    case _ => true
  }

  ghost predicate SleepersOk(s: State) { forall c: nat :: c < |s.clients| ==> SleeperOk(s, c) }

  ghost predicate Inv(s: State) { Core(s) && SleepersOk(s) }

  // ---------- steps that leave queue and disk alone ----------

  /** Client c moves from cl to cl', and buffer b, which it has before or after,
      changes; nobody else is concerned. */
  ghost predicate Moves(s: State, s': State, c: nat, b: nat) {
    && c < |s.clients| && b < |s.bufs| && |s'.clients| == |s.clients| && |s'.bufs| == |s.bufs|
    && s'.clients == s.clients[c := s'.clients[c]] && s'.bufs == s.bufs[b := s'.bufs[b]]
    && s'.queue == s.queue && s'.disk == s.disk && s'.active == s.active
    && s'.requests == s.requests && s'.served == s.served
    && (Uses(s.clients[c]) ==> s.clients[c].b == b)
    && (Uses(s'.clients[c]) ==> s'.clients[c].b == b)
    && (!Uses(s.clients[c]) && Uses(s'.clients[c]) ==> !s.bufs[b].busy)
    && (s'.bufs[b].busy <==> Uses(s'.clients[c]))
  }

  lemma MoveKeepsUse(s: State, s': State, c: nat, b: nat)
    requires CacheOk(s) && Moves(s, s', c, b)
    ensures forall d: nat, a: nat :: d != c ==> (UsedBy(s', d, a) <==> UsedBy(s, d, a))
    ensures forall d: nat :: d != c && Uses(s.clients[c]) ==> !UsedBy(s, d, b)
    ensures forall d: nat :: d != c && Uses(s'.clients[c]) ==> !UsedBy(s, d, b)
  {
    assert BufOk(s, b);
    if Uses(s.clients[c]) {
      assert UsedBy(s, c, b);
    }
  }

  lemma MoveKeepsCache(s: State, s': State, c: nat, b: nat)
    requires CacheOk(s) && Moves(s, s', c, b)
    requires Uses(s.clients[c]) || Uses(s'.clients[c])
    requires ClientOk(s', c)
    requires var buf := s'.bufs[b];
      && (buf.busy || buf.valid ==> buf.key.Some?)
      && (!buf.busy ==> !buf.dirty && !buf.changed)
      && (buf.valid && !buf.changed && !buf.dirty ==> buf.data == Sector(s.disk, buf.key.value))
    requires s'.bufs[b].key == s.bufs[b].key || forall a: nat :: a < |s.bufs| && a != b ==> s.bufs[a].key != s'.bufs[b].key
    ensures CacheOk(s')
  {
    MoveKeepsUse(s, s', c, b);
    forall d: nat | d < |s.clients| ensures ClientOk(s', d) {
      assert ClientOk(s, d);
      if d != c && Uses(s.clients[d]) {
        assert UsedBy(s, d, s.clients[d].b);
      }
    }
    forall a: nat | a < |s.bufs| ensures BufOk(s', a) {
      assert BufOk(s, a);
      if a == b {
        assert Uses(s'.clients[c]) ==> UsedBy(s', c, b);
      } else if s.bufs[a].busy {
        var d: nat :| UsedBy(s, d, a);
        assert UsedBy(s', d, a);
      } else {
        forall d: nat ensures !UsedBy(s', d, a) {
        }
      }
    }
  }

  lemma MoveKeepsQueue(s: State, s': State, c: nat, b: nat)
    requires CacheOk(s) && QueueOk(s) && Moves(s, s', c, b) && b !in s.queue
    ensures QueueOk(s')
  {
    forall a | a in s.queue ensures exists d: nat :: UsedBy(s', d, a) && InIderw(s'.clients[d]) {
      var d: nat :| UsedBy(s, d, a) && InIderw(s.clients[d]);
      assert UsedBy(s', d, a) && InIderw(s'.clients[d]);
    }
  }

  /** A buffer that nobody has is not in the queue. */
  lemma FreeNotQueued(s: State, b: nat)
    requires CacheOk(s) && QueueOk(s) && b < |s.bufs| && !s.bufs[b].busy
    ensures b !in s.queue
  {
    assert BufOk(s, b);
  }

  /** The client moves within bget or within iderw, or into or out of bget. */
  predicate SameUse(c: Client, c': Client) {
    && (Uses(c) <==> Uses(c'))
    && (Uses(c) ==> c'.b == c.b && (c' == c || (InIderw(c) && InIderw(c'))))
  }

  lemma SameUseKeepsCore(s: State, s': State)
    requires Core(s) && s' == s.(clients := s'.clients) && |s'.clients| == |s.clients|
    requires forall d: nat :: d < |s.clients| ==> SameUse(s.clients[d], s'.clients[d])
    ensures Core(s')
  {
    forall d: nat, b: nat ensures UsedBy(s', d, b) <==> UsedBy(s, d, b) {
    }
    forall b: nat | b < |s.bufs| ensures BufOk(s', b) {
      assert BufOk(s, b);
    }
    forall d: nat | d < |s.clients| ensures ClientOk(s', d) {
      assert ClientOk(s, d);
    }
    forall a | a in s.queue ensures exists d: nat :: UsedBy(s', d, a) && InIderw(s'.clients[d]) {
      var d: nat :| UsedBy(s, d, a) && InIderw(s.clients[d]);
      assert UsedBy(s', d, a) && InIderw(s'.clients[d]);
    }
  }

  lemma WakeupKeepsCore(s: State, b: nat)
    requires Core(s)
    ensures Core(Wakeup(s, b))
  {
    SameUseKeepsCore(s, Wakeup(s, b));
  }

  lemma GetKeepsCore(s: State, c: nat)
    requires Core(s) && Enabled(s, c, Get)
    ensures Core(DoGet(s, c))
  {
    var s', k := DoGet(s, c), s.clients[c].key;
    var hit := Cached(s.ring, s.bufs, k);
    if hit.None? || !s.bufs[hit.value].busy {
      var b := if hit.Some? then hit.value else Victim(s.ring, s.bufs).value;
      assert BufOk(s, b);
      FreeNotQueued(s, b);
      assert s.bufs[b := s'.bufs[b]] == s'.bufs && s.clients[c := s'.clients[c]] == s'.clients;
      MoveKeepsCache(s, s', c, b);
      MoveKeepsQueue(s, s', c, b);
    } else {
      SameUseKeepsCore(s, s');
    }
  }

  /** Return, Change and Write. */
  lemma HolderKeepsCore(s: State, c: nat, st: Step)
    requires Core(s) && Enabled(s, c, st) && (st.Return? || st.Change? || st.Write?)
    ensures Core(Do(s, c, st))
  {
    var s', b := Do(s, c, st), s.clients[c].b;
    assert ClientOk(s, c) && BufOk(s, b) && UsedBy(s, c, b);
    assert s.bufs[b := s'.bufs[b]] == s'.bufs && s.clients[c := s'.clients[c]] == s'.clients;
    MoveKeepsCache(s, s', c, b);
    MoveKeepsQueue(s, s', c, b);
  }

  // ---------- brelse and the ring ----------

  lemma {:induction false} WithoutOnce(ring: seq<nat>, b: nat, i: nat)
    requires NoDup(ring) && i < |ring| && ring[i] == b
    ensures Without(ring, b) == ring[..i] + ring[i + 1..]
  {
    assert NoDup(ring[1..]);
    if i > 0 {
      WithoutOnce(ring[1..], b, i - 1);
      assert ring[1..][..i - 1] == ring[1..i] && ring[1..][i..] == ring[i + 1..];
      assert ring[..i] == [ring[0]] + ring[1..i];
    } else {
      WithoutNone(ring[1..], b);
    }
  }

  lemma {:induction false} WithoutNone(ring: seq<nat>, b: nat)
    requires b !in ring
    ensures Without(ring, b) == ring
  {
    if ring != [] {
      WithoutNone(ring[1..], b);
    }
  }

  lemma FrontKeepsRing(s: State, s': State, b: nat)
    requires RingOk(s) && b < |s.bufs| && |s'.bufs| == |s.bufs|
    requires s'.ring == ToFront(s.ring, b) && s'.stamp == s.stamp[b := s.clock] && s'.clock == s.clock + 1
    ensures RingOk(s')
  {
    assert b in s.ring;
    var i: nat :| i < |s.ring| && s.ring[i] == b;
    FrontIs(s.ring, i);
    var r := s'.ring;
    hide ToFront;
    forall k: nat, l: nat | k < l < |r|
      ensures r[k] != r[l] && r[k] < |s'.stamp| && r[l] < |s'.stamp| && s'.stamp[r[k]] > s'.stamp[r[l]]
    {
      FrontOrder(s, i, k, l);
      FrontMember(s.ring, i, k);
      FrontMember(s.ring, i, l);
    }
  }

  lemma FrontIs(ring: seq<nat>, i: nat)
    requires NoDup(ring) && i < |ring|
    ensures |ToFront(ring, ring[i])| == |ring|
    ensures forall k: nat :: k < |ring| ==> ToFront(ring, ring[i])[k] == FrontAt(ring, i, k)
    ensures forall x :: x in ToFront(ring, ring[i]) <==> x in ring
  {
    WithoutOnce(ring, ring[i], i);
  }

  /** Element k of the ring once its element i has gone to the front. */
  ghost function FrontAt(ring: seq<nat>, i: nat, k: nat): nat
    requires i < |ring| && k < |ring|
  {
    if k == 0 then ring[i] else if k <= i then ring[k - 1] else ring[k]
  }

  lemma FrontMember(ring: seq<nat>, i: nat, k: nat)
    requires NoDup(ring) && i < |ring| && k < |ring|
    ensures FrontAt(ring, i, k) in ring
    ensures FrontAt(ring, i, k) == ring[i] <==> k == 0
  {
  }

  lemma FrontOrder(s: State, i: nat, k: nat, l: nat)
    requires RingOk(s) && i < |s.ring| && k < l < |s.ring|
    ensures var x, y := FrontAt(s.ring, i, k), FrontAt(s.ring, i, l);
            x != y && x < |s.stamp| && y < |s.stamp| && (k > 0 ==> s.stamp[x] > s.stamp[y])
  {
    FrontMember(s.ring, i, k);
    FrontMember(s.ring, i, l);
  }

  lemma ReleaseKeepsCore(s: State, c: nat)
    requires Core(s) && Enabled(s, c, Release)
    ensures Core(Do(s, c, Release))
  {
    var s', b := GiveBack(s, c), s.clients[c].b;
    assert ClientOk(s, c) && BufOk(s, b) && UsedBy(s, c, b);
    assert s.bufs[b := s'.bufs[b]] == s'.bufs && s.clients[c := s'.clients[c]] == s'.clients;
    MoveKeepsCache(s, s', c, b);
    MoveKeepsQueue(s, s', c, b);
    FrontKeepsRing(s, s', b);
    WakeupKeepsCore(s', b);
  }

  // ---------- iderw and ideintr ----------

  lemma EnqueueKeepsCache(s: State, c: nat)
    requires CacheOk(s) && Enabled(s, c, Enqueue)
    ensures CacheOk(DoEnqueue(s, c)) && s.clients[c].b !in s.queue
    ensures forall d: nat, a: nat :: UsedBy(DoEnqueue(s, c), d, a) <==> UsedBy(s, d, a)
  {
    var s', b := DoEnqueue(s, c), s.clients[c].b;
    assert ClientOk(s, c) && UsedBy(s, c, b);
    forall d: nat, a: nat ensures UsedBy(s', d, a) <==> UsedBy(s, d, a) {
    }
    forall d: nat | d < |s.clients| ensures ClientOk(s', d) {
      assert ClientOk(s, d);
      if Uses(s.clients[d]) {
        assert UsedBy(s, d, s.clients[d].b);
      }
    }
    forall a: nat | a < |s.bufs| ensures BufOk(s', a) {
      assert BufOk(s, a);
    }
  }

  lemma EnqueueKeepsCore(s: State, c: nat)
    requires Core(s) && Enabled(s, c, Enqueue)
    ensures Core(DoEnqueue(s, c))
  {
    var s', b := DoEnqueue(s, c), s.clients[c].b;
    EnqueueKeepsCache(s, c);
    assert ClientOk(s, c) && UsedBy(s, c, b) && UsedBy(s', c, b) && BufOk(s, b);
    forall a | a in s'.queue ensures a < |s.bufs| && exists d: nat :: UsedBy(s', d, a) && InIderw(s'.clients[d]) {
      if a != b {
        var d: nat :| UsedBy(s, d, a) && InIderw(s.clients[d]);
        assert UsedBy(s', d, a) && InIderw(s'.clients[d]);
      }
    }
    assert s'.requests[s'.served..] == s'.queue;
  }

  lemma InterruptKeepsCache(s: State)
    requires CacheOk(s) && QueueOk(s) && s.queue != []
    ensures CacheOk(Serve(s))
  {
    var s', b := Serve(s), s.queue[0];
    forall d: nat, a: nat ensures UsedBy(s', d, a) <==> UsedBy(s, d, a) {
    }
    forall a ensures a in s'.queue <==> a in s.queue && a != b {
      assert s.queue == [b] + s'.queue;
    }
    forall d: nat | d < |s.clients| ensures ClientOk(s', d) {
      assert ClientOk(s, d);
    }
    assert BufOk(s, b);
    forall a: nat | a < |s.bufs| ensures BufOk(s', a) {
      assert BufOk(s, a);
      assert a != b && s.bufs[a].key.Some? ==> s.bufs[a].key != s.bufs[b].key;
    }
  }

  lemma InterruptKeepsCore(s: State)
    requires Core(s) && s.queue != []
    ensures Core(Wakeup(Serve(s), s.queue[0]))
  {
    var s', b := Serve(s), s.queue[0];
    InterruptKeepsCache(s);
    forall a | a in s'.queue ensures a < |s.bufs| && exists d: nat :: UsedBy(s', d, a) && InIderw(s'.clients[d]) {
      assert a in s.queue;
      var d: nat :| UsedBy(s, d, a) && InIderw(s.clients[d]);
      assert UsedBy(s', d, a) && InIderw(s'.clients[d]);
    }
    if s'.queue != [] {
      var a := s'.queue[0];
      assert a == s.queue[1] && a in s.queue;
      assert BufOk(s, a);
    }
    assert s'.requests[s'.served..] == s'.queue;
    WakeupKeepsCore(s', b);
  }

  // ---------- who sleeps ----------

  /** brelse wakes everyone who waits for the buffer. */
  lemma ReleaseKeepsSleepers(s: State, c: nat)
    requires Inv(s) && Enabled(s, c, Release)
    ensures SleepersOk(Do(s, c, Release))
  {
    var s' := Do(s, c, Release);
    forall d: nat | d < |s'.clients| ensures SleeperOk(s', d) {
      assert SleeperOk(s, d);
    }
  }

  /** ideintr wakes everyone who waits for the buffer it has served. */
  lemma InterruptKeepsSleepers(s: State, c: nat)
    requires Inv(s) && Enabled(s, c, Interrupt)
    ensures SleepersOk(Do(s, c, Interrupt))
  {
    var s', b := Do(s, c, Interrupt), s.queue[0];
    forall a ensures a in s'.queue <==> a in s.queue && a != b {
      assert s.queue == [b] + s'.queue;
    }
    forall d: nat | d < |s'.clients| ensures SleeperOk(s', d) {
      assert SleeperOk(s, d);
    }
  }

  lemma StepKeepsSleepers(s: State, c: nat, st: Step)
    requires Inv(s) && Enabled(s, c, st) && !st.Release? && !st.Interrupt?
    ensures SleepersOk(Do(s, c, st))
  {
    var s' := Do(s, c, st);
    assert ClientOk(s, c);
    forall d: nat | d < |s'.clients| ensures SleeperOk(s', d) {
      assert SleeperOk(s, d);
    }
  }

  // ---------- every run ----------

  lemma InitInv(s: State)
    requires Init(s)
    ensures Inv(s)
  {
    forall b: nat ensures b in s.ring <==> b < |s.bufs| {
      if b < |s.bufs| {
        assert s.ring[|s.bufs| - 1 - b] == b;
      }
    }
  }

  lemma StepKeepsCore(s: State, c: nat, st: Step)
    requires Core(s) && Enabled(s, c, st)
    ensures Core(Do(s, c, st))
  {
    match st {
      case Get => GetKeepsCore(s, c);
      case Enqueue => EnqueueKeepsCore(s, c);
      case Release => ReleaseKeepsCore(s, c);
      case Interrupt => InterruptKeepsCore(s);
      case Return => HolderKeepsCore(s, c, st);
      case Change(_) => HolderKeepsCore(s, c, st);
      case Write => HolderKeepsCore(s, c, st);
      case _ => SameUseKeepsCore(s, Do(s, c, st));
    }
  }

  lemma StepKeepsInv(s: State, c: nat, st: Step)
    requires Inv(s) && Enabled(s, c, st)
    ensures Inv(Do(s, c, st))
  {
    StepKeepsCore(s, c, st);
    if st.Release? {
      ReleaseKeepsSleepers(s, c);
    } else if st.Interrupt? {
      InterruptKeepsSleepers(s, c);
    } else {
      StepKeepsSleepers(s, c, st);
    }
  }

  ghost predicate Next(s: State, s': State) {
    exists c: nat, st: Step :: Enabled(s, c, st) && s' == Do(s, c, st)
  }

  ghost predicate IsRun(run: seq<State>) {
    |run| > 0 && Init(run[0]) && forall k: nat :: k + 1 < |run| ==> Next(run[k], run[k + 1])
  }

  lemma {:induction false} RunInv(run: seq<State>, k: nat)
    requires IsRun(run) && k < |run|
    ensures Inv(run[k])
  {
    if k == 0 {
      InitInv(run[0]);
    } else {
      RunInv(run, k - 1);
      assert Next(run[k - 1], run[k - 1 + 1]);
      var c: nat, st: Step :| Enabled(run[k - 1], c, st) && run[k] == Do(run[k - 1], c, st);
      StepKeepsInv(run[k - 1], c, st);
    }
  }

  /** In every reachable state a sector is cached at most once, a buffer has at
      most one holder, and a valid buffer that nobody holds equals the disk. */
  lemma CacheAgrees(run: seq<State>, k: nat, a: nat, b: nat)
    requires IsRun(run) && k < |run| && a < |run[k].bufs| && b < |run[k].bufs|
    ensures var s := run[k];
            && (a != b && s.bufs[a].key.Some? ==> s.bufs[a].key != s.bufs[b].key)
            && (forall c: nat, d: nat :: UsedBy(s, c, a) && UsedBy(s, d, a) ==> c == d)
            && (s.bufs[a].busy <==> exists c: nat :: UsedBy(s, c, a))
            && (s.bufs[a].valid && !s.bufs[a].busy ==>
                  s.bufs[a].key.Some? && s.bufs[a].data == Sector(s.disk, s.bufs[a].key.value))
  {
    RunInv(run, k);
    assert BufOk(run[k], a);
  }

  /** bread and bwrite return with the buffer valid, clean and equal to its
      sector; until the client changes it, it stays so. */
  lemma HeldEqualsDisk(run: seq<State>, k: nat, c: nat)
    requires IsRun(run) && k < |run| && c < |run[k].clients| && run[k].clients[c].Holds?
    ensures var s, b := run[k], run[k].clients[c].b;
            && b < |s.bufs| && s.bufs[b].valid && !s.bufs[b].dirty && s.bufs[b].key.Some?
            && (!s.bufs[b].changed ==> s.bufs[b].data == Sector(s.disk, s.bufs[b].key.value))
  {
    RunInv(run, k);
    assert ClientOk(run[k], c);
    assert BufOk(run[k], run[k].clients[c].b);
  }

  /** iderw returns only with its buffer valid, clean, unchanged and equal to the
      sector. */
  lemma RequestDone(run: seq<State>, k: nat, c: nat)
    requires IsRun(run) && k < |run| && Enabled(run[k], c, Return)
    ensures var s, b := run[k], run[k].clients[c].b;
            && b !in s.queue && !s.bufs[b].changed && s.bufs[b].key.Some?
            && s.bufs[b].data == Sector(s.disk, s.bufs[b].key.value)
  {
    RunInv(run, k);
    assert ClientOk(run[k], c);
    assert BufOk(run[k], run[k].clients[c].b);
  }

  /** No wakeup is lost: a client asleep in bget waits for a buffer that another
      client has and that caches its sector, and one asleep in iderw for a request
      that the disk has still to serve. */
  lemma SleepsForReason(run: seq<State>, k: nat, c: nat)
    requires IsRun(run) && k < |run| && c < |run[k].clients|
    ensures var s, cl := run[k], run[k].clients[c];
            cl.Dozes? ==>
              && cl.b < |s.bufs| && s.bufs[cl.b].busy && s.bufs[cl.b].key == Some(cl.key)
              && exists d: nat :: d != c && UsedBy(s, d, cl.b)
    ensures var s, cl := run[k], run[k].clients[c];
            cl.Sleeps? ==>
              && cl.b < |s.bufs| && !(s.bufs[cl.b].valid && !s.bufs[cl.b].dirty)
              && cl.b in s.queue && s.active.Some?
  {
    RunInv(run, k);
    var s, cl := run[k], run[k].clients[c];
    assert SleeperOk(s, c) && ClientOk(s, c);
    if cl.Dozes? {
      assert BufOk(s, cl.b);
      var d: nat :| UsedBy(s, d, cl.b);
      assert d != c && UsedBy(s, d, cl.b);
    }
  }

  /** The cache does not deadlock: while a client is asleep, the disk can finish a
      request, or a client that has a buffer can go on towards its brelse. */
  lemma SleeperNotStuck(run: seq<State>, k: nat, c: nat)
    requires IsRun(run) && k < |run| && c < |run[k].clients| && (run[k].clients[c].Dozes? || run[k].clients[c].Sleeps?)
    ensures Enabled(run[k], c, Interrupt)
            || exists d: nat :: d != c && UsedBy(run[k], d, run[k].clients[c].b) && GoesOn(run[k], d)
  {
    SleepsForReason(run, k, c);
    RunInv(run, k);
    var s, b := run[k], run[k].clients[c].b;
    if s.clients[c].Dozes? {
      var d: nat :| d != c && UsedBy(s, d, b);
      assert ClientOk(s, d) && SleeperOk(s, d);
      if s.clients[d].Sleeps? {
        assert s.queue[0] in s.queue;
      } else {
        assert GoesOn(s, d);
      }
    } else {
      assert s.queue[0] in s.queue;
    }
  }

  ghost predicate GoesOn(s: State, d: nat) {
    Enabled(s, d, Enqueue) || Enabled(s, d, Pause) || Enabled(s, d, Return) || Enabled(s, d, Write) || Enabled(s, d, Release)
  }

  /** Requests are served in the order in which they were made, each once: the
      queue is always the requests not served yet, and the disk always works for
      the first of them. */
  lemma ServedInOrder(run: seq<State>, k: nat)
    requires IsRun(run) && k < |run|
    ensures var s := run[k];
            && s.served <= |s.requests| && s.requests[s.served..] == s.queue && NoDup(s.queue)
            && (forall b :: b in s.queue ==> b < |s.bufs| && s.bufs[b].busy)
            && (s.active.Some? <==> s.queue != [])
            && (s.queue != [] ==> s.queue[0] < |s.bufs| && s.bufs[s.queue[0]].key == Some(s.active.value.key)
                                  && s.active.value.write ==
                                     (if s.bufs[s.queue[0]].dirty then Some(s.bufs[s.queue[0]].data) else None))
  {
    RunInv(run, k);
    var s := run[k];
    forall b | b in s.queue ensures b < |s.bufs| && s.bufs[b].busy {
      assert BufOk(s, b);
    }
    if s.queue != [] {
      assert s.queue[0] in s.queue;
      assert BufOk(s, s.queue[0]);
    }
  }

  /** The ring always lists every buffer once, the latest released first. */
  lemma RingByRelease(run: seq<State>, k: nat, i: nat, j: nat)
    requires IsRun(run) && k < |run|
    ensures var s := run[k];
            && |s.ring| == |s.bufs| == |s.stamp| && (forall b: nat :: b in s.ring <==> b < |s.bufs|)
            && (i < j < |s.ring| ==>
                  && s.ring[i] != s.ring[j] && s.ring[i] < |s.stamp| && s.ring[j] < |s.stamp|
                  && s.stamp[s.ring[i]] > s.stamp[s.ring[j]])
  {
    RunInv(run, k);
    var s := run[k];
    if i < j < |s.ring| {
      assert s.ring[i] in s.ring && s.ring[j] in s.ring;
    }
  }

  /** The buffer that bget recycles is the one, of those nobody holds, that was
      released longest ago. */
  lemma RecyclesOldest(run: seq<State>, k: nat, b: nat)
    requires IsRun(run) && k < |run| && b < |run[k].bufs| && !run[k].bufs[b].busy
    ensures var s := run[k]; var v := Victim(s.ring, s.bufs);
            && v.Some? && v.value < |s.bufs| && |s.stamp| == |s.bufs|
            && !s.bufs[v.value].busy && (b == v.value || s.stamp[v.value] < s.stamp[b])
  {
    RunInv(run, k);
    var s := run[k];
    assert b in s.ring;
    var i: nat :| i < |s.ring| && s.ring[i] == b;
    VictimIsLast(s.ring, s.bufs, i);
    var j: nat :| i <= j < |s.ring| && Victim(s.ring, s.bufs) == Some(s.ring[j]);
    assert s.ring[j] in s.ring;
  }

  lemma {:induction false} VictimIsLast(ring: seq<nat>, bufs: seq<Buf>, i: nat)
    requires i < |ring| && ring[i] < |bufs| && !bufs[ring[i]].busy
    ensures exists j: nat :: i <= j < |ring| && Victim(ring, bufs) == Some(ring[j])
  {
    var n := |ring| - 1;
    if ring[n] < |bufs| && !bufs[ring[n]].busy {
      assert Victim(ring, bufs) == Some(ring[n]);
    } else {
      VictimIsLast(ring[..n], bufs, i);
      var j: nat :| i <= j < |ring[..n]| && Victim(ring[..n], bufs) == Some(ring[..n][j]);
      assert Victim(ring, bufs) == Some(ring[j]);
    }
  }
}

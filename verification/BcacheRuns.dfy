/** What clients get from the buffer cache: in every run, however the steps of
    clients, cache, queue and disk are mixed, bread gives the sector asked for, with
    the bytes of the last bwrite to it. */
module BcacheRuns {
  import opened Prelude
  import opened Bcache
  import opened BcacheProof

  /** What one client, or the disk, does next. */
  type Move = (nat, Step)

  ghost predicate Moved(s: State, m: Move, s': State) { Enabled(s, m.0, m.1) && s' == Do(s, m.0, m.1) }

  /** A run together with the moves that make it. */
  ghost predicate IsTrace(run: seq<State>, moves: seq<Move>) {
    && |run| == |moves| + 1 && Init(run[0])
    && forall k: nat :: k < |moves| ==> Moved(run[k], moves[k], run[k + 1])
  }

  lemma TraceIsRun(run: seq<State>, moves: seq<Move>)
    requires IsTrace(run, moves)
    ensures IsRun(run)
  {
    forall k: nat | k + 1 < |run| ensures Next(run[k], run[k + 1]) {
      assert Moved(run[k], moves[k], run[k + 1]);
      assert Enabled(run[k], moves[k].0, moves[k].1);
    }
  }

  // ---------- a disk without a cache ----------

  /** Sectors that are read and written at once.  Each client has asked for a sector,
      and may have changed its copy. */
  datatype Plain = Plain(disk: map<Key, Data>, asked: seq<Option<Key>>, copies: seq<Option<Data>>) {
    ghost predicate Ok(n: nat) { |asked| == |copies| == n }

    /** The bytes that client c has before it. */
    function Mine(c: nat): Data
      requires c < |asked| == |copies|
    {
      if copies[c].Some? then copies[c].value else if asked[c].Some? then Sector(disk, asked[c].value) else []
    }
  }

  /** bread asks, changes are the client's own, and bwrite writes at once; nothing
      else is there to be done. */
  function PlainStep(a: Plain, m: Move): Plain
    requires m.0 < |a.asked| == |a.copies|
  {
    var c := m.0;
    match m.1
    case Start(k) => a.(asked := a.asked[c := Some(k)], copies := a.copies[c := None])
    case Change(d) => a.(copies := a.copies[c := Some(d)])
    case Write =>
      if a.asked[c].None? then a
      else a.(disk := a.disk[a.asked[c].value := a.Mine(c)], copies := a.copies[c := None])
    case _ => a
  }

  ghost function PlainRun(disk: map<Key, Data>, n: nat, moves: seq<Move>): (a: Plain)
    ensures a.Ok(n)
  {
    if moves == [] then Plain(disk, seq(n, _ => None), seq(n, _ => None))
    else
      var a, m := PlainRun(disk, n, moves[..|moves| - 1]), moves[|moves| - 1];
      if m.0 < n then PlainStep(a, m) else a
  }

  // ---------- the cache refines it ----------

  ghost predicate ClientFits(s: State, a: Plain, c: nat)
    requires a.Ok(|s.clients|) && c < |s.clients|
  {
    var cl := s.clients[c];
    && (cl.Wants? || cl.Dozes? ==> a.asked[c] == Some(cl.key) && a.copies[c].None?)
    && (Uses(cl) ==>
          && cl.b < |s.bufs| && a.asked[c].Some? && s.bufs[cl.b].key == a.asked[c]
          && (cl.Holds? && a.copies[c].Some? ==> s.bufs[cl.b].data == a.copies[c].value)
          && (cl.Holds? && a.copies[c].None? ==> !s.bufs[cl.b].changed)
          && (!cl.Holds? ==> a.copies[c].None?))
  }

  /** The buffer that has k's bytes on their way to the disk. */
  predicate Unsaved(s: State, k: Key, b: nat) { b < |s.bufs| && s.bufs[b].key == Some(k) && s.bufs[b].dirty }

  ghost predicate SectorFits(s: State, a: Plain, k: Key) {
    && (forall b: nat :: Unsaved(s, k, b) ==> s.bufs[b].data == Sector(a.disk, k))
    && ((forall b: nat :: !Unsaved(s, k, b)) ==> Sector(s.disk, k) == Sector(a.disk, k))
  }

  ghost predicate Refines(s: State, a: Plain) {
    && a.Ok(|s.clients|)
    && (forall c: nat :: c < |s.clients| ==> ClientFits(s, a, c))
    && (forall k: Key :: SectorFits(s, a, k))
  }

  /** Who uses a buffer is alone with its sector. */
  lemma SameSector(s: State, c: nat, d: nat)
    requires Core(s) && c < |s.clients| && d < |s.clients| && Uses(s.clients[c]) && Uses(s.clients[d])
    requires s.clients[c].b < |s.bufs| && s.clients[d].b < |s.bufs|
    requires s.bufs[s.clients[c].b].key == s.bufs[s.clients[d].b].key
    ensures c == d
  {
    assert ClientOk(s, c) && ClientOk(s, d);
    var a, b := s.clients[c].b, s.clients[d].b;
    assert UsedBy(s, c, a) && UsedBy(s, d, b);
    assert BufOk(s, a);
  }

  /** A client changes one buffer, which is its own or nobody's. */
  lemma OneBuffer(s: State, c: nat, st: Step, b: nat)
    requires Inv(s) && Enabled(s, c, st) && !st.Interrupt? && b < |s.bufs|
    ensures |Do(s, c, st).bufs| == |s.bufs|
    ensures s.bufs[b].busy && !UsedBy(s, c, b) ==> Do(s, c, st).bufs[b] == s.bufs[b]
  {
  }

  /** It wakes others, and does no more to them. */
  lemma OtherClients(s: State, c: nat, st: Step, d: nat)
    requires Inv(s) && Enabled(s, c, st) && d < |s.clients| && d != c
    ensures |Do(s, c, st).clients| == |s.clients|
    ensures var cl, cl' := s.clients[d], Do(s, c, st).clients[d];
            cl' == cl || (cl.Dozes? && cl' == Wants(cl.key)) || (cl.Sleeps? && cl' == Queued(cl.b))
  {
    hide Cached, Victim, Sector, StartCommand;
  }

  lemma OtherCopies(a: Plain, m: Move, d: nat)
    requires m.0 < |a.asked| == |a.copies| && d < |a.asked| && d != m.0
    ensures var a' := PlainStep(a, m);
            |a'.asked| == |a'.copies| == |a.asked| && a'.asked[d] == a.asked[d] && a'.copies[d] == a.copies[d]
  {
  }

  /** Clients do not see each other's steps. */
  lemma OtherFits(s: State, a: Plain, m: Move, d: nat)
    requires Inv(s) && Refines(s, a) && Enabled(s, m.0, m.1) && !m.1.Interrupt? && d < |s.clients| && d != m.0
    ensures |Do(s, m.0, m.1).clients| == |s.clients| && ClientFits(Do(s, m.0, m.1), PlainStep(a, m), d)
  {
    assert m.0 < |s.clients|;
    hide Do, PlainStep, Enabled, SectorFits, QueueOk, RingOk;
    var cl := s.clients[d];
    assert ClientFits(s, a, d) && ClientOk(s, d);
    OtherClients(s, m.0, m.1, d);
    OtherCopies(a, m, d);
    if Uses(cl) {
      assert UsedBy(s, d, cl.b) && BufOk(s, cl.b);
      OneBuffer(s, m.0, m.1, cl.b);
    }
  }

  lemma OwnFits(s: State, a: Plain, m: Move)
    requires Inv(s) && Refines(s, a) && Enabled(s, m.0, m.1) && !m.1.Interrupt?
    ensures |Do(s, m.0, m.1).clients| == |s.clients| && ClientFits(Do(s, m.0, m.1), PlainStep(a, m), m.0)
  {
    var c := m.0;
    assert ClientFits(s, a, c) && ClientOk(s, c);
    if m.1.Get? {
      var hit := Cached(s.ring, s.bufs, s.clients[c].key);
      if hit.Some? {
        assert BufOk(s, hit.value);
      }
    }
  }

  lemma ServedFits(s: State, a: Plain, c: nat, d: nat)
    requires Inv(s) && Refines(s, a) && Enabled(s, c, Interrupt) && d < |s.clients|
    ensures |Do(s, c, Interrupt).clients| == |s.clients| && ClientFits(Do(s, c, Interrupt), a, d)
  {
    assert ClientFits(s, a, d) && ClientOk(s, d);
    assert s.queue[0] in s.queue;
  }

  /** A client's steps change no buffer that is on its way to the disk. */
  lemma OnItsWay(s: State, m: Move, b: nat)
    requires Inv(s) && Enabled(s, m.0, m.1) && !m.1.Interrupt? && !m.1.Write? && b < |s.bufs|
    ensures var s' := Do(s, m.0, m.1);
            && |s'.bufs| == |s.bufs| && s'.disk == s.disk
            && (s'.bufs[b] == s.bufs[b] || (!s.bufs[b].dirty && !s'.bufs[b].dirty))
  {
    if m.1.Get? {
      GetSpares(s, m.0, b);
    } else {
      assert ClientOk(s, m.0) && BufOk(s, b);
    }
  }

  lemma GetSpares(s: State, c: nat, b: nat)
    requires CacheOk(s) && Enabled(s, c, Get) && b < |s.bufs|
    ensures var s' := DoGet(s, c);
            && |s'.bufs| == |s.bufs| && s'.disk == s.disk
            && (s'.bufs[b] == s.bufs[b] || (!s.bufs[b].dirty && !s'.bufs[b].dirty))
  {
    assert BufOk(s, b);
  }

  lemma NothingSaved(s: State, m: Move)
    requires Enabled(s, m.0, m.1) && !m.1.Interrupt?
    ensures Do(s, m.0, m.1).disk == s.disk && |Do(s, m.0, m.1).bufs| == |s.bufs|
  {
    hide Cached, Victim, WakeAll, ToFront, StartCommand, Sector;
  }

  lemma PlainSame(a: Plain, m: Move)
    requires m.0 < |a.asked| == |a.copies| && !m.1.Write?
    ensures PlainStep(a, m).disk == a.disk
  {
  }

  lemma SectorKept(s: State, a: Plain, m: Move, k: Key)
    requires Inv(s) && Refines(s, a) && Enabled(s, m.0, m.1) && !m.1.Interrupt? && !m.1.Write?
    ensures SectorFits(Do(s, m.0, m.1), PlainStep(a, m), k)
  {
    assert m.0 < |s.clients|;
    hide Do, Enabled, Inv, PlainStep, ClientFits;
    var s' := Do(s, m.0, m.1);
    assert SectorFits(s, a, k);
    NothingSaved(s, m);
    PlainSame(a, m);
    forall b: nat ensures Unsaved(s', k, b) <==> Unsaved(s, k, b) {
      if b < |s.bufs| {
        OnItsWay(s, m, b);
      }
    }
    forall b: nat | Unsaved(s, k, b) ensures s'.bufs[b].data == s.bufs[b].data {
      OnItsWay(s, m, b);
    }
  }

  /** bwrite: the client's bytes are those of the sector from now on. */
  lemma SectorWritten(s: State, a: Plain, c: nat, k: Key)
    requires Inv(s) && Refines(s, a) && Enabled(s, c, Write)
    ensures SectorFits(Do(s, c, Write), PlainStep(a, (c, Write)), k)
  {
    var s', b := Do(s, c, Write), s.clients[c].b;
    assert SectorFits(s, a, k) && ClientFits(s, a, c) && ClientOk(s, c) && BufOk(s, b);
    var key := s.bufs[b].key.value;
    HeldIsMine(s, a, c);
    forall x: nat ensures Unsaved(s', k, x) <==> (x == b && k == key) || Unsaved(s, k, x) {
    }
    if k == key {
      assert Unsaved(s', k, b);
      forall x: nat | Unsaved(s', k, x) ensures x == b {
        assert s.bufs[x].key == s.bufs[b].key;
      }
    }
  }

  /** The disk has served a request. */
  lemma SectorServed(s: State, a: Plain, c: nat, k: Key)
    requires Inv(s) && Refines(s, a) && Enabled(s, c, Interrupt)
    ensures SectorFits(Do(s, c, Interrupt), a, k)
  {
    var s', b := Do(s, c, Interrupt), s.queue[0];
    assert SectorFits(s, a, k) && BufOk(s, b);
    var key := s.bufs[b].key.value;
    forall x: nat ensures Unsaved(s', k, x) <==> Unsaved(s, k, x) && x != b {
    }
    if k == key && s.bufs[b].dirty {
      assert Unsaved(s, k, b);
      forall x: nat ensures !Unsaved(s', k, x) {
        assert x < |s.bufs| && s.bufs[x].key == Some(k) ==> x == b;
      }
    } else {
      assert !Unsaved(s, k, b);
    }
  }

  /** What a client holds is what it would have without the cache. */
  lemma HeldIsMine(s: State, a: Plain, c: nat)
    requires Inv(s) && Refines(s, a) && c < |s.clients| && s.clients[c].Holds?
    ensures var b := s.clients[c].b;
            b < |s.bufs| && s.bufs[b].key == a.asked[c] && a.asked[c].Some? && s.bufs[b].data == a.Mine(c)
  {
    var b := s.clients[c].b;
    assert ClientFits(s, a, c) && ClientOk(s, c) && BufOk(s, b);
    var k := s.bufs[b].key.value;
    assert SectorFits(s, a, k);
    forall x: nat ensures !Unsaved(s, k, x) {
      assert x < |s.bufs| && s.bufs[x].key == Some(k) ==> x == b;
    }
  }

  lemma StepRefines(s: State, a: Plain, m: Move)
    requires Inv(s) && Refines(s, a) && Enabled(s, m.0, m.1)
    ensures |Do(s, m.0, m.1).clients| == |s.clients| && Refines(Do(s, m.0, m.1), PlainStep(a, m))
  {
    var s', a' := Do(s, m.0, m.1), PlainStep(a, m);
    forall d: nat | d < |s.clients| ensures |s'.clients| == |s.clients| && ClientFits(s', a', d) {
      if m.1.Interrupt? {
        ServedFits(s, a, m.0, d);
      } else if d == m.0 {
        OwnFits(s, a, m);
      } else {
        OtherFits(s, a, m, d);
      }
    }
    forall k: Key ensures SectorFits(s', a', k) {
      if m.1.Interrupt? {
        SectorServed(s, a, m.0, k);
      } else if m.1.Write? {
        SectorWritten(s, a, m.0, k);
      } else {
        SectorKept(s, a, m, k);
      }
    }
  }

  /** The sectors, the requests and the copies of a run, without the cache. */
  ghost function View(run: seq<State>, moves: seq<Move>, n: nat): Plain
    requires IsTrace(run, moves) && n <= |moves|
  {
    PlainRun(run[0].disk, |run[0].clients|, moves[..n])
  }

  lemma {:induction false} RunRefines(run: seq<State>, moves: seq<Move>, n: nat)
    requires IsTrace(run, moves) && n <= |moves|
    ensures |run[n].clients| == |run[0].clients| && Refines(run[n], View(run, moves, n))
  {
    if n > 0 {
      var h := n - 1;
      RunRefines(run, moves, h);
      TraceIsRun(run, moves);
      RunInv(run, h);
      assert Moved(run[h], moves[h], run[h + 1]);
      StepRefines(run[h], View(run, moves, h), moves[h]);
      assert moves[..n][..h] == moves[..h];
    }
  }

  /** In every run, what bread has returned to a client is the sector that the client
      asked for, with the bytes last written to it or the client's own changes. */
  lemma BreadGivesSector(run: seq<State>, moves: seq<Move>, n: nat, c: nat)
    requires IsTrace(run, moves) && n <= |moves| && c < |run[n].clients| && run[n].clients[c].Holds?
    ensures var s, a := run[n], View(run, moves, n);
            && c < |a.asked| == |a.copies| && a.asked[c].Some?
            && s.clients[c].b < |s.bufs| && s.bufs[s.clients[c].b].key == a.asked[c]
            && s.bufs[s.clients[c].b].data == a.Mine(c)
  {
    RunRefines(run, moves, n);
    TraceIsRun(run, moves);
    RunInv(run, n);
    HeldIsMine(run[n], View(run, moves, n), c);
  }

  // ---------- what reaches the disk ----------

  /** The disk changes only when it serves a buffer to be written, and then in the
      sector of that buffer alone, which gets the bytes of the buffer. */
  lemma DiskStep(s: State, m: Move, s': State, k: Key)
    requires Inv(s) && Moved(s, m, s')
    ensures Sector(s'.disk, k) ==
            if m.1.Interrupt? && Unsaved(s, k, s.queue[0]) then s.bufs[s.queue[0]].data else Sector(s.disk, k)
  {
    if m.1.Interrupt? {
      assert BufOk(s, s.queue[0]);
    }
  }

  /** A buffer's bytes change only when its client changes them, and when the disk
      serves it to be read. */
  lemma DataStep(s: State, m: Move, s': State, b: nat)
    requires Inv(s) && Moved(s, m, s') && b < |s.bufs|
    ensures |s'.bufs| == |s.bufs|
    ensures m.1.Change? && s.clients[m.0].b == b ==> s'.bufs[b].data == m.1.d
    ensures m.1.Interrupt? && s.queue[0] == b && !s.bufs[b].dirty ==>
              s.bufs[b].key.Some? && s'.bufs[b].data == Sector(s.disk, s.bufs[b].key.value)
    ensures !(m.1.Change? && s.clients[m.0].b == b) && !(m.1.Interrupt? && s.queue[0] == b && !s.bufs[b].dirty) ==>
              s'.bufs[b].data == s.bufs[b].data
  {
    if m.1.Interrupt? {
      ServedData(s, m.0, b);
    } else if m.1.Get? {
      hide Cached, Victim;
    }
  }

  lemma ServedData(s: State, c: nat, b: nat)
    requires CacheOk(s) && QueueOk(s) && Enabled(s, c, Interrupt) && b < |s.bufs|
    ensures var s' := Do(s, c, Interrupt);
            && |s'.bufs| == |s.bufs|
            && (s.queue[0] == b && !s.bufs[b].dirty ==>
                  s.bufs[b].key.Some? && s'.bufs[b].data == Sector(s.disk, s.bufs[b].key.value))
            && (!(s.queue[0] == b && !s.bufs[b].dirty) ==> s'.bufs[b].data == s.bufs[b].data)
  {
    assert s.queue[0] in s.queue;
    assert BufOk(s, s.queue[0]);
  }

  /** Client c is still in the bwrite that it began with move j. */
  ghost predicate InWrite(moves: seq<Move>, c: nat, j: nat, n: nat) {
    && j < n <= |moves| && moves[j] == (c, Write)
    && forall i: nat :: j < i < n && moves[i].0 == c ==>
         moves[i].1.Enqueue? || moves[i].1.Pause? || moves[i].1.Rouse? || moves[i].1.Interrupt?
  }

  /** While c is in bwrite, nobody else writes to its sector. */
  lemma {:induction false} WriteStands(run: seq<State>, moves: seq<Move>, c: nat, j: nat, n: nat)
    requires IsTrace(run, moves) && InWrite(moves, c, j, n)
    ensures c < |run[0].clients| == |run[j].clients| == |run[n].clients|
    ensures run[j].clients[c].Holds? && InRequest(run[n].clients[c])
    ensures var a, a' := View(run, moves, j), View(run, moves, n);
            a.asked[c].Some? && a'.asked[c] == a.asked[c] && Sector(a'.disk, a.asked[c].value) == a.Mine(c)
    decreases n
  {
    var h := n - 1;
    RunRefines(run, moves, j);
    RunRefines(run, moves, h);
    TraceIsRun(run, moves);
    RunInv(run, h);
    ViewStep(run, moves, h, n);
    hide Inv, Refines, Enabled, Do, PlainStep, View, Plain.Mine, Sector;
    if h == j {
      WriteBegins(run[h], View(run, moves, h), c);
    } else {
      WriteStands(run, moves, c, j, h);
      OneMoreStands(run[h], View(run, moves, h), moves[h], c);
    }
  }

  lemma ViewStep(run: seq<State>, moves: seq<Move>, h: nat, n: nat)
    requires IsTrace(run, moves) && n == h + 1 <= |moves|
    ensures |run[h].clients| == |run[0].clients| && Enabled(run[h], moves[h].0, moves[h].1)
    ensures run[n] == Do(run[h], moves[h].0, moves[h].1) && |run[n].clients| == |run[0].clients|
    ensures View(run, moves, n) == PlainStep(View(run, moves, h), moves[h])
  {
    assert Moved(run[h], moves[h], run[h + 1]);
    assert moves[..n][..h] == moves[..h];
    RunRefines(run, moves, h);
    RunRefines(run, moves, n);
    hide Refines, Do, PlainStep;
  }

  lemma WriteBegins(s: State, a: Plain, c: nat)
    requires Inv(s) && Refines(s, a) && Enabled(s, c, Write)
    ensures s.clients[c].Holds? && |Do(s, c, Write).clients| == |s.clients| && InRequest(Do(s, c, Write).clients[c])
    ensures var a' := PlainStep(a, (c, Write));
            a.asked[c].Some? && a'.asked[c] == a.asked[c] && Sector(a'.disk, a.asked[c].value) == a.Mine(c)
  {
    assert ClientFits(s, a, c);
  }

  predicate InRequest(cl: Client) { cl.Flushing? || InIderw(cl) }

  lemma OneMoreStands(s: State, a: Plain, m: Move, c: nat)
    requires Inv(s) && Refines(s, a) && Enabled(s, m.0, m.1) && c < |s.clients| && InRequest(s.clients[c])
    requires m.0 == c ==> m.1.Enqueue? || m.1.Pause? || m.1.Rouse? || m.1.Interrupt?
    ensures |Do(s, m.0, m.1).clients| == |s.clients| && InRequest(Do(s, m.0, m.1).clients[c])
    ensures a.asked[c].Some? && PlainStep(a, m).asked[c] == a.asked[c]
    ensures Sector(PlainStep(a, m).disk, a.asked[c].value) == Sector(a.disk, a.asked[c].value)
  {
    assert ClientFits(s, a, c) && ClientFits(s, a, m.0);
    if m.0 != c {
      OtherClients(s, m.0, m.1, c);
      if m.1.Write? && a.asked[m.0] == a.asked[c] {
        SameSector(s, m.0, c);
      }
    }
  }

  /** When bwrite returns, the disk and the buffer have the bytes that the client had
      when it called, in the sector that it had asked for. */
  lemma BwriteReaches(run: seq<State>, moves: seq<Move>, c: nat, j: nat, n: nat)
    requires IsTrace(run, moves) && InWrite(moves, c, j, n) && Enabled(run[n], c, Return)
    ensures c < |run[j].clients| && run[j].clients[c].Holds? && run[j].clients[c].b < |run[j].bufs|
    ensures var b, b' := run[j].clients[c].b, run[n].clients[c].b;
            && run[j].bufs[b].key.Some? && run[n].bufs[b'].key == run[j].bufs[b].key
            && run[n].bufs[b'].data == run[j].bufs[b].data
            && Sector(run[n].disk, run[j].bufs[b].key.value) == run[j].bufs[b].data
  {
    WriteStands(run, moves, c, j, n);
    RunRefines(run, moves, j);
    RunRefines(run, moves, n);
    TraceIsRun(run, moves);
    RunInv(run, j);
    RunInv(run, n);
    HeldIsMine(run[j], View(run, moves, j), c);
    RequestDone(run, n, c);
    ReturnFits(run[n], View(run, moves, n), c);
  }

  lemma ReturnFits(s: State, a: Plain, c: nat)
    requires Inv(s) && Refines(s, a) && Enabled(s, c, Return)
    ensures a.asked[c].Some? && s.bufs[s.clients[c].b].key == a.asked[c]
    ensures Sector(s.disk, a.asked[c].value) == Sector(a.disk, a.asked[c].value)
  {
    var b := s.clients[c].b;
    assert ClientFits(s, a, c);
    var k := a.asked[c].value;
    assert SectorFits(s, a, k);
    forall x: nat ensures !Unsaved(s, k, x) {
      assert x < |s.bufs| && s.bufs[x].key == Some(k) ==> x == b;
    }
  }

  // ---------- the order of releases and of requests ----------

  /** When buffer b was last released: after how many moves.  Before that, binit put
      the buffers on the ring in order. */
  ghost function LastRelease(run: seq<State>, moves: seq<Move>, b: nat, n: nat): int
    requires IsTrace(run, moves) && n <= |moves|
  {
    if n == 0 then b - |run[0].bufs|
    else if moves[n - 1].1.Release? && UsedBy(run[n - 1], moves[n - 1].0, b) then n
    else LastRelease(run, moves, b, n - 1)
  }

  lemma {:induction false} LastReleaseBound(run: seq<State>, moves: seq<Move>, b: nat, n: nat)
    requires IsTrace(run, moves) && n <= |moves| && b < |run[0].bufs|
    ensures LastRelease(run, moves, b, n) <= n
  {
    if n > 0 {
      LastReleaseBound(run, moves, b, n - 1);
    }
  }

  /** Stamps order the buffers as their last releases do. */
  ghost predicate StampsFit(run: seq<State>, moves: seq<Move>, n: nat, a: nat, b: nat)
    requires IsTrace(run, moves) && n <= |moves|
  {
    a < |run[n].stamp| && b < |run[n].stamp| &&
    (run[n].stamp[a] < run[n].stamp[b] <==> LastRelease(run, moves, a, n) < LastRelease(run, moves, b, n))
  }

  lemma StampStep(s: State, m: Move, s': State, b: nat)
    requires Inv(s) && Moved(s, m, s') && b < |s.bufs|
    ensures |s'.bufs| == |s.bufs| == |s.stamp| == |s'.stamp|
    ensures m.1.Release? && UsedBy(s, m.0, b) ==> s'.stamp[b] == s.clock
    ensures !(m.1.Release? && UsedBy(s, m.0, b)) ==> s'.stamp[b] == s.stamp[b]
    ensures s.stamp[b] < s.clock
  {
    hide Cached, Victim, Sector, StartCommand, WakeAll, ToFront, CacheOk, QueueOk, SleepersOk;
    NotStamped(s, m);
  }

  lemma NotStamped(s: State, m: Move)
    requires Enabled(s, m.0, m.1)
    ensures |Do(s, m.0, m.1).bufs| == |s.bufs|
    ensures !m.1.Release? ==> Do(s, m.0, m.1).stamp == s.stamp
  {
    hide Cached, Victim, Sector, StartCommand, WakeAll, ToFront;
  }

  lemma {:induction false} StampsAreReleases(run: seq<State>, moves: seq<Move>, n: nat, a: nat, b: nat)
    requires IsTrace(run, moves) && n <= |moves| && a < |run[0].bufs| && b < |run[0].bufs|
    ensures |run[n].bufs| == |run[0].bufs| && StampsFit(run, moves, n, a, b)
  {
    if n > 0 {
      var h := n - 1;
      StampsAreReleases(run, moves, h, a, b);
      TraceIsRun(run, moves);
      RunInv(run, h);
      assert Moved(run[h], moves[h], run[h + 1]);
      StampStep(run[h], moves[h], run[n], a);
      StampStep(run[h], moves[h], run[n], b);
      LastReleaseBound(run, moves, a, h);
      LastReleaseBound(run, moves, b, h);
      hide Moved, Inv;
    }
  }

  /** The ring lists the buffers by the time of their last release, latest first, and
      bget recycles the one of those nobody has that was released longest ago. */
  lemma RingOfReleases(run: seq<State>, moves: seq<Move>, n: nat, i: nat, j: nat)
    requires IsTrace(run, moves) && n <= |moves| && i < j < |run[n].ring|
    ensures LastRelease(run, moves, run[n].ring[i], n) > LastRelease(run, moves, run[n].ring[j], n)
  {
    TraceIsRun(run, moves);
    RingByRelease(run, n, i, j);
    SameBufs(run, moves, n);
    StampsAreReleases(run, moves, n, run[n].ring[j], run[n].ring[i]);
  }

  lemma VictimIsOldest(run: seq<State>, moves: seq<Move>, n: nat, b: nat)
    requires IsTrace(run, moves) && n <= |moves| && b < |run[n].bufs| && !run[n].bufs[b].busy
    ensures var v := Victim(run[n].ring, run[n].bufs);
            && v.Some? && v.value < |run[n].bufs| && !run[n].bufs[v.value].busy
            && (b == v.value || LastRelease(run, moves, v.value, n) < LastRelease(run, moves, b, n))
  {
    TraceIsRun(run, moves);
    RecyclesOldest(run, n, b);
    SameBufs(run, moves, n);
    StampsAreReleases(run, moves, n, Victim(run[n].ring, run[n].bufs).value, b);
  }

  lemma {:induction false} SameBufs(run: seq<State>, moves: seq<Move>, n: nat)
    requires IsTrace(run, moves) && n <= |moves|
    ensures |run[n].bufs| == |run[0].bufs|
  {
    if n > 0 {
      SameBufs(run, moves, n - 1);
      assert Moved(run[n - 1], moves[n - 1], run[n - 1 + 1]);
    }
  }

  /** The buffers passed to iderw, in order. */
  ghost function Passed(run: seq<State>, moves: seq<Move>, n: nat): seq<nat>
    requires IsTrace(run, moves) && n <= |moves|
  {
    if n == 0 then []
    else
      var s, m := run[n - 1], moves[n - 1];
      Passed(run, moves, n - 1) +
      if m.1.Enqueue? && m.0 < |s.clients| && Uses(s.clients[m.0]) then [s.clients[m.0].b] else []
  }

  ghost function Interrupts(moves: seq<Move>): nat {
    if moves == [] then 0 else Interrupts(moves[..|moves| - 1]) + if moves[|moves| - 1].1.Interrupt? then 1 else 0
  }

  lemma RequestStep(s: State, m: Move, s': State)
    requires Moved(s, m, s')
    ensures s'.served == s.served + if m.1.Interrupt? then 1 else 0
    ensures s'.requests ==
            s.requests + if m.1.Enqueue? && m.0 < |s.clients| && Uses(s.clients[m.0]) then [s.clients[m.0].b] else []
  {
    hide Cached, Victim, Sector, StartCommand, WakeAll, ToFront;
  }

  /** The disk works through the calls of iderw in the order in which they were made,
      one with each interrupt: the queue is the rest. */
  lemma {:induction false} QueueIsRest(run: seq<State>, moves: seq<Move>, n: nat)
    requires IsTrace(run, moves) && n <= |moves|
    ensures run[n].requests == Passed(run, moves, n) && run[n].served == Interrupts(moves[..n])
    ensures run[n].served <= |Passed(run, moves, n)| && run[n].queue == Passed(run, moves, n)[Interrupts(moves[..n])..]
  {
    TraceIsRun(run, moves);
    RunInv(run, n);
    if n > 0 {
      var h := n - 1;
      QueueIsRest(run, moves, h);
      assert Moved(run[h], moves[h], run[h + 1]);
      RequestStep(run[h], moves[h], run[n]);
      assert moves[..n][..h] == moves[..h];
      hide Moved;
    }
  }

  // ---------- how a client goes on ----------

  /** bread: its buffer is found and free, found and held, or recycled. */
  ghost predicate GetLeads(s: State, k: Key, cl': Client) {
    if exists b: nat :: b < |s.bufs| && s.bufs[b].key == Some(k) then
      exists b: nat :: b < |s.bufs| && s.bufs[b].key == Some(k) &&
                       cl' == if s.bufs[b].busy then Dozes(k, b) else if s.bufs[b].valid then Holds(b) else Fetching(b)
    else exists b: nat :: b < |s.bufs| && !s.bufs[b].busy && cl' == Fetching(b)
  }

  /** Every call goes on towards its return: bread through bget and iderw if the
      buffer is not valid, bwrite through iderw, brelse at once. */
  lemma ClientLaw(s: State, m: Move, s': State)
    requires Inv(s) && Moved(s, m, s')
    ensures |s'.clients| == |s.clients|
    ensures var cl, cl' := s.clients[m.0], s'.clients[m.0];
            match m.1
            case Start(k) => cl' == Wants(k)
            case Get => GetLeads(s, cl.key, cl')
            case Enqueue => cl' == Queued(cl.b)
            case Pause => cl' == Sleeps(cl.b)
            case Return => cl' == Holds(cl.b)
            case Rouse => cl' == if cl.Dozes? then Wants(cl.key) else Queued(cl.b)
            case Change(_) => cl' == Holds(cl.b)
            case Write => cl' == Flushing(cl.b)
            case Release => cl' == Idle && !s'.bufs[cl.b].busy
            case Interrupt => true
  {
    if m.1.Get? {
      GetGoesOn(s, m.0);
    } else if m.1.Release? {
      assert ClientOk(s, m.0);
    }
  }

  lemma GetGoesOn(s: State, c: nat)
    requires Inv(s) && Enabled(s, c, Get)
    ensures |DoGet(s, c).clients| == |s.clients| && GetLeads(s, s.clients[c].key, DoGet(s, c).clients[c])
  {
    var k := s.clients[c].key;
    var hit := Cached(s.ring, s.bufs, k);
    if hit.Some? {
      assert s.bufs[hit.value].key == Some(k);
    } else {
      forall b: nat | b < |s.bufs| ensures s.bufs[b].key != Some(k) {
        assert b in s.ring;
      }
    }
  }

  /** Serving a request takes the first off the queue, valid and clean, and wakes its
      client. */
  lemma ServeLaw(s: State, c: nat, s': State)
    requires Inv(s) && Moved(s, (c, Interrupt), s')
    ensures s'.queue == s.queue[1..] && |s'.bufs| == |s.bufs| && s'.bufs[s.queue[0]].valid && !s'.bufs[s.queue[0]].dirty
    ensures forall d: nat :: d < |s'.clients| ==> s'.clients[d] != Sleeps(s.queue[0])
  {
  }
}

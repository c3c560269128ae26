/** kernel/bio.c and kernel/ide.c together: clients that read, change, write and
    release blocks, the buffer cache, the queue of disk requests and the disk.
    A step is a section under bcache.lock or idelock, or the disk interrupt. */
module Bcache {
  import opened Prelude

  type Data = seq<byte>

  /** A sector of a disk. */
  datatype Key = Key(dev: nat, sector: nat)

  /** A buffer.  key is None until the buffer is first used (dev is -1).
      changed records that the client has changed data since the last bwrite. */
  datatype Buf = Buf(key: Option<Key>, busy: bool, valid: bool, dirty: bool, data: Data, changed: bool)

  /** What the disk has been told to do: read a sector, or write data to it. */
  datatype Command = Command(key: Key, write: Option<Data>)

  /** One bread ... brelse of a process. */
  datatype Client =
    | Idle
    | Wants(key: Key)     // in bget
    | Dozes(key: Key, b: nat) // in bget, asleep on buffer b, which caches key
    | Fetching(b: nat)    // bread: about to call iderw, buffer not valid
    | Flushing(b: nat)    // bwrite: about to call iderw, buffer dirty
    | Queued(b: nat)      // in iderw, before it looks at its buffer
    | Sleeps(b: nat)      // in iderw, asleep on its buffer
    | Holds(b: nat)       // bread or bwrite has returned

  predicate Uses(c: Client) { c.Fetching? || c.Flushing? || InIderw(c) || c.Holds? }

  predicate InIderw(c: Client) { c.Queued? || c.Sleeps? }

  /** wakeup(b), for one client: the buffer is the channel in bget and in iderw. */
  function WakeOne(c: Client, b: nat): Client {
    if c.Dozes? && c.b == b then Wants(c.key) else if c.Sleeps? && c.b == b then Queued(b) else c
  }

  function WakeAll(clients: seq<Client>, b: nat): (r: seq<Client>)
    ensures |r| == |clients| && forall c: nat :: c < |r| ==> r[c] == WakeOne(clients[c], b)
  {
    seq(|clients|, c requires 0 <= c < |clients| => WakeOne(clients[c], b))
  }

  /** ring lists the buffers, the most recently released first; stamp tells when
      each was last released (or put on the ring by binit).  requests lists every
      buffer ever passed to iderw, in order, and served how many of them are
      done. */
  datatype State = State(bufs: seq<Buf>, ring: seq<nat>, stamp: seq<nat>, clock: nat, disk: map<Key, Data>,
                         queue: seq<nat>, active: Option<Command>, requests: seq<nat>, served: nat,
                         clients: seq<Client>)

  function Sector(disk: map<Key, Data>, k: Key): Data { if k in disk then disk[k] else [] }

  // ---------- the loops of bget and brelse ----------

  /** The first loop of bget: the buffer that caches k. */
  function Cached(ring: seq<nat>, bufs: seq<Buf>, k: Key): (r: Option<nat>)
    ensures r.Some? ==> r.value in ring && r.value < |bufs| && bufs[r.value].key == Some(k)
    ensures r.None? ==> forall b :: b in ring && b < |bufs| ==> bufs[b].key != Some(k)
  {
    if ring == [] then None
    else if ring[0] < |bufs| && bufs[ring[0]].key == Some(k) then Some(ring[0])
    else Cached(ring[1..], bufs, k)
  }

  /** The second loop of bget, which goes backwards: the last buffer of the ring
      that nobody holds. */
  function Victim(ring: seq<nat>, bufs: seq<Buf>): (r: Option<nat>)
    ensures r.Some? ==> r.value in ring && r.value < |bufs| && !bufs[r.value].busy
    ensures r.None? ==> forall b :: b in ring && b < |bufs| ==> bufs[b].busy
  {
    if ring == [] then None
    else
      var b := ring[|ring| - 1];
      if b < |bufs| && !bufs[b].busy then Some(b) else Victim(ring[..|ring| - 1], bufs)
  }

  /** brelse: b goes to the front. */
  function ToFront(ring: seq<nat>, b: nat): seq<nat> { [b] + Without(ring, b) }

  function Without(ring: seq<nat>, b: nat): (r: seq<nat>)
    ensures b !in r
    ensures forall x :: x != b ==> (x in r <==> x in ring)
  {
    if ring == [] then [] else (if ring[0] == b then [] else [ring[0]]) + Without(ring[1..], b)
  }

  // ---------- steps ----------

  datatype Step =
    | Start(k: Key)      // a client calls bread
    | Get                // one pass of bget
    | Enqueue            // iderw up to its loop
    | Pause              // iderw sees its buffer not valid and clean, and sleeps
    | Return             // iderw sees its buffer valid and clean
    | Rouse              // a sleeping client is killed
    | Change(d: Data)    // the client changes its buffer
    | Write              // the client calls bwrite
    | Release            // the client calls brelse
    | Interrupt          // ideintr; the client does not matter

  /** idestart */
  function StartCommand(bufs: seq<Buf>, b: nat): Option<Command> {
    if b < |bufs| && bufs[b].key.Some?
    then Some(Command(bufs[b].key.value, if bufs[b].dirty then Some(bufs[b].data) else None))
    else None
  }

  predicate Enabled(s: State, c: nat, st: Step) {
    c < |s.clients| &&
    var cl := s.clients[c];
    (Uses(cl) ==> cl.b < |s.bufs|) &&
    match st
    case Start(k) => cl.Idle?
    // bget panics when every buffer is held
    case Get => cl.Wants? && (Cached(s.ring, s.bufs, cl.key).Some? || Victim(s.ring, s.bufs).Some?)
    case Enqueue => cl.Fetching? || cl.Flushing?
    case Pause => cl.Queued? && !(s.bufs[cl.b].valid && !s.bufs[cl.b].dirty)
    case Return => cl.Queued? && s.bufs[cl.b].valid && !s.bufs[cl.b].dirty
    case Rouse => cl.Dozes? || cl.Sleeps?
    case Change(_) => cl.Holds?
    case Write => cl.Holds?
    // clients write their changes before they release
    case Release => cl.Holds? && !s.bufs[cl.b].changed
    case Interrupt => s.queue != [] && s.queue[0] < |s.bufs| && s.active.Some?
  }

  function SetClient(s: State, c: nat, cl: Client): State
    requires c < |s.clients|
  {
    s.(clients := s.clients[c := cl])
  }

  function SetBuf(s: State, b: nat, buf: Buf): State
    requires b < |s.bufs|
  {
    s.(bufs := s.bufs[b := buf])
  }

  /** One pass of bget: a cached buffer if it is free, sleep and another try if it
      is held, or the free buffer released longest ago. */
  function DoGet(s: State, c: nat): State
    requires Enabled(s, c, Get)
  {
    var k := s.clients[c].key;
    var hit := Cached(s.ring, s.bufs, k);
    if hit.Some? then
      var b := hit.value;
      var buf := s.bufs[b];
      if buf.busy then SetClient(s, c, Dozes(k, b))
      else SetClient(SetBuf(s, b, buf.(busy := true)), c, if buf.valid then Holds(b) else Fetching(b))
    else
      var b := Victim(s.ring, s.bufs).value;
      SetClient(SetBuf(s, b, s.bufs[b].(key := Some(k), busy := true, valid := false, dirty := false)), c, Fetching(b))
  }

  /** iderw: append to the queue, and start the disk if the queue was empty. */
  function DoEnqueue(s: State, c: nat): State
    requires Enabled(s, c, Enqueue)
  {
    var b := s.clients[c].b;
    var s1 := SetClient(s, c, Queued(b)).(queue := s.queue + [b], requests := s.requests + [b]);
    if s.queue == [] then s1.(active := StartCommand(s.bufs, b)) else s1
  }

  /** The disk finishes the active command, and ideintr takes its buffer off the
      queue and starts the next. */
  function Serve(s: State): State
    requires s.queue != [] && s.queue[0] < |s.bufs| && s.active.Some?
  {
    var b := s.queue[0];
    var cmd := s.active.value;
    var disk := if cmd.write.Some? then s.disk[cmd.key := cmd.write.value] else s.disk;
    var buf := s.bufs[b];
    var data := if buf.dirty then buf.data else Sector(disk, cmd.key);
    var changed := buf.changed && !buf.dirty;
    var bufs := s.bufs[b := buf.(data := data, valid := true, dirty := false, changed := changed)];
    s.(disk := disk, bufs := bufs, queue := s.queue[1..], served := s.served + 1,
       active := if |s.queue| == 1 then None else StartCommand(bufs, s.queue[1]))
  }

  /** brelse up to wakeup. */
  function GiveBack(s: State, c: nat): State
    requires Enabled(s, c, Release)
  {
    var b := s.clients[c].b;
    if b < |s.stamp| then
      SetClient(SetBuf(s, b, s.bufs[b].(busy := false)), c, Idle)
      .(ring := ToFront(s.ring, b), stamp := s.stamp[b := s.clock], clock := s.clock + 1)
    else s
  }

  function Wakeup(s: State, b: nat): State { s.(clients := WakeAll(s.clients, b)) }

  function Do(s: State, c: nat, st: Step): State
    requires Enabled(s, c, st)
  {
    var cl := s.clients[c];
    match st
    case Start(k) => SetClient(s, c, Wants(k))
    case Get => DoGet(s, c)
    case Enqueue => DoEnqueue(s, c)
    case Pause => SetClient(s, c, Sleeps(cl.b))
    case Return => SetClient(s, c, Holds(cl.b))
    case Rouse => SetClient(s, c, WakeOne(cl, cl.b))
    case Change(d) => SetBuf(s, cl.b, s.bufs[cl.b].(data := d, changed := true))
    case Write => SetClient(SetBuf(s, cl.b, s.bufs[cl.b].(dirty := true)), c, Flushing(cl.b))
    case Release => Wakeup(GiveBack(s, c), cl.b)
    case Interrupt => Wakeup(Serve(s), s.queue[0])
  }

  /** After binit: buffer b is put on the ring at time b, so the last one is
      first. */
  ghost predicate Init(s: State) {
    && (forall b: nat :: b < |s.bufs| ==> s.bufs[b].key.None? && !s.bufs[b].busy && !s.bufs[b].valid
                                           && !s.bufs[b].dirty && !s.bufs[b].changed)
    && |s.ring| == |s.bufs| && (forall i: nat :: i < |s.ring| ==> s.ring[i] == |s.bufs| - 1 - i)
    && |s.stamp| == |s.bufs| && (forall b: nat :: b < |s.stamp| ==> s.stamp[b] == b) && s.clock == |s.bufs|
    && s.queue == [] && s.active.None? && s.requests == [] && s.served == 0
    && forall c: nat :: c < |s.clients| ==> s.clients[c].Idle?
  }
}

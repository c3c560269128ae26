/** The queue of disk requests in kernel/ide.c, linked through qnext. */
module IdeQueue {
  import opened Prelude
  import opened Bcache
  import opened BcacheProof

  /** The links from first lead through q and end there. */
  ghost predicate Chain(first: Option<nat>, qnext: seq<Option<nat>>, q: seq<nat>)
    decreases q
  {
    if q == [] then first.None?
    else first == Some(q[0]) && q[0] < |qnext| && Chain(qnext[q[0]], qnext, q[1..])
  }

  lemma {:induction false} ChainFrame(first: Option<nat>, qnext: seq<Option<nat>>, qnext': seq<Option<nat>>, q: seq<nat>)
    requires Chain(first, qnext, q) && |qnext'| == |qnext|
    requires forall b :: b in q && b < |qnext| ==> qnext'[b] == qnext[b]
    ensures Chain(first, qnext', q)
    decreases q
  {
    if q != [] {
      ChainFrame(qnext[q[0]], qnext, qnext', q[1..]);
    }
  }

  /** Hanging b, which ends a list itself, onto the last element of q. */
  lemma {:induction false} ChainAppend(first: Option<nat>, qnext: seq<Option<nat>>, q: seq<nat>, b: nat)
    requires Chain(first, qnext, q) && NoDup(q) && q != [] && b !in q && b < |qnext| && qnext[b].None?
    ensures q[|q| - 1] < |qnext|
    ensures Chain(first, qnext[q[|q| - 1] := Some(b)], q + [b])
    decreases q
  {
    var rest := q[1..];
    if rest == [] {
      assert (q + [b])[1..] == [b] && [b][1..] == [];
    } else {
      ChainAppend(qnext[q[0]], qnext, rest, b);
      assert rest[|rest| - 1] == q[|q| - 1] && (q + [b])[1..] == rest + [b];
      assert q[0] != q[|q| - 1];
    }
  }

  class IdeQueue {
    var first: Option<nat>
    var qnext: seq<Option<nat>>
    ghost var queue: seq<nat>

    ghost predicate Valid()
      reads this
    {
      Chain(first, qnext, queue) && NoDup(queue)
    }

    /** The loop of iderw: b becomes the last request.  Returns whether the disk
        has to be started. */
    method Append(b: nat) returns (start: bool)
      requires Valid() && b !in queue && b < |qnext|
      modifies this
      ensures Valid() && queue == old(queue) + [b] && |qnext| == |old(qnext)|
      ensures start <==> old(queue) == []
    {
      ghost var qnext0 := qnext;
      qnext := qnext[b := None];
      ChainFrame(first, qnext0, qnext, queue);
      if first.None? {
        first := Some(b);
        queue := [b];
        start := true;
        assert [b][1..] == [];
        return;
      }
      var p := first.value;
      ghost var i: nat := 0;
      assert queue[0..] == queue;
      while qnext[p].Some?
        invariant i < |queue| && p == queue[i] && p < |qnext|
        invariant Chain(Some(p), qnext, queue[i..])
        decreases |queue| - i
      {
        assert queue[i..][1..] == queue[i + 1..];
        p := qnext[p].value;
        i := i + 1;
      }
      assert queue[i..][1..] == [];
      ChainAppend(first, qnext, queue, b);
      qnext := qnext[p := Some(b)];
      queue := queue + [b];
      start := false;
    }

    /** The head of ideintr: the first request leaves the queue. */
    method TakeFirst() returns (b: Option<nat>)
      requires Valid()
      modifies this
      ensures Valid() && qnext == old(qnext)
      ensures old(queue) == [] <==> b.None?
      ensures b.None? ==> queue == []
      ensures b.Some? ==> old(queue) == [b.value] + queue
    {
      b := first;
      if b.Some? {
        first := qnext[b.value];
        queue := queue[1..];
      }
    }
  }
}

/** The circular doubly linked list of buffers in kernel/bio.c, by its prev and
    next pointers.  Buffers are numbered from 0; the list head has number n. */
module BufRing {
  import opened Prelude
  import opened Bcache
  import opened BcacheProof

  /** The index after i, going round a list of m nodes. */
  function Round(i: nat, m: nat): nat { if i + 1 < m then i + 1 else 0 }

  /** next and prev link exactly the head n and then order, in both directions. */
  ghost predicate Linked(next: seq<nat>, prev: seq<nat>, n: nat, order: seq<nat>) {
    && |next| == |prev| == n + 1
    && NoDup([n] + order) && (forall i: nat :: i < |order| ==> order[i] < n)
    && forall i: nat :: i < |order| + 1 ==> LinkAt(next, prev, [n] + order, i)
  }

  ghost predicate LinkAt(next: seq<nat>, prev: seq<nat>, c: seq<nat>, i: nat)
    requires i < |c|
  {
    && c[i] < |next| && c[Round(i, |c|)] < |prev|
    && next[c[i]] == c[Round(i, |c|)] && prev[c[Round(i, |c|)]] == c[i]
  }

  /** Taking the buffer at place i of order out of the list. */
  lemma Unlink(next: seq<nat>, prev: seq<nat>, n: nat, order: seq<nat>, i: nat, next': seq<nat>, prev': seq<nat>)
    requires Linked(next, prev, n, order) && i < |order|
    requires order[i] < |next| && next[order[i]] < |prev| && prev[order[i]] < |next|
    requires prev' == prev[next[order[i]] := prev[order[i]]] && next' == next[prev[order[i]] := next[order[i]]]
    ensures Linked(next', prev', n, order[..i] + order[i + 1..])
  {
    var c, b := [n] + order, order[i];
    var c' := [n] + (order[..i] + order[i + 1..]);
    assert LinkAt(next, prev, c, i) && LinkAt(next, prev, c, i + 1);
    forall k: nat | k < |c'| ensures c'[k] == if k <= i then c[k] else c[k + 1] {
    }
    forall k: nat, l: nat | k < l < |c'| ensures c'[k] != c'[l] {
      assert c[if k <= i then k else k + 1] != c[if l <= i then l else l + 1];
    }
    forall k: nat | k < |c'| ensures LinkAt(next', prev', c', k) {
      assert LinkAt(next, prev, c, if k <= i then k else k + 1);
    }
  }

  /** Putting buffer b, which is not in the list, right after the head. */
  lemma LinkFront(next: seq<nat>, prev: seq<nat>, n: nat, order: seq<nat>, b: nat, next': seq<nat>, prev': seq<nat>)
    requires Linked(next, prev, n, order) && b < n && b !in order && next[n] <= n
    requires next' == next[b := next[n]][n := b] && prev' == prev[b := n][next[n] := b]
    ensures Linked(next', prev', n, [b] + order)
  {
    var c, c' := [n] + order, [n] + ([b] + order);
    assert LinkAt(next, prev, c, 0);
    forall k: nat | k < |c'| ensures c'[k] == if k == 0 then n else if k == 1 then b else c[k - 1] {
    }
    forall k: nat, l: nat | k < l < |c'| ensures c'[k] != c'[l] {
      assert l >= 2 ==> c[l - 1] in order;
    }
    forall k: nat | k < |c'| ensures LinkAt(next', prev', c', k) {
      if k > 1 {
        assert LinkAt(next, prev, c, k - 1);
      }
    }
  }

  lemma OrderNoDup(n: nat, order: seq<nat>)
    requires NoDup([n] + order)
    ensures NoDup(order)
  {
    forall j: nat, k: nat | j < k < |order| ensures order[j] != order[k] {
      assert ([n] + order)[j + 1] == order[j] && ([n] + order)[k + 1] == order[k];
    }
  }

  lemma NotSelf(order: seq<nat>, i: nat)
    requires i < |order|
    ensures forall c: seq<nat> :: |c| == |order| + 1 && NoDup(c) ==> c[Round(i + 1, |c|)] != c[i + 1]
  {
  }

  class BufRing {
    const n: nat
    var next: seq<nat>
    var prev: seq<nat>
    ghost var order: seq<nat>

    /** Every buffer is on the list. */
    ghost predicate Valid()
      reads this
    {
      Linked(next, prev, n, order) && |order| == n && forall b: nat :: b < n ==> b in order
    }

    /** binit */
    constructor (n: nat)
      ensures Valid() && this.n == n
      ensures forall i: nat :: i < n ==> order[i] == n - 1 - i
    {
      this.n := n;
      var nx: seq<nat> := seq(n + 1, _ => n);
      var pv: seq<nat> := seq(n + 1, _ => n);
      ghost var o: seq<nat> := [];
      for b := 0 to n
        invariant |nx| == |pv| == n + 1 && |o| == b
        invariant forall i: nat :: i < b ==> o[i] == b - 1 - i
        invariant Linked(nx, pv, n, o)
      {
        assert LinkAt(nx, pv, [n] + o, 0);
        ghost var nx0, pv0 := nx, pv;
        nx := nx[b := nx[n]];
        pv := pv[b := n];
        pv := pv[nx[n] := b];
        nx := nx[n := b];
        LinkFront(nx0, pv0, n, o, b, nx, pv);
        o := [b] + o;
      }
      next, prev, order := nx, pv, o;
      forall b: nat | b < n ensures b in o {
        assert o[n - 1 - b] == b;
      }
    }

    /** The list part of brelse. */
    method MoveToFront(b: nat)
      requires Valid() && b < n
      modifies this
      ensures Valid() && order == ToFront(old(order), b)
    {
      assert b in order;
      ghost var i: nat :| i < |order| && order[i] == b;
      assert LinkAt(next, prev, [n] + order, i) && LinkAt(next, prev, [n] + order, i + 1);
      assert ([n] + order)[i + 1] == b;
      ghost var next0, prev0 := next, prev;
      assert next[b] != b by { NotSelf(order, i); }
      prev := prev[next[b] := prev[b]];
      next := next[prev[b] := next[b]];
      ghost var rest := order[..i] + order[i + 1..];
      Unlink(next0, prev0, n, order, i, next, prev);
      assert LinkAt(next, prev, [n] + rest, 0);
      ghost var next1, prev1 := next, prev;
      next := next[b := next[n]];
      prev := prev[b := n];
      prev := prev[next[n] := b];
      next := next[n := b];
      OrderNoDup(n, order);
      WithoutOnce(order, b, i);
      LinkFront(next1, prev1, n, rest, b, next, prev);
      hide Linked;
      order := [b] + rest;
    }

    /** The first loop of bget. */
    method FindCached(bufs: seq<Buf>, k: Key) returns (r: Option<nat>)
      requires Valid() && |bufs| == n
      ensures r == Cached(order, bufs, k)
    {
      assert LinkAt(next, prev, [n] + order, 0);
      var b := next[n];
      ghost var i: nat := 0;
      assert order[0..] == order;
      while b != n
        invariant i <= |order| && b == ([n] + order)[Round(i, |order| + 1)]
        invariant Cached(order, bufs, k) == Cached(order[i..], bufs, k)
        decreases |order| - i
      {
        assert b == order[i] && order[i..][0] == b && order[i..][1..] == order[i + 1..];
        if bufs[b].key == Some(k) {
          return Some(b);
        }
        assert LinkAt(next, prev, [n] + order, i + 1);
        b := next[b];
        i := i + 1;
      }
      assert i == |order|;
      return None;
    }

    /** The second loop of bget. */
    method FindVictim(bufs: seq<Buf>) returns (r: Option<nat>)
      requires Valid() && |bufs| == n
      ensures r == Victim(order, bufs)
    {
      assert LinkAt(next, prev, [n] + order, n);
      var b := prev[n];
      ghost var i: nat := n;
      assert order[..n] == order;
      while b != n
        invariant i <= |order| && b == ([n] + order)[i]
        invariant Victim(order, bufs) == Victim(order[..i], bufs)
        decreases i
      {
        assert b == order[i - 1] && order[..i][i - 1] == b && order[..i][..i - 1] == order[..i - 1];
        if !bufs[b].busy {
          return Some(b);
        }
        assert LinkAt(next, prev, [n] + order, i - 1);
        b := prev[b];
        i := i - 1;
      }
      assert i == 0;
      return None;
    }
  }
}

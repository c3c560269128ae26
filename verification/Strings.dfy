/** Names as kernel/string.c compares and copies them.  A name is a C string without
    its NUL, or the bytes of a field that need not have one. */
module Strings {
  import opened Prelude

  /** The byte at place j, with the NUL at the end. */
  function At(s: seq<byte>, j: nat): byte { if j < |s| then s[j] else 0 }

  /** The strings agree up to the end of the first, or for n bytes. */
  ghost predicate SameName(p: seq<byte>, q: seq<byte>, n: nat) {
    forall j: nat :: j < n && Within(p, j) ==> At(p, j) == At(q, j)
  }

  /** No NUL comes before place j. */
  ghost predicate Within(p: seq<byte>, j: nat) { forall i: nat :: i < j ==> At(p, i) != 0 }

  lemma WithinBefore(p: seq<byte>, i: nat, j: nat)
    ensures Within(p, j) && i < j ==> Within(p, i) && At(p, i) != 0
  {
  }

  /** strncmp */
  method StrNCmp(p: seq<byte>, q: seq<byte>, n: nat) returns (r: int)
    ensures r == 0 <==> SameName(p, q, n)
    ensures r != 0 ==>
              exists j: nat :: j < n && r == At(p, j) - At(q, j) && Within(p, j) && forall i: nat :: i < j ==> At(p, i) == At(q, i)
  {
    var i := 0;
    while i < n && At(p, i) != 0 && At(p, i) == At(q, i)
      invariant i <= n && Within(p, i) && forall j: nat :: j < i ==> At(p, j) == At(q, j)
    {
      i := i + 1;
    }
    if i == n {
      return 0;
    }
    r := At(p, i) - At(q, i);
    if r == 0 {
      assert At(p, i) == 0;
      forall j: nat | Within(p, j) ensures j <= i {
      }
    } else {
      assert Within(p, i);
    }
  }

  /** strncpy */
  method StrNCpy(t: seq<byte>, n: nat) returns (s: seq<byte>)
    requires 0 !in t
    ensures |s| == n && forall j: nat :: j < n ==> s[j] == At(t, j)
  {
    s := [];
    while |s| < n
      invariant |s| <= n && |s| <= |t| && forall j: nat :: j < |s| ==> s[j] == At(t, j)
      decreases n - |s|
    {
      s := s + [At(t, |s|)];
      if s[|s| - 1] == 0 {
        break;
      }
    }
    while |s| < n
      invariant |s| <= n && (|s| < n ==> |s| > |t|) && forall j: nat :: j < |s| ==> s[j] == At(t, j)
    {
      s := s + [0];
    }
  }

  lemma EndsThere(s: seq<byte>, j: nat)
    requires 0 !in s
    ensures At(s, j) == 0 <==> |s| <= j
  {
    if j < |s| {
      assert s[j] in s;
    }
  }

  /** For strings that have no NUL in them, that is to be equal, or to agree on the
      first n bytes. */
  lemma SameNameIs(a: seq<byte>, b: seq<byte>, n: nat)
    requires 0 !in a && 0 !in b
    ensures SameName(a, b, n) <==> a == b || (|a| >= n && |b| >= n && a[..n] == b[..n])
  {
    forall j: nat ensures Within(a, j) <==> j <= |a| {
      assert j > |a| ==> At(a, |a|) == 0;
      forall i: nat | i < j && j <= |a| ensures At(a, i) != 0 {
        assert a[i] in a;
      }
    }
    if SameName(a, b, n) {
      forall i: nat | i < n && i < |a| ensures i < |b| && b[i] == a[i] {
        assert Within(a, i) && a[i] in a;
      }
      if |a| < n {
        assert Within(a, |a|) && At(b, |a|) == 0;
        EndsThere(b, |a|);
        assert |b| >= |a| by {
          if |a| > 0 {
            assert a[|a| - 1] in a && |a| - 1 < |b|;
          }
        }
        assert a == b;
      } else {
        assert |b| >= n by {
          if n > 0 {
            assert a[n - 1] in a && n - 1 < |b|;
          }
        }
        assert a[..n] == b[..n];
      }
    }
    if |a| >= n && |b| >= n && a[..n] == b[..n] {
      forall j: nat | j < n ensures At(a, j) == At(b, j) {
        assert a[..n][j] == b[..n][j];
      }
    }
  }
}

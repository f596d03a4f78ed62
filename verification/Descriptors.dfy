/** Descriptor tables as sequences, and the sets `select` watches. */
module Descriptors {

  function Max(a: int, b: int): int {
    if a > b then a else b
  }

  /** An entry of a zero-initialised global array, of which `s` has been written. */
  function At(s: seq<int>, k: nat): int {
    if k < |s| then s[k] else 0
  }

  function Elements(s: seq<int>): set<int> {
    set k | 0 <= k < |s| :: s[k]
  }

  lemma ElementsAppend(s: seq<int>, fd: int, n: nat)
    requires n <= |s|
    ensures Elements(s + [fd]) == Elements(s) + {fd}
    ensures Elements((s + [fd])[n..]) == Elements(s[n..]) + {fd}
  {
    assert (s + [fd])[|s|] == fd;
    assert (s + [fd])[n..] == s[n..] + [fd];
    assert forall k :: 0 <= k < |s| ==> (s + [fd])[k] == s[k];
    assert (s[n..] + [fd])[|s[n..]|] == fd;
    assert forall k :: 0 <= k < |s[n..]| ==> (s[n..] + [fd])[k] == s[n..][k];
  }

  predicate Distinct<T(==)>(s: seq<T>) {
    forall i, j :: 0 <= i < j < |s| ==> s[i] != s[j]
  }
}

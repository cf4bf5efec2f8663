/**
 Facts about slices of sequences.
 */
module Slices {

  lemma {:induction false} SliceOfSlice<T>(s: seq<T>, i: nat, n: nat, j: nat, m: nat)
    requires i + n <= |s| && j + m <= n
    ensures s[i..i + n][j..j + m] == s[i + j..i + j + m]
  {
    var t, left, right := s[i..i + n], s[i..i + n][j..j + m], s[i + j..i + j + m];
    forall k | 0 <= k < m ensures left[k] == right[k] {
      assert t[j + k] == s[i + (j + k)];
    }
  }

  lemma {:induction false} SliceOfRight<T>(a: seq<T>, b: seq<T>, i: nat, j: nat)
    requires i <= j <= |b|
    ensures (a + b)[|a| + i..|a| + j] == b[i..j]
  {
  }

  lemma {:induction false} SliceOfLeft<T>(a: seq<T>, b: seq<T>, i: nat, j: nat)
    requires i <= j <= |a|
    ensures (a + b)[i..j] == a[i..j]
  {
  }
}

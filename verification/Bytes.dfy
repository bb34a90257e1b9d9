/** Bytes, windows of byte sequences, and the bounded arithmetic the serving code uses. */
module Bytes {
  import opened Outcomes

  type Byte = x: int | 0 <= x < 256

  const U64_LIMIT: nat := 0x1_0000_0000_0000_0000
  const U64_MAX: nat := U64_LIMIT - 1

  function Min(a: nat, b: nat): nat { if a < b then a else b }

  function Max(a: nat, b: nat): nat { if a < b then b else a }

  function CheckedAdd(a: nat, b: nat): Option<nat> { if a + b < U64_LIMIT then Some(a + b) else None }

  function SaturatingAdd(a: nat, b: nat): nat { Min(a + b, U64_MAX) }

  function SaturatingSub(a: nat, b: nat): nat { if a < b then 0 else a - b }

  lemma SliceOfSlice<T>(s: seq<T>, n: nat, m: nat, i: nat, j: nat)
    requires i <= j <= m - n && n <= m <= |s|
    ensures s[n..m][i..j] == s[n + i..n + j]
  {
    var x, y := s[n..m][i..j], s[n + i..n + j];
    forall k | 0 <= k < |x|
      ensures x[k] == y[k]
    {
      assert s[n..m][i + k] == s[n + i + k];
    }
    assert x == y;
  }

  lemma SliceJoin<T>(s: seq<T>, i: nat, j: nat, k: nat)
    requires i <= j <= k <= |s|
    ensures s[i..j] + s[j..k] == s[i..k]
  {
  }

  lemma HeadSlice<T>(h: seq<T>, payload: seq<T>, i: nat, j: nat)
    requires i <= j <= |h|
    ensures (h + payload)[i..j] == h[i..j]
  {
  }

  lemma TailSlice<T>(h: seq<T>, payload: seq<T>, i: nat, j: nat)
    requires i <= j <= |payload|
    ensures (h + payload)[|h| + i..|h| + j] == payload[i..j]
  {
  }

  lemma CrossSlice<T>(h: seq<T>, payload: seq<T>, i: nat, j: nat)
    requires i <= |h| && j <= |payload|
    ensures (h + payload)[i..|h| + j] == h[i..|h|] + payload[0..j]
  {
  }
}

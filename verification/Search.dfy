/** `search` and `bytes_diff` of src/util.rs. */
module Util {
  import opened Bytes
  import opened SstFormat

  ghost predicate Monotone(n: nat, f: nat -> bool) {
    forall a: nat, b: nat {:trigger f(a), f(b)} :: a < b < n && f(a) ==> f(b)
  }

  /** Binary search for the first index at which a monotone predicate holds; n when there is none. */
  method Search(n: nat, f: nat -> bool) returns (r: nat)
    requires Monotone(n, f)
    ensures r <= n
    ensures forall k: nat :: k < r ==> !f(k)
    ensures forall k: nat :: r <= k < n ==> f(k)
  {
    var i: nat, j: nat := 0, n;
    while i < j
      invariant i <= j <= n
      invariant forall k: nat :: k < i ==> !f(k)
      invariant forall k: nat :: j <= k < n ==> f(k)
    {
      var h := (i + j) / 2;
      if !f(h) { i := h + 1; } else { j := h; }
    }
    r := i;
  }

  /** Words of memory compare equal exactly when their bytes do. */
  predicate SameWord(a: Bytes, b: Bytes, i: nat, width: nat)
    requires i + width <= |a| && i + width <= |b|
  {
    a[i..i + width] == b[i..i + width]
  }

  lemma {:induction false} PrefixIs(a: Bytes, b: Bytes, n: nat)
    requires n <= |a| && n <= |b| && a[..n] == b[..n]
    requires n < |a| && n < |b| ==> a[n] != b[n]
    ensures CommonPrefix(a, b) == n
  {
    if n > 0 {
      assert a[..n][0] == b[..n][0];
      assert a[1..][..n - 1] == a[..n][1..] && b[1..][..n - 1] == b[..n][1..];
      PrefixIs(a[1..], b[1..], n - 1);
    }
  }

  /** `bytes_diff`: eight bytes at a time, then four, then one; the result is what follows the longest common prefix. */
  method BytesDiff(base: Bytes, target: Bytes) returns (diff: Bytes)
    ensures diff == target[CommonPrefix(base, target)..]
  {
    var end := if |base| < |target| then |base| else |target|;
    var i := 0;
    while i + 8 <= end
      invariant 0 <= i <= end && base[..i] == target[..i]
    {
      if !SameWord(base, target, i, 8) { break; }
      assert base[..i + 8] == base[..i] + base[i..i + 8] && target[..i + 8] == target[..i] + target[i..i + 8];
      i := i + 8;
    }
    if i + 4 <= end {
      if SameWord(base, target, i, 4) {
        assert base[..i + 4] == base[..i] + base[i..i + 4] && target[..i + 4] == target[..i] + target[i..i + 4];
        i := i + 4;
      }
    }
    while i < end
      invariant 0 <= i <= end && base[..i] == target[..i]
    {
      if base[i] != target[i] {
        PrefixIs(base, target, i);
        return target[i..];
      }
      assert base[..i + 1] == base[..i] + [base[i]] && target[..i + 1] == target[..i] + [target[i]];
      i := i + 1;
    }
    PrefixIs(base, target, end);
    return target[end..];
  }
}

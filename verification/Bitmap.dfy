/**
 The kernel bitmap operations the line code uses, on one `bool` per bit.
 */
module Bitmap {

  /** `find_next_bit` and, with `value` false, `find_next_zero_bit`: the length when there is none */
  method FindNext(b: array<bool>, value: bool, start: nat) returns (i: nat)
    ensures i <= b.Length && (i < b.Length ==> start <= i && b[i] == value)
    ensures forall j :: start <= j < i ==> b[j] != value
  {
    if start >= b.Length {
      return b.Length;
    }
    i := start;
    while i < b.Length && b[i] != value
      invariant start <= i <= b.Length && forall j :: start <= j < i ==> b[j] != value
    {
      i := i + 1;
    }
  }

  /** `bitmap_set` */
  method Set(b: array<bool>, off: nat, len: nat)
    requires off + len <= b.Length
    modifies b
    ensures forall j :: 0 <= j < b.Length ==> b[j] == (old(b[j]) || off <= j < off + len)
  {
    for i := 0 to len
      invariant forall j :: 0 <= j < b.Length ==> b[j] == (old(b[j]) || off <= j < off + i)
    {
      b[off + i] := true;
    }
  }

  /** `bitmap_shift_left` */
  method ShiftLeft(dst: array<bool>, src: array<bool>, off: nat)
    requires dst.Length == src.Length && dst != src
    modifies dst
    ensures forall j :: 0 <= j < dst.Length ==> dst[j] == (off <= j && src[j - off])
  {
    for i := 0 to dst.Length
      invariant forall j :: 0 <= j < i ==> dst[j] == (off <= j && src[j - off])
    {
      dst[i] := off <= i && src[i - off];
    }
  }

  /** `bitmap_or` into its first operand */
  method Or(dst: array<bool>, src: array<bool>)
    requires dst.Length == src.Length && dst != src
    modifies dst
    ensures forall j :: 0 <= j < dst.Length ==> dst[j] == (old(dst[j]) || src[j])
  {
    for i := 0 to dst.Length
      invariant forall j :: 0 <= j < dst.Length ==> dst[j] == (old(dst[j]) || (j < i && src[j]))
    {
      dst[i] := dst[i] || src[i];
    }
  }

  /** `bitmap_copy` */
  method Copy(dst: array<bool>, src: array<bool>)
    requires dst.Length == src.Length && dst != src
    modifies dst
    ensures dst[..] == src[..]
  {
    for i := 0 to dst.Length
      invariant dst[..i] == src[..i]
    {
      dst[i] := src[i];
    }
  }

  /** `bitmap_weight`: the number of set bits among the first `n`. */
  function Weight(b: seq<bool>, n: nat): (w: nat)
    requires n <= |b|
    ensures w <= n
  {
    if n == 0 then 0 else Weight(b, n - 1) + if b[n - 1] then 1 else 0
  }

  /** Bits that agree between `lo` and `hi` all set or all clear. */
  lemma {:induction false} WeightRun(b: seq<bool>, lo: nat, hi: nat, value: bool)
    requires lo <= hi <= |b| && forall j :: lo <= j < hi ==> b[j] == value
    ensures Weight(b, hi) == Weight(b, lo) + if value then hi - lo else 0
    decreases hi
  {
    if lo < hi { WeightRun(b, lo, hi - 1, value); }
  }
}

/**
 The stripes of a line: runs of `sec_per_pl` sectors, laid round robin over the blocks.

 Stripe `t` lies in block `t % |blk|`, where `blk` is the line's bad-block bitmap.
 */
module Stripes {

  function StripeOf(a: nat, q: nat): nat
    requires q > 0
  {
    a / q
  }

  lemma StripeBounds(a: nat, q: nat, t: nat)
    requires q > 0
    ensures StripeOf(a, q) == t <==> t * q <= a < t * q + q
  {
    if t * q <= a < t * q + q {
      assert a == q * t + (a - t * q);
      DivUnique(a, q, t);
    } else {
      assert a == q * (a / q) + a % q;
    }
  }

  lemma DivUnique(a: nat, q: nat, t: nat)
    requires q > 0 && t * q <= a < t * q + q
    ensures a / q == t
  {
    var d := a / q;
    assert a == q * d + a % q;
    if d < t { Monotone(d + 1, t, q); } else if t < d { Monotone(t + 1, d, q); }
  }

  lemma Monotone(x: nat, y: nat, q: nat)
    requires x <= y
    ensures x * q <= y * q
  {
  }

  predicate Bad(blk: seq<bool>, t: nat)
    requires blk != []
  {
    blk[t % |blk|]
  }

  /** How many stripes in `[lo, hi)` are good. */
  function Good(blk: seq<bool>, lo: nat, hi: nat): (g: nat)
    requires blk != []
    ensures lo <= hi ==> g <= hi - lo
    decreases hi
  {
    if hi <= lo then 0 else Good(blk, lo, hi - 1) + if Bad(blk, hi - 1) then 0 else 1
  }

  lemma {:induction false} GoodSplit(blk: seq<bool>, lo: nat, mid: nat, hi: nat)
    requires blk != [] && lo <= mid <= hi
    ensures Good(blk, lo, hi) == Good(blk, lo, mid) + Good(blk, mid, hi)
    decreases hi
  {
    if mid < hi { GoodSplit(blk, lo, mid, hi - 1); }
  }

  /** Taking the first stripe off a range. */
  lemma GoodFirst(blk: seq<bool>, lo: nat, hi: nat)
    requires blk != [] && lo < hi
    ensures Good(blk, lo, hi) == Good(blk, lo + 1, hi) + if Bad(blk, lo) then 0 else 1
  {
    GoodSplit(blk, lo, lo + 1, hi);
    assert Good(blk, lo, lo + 1) == Good(blk, lo, lo) + if Bad(blk, lo) then 0 else 1;
  }

  lemma {:induction false} ModShift(t: nat, k: nat, n: nat)
    requires n > 0
    ensures (t + k * n) % n == t % n
  {
    if k > 0 {
      ModShift(t, k - 1, n);
      assert t + k * n == (t + (k - 1) * n) + n;
      ModAdd(t + (k - 1) * n, n);
    }
  }

  lemma SmallMod(t: nat, n: nat)
    requires t < n
    ensures t % n == t
  {
  }

  lemma ModAdd(x: nat, n: nat)
    requires n > 0
    ensures (x + n) % n == x % n
  {
    assert x == n * (x / n) + x % n;
    assert x + n == n * (x / n + 1) + x % n;
    DivUnique(x + n, n, x / n + 1);
  }

  /** Whole rows further on the same blocks come round. */
  lemma {:induction false} GoodShift(blk: seq<bool>, lo: nat, hi: nat, k: nat)
    requires blk != [] && lo <= hi
    ensures Good(blk, lo + k * |blk|, hi + k * |blk|) == Good(blk, lo, hi)
    decreases hi
  {
    if lo < hi {
      GoodShift(blk, lo, hi - 1, k);
      ModShift(hi - 1, k, |blk|);
      assert hi + k * |blk| - 1 == (hi - 1) + k * |blk|;
    }
  }

  /** A line of `rows` rows has `rows` good stripes for each good block. */
  lemma {:induction false} GoodRows(blk: seq<bool>, rows: nat)
    requires blk != []
    ensures Good(blk, 0, rows * |blk|) == rows * Good(blk, 0, |blk|)
  {
    if rows > 0 {
      GoodRows(blk, rows - 1);
      MoreRows(blk, rows, (rows - 1) * |blk|);
      TimesNext(rows, |blk|);
      TimesNext(rows, Good(blk, 0, |blk|));
    }
  }

  lemma GoodShiftBy(blk: seq<bool>, lo: nat, hi: nat, k: nat, d: nat)
    requires blk != [] && lo <= hi && d == k * |blk|
    ensures Good(blk, lo + d, hi + d) == Good(blk, lo, hi)
  {
    hide Good, Bad;
    GoodShift(blk, lo, hi, k);
  }

  lemma MoreRows(blk: seq<bool>, rows: nat, lo: nat)
    requires blk != [] && rows > 0 && lo == (rows - 1) * |blk|
    ensures Good(blk, 0, lo + |blk|) == Good(blk, 0, lo) + Good(blk, 0, |blk|)
  {
    hide Good, Bad;
    GoodSplit(blk, 0, lo, lo + |blk|);
    GoodShiftBy(blk, 0, |blk|, rows - 1, lo);
  }

  lemma TimesNext(k: nat, n: nat)
    requires k > 0
    ensures k * n == (k - 1) * n + n
  {
  }

  /** The last stripes of a line lie in the last blocks. */
  lemma GoodLast(blk: seq<bool>, rows: nat, e: nat)
    requires blk != [] && rows > 0 && e <= |blk|
    ensures rows * |blk| >= |blk| >= e
    ensures Good(blk, rows * |blk| - e, rows * |blk|) == Good(blk, |blk| - e, |blk|)
  {
    assert rows * |blk| == |blk| + (rows - 1) * |blk|;
    GoodShift(blk, |blk| - e, |blk|, rows - 1);
  }

  lemma {:induction false} AllGood(blk: seq<bool>, lo: nat, hi: nat)
    requires blk != [] && lo < hi && Good(blk, lo, hi) == hi - lo
    ensures !Bad(blk, lo)
    decreases hi
  {
    if lo + 1 < hi { AllGood(blk, lo, hi - 1); }
  }

  lemma {:induction false} NoneGood(blk: seq<bool>, lo: nat, hi: nat)
    requires blk != [] && forall t :: lo <= t < hi ==> Bad(blk, t)
    ensures Good(blk, lo, hi) == 0
    decreases hi
  {
    if lo < hi { NoneGood(blk, lo, hi - 1); }
  }

  // ---------------------------------------------------------------- sectors of the good stripes, in order

  /** The sectors of stripe `t`. */
  function Sectors(t: nat, q: nat): seq<nat> {
    seq(q, i requires 0 <= i => t * q + i)
  }

  /** The sectors of the good stripes in `[lo, hi)`, in address order. */
  function GoodSectors(blk: seq<bool>, q: nat, lo: nat, hi: nat): seq<nat>
    requires blk != []
    decreases hi
  {
    if hi <= lo then []
    else GoodSectors(blk, q, lo, hi - 1) + if Bad(blk, hi - 1) then [] else Sectors(hi - 1, q)
  }

  lemma {:induction false} GoodSectorsSplit(blk: seq<bool>, q: nat, lo: nat, mid: nat, hi: nat)
    requires blk != [] && lo <= mid <= hi
    ensures GoodSectors(blk, q, lo, hi) == GoodSectors(blk, q, lo, mid) + GoodSectors(blk, q, mid, hi)
    decreases hi
  {
    if mid < hi {
      GoodSectorsSplit(blk, q, lo, mid, hi - 1);
    }
  }

  /** Past a stretch of bad stripes comes stripe `t`. */
  lemma GoodSectorsNext(blk: seq<bool>, q: nat, lo: nat, t: nat)
    requires blk != [] && lo <= t && !Bad(blk, t) && forall u :: lo <= u < t ==> Bad(blk, u)
    ensures GoodSectors(blk, q, lo, t + 1) == Sectors(t, q) && Good(blk, lo, t + 1) == 1
  {
    NoneGoodSectors(blk, q, lo, t);
    NoneGood(blk, lo, t);
  }

  lemma {:induction false} NoneGoodSectors(blk: seq<bool>, q: nat, lo: nat, hi: nat)
    requires blk != [] && forall t :: lo <= t < hi ==> Bad(blk, t)
    ensures GoodSectors(blk, q, lo, hi) == []
    decreases hi
  {
    if lo < hi { NoneGoodSectors(blk, q, lo, hi - 1); }
  }

  /** The sectors of good stripes: how many, which, and in strictly increasing order. */
  lemma {:induction false} GoodSectorsAre(blk: seq<bool>, q: nat, lo: nat, hi: nat)
    requires blk != [] && q > 0
    ensures var s := GoodSectors(blk, q, lo, hi);
      && |s| == Good(blk, lo, hi) * q
      && (forall i, j :: 0 <= i < j < |s| ==> s[i] < s[j])
      && (forall a: nat :: a in s <==> lo <= StripeOf(a, q) < hi && !Bad(blk, StripeOf(a, q)))
    decreases hi
  {
    if lo < hi {
      var t := hi - 1;
      GoodSectorsAre(blk, q, lo, t);
      var s, s1, w := GoodSectors(blk, q, lo, hi), GoodSectors(blk, q, lo, t), Sectors(t, q);
      forall a: nat ensures a in w <==> StripeOf(a, q) == t {
        StripeBounds(a, q, t);
        if StripeOf(a, q) == t { assert w[a - t * q] == a; }
      }
      if !Bad(blk, t) {
        assert (Good(blk, lo, t) + 1) * q == Good(blk, lo, t) * q + q;
        forall i | 0 <= i < |s1| ensures s1[i] < t * q {
          assert s1[i] in s1;
          assert StripeOf(s1[i], q) < t;
          StripeBounds(s1[i], q, StripeOf(s1[i], q));
          Monotone(StripeOf(s1[i], q) + 1, t, q);
        }
      }
    }
  }
}

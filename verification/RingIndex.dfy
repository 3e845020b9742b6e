/** The masked ring positions of the driver against unwrapped ones. */
module RingIndex {
  import opened Bitwise
  import opened Ftl

  /** `(pos + count) & (n - 1)` */
  function Advance(pos: nat, count: nat, n: nat): nat
    requires n > 0
  {
    And(U32(pos + count), n - 1)
  }

  /** `CIRC_CNT(head, tail, n)` */
  function CircCnt(head: nat, tail: nat, n: nat): nat
    requires n > 0
  {
    And(U32(head - tail), n - 1)
  }

  /** `CIRC_SPACE(head, tail, n)` */
  function CircSpace(head: nat, tail: nat, n: nat): nat
    requires n > 0
  {
    CircCnt(tail, head + 1, n)
  }

  /** A ring size the driver accepts: a power of two that fits an unsigned int. */
  ghost predicate RingSize(n: nat) {
    exists k: nat :: k <= 32 && n == Pow2(k)
  }

  lemma {:induction false} WrapIsMod(k: nat, n: nat)
    requires n > 0
    ensures Wrap(k, n) == k % n
  {
    if k >= n {
      WrapIsMod(k - n, n);
      DivModUnique(k, n, (k - n) / n + 1, (k - n) % n);
    } else {
      DivModUnique(k, n, 0, k);
    }
  }

  lemma MaskIsMod(x: int, n: nat)
    requires RingSize(n)
    ensures n > 0 && And(U32(x), n - 1) == x % n
  {
    var k: nat :| k <= 32 && n == Pow2(k);
    AndMask(U32(x), k);
    WrapMod(x, k);
  }

  lemma AdvanceWraps(u: nat, count: nat, n: nat)
    requires RingSize(n) && n > 0
    ensures Advance(Wrap(u, n), count, n) == Wrap(u + count, n)
  {
    WrapIsMod(u, n);
    WrapIsMod(u + count, n);
    MaskIsMod(Wrap(u, n) + count, n);
    DiffMod(u, 0, count, n);
    DivModUnique(0, n, 0, 0);
  }

  lemma DiffMod(h: nat, t: nat, d: int, n: nat)
    requires n > 0
    ensures (h % n - t % n + d) % n == (h - t + d) % n
  {
    var x := h % n - t % n + d;
    assert h - t + d == n * (h / n - t / n + x / n) + x % n;
    DivModUnique(h - t + d, n, h / n - t / n + x / n, x % n);
  }

  /** The masked count is the distance of the unwrapped positions. */
  lemma CountIsDistance(h: nat, t: nat, n: nat)
    requires RingSize(n) && n > 0 && t <= h < t + n
    ensures CircCnt(Wrap(h, n), Wrap(t, n), n) == h - t
  {
    hide Wrap, And, U32;
    WrapIsMod(h, n);
    WrapIsMod(t, n);
    MaskIsMod(Wrap(h, n) - Wrap(t, n), n);
    DiffMod(h, t, 0, n);
    DivModUnique(h - t, n, 0, h - t);
  }

  /** The masked space is what is left of a ring that keeps one slot free. */
  lemma SpaceIsRest(h: nat, t: nat, n: nat)
    requires RingSize(n) && n > 0 && t <= h < t + n
    ensures CircSpace(Wrap(h, n), Wrap(t, n), n) == n - 1 - (h - t)
  {
    hide Wrap, And, U32;
    WrapIsMod(h, n);
    WrapIsMod(t, n);
    MaskIsMod(Wrap(t, n) - (Wrap(h, n) + 1), n);
    DiffMod(t, h, -1, n);
    DivModUnique(t - h - 1, n, -1, n - 1 - (h - t));
  }
}

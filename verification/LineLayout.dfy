/**
 Setting up a line: which sectors hold start metadata, data and end metadata, for every set of bad blocks.

 A line has `rows` rows of one stripe per block, a stripe being `q` (`sec_per_pl`) sectors; start metadata
 takes one stripe and end metadata `emeta` stripes.
 */
module LineLayout {
  import opened Stripes
  import Bitmap
  import Requests
  import Ftl

  // ---------------------------------------------------------------- the bad-block template

  /** Within row `r` the stripe's number in the row is its block. */
  lemma RowOf(t: nat, n: nat, r: nat)
    requires n > 0 && r * n <= t < r * n + n
    ensures t % n == t - r * n
  {
    ModShift(t - r * n, r, n);
    SmallMod(t - r * n, n);
  }

  /** In the row that starts at sector `i`, the first stripe and only it lies in block 0. */
  lemma RowStart(a: nat, q: nat, n: nat, r: nat, i: nat)
    requires q > 0 && n > 0 && i == r * (n * q) && i <= a < i + n * q
    ensures StripeOf(a, q) % n == 0 <==> a < i + q
  {
    var t := StripeOf(a, q);
    StripeBounds(a, q, t);
    assert i == (r * n) * q;
    if t < r * n { Monotone(t + 1, r * n, q); TimesNext(t + 1, q); }
    assert i + n * q == (r * n + n) * q by { Distribute(r * n, n, q); }
    if t >= r * n + n { Monotone(r * n + n, t, q); }
    RowOf(t, n, r);
    StripeBounds(a, q, r * n);
  }

  lemma Distribute(x: nat, y: nat, q: nat)
    ensures (x + y) * q == x * q + y * q
  {
  }

  /** The template marks the sectors of block 0. */
  predicate Template(b: seq<bool>, q: nat, n: nat)
    requires q > 0 && n > 0
  {
    forall a :: 0 <= a < |b| ==> b[a] == (StripeOf(a, q) % n == 0)
  }

  predicate TemplateTo(b: seq<bool>, q: nat, n: nat, i: nat)
    requires q > 0 && n > 0
  {
    forall a :: 0 <= a < |b| ==> b[a] == (a < i && StripeOf(a, q) % n == 0)
  }

  lemma TemplateRow(b: seq<bool>, b': seq<bool>, q: nat, n: nat, r: nat, i: nat)
    requires q > 0 && n > 0 && i == r * (n * q) && |b'| == |b| && TemplateTo(b, q, n, i)
    requires forall a :: 0 <= a < |b| ==> b'[a] == (b[a] || i <= a < i + q)
    ensures TemplateTo(b', q, n, i + n * q)
  {
    forall a | 0 <= a < |b| ensures b'[a] == (a < i + n * q && StripeOf(a, q) % n == 0) {
      if i <= a < i + n * q { RowStart(a, q, n, r, i); }
      Monotone(1, n, q);
    }
  }

  /** The loop of `pblk_lines_init` that fills `bb_template` */
  method FillTemplate(b: array<bool>, q: nat, nrLuns: nat, rows: nat)
    requires q > 0 && nrLuns > 0 && b.Length == rows * (nrLuns * q) && forall a :: 0 <= a < b.Length ==> !b[a]
    modifies b
    ensures Template(b[..], q, nrLuns)
  {
    var i := 0;
    ghost var r := 0;
    while i < b.Length
      invariant r <= rows && i == r * (nrLuns * q) && TemplateTo(b[..], q, nrLuns, i)
      decreases rows - r
    {
      ghost var was := b[..];
      Monotone(r + 1, rows, nrLuns * q);
      TimesNext(r + 1, nrLuns * q);
      Monotone(1, nrLuns, q);
      Bitmap.Set(b, i, q);
      TemplateRow(was, b[..], q, nrLuns, r, i);
      i := i + nrLuns * q;
      r := r + 1;
    }
  }

  /** The template shifted by `bit` stripes marks the sectors of block `bit`. */
  lemma ColumnShift(a: nat, q: nat, n: nat, bit: nat, off: nat)
    requires q > 0 && bit < n && off == bit * q
    ensures (off <= a && StripeOf(a - off, q) % n == 0) <==> StripeOf(a, q) % n == bit
  {
    var t := StripeOf(a, q);
    StripeBounds(a, q, t);
    var r := t / n;
    assert t == n * r + t % n;
    if bit * q <= a {
      if t < bit { Monotone(t + 1, bit, q); TimesNext(t + 1, q); }
      assert (t - bit) * q + bit * q == t * q by { Distribute(t - bit, bit, q); }
      StripeBounds(a - bit * q, q, t - bit);
      BlockShift(t, n, bit);
    } else if t >= bit {
      Monotone(bit, t, q);
    } else {
      SmallMod(t, n);
    }
  }

  lemma BlockShift(t: nat, n: nat, bit: nat)
    requires bit < n && bit <= t
    ensures (t - bit) % n == 0 <==> t % n == bit
  {
    var u := t - bit;
    var r := u / n;
    assert u == n * r + u % n;
    assert t == (u % n + bit) + r * n;
    ModShift(u % n + bit, r, n);
    if u % n + bit < n { SmallMod(u % n + bit, n); } else { ModAdd(u % n + bit - n, n); SmallMod(u % n + bit - n, n); }
  }

  // ---------------------------------------------------------------- marking bad blocks

  /** The sectors of the bad blocks below `upto`, and no others, are marked. */
  predicate Columns(m: seq<bool>, blk: seq<bool>, q: nat, upto: nat)
    requires q > 0 && blk != []
  {
    forall a :: 0 <= a < |m| ==> m[a] == (StripeOf(a, q) % |blk| < upto && Bad(blk, StripeOf(a, q)))
  }

  lemma OneColumn(m: seq<bool>, m': seq<bool>, tmpl: seq<bool>, blk: seq<bool>, q: nat, bit: nat, off: nat)
    requires q > 0 && bit < |blk| && blk[bit] && |m'| == |m| == |tmpl| && Template(tmpl, q, |blk|) && Columns(m, blk, q, bit)
    requires off == bit * q && forall a :: 0 <= a < |m| ==> m'[a] == (m[a] || (off <= a && tmpl[a - off]))
    ensures Columns(m', blk, q, bit + 1)
  {
    forall a | 0 <= a < |m| ensures m'[a] == (StripeOf(a, q) % |blk| < bit + 1 && Bad(blk, StripeOf(a, q))) {
      ColumnShift(a, q, |blk|, bit, off);
    }
  }

  lemma SkipColumns(m: seq<bool>, blk: seq<bool>, q: nat, from: nat, upto: nat)
    requires q > 0 && blk != [] && from <= upto <= |blk| && Columns(m, blk, q, from)
    requires forall b :: from <= b < upto ==> !blk[b]
    ensures Columns(m, blk, q, upto)
  {
  }

  /** Blocks `[lo, hi)` of the first row, only the first of them bad. */
  lemma {:induction false} GoodAfter(blk: seq<bool>, lo: nat, from: nat, hi: nat)
    requires from <= hi <= |blk| && blk != [] && lo <= from && forall b :: from <= b < hi ==> !blk[b]
    ensures Good(blk, lo, hi) == Good(blk, lo, from) + (hi - from)
    decreases hi
  {
    if from < hi {
      GoodAfter(blk, lo, from, hi - 1);
      SmallMod(hi - 1, |blk|);
    }
  }

  /** How many of the blocks in `[lo, hi)` are bad. */
  function BadBlocks(blk: seq<bool>, lo: nat, hi: nat): nat
    requires blk != []
  {
    if hi <= lo then 0 else hi - lo - Good(blk, lo, hi)
  }

  lemma NextBad(blk: seq<bool>, lo: nat, bit: nat, next: nat)
    requires bit < next <= |blk| && blk[bit] && forall b :: bit < b < next ==> !blk[b]
    ensures BadBlocks(blk, lo, next) == BadBlocks(blk, lo, bit) + if lo <= bit then 1 else 0
  {
    SmallMod(bit, |blk|);
    if lo <= bit {
      GoodAfter(blk, lo, bit + 1, next);
    } else if lo < next {
      GoodAfter(blk, lo, lo, next);
    }
  }

  lemma FirstBad(blk: seq<bool>, lo: nat, bit: nat)
    requires bit <= |blk| && blk != [] && forall b :: 0 <= b < bit ==> !blk[b]
    ensures BadBlocks(blk, lo, bit) == 0
  {
    if lo < bit { GoodAfter(blk, lo, lo, bit); }
  }

  // ---------------------------------------------------------------- metadata

  /** A sector is taken when it lies before stripe `c`, in a bad block, or at or after stripe `e`. */
  predicate Taken(m: seq<bool>, blk: seq<bool>, q: nat, c: nat, e: nat)
    requires q > 0 && blk != []
  {
    forall a :: 0 <= a < |m| ==> m[a] == (StripeOf(a, q) < c || Bad(blk, StripeOf(a, q)) || e <= StripeOf(a, q))
  }

  /** `k` stripes from stripe `t` on are the sectors from `t * q` to `(t + k) * q`. */
  lemma StripesAre(a: nat, q: nat, t: nat, k: nat)
    requires q > 0
    ensures t * q <= a < t * q + k * q <==> t <= StripeOf(a, q) < t + k
  {
    var u := StripeOf(a, q);
    StripeBounds(a, q, u);
    Distribute(t, k, q);
    if u < t { Monotone(u + 1, t, q); TimesNext(u + 1, q); } else { Monotone(t, u, q); }
    if u < t + k { Monotone(u + 1, t + k, q); TimesNext(u + 1, q); } else { Monotone(t + k, u, q); }
  }

  lemma StripeStart(t: nat, q: nat, n: nat)
    requires q > 0 && t < n
    ensures t * q + q <= n * q && StripeOf(t * q, q) == t
  {
    StripeBounds(t * q, q, t);
    Monotone(t + 1, n, q);
    TimesNext(t + 1, q);
  }

  /** Everything before the first good block is bad, so with its first stripe taken all up to there is. */
  lemma SmetaTaken(m: seq<bool>, m': seq<bool>, blk: seq<bool>, q: nat, b: nat, off: nat, total: nat)
    requires q > 0 && b < |blk| && |m'| == |m| == total * q && off == b * q && Columns(m, blk, q, |blk|)
    requires !blk[b] && forall t :: 0 <= t < b ==> blk[t]
    requires forall a :: 0 <= a < |m| ==> m'[a] == (m[a] || off <= a < off + q)
    ensures Taken(m', blk, q, b + 1, total)
  {
    forall a | 0 <= a < |m| ensures m'[a] == (StripeOf(a, q) < b + 1 || Bad(blk, StripeOf(a, q)) || total <= StripeOf(a, q)) {
      StripesAre(a, q, b, 1);
      StripesAre(a, q, 0, total);
      if StripeOf(a, q) < b { SmallMod(StripeOf(a, q), |blk|); }
    }
  }

  /** Taking `k` more stripes at the end. */
  lemma TakeEnd(m: seq<bool>, m': seq<bool>, blk: seq<bool>, q: nat, c: nat, e: nat, k: nat, off: nat)
    requires q > 0 && blk != [] && |m'| == |m| && off == e * q && Taken(m, blk, q, c, e + k)
    requires forall a :: 0 <= a < |m| ==> m'[a] == (m[a] || off <= a < off + k * q)
    ensures Taken(m', blk, q, c, e)
  {
    forall a | 0 <= a < |m| ensures m'[a] == (StripeOf(a, q) < c || Bad(blk, StripeOf(a, q)) || e <= StripeOf(a, q)) {
      StripesAre(a, q, e, k);
    }
  }

  lemma SkipEnd(m: seq<bool>, blk: seq<bool>, q: nat, c: nat, e: nat)
    requires q > 0 && blk != [] && Taken(m, blk, q, c, e + 1) && Bad(blk, e)
    ensures Taken(m, blk, q, c, e)
  {
  }

  /** The first good block comes before the end of the first row. */
  lemma FirstGood(blk: seq<bool>, rows: nat, bit: nat)
    requires blk != [] && rows * Good(blk, 0, |blk|) >= 1 && bit <= |blk| && forall b :: 0 <= b < bit ==> blk[b]
    requires bit < |blk| ==> !blk[bit]
    ensures bit < |blk| && !Bad(blk, bit) && forall t :: 0 <= t < bit ==> Bad(blk, t)
  {
    forall t | 0 <= t < bit ensures Bad(blk, t) { SmallMod(t, |blk|); }
    if bit == |blk| { NoneGood(blk, 0, |blk|); } else { SmallMod(bit, |blk|); }
  }

  /** Where the walk starts: the last `emeta` stripes, one of them missing for each bad block among the last blocks. */
  lemma EmetaStart(blk: seq<bool>, rows: nat, emeta: nat, c: nat)
    requires blk != [] && rows > 0 && 0 < emeta <= |blk| && c <= rows * |blk| && Good(blk, c, rows * |blk|) >= emeta
    ensures c <= rows * |blk| - emeta
    ensures var bad := BadBlocks(blk, |blk| - emeta, |blk|); var e := rows * |blk| - emeta;
      bad == emeta - Good(blk, e, rows * |blk|) && (bad == 0 ==> !Bad(blk, e))
  {
    GoodLast(blk, rows, emeta);
    var e := rows * |blk| - emeta;
    if Good(blk, e, rows * |blk|) == emeta { AllGood(blk, e, rows * |blk|); }
  }

  /** While good stripes are missing there is a stripe before `e` and after `c`, and its first bit tells whether it is bad. */
  lemma WalkOn(blk: seq<bool>, q: nat, c: nat, e: nat, total: nat, nrBb: nat, emeta: nat)
    requires q > 0 && blk != [] && c <= e < total && nrBb > 0 && nrBb == emeta - Good(blk, e, total)
    requires Good(blk, c, total) >= emeta
    ensures c < e && e * q == (e - 1) * q + q && StripeOf((e - 1) * q, q) == e - 1
    ensures Good(blk, e - 1, total) == Good(blk, e, total) + if Bad(blk, e - 1) then 0 else 1
  {
    if c < e {
      StripeStart(e - 1, q, e);
      TimesNext(e, q);
      GoodFirst(blk, e - 1, total);
    }
  }

  /** The free stripes below `t`. */
  function FreeBelow(blk: seq<bool>, c: nat, e: nat, t: nat): nat
    requires blk != []
  {
    Good(blk, c, if t < e then t else e)
  }

  /** The set bits of such a bitmap: every stripe but the good ones in `[c, e)`, `q` bits each. */
  lemma {:induction false} TakenWeight(m: seq<bool>, blk: seq<bool>, q: nat, c: nat, e: nat, t: nat)
    requires q > 0 && blk != [] && c <= e && t * q <= |m| && Taken(m, blk, q, c, e)
    ensures FreeBelow(blk, c, e, t) <= t && Bitmap.Weight(m, t * q) == (t - FreeBelow(blk, c, e, t)) * q
  {
    if t > 0 {
      TimesNext(t, q);
      TakenWeight(m, blk, q, c, e, t - 1);
      var value := t - 1 < c || Bad(blk, t - 1) || e <= t - 1;
      forall j | (t - 1) * q <= j < t * q ensures m[j] == value {
        StripeBounds(j, q, t - 1);
      }
      Bitmap.WeightRun(m, (t - 1) * q, t * q, value);
      Distribute(t - 1 - FreeBelow(blk, c, e, t - 1), 1, q);
    }
  }

  lemma LaidWeight(m: seq<bool>, blk: seq<bool>, q: nat, c: nat, e: nat, total: nat)
    requires q > 0 && blk != [] && c <= e <= total && total * q == |m| && Taken(m, blk, q, c, e)
    ensures Bitmap.Weight(m, |m|) == |m| - Good(blk, c, e) * q
  {
    TakenWeight(m, blk, q, c, e, total);
    Distribute(total - Good(blk, c, e), Good(blk, c, e), q);
  }

  /** The size of the next request of `pblk_line_submit_emeta_io`, `m` stripes being left */
  method NextRq(left: nat, most: nat, q: nat, ghost m: nat) returns (rqPpas: nat, ghost k: nat)
    requires q > 0 && most > 0 && m > 0 && left == m * q
    ensures 0 < k <= m && rqPpas == k * q && left - rqPpas == (m - k) * q && k <= most && (k == m || k == most)
  {
    Requests.WholeChunks(m, most, q);
    rqPpas := Requests.CalcSecs(left, 0, q, most * q);
    k := if m < most then m else most;
    Distribute(m - k, k, q);
  }

  class Line {
    const blkBitmap: array<bool>
    const mapBitmap: array<bool>
    const invalidBitmap: array<bool>
    const rows: nat
    const q: nat
    const emeta: nat
    var secInLine: int
    var smetaSsec: nat
    var emetaSsec: nat
    var curSec: nat
    var vsc: int
    var leftSsecs: int
    var leftMsecs: int

    constructor (blkBitmap: array<bool>, rows: nat, q: nat, emeta: nat)
      requires q > 0 && rows > 0 && 0 < emeta <= blkBitmap.Length
      ensures Sized() && this.blkBitmap == blkBitmap && this.rows == rows && this.q == q && this.emeta == emeta
      ensures fresh(mapBitmap) && fresh(invalidBitmap) && forall a :: 0 <= a < mapBitmap.Length ==> !mapBitmap[a]
    {
      this.blkBitmap, this.rows, this.q, this.emeta := blkBitmap, rows, q, emeta;
      mapBitmap := new bool[rows * blkBitmap.Length * q](_ => false);
      invalidBitmap := new bool[rows * blkBitmap.Length * q](_ => false);
    }

    /** The geometry: end metadata fits in one row, and start and end metadata in the good blocks. */
    ghost predicate Sized()
      reads blkBitmap
    {
      && q > 0 && rows > 0 && 0 < emeta <= blkBitmap.Length
      && mapBitmap.Length == invalidBitmap.Length == rows * blkBitmap.Length * q
      && blkBitmap != mapBitmap && blkBitmap != invalidBitmap && mapBitmap != invalidBitmap
    }

    /** The good blocks hold start and end metadata. */
    ghost predicate Fits()
      requires Sized()
      reads blkBitmap
    {
      rows * Good(blkBitmap[..], 0, blkBitmap.Length) >= 1 + emeta
    }

    /** The pass of `pblk_line_setup` over the bad blocks; counts those the end metadata would have used */
    method MarkBadBlocks(tmpl: array<bool>, aux: array<bool>) returns (nrBb: nat)
      requires Sized() && tmpl.Length == aux.Length == mapBitmap.Length && Template(tmpl[..], q, blkBitmap.Length)
      requires aux != tmpl && aux != mapBitmap && aux != blkBitmap && tmpl != mapBitmap
      requires forall a :: 0 <= a < mapBitmap.Length ==> !mapBitmap[a]
      modifies this`secInLine, mapBitmap, aux
      ensures Columns(mapBitmap[..], blkBitmap[..], q, blkBitmap.Length)
      ensures secInLine == old(secInLine) - BadBlocks(blkBitmap[..], 0, blkBitmap.Length) * (rows * q)
      ensures nrBb == BadBlocks(blkBitmap[..], blkBitmap.Length - emeta, blkBitmap.Length)
    {
      hide Columns, BadBlocks, Template;
      ghost var blk := blkBitmap[..];
      nrBb := 0;
      var bit := Bitmap.FindNext(blkBitmap, true, 0);
      FirstBad(blk, 0, bit);
      FirstBad(blk, |blk| - emeta, bit);
      SkipColumns(mapBitmap[..], blk, q, 0, bit);
      while bit < blkBitmap.Length
        invariant bit <= |blk| && (bit < |blk| ==> blk[bit]) && blk == blkBitmap[..]
        invariant Columns(mapBitmap[..], blk, q, bit)
        invariant secInLine == old(secInLine) - BadBlocks(blk, 0, bit) * (rows * q)
        invariant nrBb == BadBlocks(blk, |blk| - emeta, bit)
        decreases |blk| - bit
      {
        ghost var was := mapBitmap[..];
        Bitmap.ShiftLeft(aux, tmpl, bit * q);
        Bitmap.Or(mapBitmap, aux);
        OneColumn(was, mapBitmap[..], tmpl[..], blk, q, bit, bit * q);
        secInLine := secInLine - rows * q;
        if bit >= blkBitmap.Length - emeta {
          nrBb := nrBb + 1;
        }
        var next := Bitmap.FindNext(blkBitmap, true, bit + 1);
        SkipColumns(mapBitmap[..], blk, q, bit + 1, next);
        NextBad(blk, 0, bit, next);
        NextBad(blk, |blk| - emeta, bit, next);
        Distribute(BadBlocks(blk, 0, bit), 1, rows * q);
        bit := next;
      }
    }

    /** The part of `pblk_line_setup` that places start metadata; `c` is the first stripe after it */
    method PlaceSmeta() returns (ghost c: nat)
      requires Sized() && Fits() && Columns(mapBitmap[..], blkBitmap[..], q, blkBitmap.Length)
      modifies this`secInLine, this`smetaSsec, this`curSec, mapBitmap, invalidBitmap
      ensures 0 < c <= rows * blkBitmap.Length && smetaSsec == (c - 1) * q && curSec == c * q && secInLine == old(secInLine) - q
      ensures !Bad(blkBitmap[..], c - 1) && forall t :: 0 <= t < c - 1 ==> Bad(blkBitmap[..], t)
      ensures Taken(mapBitmap[..], blkBitmap[..], q, c, rows * blkBitmap.Length) && invalidBitmap[..] == mapBitmap[..]
    {
      ghost var blk, was, total := blkBitmap[..], mapBitmap[..], rows * blkBitmap.Length;
      var bit := Bitmap.FindNext(blkBitmap, false, 0);
      FirstGood(blk, rows, bit);
      Monotone(1, rows, |blk|);
      StripeStart(bit, q, total);
      var off := bit * q;
      Bitmap.Set(mapBitmap, off, q);
      SmetaTaken(was, mapBitmap[..], blk, q, bit, off, total);
      secInLine := secInLine - q;
      smetaSsec := off;
      curSec := off + q;
      TimesNext(bit + 1, q);
      Bitmap.Copy(invalidBitmap, mapBitmap);
      c := bit + 1;
    }

    /** The backward walk of `pblk_line_setup`: one stripe more for each bad one met, from stripe `e0` to stripe `e` */
    method WalkBack(start: nat, bad: nat, ghost c: nat, ghost e0: nat, ghost total: nat) returns (off: nat, ghost e: nat)
      requires q > 0 && blkBitmap.Length > 0 && blkBitmap != invalidBitmap && start == e0 * q && start + q <= invalidBitmap.Length
      requires c <= e0 < total && Good(blkBitmap[..], c, total) >= emeta && Taken(invalidBitmap[..], blkBitmap[..], q, c, e0)
      requires bad == emeta - Good(blkBitmap[..], e0, total) && (bad == 0 ==> !Bad(blkBitmap[..], e0))
      modifies invalidBitmap
      ensures c <= e < total && off == e * q && !Bad(blkBitmap[..], e)
      ensures Good(blkBitmap[..], e, total) == emeta && Taken(invalidBitmap[..], blkBitmap[..], q, c, e)
    {
      ghost var blk := blkBitmap[..];
      var nrBb := bad;
      off, e := start, e0;
      while nrBb > 0
        invariant c <= e < total && off == e * q && off + q <= invalidBitmap.Length && blk == blkBitmap[..]
        invariant Taken(invalidBitmap[..], blk, q, c, e)
        invariant nrBb == emeta - Good(blk, e, total) && (nrBb == 0 ==> !Bad(blk, e))
        decreases e
      {
        ghost var was := invalidBitmap[..];
        WalkOn(blk, q, c, e, total, nrBb, emeta);
        off := off - q;
        e := e - 1;
        if !invalidBitmap[off] {
          Bitmap.Set(invalidBitmap, off, q);
          TakeEnd(was, invalidBitmap[..], blk, q, c, e, 1, off);
          nrBb := nrBb - 1;
        } else {
          SkipEnd(was, blk, q, c, e);
        }
      }
    }

    /** The part of `pblk_line_setup` that places end metadata, from stripe `e` on */
    method PlaceEmeta(bad: nat, ghost c: nat) returns (ghost e: nat)
      requires Sized() && Taken(invalidBitmap[..], blkBitmap[..], q, c, rows * blkBitmap.Length)
      requires bad == BadBlocks(blkBitmap[..], blkBitmap.Length - emeta, blkBitmap.Length)
      requires c <= rows * blkBitmap.Length && Good(blkBitmap[..], c, rows * blkBitmap.Length) >= emeta
      modifies this`secInLine, this`emetaSsec, this`vsc, this`leftSsecs, this`leftMsecs, invalidBitmap
      ensures c <= e < rows * blkBitmap.Length && emetaSsec == e * q && !Bad(blkBitmap[..], e)
      ensures Good(blkBitmap[..], e, rows * blkBitmap.Length) == emeta
      ensures Taken(invalidBitmap[..], blkBitmap[..], q, c, e)
      ensures vsc == leftSsecs == leftMsecs == secInLine == old(secInLine) - emeta * q
    {
      ghost var blk, total, was := blkBitmap[..], rows * blkBitmap.Length, invalidBitmap[..];
      EmetaStart(blk, rows, emeta, c);
      Distribute(total - emeta, emeta, q);
      StripeStart(total - emeta, q, total);
      var off := invalidBitmap.Length - emeta * q;
      Bitmap.Set(invalidBitmap, off, emeta * q);
      TakeEnd(was, invalidBitmap[..], blk, q, c, total - emeta, emeta, off);
      off, e := WalkBack(off, bad, c, total - emeta, total);
      secInLine := secInLine - emeta * q;
      emetaSsec := off;
      vsc, leftSsecs, leftMsecs := secInLine, secInLine, secInLine;
    }

    /**
     `pblk_line_setup`, the first start metadata write succeeding; false for a line without a good block.
     Data lies in the good stripes from `c` to `e`, end metadata in those from `e` on.
     */
    method Setup(tmpl: array<bool>, aux: array<bool>) returns (ok: bool, ghost c: nat, ghost e: nat)
      requires Sized() && (Good(blkBitmap[..], 0, blkBitmap.Length) > 0 ==> Fits())
      requires tmpl.Length == aux.Length == mapBitmap.Length && Template(tmpl[..], q, blkBitmap.Length)
      requires aux != tmpl && aux != mapBitmap && aux != blkBitmap && tmpl != mapBitmap && tmpl != invalidBitmap
      requires forall a :: 0 <= a < mapBitmap.Length ==> !mapBitmap[a]
      modifies this, mapBitmap, invalidBitmap, aux
      ensures ok <==> Good(blkBitmap[..], 0, blkBitmap.Length) > 0
      ensures ok ==> Placed(c, e) && curSec == c * q && smetaSsec == (c - 1) * q && emetaSsec == e * q
      ensures ok ==> Taken(mapBitmap[..], blkBitmap[..], q, c, rows * blkBitmap.Length)
      ensures ok ==> Taken(invalidBitmap[..], blkBitmap[..], q, c, e)
      ensures ok ==> vsc == leftSsecs == leftMsecs == secInLine == Good(blkBitmap[..], c, e) * q
      ensures ok ==> mapBitmap.Length - secInLine == Bitmap.Weight(invalidBitmap[..], mapBitmap.Length)
    {
      ghost var blk, total := blkBitmap[..], rows * blkBitmap.Length;
      var bit := Bitmap.FindNext(blkBitmap, false, 0);
      if bit >= blkBitmap.Length {
        NoGoodBlock(blk);
        return false, 0, 0;
      }
      GoodBlock(blk, bit);
      secInLine := mapBitmap.Length;
      var nrBb := MarkBadBlocks(tmpl, aux);
      c := PlaceSmeta();
      AfterSmeta(blk, rows, emeta, c);
      e := PlaceEmeta(nrBb, c);
      SectorsLeft(blk, rows, q, emeta, c, e);
      LaidWeight(invalidBitmap[..], blk, q, c, e, total);
      ok := true;
    }

    // -------------------------------------------------------------- allocation

    /** `__pblk_alloc_page` of one stripe: the next good one, `t` */
    method TakeStripe(ghost c: nat) returns (addr: nat, ghost t: nat)
      requires Sized() && c <= rows * blkBitmap.Length && curSec == c * q
      requires Taken(mapBitmap[..], blkBitmap[..], q, c, rows * blkBitmap.Length) && Good(blkBitmap[..], c, rows * blkBitmap.Length) > 0
      modifies this`curSec, mapBitmap
      ensures c <= t < rows * blkBitmap.Length && addr == t * q && !Bad(blkBitmap[..], t)
      ensures forall u :: c <= u < t ==> Bad(blkBitmap[..], u)
      ensures curSec == (t + 1) * q && Taken(mapBitmap[..], blkBitmap[..], q, t + 1, rows * blkBitmap.Length)
    {
      ghost var blk, m, total := blkBitmap[..], mapBitmap[..], rows * blkBitmap.Length;
      Monotone(c, total, q);
      addr := Bitmap.FindNext(mapBitmap, false, curSec);
      t := NextClear(m, blk, q, c, total, addr);
      curSec := addr;
      for i := 0 to q
        invariant curSec == addr + i
        invariant forall a :: 0 <= a < mapBitmap.Length ==> mapBitmap[a] == (m[a] || addr <= a < addr + i)
      {
        assert !mapBitmap[curSec];
        mapBitmap[curSec] := true;
        curSec := curSec + 1;
      }
      TakeNext(m, mapBitmap[..], blk, q, c, t, total, addr);
      TimesNext(t + 1, q);
    }

    /** Stripe `c` is the next to look at; the data stripes left are the good ones before `e`. */
    ghost predicate Filling(c: nat, e: nat)
      requires Sized()
      reads this, blkBitmap, mapBitmap
    {
      && c <= e < rows * blkBitmap.Length && !Bad(blkBitmap[..], e) && Good(blkBitmap[..], e, rows * blkBitmap.Length) == emeta
      && curSec == c * q && emetaSsec == e * q && leftMsecs == Good(blkBitmap[..], c, e) * q
      && Taken(mapBitmap[..], blkBitmap[..], q, c, rows * blkBitmap.Length)
    }

    /** `pblk_alloc_page` of one stripe while the line is not full: data stays clear of end metadata */
    method AllocPage(ghost c: nat, ghost e: nat) returns (addr: nat, ghost t: nat)
      requires Sized() && Filling(c, e) && leftMsecs > 0
      modifies this`curSec, this`leftMsecs, mapBitmap
      ensures Filling(t + 1, e) && addr + q <= emetaSsec && leftMsecs == old(leftMsecs) - q >= 0
      ensures c <= t < e && addr == t * q && GoodSectors(blkBitmap[..], q, c, t + 1) == Sectors(t, q)
      ensures !Bad(blkBitmap[..], t) && forall u :: c <= u < t ==> Bad(blkBitmap[..], u)
    {
      ghost var blk, total := blkBitmap[..], rows * blkBitmap.Length;
      DataLeft(blk, q, c, e, total, leftMsecs);
      addr, t := TakeStripe(c);
      leftMsecs := leftMsecs - q;
      DataTaken(blk, q, c, t, e, total);
    }

    /** Filling a line: chunk after chunk until it is full */
    method FillLine(ghost c0: nat, ghost e: nat) returns (addrs: seq<nat>, ghost c: nat)
      requires Sized() && Filling(c0, e)
      modifies this`curSec, this`leftMsecs, mapBitmap
      ensures Filling(c, e) && leftMsecs == 0 && addrs == GoodSectors(blkBitmap[..], q, c0, e)
    {
      addrs, c := [], c0;
      ghost var blk := blkBitmap[..];
      while leftMsecs > 0
        invariant Filling(c, e) && c0 <= c && addrs == GoodSectors(blk, q, c0, c) && blk == blkBitmap[..]
        decreases leftMsecs
      {
        var addr;
        ghost var t;
        addr, t := AllocPage(c, e);
        GoodSectorsSplit(blk, q, c0, c, t + 1);
        addrs := addrs + seq(q, i requires 0 <= i => addr + i);
        c := t + 1;
      }
      FullLine(blk, q, c0, c, e);
    }

    // -------------------------------------------------------------- addresses of the end metadata

    /** Writing: a request of `k` stripes of `pblk_line_submit_emeta_io` */
    method EmetaWriteRq(rqPpas: nat, ghost k: nat, ghost c0: nat) returns (ppas: seq<nat>, ghost c: nat)
      requires Sized() && rqPpas == k * q && c0 <= rows * blkBitmap.Length && curSec == c0 * q
      requires Taken(mapBitmap[..], blkBitmap[..], q, c0, rows * blkBitmap.Length)
      requires Good(blkBitmap[..], c0, rows * blkBitmap.Length) >= k
      modifies this`curSec, mapBitmap
      ensures c0 <= c <= rows * blkBitmap.Length && curSec == c * q && Taken(mapBitmap[..], blkBitmap[..], q, c, rows * blkBitmap.Length)
      ensures ppas == GoodSectors(blkBitmap[..], q, c0, c) && Good(blkBitmap[..], c0, c) == k
    {
      ghost var blk, total := blkBitmap[..], rows * blkBitmap.Length;
      ppas, c := [], c0;
      var i := 0;
      ghost var j := 0;
      while i < rqPpas
        invariant j <= k && i == j * q && blk == blkBitmap[..] && c0 <= c <= total && curSec == c * q
        invariant Taken(mapBitmap[..], blk, q, c, total)
        invariant ppas == GoodSectors(blk, q, c0, c) && Good(blk, c0, c) == j
        decreases k - j
      {
        StillGood(blk, c0, c, total, j, k);
        var paddr;
        ghost var t;
        paddr, t := TakeStripe(c);
        ghost var was := ppas;
        ppas := ppas + seq(q, x requires 0 <= x => paddr + x);
        NextStripe(blk, q, c0, c, t, was);
        TimesNext(j + 1, q);
        i, j, c := i + q, j + 1, t + 1;
      }
      Requests.NoneLeft(j, k, q);
    }

    /** The loop at `next_rq` when end metadata is written, as a line is closed once it is full */
    method WriteEmeta(most: nat, ghost c0: nat, ghost e: nat) returns (ppas: seq<nat>)
      requires Sized() && Filling(c0, e) && leftMsecs == 0 && most > 0
      modifies this`curSec, mapBitmap
      ensures ppas == GoodSectors(blkBitmap[..], q, e, rows * blkBitmap.Length)
    {
      hide Good, Bad, Taken, GoodSectors;
      ghost var blk, total := blkBitmap[..], rows * blkBitmap.Length;
      ghost var c := c0;
      CloseAt(blk, q, c0, e, total);
      NoSectors(blk, q, c0);
      ppas := [];
      var left := emeta * q;
      ghost var m := emeta;
      while left > 0
        invariant left == m * q && blk == blkBitmap[..] && c0 <= c <= total && curSec == c * q
        invariant Taken(mapBitmap[..], blk, q, c, total)
        invariant ppas == GoodSectors(blk, q, c0, c) && Good(blk, c, total) == m
        decreases m
      {
        var rqPpas;
        ghost var k, c1 := 0, c;
        rqPpas, k := NextRq(left, most, q, m);
        var more;
        more, c := EmetaWriteRq(rqPpas, k, c);
        GoodSectorsSplit(blk, q, c0, c1, c);
        GoodSplit(blk, c1, c, total);
        ppas := ppas + more;
        left, m := left - rqPpas, m - k;
      }
      NothingAfter(blk, q, c0, c, total);
    }

    /** Reading: the next good stripe from `paddr` on */
    method SkipBad(paddr0: nat, ghost c: nat) returns (paddr: nat, ghost t: nat)
      requires Sized() && c <= rows * blkBitmap.Length && paddr0 == c * q && Good(blkBitmap[..], c, rows * blkBitmap.Length) > 0
      ensures c <= t < rows * blkBitmap.Length && paddr == t * q && !Bad(blkBitmap[..], t)
      ensures forall u :: c <= u < t ==> Bad(blkBitmap[..], u)
    {
      ghost var blk, total := blkBitmap[..], rows * blkBitmap.Length;
      ghost var first := FirstIn(blk, c, total);
      paddr, t := paddr0, c;
      StripeBounds(paddr, q, t);
      while blkBitmap[paddr / q % blkBitmap.Length]
        invariant c <= t <= first && paddr == t * q && paddr / q == t
        decreases first - t
      {
        TimesNext(t + 1, q);
        paddr, t := paddr + q, t + 1;
        StripeBounds(paddr, q, t);
      }
    }

    /** Reading: a request of `k` stripes of `pblk_line_submit_emeta_io` from address `paddr0` on */
    method EmetaReadRq(paddr0: nat, rqPpas: nat, ghost k: nat, ghost c0: nat) returns (ppas: seq<nat>, paddr: nat, ghost c: nat)
      requires Sized() && rqPpas == k * q && c0 <= rows * blkBitmap.Length && paddr0 == c0 * q
      requires Good(blkBitmap[..], c0, rows * blkBitmap.Length) >= k
      ensures c0 <= c <= rows * blkBitmap.Length && paddr == c * q
      ensures ppas == GoodSectors(blkBitmap[..], q, c0, c) && Good(blkBitmap[..], c0, c) == k
    {
      ghost var blk, total := blkBitmap[..], rows * blkBitmap.Length;
      ppas, paddr, c := [], paddr0, c0;
      var i := 0;
      ghost var j := 0;
      while i < rqPpas
        invariant j <= k && i == j * q && c0 <= c <= total && paddr == c * q
        invariant ppas == GoodSectors(blk, q, c0, c) && Good(blk, c0, c) == j
        decreases k - j
      {
        StillGood(blk, c0, c, total, j, k);
        ghost var t;
        paddr, t := SkipBad(paddr, c);
        ghost var was := ppas;
        ppas := ppas + seq(q, x requires 0 <= x => paddr + x);
        NextStripe(blk, q, c0, c, t, was);
        TimesNext(j + 1, q);
        TimesNext(t + 1, q);
        paddr := paddr + q;
        i, j, c := i + q, j + 1, t + 1;
      }
      Requests.NoneLeft(j, k, q);
    }

    /** `pblk_line_read_emeta`: the addresses read are, in order, those written */
    method ReadEmeta(most: nat, ghost e: nat) returns (ppas: seq<nat>)
      requires Sized() && emetaSsec == e * q && e <= rows * blkBitmap.Length && most > 0
      requires Good(blkBitmap[..], e, rows * blkBitmap.Length) == emeta
      ensures ppas == GoodSectors(blkBitmap[..], q, e, rows * blkBitmap.Length)
    {
      ghost var blk, total := blkBitmap[..], rows * blkBitmap.Length;
      ghost var c := e;
      ppas := [];
      var paddr := emetaSsec;
      var left := emeta * q;
      ghost var m := emeta;
      while left > 0
        invariant left == m * q && e <= c <= total && paddr == c * q
        invariant ppas == GoodSectors(blk, q, e, c) && Good(blk, c, total) == m
        decreases m
      {
        var rqPpas;
        ghost var k, c1 := 0, c;
        rqPpas, k := NextRq(left, most, q, m);
        var more;
        more, paddr, c := EmetaReadRq(paddr, rqPpas, k, c);
        GoodSectorsSplit(blk, q, e, c1, c);
        GoodSplit(blk, c1, c, total);
        ppas := ppas + more;
        left, m := left - rqPpas, m - k;
      }
      NothingAfter(blk, q, e, c, total);
    }

    /**
     A line from set-up to its next collection: what `sec_in_line` data sectors use, where end metadata is
     written when the line is closed and where it is looked for.
     */
    method UseLine(tmpl: array<bool>, aux: array<bool>, most: nat)
        returns (ok: bool, data: seq<nat>, written: seq<nat>, read: seq<nat>)
      requires Sized() && (Good(blkBitmap[..], 0, blkBitmap.Length) > 0 ==> Fits()) && most > 0
      requires tmpl.Length == aux.Length == mapBitmap.Length && Template(tmpl[..], q, blkBitmap.Length)
      requires aux != tmpl && aux != mapBitmap && aux != blkBitmap && tmpl != mapBitmap && tmpl != invalidBitmap
      requires forall a :: 0 <= a < mapBitmap.Length ==> !mapBitmap[a]
      modifies this, mapBitmap, invalidBitmap, aux
      ensures ok <==> Good(blkBitmap[..], 0, blkBitmap.Length) > 0
      ensures ok ==> read == written && |data| == secInLine && |written| == emeta * q
      ensures ok ==> Apart(invalidBitmap[..], blkBitmap[..], q, emeta, smetaSsec, emetaSsec, data, written)
    {
      hide Template, Taken, Good, Bad, GoodSectors, Apart;
      data, written, read := [], [], [];
      ghost var c, e, c1;
      ok, c, e := Setup(tmpl, aux);
      if ok {
        UseFacts(invalidBitmap[..], blkBitmap[..], q, c, e, rows * blkBitmap.Length, emeta);
        data, c1 := FillLine(c, e);
        written := WriteEmeta(most, c1, e);
        read := ReadEmeta(most, e);
      }
    }

    /** Where data and end metadata lie. */
    ghost predicate Placed(c: nat, e: nat)
      requires Sized()
      reads blkBitmap
    {
      && 0 < c <= e < rows * blkBitmap.Length && !Bad(blkBitmap[..], e)
      && !Bad(blkBitmap[..], c - 1) && (forall t :: 0 <= t < c - 1 ==> Bad(blkBitmap[..], t))
      && Good(blkBitmap[..], e, rows * blkBitmap.Length) == emeta
    }
  }

  // ---------------------------------------------------------------- handing out stripes

  /** Taking stripe `t`, the next good one from `c` on. */
  lemma TakeNext(m: seq<bool>, m': seq<bool>, blk: seq<bool>, q: nat, c: nat, t: nat, total: nat, addr: nat)
    requires q > 0 && blk != [] && |m'| == |m| && c <= t && addr == t * q && Taken(m, blk, q, c, total)
    requires forall u :: c <= u < t ==> Bad(blk, u)
    requires forall a :: 0 <= a < |m| ==> m'[a] == (m[a] || addr <= a < addr + q)
    ensures Taken(m', blk, q, t + 1, total)
  {
    forall a | 0 <= a < |m| ensures m'[a] == (StripeOf(a, q) < t + 1 || Bad(blk, StripeOf(a, q)) || total <= StripeOf(a, q)) {
      StripesAre(a, q, t, 1);
    }
  }

  /** The first clear bit from stripe `c` on is the start of the next good stripe. */
  lemma NextClear(m: seq<bool>, blk: seq<bool>, q: nat, c: nat, total: nat, addr: nat) returns (t: nat)
    requires q > 0 && blk != [] && |m| == total * q && c <= total && Taken(m, blk, q, c, total) && Good(blk, c, total) > 0
    requires c * q <= addr <= |m| && (addr < |m| ==> !m[addr]) && forall a :: c * q <= a < addr ==> m[a]
    ensures c <= t < total && addr == t * q && addr + q <= |m| && !Bad(blk, t) && forall u :: c <= u < t ==> Bad(blk, u)
    ensures forall a :: addr <= a < addr + q ==> !m[a]
  {
    t := FirstIn(blk, c, total);
    StripeStart(t, q, total);
    Monotone(c, t, q);
    assert !m[t * q];
    assert addr <= t * q;
    StripesAre(addr, q, c, total - c);
    Distribute(c, total - c, q);
    StripeBounds(addr, q, t);
    forall a | t * q <= a < t * q + q ensures !m[a] { StripeBounds(a, q, t); }
    if addr < t * q {
      StripesAre(addr, q, c, t - c);
      Distribute(c, t - c, q);
      assert false;
    }
  }

  lemma GoodLater(blk: seq<bool>, c: nat, total: nat)
    requires blk != [] && c <= total && Good(blk, c, total) > 0
    ensures c < total && (Bad(blk, c) ==> Good(blk, c + 1, total) > 0)
  {
    GoodFirst(blk, c, total);
  }

  lemma {:induction false} FirstIn(blk: seq<bool>, c: nat, total: nat) returns (t: nat)
    requires blk != [] && c <= total && Good(blk, c, total) > 0
    ensures c <= t < total && !Bad(blk, t) && forall u :: c <= u < t ==> Bad(blk, u)
    decreases total - c
  {
    hide Good, Bad;
    GoodLater(blk, c, total);
    if !Bad(blk, c) {
      t := c;
    } else {
      t := FirstIn(blk, c + 1, total);
    }
  }

  lemma DataLeft(blk: seq<bool>, q: nat, c: nat, e: nat, total: nat, left: int)
    requires blk != [] && c <= e <= total && left == Good(blk, c, e) * q && left > 0
    ensures Good(blk, c, e) > 0 && Good(blk, c, total) > 0
  {
    GoodSplit(blk, c, e, total);
  }

  lemma DataTaken(blk: seq<bool>, q: nat, c: nat, t: nat, e: nat, total: nat)
    requires blk != [] && q > 0 && c <= t < total && c <= e && Good(blk, c, e) > 0 && !Bad(blk, t) && forall u :: c <= u < t ==> Bad(blk, u)
    ensures t < e && t * q + q <= e * q && Good(blk, t + 1, e) * q == Good(blk, c, e) * q - q >= 0
    ensures GoodSectors(blk, q, c, t + 1) == Sectors(t, q)
  {
    TakenBefore(blk, c, t, e);
    GoodSectorsNext(blk, q, c, t);
    TimesNext(Good(blk, c, e), q);
    StripeStart(t, q, e);
  }

  lemma TakenBefore(blk: seq<bool>, c: nat, t: nat, e: nat)
    requires blk != [] && c <= t && c <= e && Good(blk, c, e) > 0 && !Bad(blk, t) && forall u :: c <= u < t ==> Bad(blk, u)
    ensures t < e && Good(blk, t + 1, e) == Good(blk, c, e) - 1
  {
    if e <= t { NoneGood(blk, c, e); } else {
      NoneGood(blk, c, t);
      GoodSplit(blk, c, t + 1, e);
    }
  }

  /** A line with no data sectors left has none between `c` and `e`. */
  lemma FullLine(blk: seq<bool>, q: nat, c0: nat, c: nat, e: nat)
    requires blk != [] && q > 0 && c0 <= c <= e && Good(blk, c, e) * q <= 0
    ensures Good(blk, c, e) == 0 && GoodSectors(blk, q, c0, c) == GoodSectors(blk, q, c0, e)
  {
    if Good(blk, c, e) > 0 { Monotone(1, Good(blk, c, e), q); }
    GoodSectorsAre(blk, q, c, e);
    GoodSectorsSplit(blk, q, c0, c, e);
  }

  lemma NoSectors(blk: seq<bool>, q: nat, c: nat)
    requires blk != []
    ensures GoodSectors(blk, q, c, c) == []
  {
  }

  lemma CloseAt(blk: seq<bool>, q: nat, c: nat, e: nat, total: nat)
    requires blk != [] && q > 0 && c <= e <= total && Good(blk, c, e) * q == 0
    ensures Good(blk, c, total) == Good(blk, e, total) && GoodSectors(blk, q, c, total) == GoodSectors(blk, q, e, total)
  {
    FullLine(blk, q, c, c, e);
    GoodSplit(blk, c, e, total);
    GoodSectorsSplit(blk, q, c, e, total);
  }

  lemma NothingAfter(blk: seq<bool>, q: nat, c0: nat, c: nat, total: nat)
    requires blk != [] && q > 0 && c0 <= c <= total && Good(blk, c, total) * q <= 0
    ensures GoodSectors(blk, q, c0, c) == GoodSectors(blk, q, c0, total)
  {
    FullLine(blk, q, c0, c, total);
  }

  lemma StillGood(blk: seq<bool>, c0: nat, c: nat, total: nat, j: nat, k: nat)
    requires blk != [] && c0 <= c <= total && Good(blk, c0, c) == j < k <= Good(blk, c0, total)
    ensures Good(blk, c, total) > 0
  {
    GoodSplit(blk, c0, c, total);
  }

  lemma NextStripe(blk: seq<bool>, q: nat, c0: nat, c: nat, t: nat, ppas: seq<nat>)
    requires blk != [] && q > 0 && c0 <= c <= t && !Bad(blk, t) && (forall u :: c <= u < t ==> Bad(blk, u))
    requires ppas == GoodSectors(blk, q, c0, c)
    ensures ppas + Sectors(t, q) == GoodSectors(blk, q, c0, t + 1) && Good(blk, c0, t + 1) == Good(blk, c0, c) + 1
  {
    GoodSectorsNext(blk, q, c, t);
    GoodSectorsSplit(blk, q, c0, c, t + 1);
    GoodSplit(blk, c0, c, t + 1);
  }

  /** The clear bits of the invalid bitmap are the data sectors; they end before end metadata and index inside the lba list. */
  lemma DataSectors(m: seq<bool>, blk: seq<bool>, q: nat, c: nat, e: nat, total: nat, emeta: nat)
    requires q > 0 && blk != [] && |m| == total * q && c <= e <= total && Taken(m, blk, q, c, e) && Good(blk, e, total) == emeta
    ensures var s := GoodSectors(blk, q, c, e);
      && |s| == Good(blk, c, e) * q && (forall i, j :: 0 <= i < j < |s| ==> s[i] < s[j])
      && (forall a :: 0 <= a < |m| ==> (a in s <==> !m[a]))
      && (forall a :: a in s ==> c * q <= a < e * q <= |m| - emeta * q && !Bad(blk, StripeOf(a, q)))
  {
    GoodSectorsAre(blk, q, c, e);
    Monotone(e, total - emeta, q);
    Distribute(total - emeta, emeta, q);
    forall a | a in GoodSectors(blk, q, c, e) ensures c * q <= a < e * q && !Bad(blk, StripeOf(a, q)) {
      StripesAre(a, q, c, e - c);
      Distribute(c, e - c, q);
    }
  }

  lemma EmetaSectors(m: seq<bool>, blk: seq<bool>, q: nat, c: nat, e: nat, total: nat)
    requires q > 0 && blk != [] && |m| == total * q && c <= e <= total && Taken(m, blk, q, c, e)
    ensures var s := GoodSectors(blk, q, e, total);
      && |s| == Good(blk, e, total) * q
      && (forall a :: a in s ==> c * q <= e * q <= a < |m| && m[a] && !Bad(blk, StripeOf(a, q)))
      && (forall i, j :: 0 <= i < j < |s| ==> s[i] < s[j])
      && (forall a :: e * q <= a < |m| && !Bad(blk, StripeOf(a, q)) ==> a in s)
  {
    GoodSectorsAre(blk, q, e, total);
    Monotone(c, e, q);
    forall a | e * q <= a < |m| && !Bad(blk, StripeOf(a, q)) ensures a in GoodSectors(blk, q, e, total) {
      StripesAre(a, q, e, total - e);
      Distribute(e, total - e, q);
    }
    forall a | a in GoodSectors(blk, q, e, total) ensures e * q <= a < |m| && !Bad(blk, StripeOf(a, q)) {
      StripesAre(a, q, e, total - e);
      Distribute(e, total - e, q);
    }
  }

  /**
   Data and end metadata of a line: in good blocks, after start metadata, in increasing order, data before end metadata
   and at places the lba list has entries for; the data sectors are the valid ones, end metadata the rest of the good blocks.
   */
  predicate Apart(m: seq<bool>, blk: seq<bool>, q: nat, emeta: nat, smetaSsec: nat, emetaSsec: nat, data: seq<nat>, written: seq<nat>)
    requires q > 0 && blk != []
  {
    && (forall i, j :: 0 <= i < j < |data| ==> data[i] < data[j])
    && (forall a :: a in data ==> a < |m| && !m[a] && smetaSsec + q <= a < emetaSsec && a < |m| - emeta * q && !Bad(blk, StripeOf(a, q)))
    && (forall a :: a in written ==> a < |m| && m[a] && smetaSsec + q <= a && emetaSsec <= a && !Bad(blk, StripeOf(a, q)))
    && (forall a :: 0 <= a < |m| && !m[a] ==> a in data)
    && (forall i, j :: 0 <= i < j < |written| ==> written[i] < written[j])
    && (forall a :: emetaSsec <= a < |m| && !Bad(blk, StripeOf(a, q)) ==> a in written)
  }

  lemma UseFacts(m: seq<bool>, blk: seq<bool>, q: nat, c: nat, e: nat, total: nat, emeta: nat)
    requires q > 0 && blk != [] && |m| == total * q && 0 < c <= e <= total && Taken(m, blk, q, c, e) && Good(blk, e, total) == emeta
    ensures var data, written := GoodSectors(blk, q, c, e), GoodSectors(blk, q, e, total);
      && |data| == Good(blk, c, e) * q && |written| == emeta * q
      && Apart(m, blk, q, emeta, (c - 1) * q, e * q, data, written)
  {
    DataSectors(m, blk, q, c, e, total, emeta);
    EmetaSectors(m, blk, q, c, e, total);
    TimesNext(c, q);
  }

  /** The line set up here is the fresh line of the step system: same data sectors, same invalid bitmap. */
  lemma FreshLineIs(m: seq<bool>, blk: seq<bool>, q: nat, c: nat, e: nat, total: nat, emeta: nat)
    requires q > 0 && blk != [] && |m| == total * q && c <= e <= total && Taken(m, blk, q, c, e) && Good(blk, e, total) == emeta
    ensures var secs := GoodSectors(blk, q, c, e);
      && Ftl.GoodSecs(secs, |m|) && Ftl.FreshLine(secs, |m|).vsc == Good(blk, c, e) * q
      && forall p :: 0 <= p < |m| ==> (p in Ftl.FreshLine(secs, |m|).invalid <==> m[p])
  {
    DataSectors(m, blk, q, c, e, total, emeta);
    var secs := GoodSectors(blk, q, c, e);
    forall i | 0 <= i < |secs| ensures secs[i] < |m| {
      assert secs[i] in secs;
      Monotone(e, total, q);
    }
  }

  lemma NoGoodBlock(blk: seq<bool>)
    requires blk != [] && forall b :: 0 <= b < |blk| ==> blk[b]
    ensures Good(blk, 0, |blk|) == 0
  {
    forall t | 0 <= t < |blk| ensures Bad(blk, t) { SmallMod(t, |blk|); }
    NoneGood(blk, 0, |blk|);
  }

  lemma GoodBlock(blk: seq<bool>, b: nat)
    requires b < |blk| && !blk[b]
    ensures Good(blk, 0, |blk|) > 0
  {
    SmallMod(b, |blk|);
    GoodSplit(blk, 0, b, |blk|);
    GoodFirst(blk, b, |blk|);
  }

  /** Start metadata takes the first good stripe, so end metadata finds room in the rest. */
  lemma AfterSmeta(blk: seq<bool>, rows: nat, emeta: nat, c: nat)
    requires blk != [] && rows * Good(blk, 0, |blk|) >= 1 + emeta && 0 < c <= rows * |blk|
    requires !Bad(blk, c - 1) && forall t :: 0 <= t < c - 1 ==> Bad(blk, t)
    ensures Good(blk, c, rows * |blk|) == rows * Good(blk, 0, |blk|) - 1 >= emeta
  {
    GoodRows(blk, rows);
    GoodSplit(blk, 0, c, rows * |blk|);
    NoneGood(blk, 0, c - 1);
  }

  /** What the three passes subtract from the sectors of the line leaves the good stripes between the metadata. */
  lemma SectorsLeft(blk: seq<bool>, rows: nat, q: nat, emeta: nat, c: nat, e: nat)
    requires blk != [] && q > 0 && c <= e <= rows * |blk| && Good(blk, e, rows * |blk|) == emeta
    requires Good(blk, c, rows * |blk|) == rows * Good(blk, 0, |blk|) - 1
    ensures rows * |blk| * q - BadBlocks(blk, 0, |blk|) * (rows * q) - q - emeta * q == Good(blk, c, e) * q
  {
    var g := Good(blk, 0, |blk|);
    GoodSplit(blk, c, e, rows * |blk|);
    assert Good(blk, c, e) + 1 + emeta == rows * g;
    Distribute(Good(blk, c, e) + 1, emeta, q);
    Distribute(Good(blk, c, e), 1, q);
    GoodSecs(rows, |blk|, g, q);
  }

  lemma GoodSecs(rows: nat, n: nat, g: nat, q: nat)
    requires g <= n
    ensures rows * n * q - (n - g) * (rows * q) == rows * g * q
  {
    Distribute(n - g, g, rows * q);
    assert n * (rows * q) == rows * n * q;
    assert g * (rows * q) == rows * g * q;
  }
}

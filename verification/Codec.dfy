/**
 The address format of a line: a sector number is its page, LUN, channel, plane and sector packed
 into bit fields, whose places `pblk_set_ppaf` works out for power-of-two channel and LUN counts.
 */
module Codec {
  import opened Basics
  import opened Bitwise
  import opened Stripes

  /** The field lengths, in bits. */
  datatype Format = Format(sec: nat, pln: nat, ch: nat, lun: nat, pg: nat)

  /** The part of a device address that varies within a line. */
  datatype Gen = Gen(pg: nat, lun: nat, ch: nat, pl: nat, sec: nat)

  function PlnOffset(f: Format): nat { f.sec }
  function ChOffset(f: Format): nat { PlnOffset(f) + f.pln }
  function LunOffset(f: Format): nat { ChOffset(f) + f.ch }
  function PgOffset(f: Format): nat { LunOffset(f) + f.lun }
  function Bits(f: Format): nat { PgOffset(f) + f.pg }

  /** `(paddr & mask) >> offset` for the mask of `len` bits at `offset` */
  function Field(paddr: nat, len: nat, offset: nat): nat {
    Shr(And(paddr, Shl(Pow2(len) - 1, offset)), offset)
  }

  /** `addr_to_gen_ppa` */
  function ToGen(paddr: nat, f: Format): Gen {
    Gen(Field(paddr, f.pg, PgOffset(f)), Field(paddr, f.lun, LunOffset(f)), Field(paddr, f.ch, ChOffset(f)),
        Field(paddr, f.pln, PlnOffset(f)), Field(paddr, f.sec, 0))
  }

  /** `pblk_ppa_to_line_addr` */
  function ToLineAddr(p: Gen, f: Format): nat {
    Or(Or(Or(Or(Or(0, Shl(p.pg, PgOffset(f))), Shl(p.lun, LunOffset(f))), Shl(p.ch, ChOffset(f))), Shl(p.pl, PlnOffset(f))), Shl(p.sec, 0))
  }

  /** `pblk_ppa_to_pos`: the block of the line an address lies in */
  function ToPos(p: Gen, f: Format): nat {
    p.lun * Pow2(f.ch) + p.ch
  }

  predicate InFormat(p: Gen, f: Format) {
    p.pg < Pow2(f.pg) && p.lun < Pow2(f.lun) && p.ch < Pow2(f.ch) && p.pl < Pow2(f.pln) && p.sec < Pow2(f.sec)
  }

  // ---------------------------------------------------------------- fields and digits

  lemma AndDouble(x: nat, y: nat)
    ensures And(x, 2 * y) == 2 * And(x / 2, y)
  {
    if x != 0 && y != 0 { assert (2 * y) % 2 == 0 && (2 * y) / 2 == y; }
  }

  lemma ShlStep(x: nat, k: nat)
    requires k > 0
    ensures Shl(x, k) == 2 * Shl(x, k - 1)
  {
    var p := Pow2(k - 1);
    assert x * (2 * p) == 2 * (x * p);
  }

  lemma ShrStep(x: nat, k: nat)
    requires k > 0
    ensures Shr(x, k) == Shr(x / 2, k - 1)
  {
    TwoDigits(x, 2, Pow2(k - 1));
  }

  lemma {:induction false} AndShifted(x: nat, m: nat, k: nat)
    ensures And(x, Shl(m, k)) == Shl(And(Shr(x, k), m), k)
    decreases k
  {
    if k > 0 {
      AndShifted(x / 2, m, k - 1);
      AndDouble(x, Shl(m, k - 1));
      ShlStep(m, k);
      ShrStep(x, k);
      ShlStep(And(Shr(x, k), m), k);
    }
  }

  /** The low `k` bits. */
  function Low(x: nat, k: nat): (r: nat)
    ensures r < Pow2(k)
  {
    x % Pow2(k)
  }

  /** The remainder of a digit and what lies below it is less than the product of the weights. */
  lemma DigitRest(r: nat, a: nat, b: nat, s: nat)
    requires r < b && s < a
    ensures r * a + s < a * b
  {
    Monotone(r + 1, b, a);
  }

  lemma Digits(x: nat, a: nat, b: nat, q: nat, r: nat, s: nat)
    requires x == a * (b * q + r) + s
    ensures x == (a * b) * q + (r * a + s)
  {
  }

  lemma DivMod(x: nat, d: nat)
    requires d > 0
    ensures x == d * (x / d) + x % d
  {
  }

  /** One digit more: dividing by `a` and then by `b` is dividing by `a * b`, and the remainders are the next digits. */
  lemma TwoDigits(x: nat, a: nat, b: nat)
    requires a > 0 && b > 0
    ensures a * b > 0 && x / a / b == x / (a * b) && x % (a * b) == x / a % b * a + x % a
  {
    var y := x / a;
    var q, r, s := y / b, y % b, x % a;
    DivMod(x, a);
    DivMod(y, b);
    Digits(x, a, b, q, r, s);
    DigitRest(r, a, b, s);
    DivModUnique(x, a * b, q, r * a + s);
  }

  lemma ShlShr(x: nat, k: nat)
    ensures Shr(Shl(x, k), k) == x
  {
    var p := Pow2(k);
    DivModUnique(x * p, p, x, 0);
  }

  /** A field is a digit: the address divided by the weight of the field, modulo its size. */
  lemma FieldIs(x: nat, len: nat, offset: nat)
    ensures Field(x, len, offset) == Low(Shr(x, offset), len)
  {
    AndShifted(x, Pow2(len) - 1, offset);
    AndMask(Shr(x, offset), len);
    ShlShr(Low(Shr(x, offset), len), offset);
  }

  lemma {:induction false} OrDisjoint(a: nat, b: nat, k: nat)
    requires b < Pow2(k)
    ensures Or(Shl(a, k), b) == Shl(a, k) + b
    decreases k
  {
    if k > 0 && a > 0 && b > 0 {
      ShlStep(a, k);
      OrDisjoint(a, b / 2, k - 1);
      Monotone(1, a, Pow2(k - 1));
    }
  }

  lemma PowAdd(a: nat, b: nat)
    ensures Pow2(a + b) == Pow2(a) * Pow2(b)
  {
    PowDivides(a, a + b);
  }

  lemma LowStep(x: nat, a: nat, b: nat)
    ensures Low(x, a + b) == Shl(Low(Shr(x, a), b), a) + Low(x, a)
  {
    PowAdd(a, b);
    TwoDigits(x, Pow2(a), Pow2(b));
  }

  lemma ShrShr(x: nat, a: nat, b: nat)
    ensures Shr(Shr(x, a), b) == Shr(x, a + b)
  {
    PowAdd(a, b);
    TwoDigits(x, Pow2(a), Pow2(b));
  }

  /** The low `offset + len` bits are the field and the bits below it. */
  lemma FieldStep(x: nat, len: nat, offset: nat)
    ensures Low(x, offset + len) == Shl(Field(x, len, offset), offset) + Low(x, offset)
  {
    FieldIs(x, len, offset);
    LowStep(x, offset, len);
  }

  /** The packed address, as a number in mixed radix. */
  function Value(p: Gen, f: Format): nat {
    Shl(p.pg, PgOffset(f)) + (Shl(p.lun, LunOffset(f)) + (Shl(p.ch, ChOffset(f)) + (Shl(p.pl, PlnOffset(f)) + p.sec)))
  }

  /** A digit below the size of its field, over a remainder below its weight, stays below the next weight. */
  lemma DigitBound(d: nat, r: nat, len: nat, offset: nat)
    requires d < Pow2(len) && r < Pow2(offset)
    ensures Shl(d, offset) + r < Pow2(offset + len)
  {
    PowAdd(offset, len);
    Monotone(d + 1, Pow2(len), Pow2(offset));
    TimesNext(d + 1, Pow2(offset));
  }

  /** Or-ing a lower field into higher fields adds it: both are whole multiples of its weight. */
  lemma OrField(hi: nat, d: nat, len: nat, offset: nat)
    requires d < Pow2(len)
    ensures Or(Shl(hi, offset + len), Shl(d, offset)) == Shl(hi, offset + len) + Shl(d, offset) == Shl(Shl(hi, len) + d, offset)
  {
    DigitBound(d, 0, len, offset);
    OrDisjoint(hi, Shl(d, offset), offset + len);
    PowAdd(offset, len);
    Regroup(hi, Pow2(offset), Pow2(len), d);
  }

  lemma Regroup(hi: nat, a: nat, b: nat, d: nat)
    ensures hi * (a * b) + d * a == (hi * b + d) * a
  {
  }

  lemma ShlZero(x: nat)
    ensures Shl(x, 0) == x
  {
  }

  lemma OrZero(x: nat)
    ensures Or(0, x) == x
  {
  }

  lemma OrIsValue(p: Gen, f: Format)
    requires InFormat(p, f)
    ensures ToLineAddr(p, f) == Value(p, f)
  {
    hide Shl, Pow2, Or;
    ShlZero(p.sec);
    OrZero(Shl(p.pg, PgOffset(f)));
    var h1 := OrNext(p.pg, p.lun, f.lun, LunOffset(f));
    var h2 := OrNext(h1, p.ch, f.ch, ChOffset(f));
    var h3 := OrNext(h2, p.pl, f.pln, PlnOffset(f));
    var h4 := OrNext(h3, p.sec, f.sec, 0);
  }

  /** The fields down to the one at `offset`, as a number. */
  lemma OrNext(hi: nat, d: nat, len: nat, offset: nat) returns (h: nat)
    requires d < Pow2(len)
    ensures Or(Shl(hi, offset + len), Shl(d, offset)) == Shl(hi, offset + len) + Shl(d, offset) == Shl(h, offset)
  {
    OrField(hi, d, len, offset);
    h := Shl(hi, len) + d;
  }

  /** Where each field lies: sector, plane, channel, LUN and page are the digits of the address, from the lowest up. */
  lemma GenDigits(paddr: nat, f: Format)
    ensures var p := ToGen(paddr, f);
      && p.sec == paddr % Pow2(f.sec) && p.pl == paddr / Pow2(f.sec) % Pow2(f.pln)
      && p.ch == paddr / Pow2(f.sec + f.pln) % Pow2(f.ch)
      && p.lun == paddr / Pow2(f.sec + f.pln + f.ch) % Pow2(f.lun)
      && p.pg == paddr / Pow2(f.sec + f.pln + f.ch + f.lun) % Pow2(f.pg)
  {
    FieldIs(paddr, f.pg, PgOffset(f));
    FieldIs(paddr, f.lun, LunOffset(f));
    FieldIs(paddr, f.ch, ChOffset(f));
    FieldIs(paddr, f.pln, PlnOffset(f));
    FieldIs(paddr, f.sec, 0);
    DivModUnique(paddr, 1, paddr, 0);
  }

  lemma ToGenInFormat(paddr: nat, f: Format)
    ensures InFormat(ToGen(paddr, f), f)
  {
    FieldIs(paddr, f.pg, PgOffset(f));
    FieldIs(paddr, f.lun, LunOffset(f));
    FieldIs(paddr, f.ch, ChOffset(f));
    FieldIs(paddr, f.pln, PlnOffset(f));
    FieldIs(paddr, f.sec, 0);
  }

  /** Packing what was unpacked gives the address back, for every address the fields can hold. */
  lemma LineAddrRoundTrip(paddr: nat, f: Format)
    requires paddr < Pow2(Bits(f))
    ensures ToLineAddr(ToGen(paddr, f), f) == paddr
  {
    ToGenInFormat(paddr, f);
    OrIsValue(ToGen(paddr, f), f);
    FieldStep(paddr, f.sec, 0);
    FieldStep(paddr, f.pln, PlnOffset(f));
    FieldStep(paddr, f.ch, ChOffset(f));
    FieldStep(paddr, f.lun, LunOffset(f));
    FieldStep(paddr, f.pg, PgOffset(f));
    SmallRest(paddr, f);
  }

  lemma SmallRest(paddr: nat, f: Format)
    requires paddr < Pow2(Bits(f))
    ensures Low(paddr, Bits(f)) == paddr && Low(paddr, 0) == 0
  {
    DivModUnique(paddr, Pow2(Bits(f)), 0, paddr);
  }

  lemma SameDigit(d: nat, r: nat, d': nat, r': nat, w: nat)
    requires r < Pow2(w) && r' < Pow2(w) && Shl(d, w) + r == Shl(d', w) + r'
    ensures d == d' && r == r'
  {
    var p := Pow2(w);
    DivModUnique(d * p + r, p, d, r);
    DivModUnique(d' * p + r', p, d', r');
  }

  /** The value below each field, of a packed address. */
  lemma Bounds(p: Gen, f: Format)
    requires InFormat(p, f)
    ensures var w3 := Shl(p.pl, PlnOffset(f)) + p.sec; var w2 := Shl(p.ch, ChOffset(f)) + w3;
      var w1 := Shl(p.lun, LunOffset(f)) + w2;
      w3 < Pow2(ChOffset(f)) && w2 < Pow2(LunOffset(f)) && w1 < Pow2(PgOffset(f)) && Value(p, f) < Pow2(Bits(f))
  {
    var w3 := Shl(p.pl, PlnOffset(f)) + p.sec;
    DigitBound(p.pl, p.sec, f.pln, PlnOffset(f));
    var w2 := Shl(p.ch, ChOffset(f)) + w3;
    DigitBound(p.ch, w3, f.ch, ChOffset(f));
    var w1 := Shl(p.lun, LunOffset(f)) + w2;
    DigitBound(p.lun, w2, f.lun, LunOffset(f));
    DigitBound(p.pg, w1, f.pg, PgOffset(f));
  }

  lemma ValueUnique(p: Gen, p': Gen, f: Format)
    requires InFormat(p, f) && InFormat(p', f) && Value(p, f) == Value(p', f)
    ensures p == p'
  {
    Bounds(p, f);
    Bounds(p', f);
    var w3, w3' := Shl(p.pl, PlnOffset(f)) + p.sec, Shl(p'.pl, PlnOffset(f)) + p'.sec;
    var w2, w2' := Shl(p.ch, ChOffset(f)) + w3, Shl(p'.ch, ChOffset(f)) + w3';
    var w1, w1' := Shl(p.lun, LunOffset(f)) + w2, Shl(p'.lun, LunOffset(f)) + w2';
    SameDigit(p.pg, w1, p'.pg, w1', PgOffset(f));
    SameDigit(p.lun, w2, p'.lun, w2', LunOffset(f));
    SameDigit(p.ch, w3, p'.ch, w3', ChOffset(f));
    SameDigit(p.pl, p.sec, p'.pl, p'.sec, PlnOffset(f));
  }

  /** Unpacking what was packed gives the fields back, for every combination of field values. */
  lemma GenRoundTrip(p: Gen, f: Format)
    requires InFormat(p, f)
    ensures ToLineAddr(p, f) < Pow2(Bits(f)) && ToGen(ToLineAddr(p, f), f) == p
  {
    OrIsValue(p, f);
    Bounds(p, f);
    var x := ToLineAddr(p, f);
    LineAddrRoundTrip(x, f);
    ToGenInFormat(x, f);
    OrIsValue(ToGen(x, f), f);
    ValueUnique(ToGen(x, f), p, f);
  }

  /**
   The block an address lies in is its stripe modulo the number of LUNs, a stripe being the sectors of
   one page of all planes.  So the columns `LineLayout` marks are the sectors of the bad blocks.
   */
  lemma PosIsStripe(paddr: nat, f: Format)
    ensures ToPos(ToGen(paddr, f), f) == StripeOf(paddr, Pow2(f.sec + f.pln)) % Pow2(f.ch + f.lun)
  {
    FieldIs(paddr, f.lun, LunOffset(f));
    FieldIs(paddr, f.ch, ChOffset(f));
    ShrShr(paddr, ChOffset(f), f.ch);
    LowStep(Shr(paddr, ChOffset(f)), f.ch, f.lun);
  }

  // ---------------------------------------------------------------- choosing the format

  /** `get_count_order`: the least `k` from `from` on with `n <= 2^k` */
  function CountOrder(n: nat, from: nat): (k: nat)
    ensures from <= k && n <= Pow2(k) && (from < k ==> Pow2(k - 1) < n)
    decreases n - Pow2(from)
  {
    if n <= Pow2(from) then from else CountOrder(n, from + 1)
  }

  /** `pblk_set_ppaf`: only power-of-two channel and LUN counts are accepted */
  function SetPpaf(nrChnls: nat, lunsPerChnl: nat, sec: nat, pln: nat, pg: nat): Option<Format> {
    var ch, lun := CountOrder(nrChnls, 0), CountOrder(lunsPerChnl, 0);
    if Pow2(ch) != nrChnls || Pow2(lun) != lunsPerChnl then None else Some(Format(sec, pln, ch, lun, pg))
  }

  lemma {:induction false} PowOrder(a: nat, b: nat)
    requires a < b
    ensures Pow2(a) < Pow2(b)
    decreases b
  {
    if a < b - 1 { PowOrder(a, b - 1); }
  }

  lemma OrderIs(n: nat, c: nat, k: nat)
    requires n == Pow2(k) && n <= Pow2(c) && (c > 0 ==> Pow2(c - 1) < n)
    ensures c == k
  {
    if c < k { PowOrder(c, k); } else if k < c - 1 { PowOrder(k, c - 1); }
  }

  /** The format is chosen exactly when both counts are powers of two, and then its fields count channels and LUNs. */
  lemma PpafExact(nrChnls: nat, lunsPerChnl: nat, sec: nat, pln: nat, pg: nat)
    ensures var f := SetPpaf(nrChnls, lunsPerChnl, sec, pln, pg);
      && (f.Some? <==> (exists c :: nrChnls == Pow2(c)) && (exists l :: lunsPerChnl == Pow2(l)))
      && (f.Some? ==> f.value.sec == sec && f.value.pln == pln && f.value.pg == pg)
      && (f.Some? ==> Pow2(f.value.ch) == nrChnls && Pow2(f.value.lun) == lunsPerChnl && Pow2(f.value.ch + f.value.lun) == nrChnls * lunsPerChnl)
  {
    if c :| nrChnls == Pow2(c) { OrderIs(nrChnls, CountOrder(nrChnls, 0), c); }
    if l :| lunsPerChnl == Pow2(l) { OrderIs(lunsPerChnl, CountOrder(lunsPerChnl, 0), l); }
    PowAdd(CountOrder(nrChnls, 0), CountOrder(lunsPerChnl, 0));
  }
}

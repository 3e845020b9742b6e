/**
 Erasing the next line while the current one is written.

 Blocks of the line in preparation are erased one per request as the writer maps chunks, and what is left is
 erased when the line is needed.  An erase is picked while a request is mapped and submitted once it is.
 */
module Erase {
  import opened Basics
  import opened Stripes
  import Bitmap
  import Requests
  import opened LineLayout

  lemma {:induction false} SetOne(b: seq<bool>, i: nat, n: nat)
    requires i < |b| && !b[i] && n <= |b|
    ensures Bitmap.Weight(b[i := true], n) == Bitmap.Weight(b, n) + if i < n then 1 else 0
    decreases n
  {
    if n > 0 { SetOne(b, i, n - 1); }
  }

  lemma {:induction false} FullWeight(b: seq<bool>, n: nat)
    requires n <= |b|
    ensures Bitmap.Weight(b, n) == n <==> forall i :: 0 <= i < n ==> b[i]
    decreases n
  {
    if n > 0 { FullWeight(b, n - 1); }
  }

  /** How many bits are clear. */
  function Clear(b: seq<bool>): nat {
    |b| - Bitmap.Weight(b, |b|)
  }

  /** A bit of `marks` is set when the block is bad or among `out`, which are good. */
  ghost predicate Marked(blk: seq<bool>, marks: seq<bool>, out: set<nat>) {
    && |marks| == |blk| && (forall b :: 0 <= b < |blk| ==> (marks[b] <==> blk[b] || b in out))
    && (forall b :: b in out ==> b < |blk| && !blk[b])
  }

  lemma MarkOne(blk: seq<bool>, marks: seq<bool>, out: set<nat>, bit: nat)
    requires Marked(blk, marks, out) && bit < |blk| && !marks[bit]
    ensures Marked(blk, marks[bit := true], out + {bit}) && bit !in out && !blk[bit]
  {
  }

  /** With every bit set, every good block is among `out`. */
  lemma AllMarked(blk: seq<bool>, marks: seq<bool>, out: set<nat>)
    requires Marked(blk, marks, out) && Clear(marks) == 0
    ensures |marks| == |blk| && forall b :: 0 <= b < |blk| ==> marks[b] && (b in out <==> !blk[b])
  {
    FullWeight(marks, |marks|);
  }

  class EraseLine {
    const blkBitmap: array<bool>
    const eraseBitmap: array<bool>
    var leftEblks: int
    var leftSeblks: int
    /** Blocks this cycle has picked, those of them whose erase is yet to be submitted, and those with the device. */
    ghost var out: set<nat>
    ghost var picked: set<nat>
    ghost var submitted: set<nat>

    /**
     A block's bit is set when the block is bad or has been picked; `left_eblks` counts the clear bits and `left_seblks`
     adds the erases that have not completed.
     */
    ghost predicate Valid()
      reads this, blkBitmap, eraseBitmap
    {
      && blkBitmap != eraseBitmap && Marked(blkBitmap[..], eraseBitmap[..], out)
      && picked <= out && submitted <= out && picked !! submitted
      && leftEblks == Clear(eraseBitmap[..]) && leftSeblks == leftEblks + |picked| + |submitted|
    }

    ghost function Erased(): set<nat>
      reads this
    {
      out - picked - submitted
    }

    /** Every good block has been erased, and the line may be set up: nothing is left to erase or wait for. */
    ghost predicate Ready()
      reads this, blkBitmap, eraseBitmap
    {
      && picked == submitted == {} && leftEblks == leftSeblks == 0 && blkBitmap.Length == eraseBitmap.Length
      && forall b :: 0 <= b < blkBitmap.Length ==> eraseBitmap[b] && (b in Erased() <==> !blkBitmap[b])
    }

    constructor (blkBitmap: array<bool>, blkInLine: nat)
      requires blkInLine == Clear(blkBitmap[..])
      ensures Valid() && picked == submitted == out == {} && this.blkBitmap == blkBitmap && fresh(eraseBitmap)
      ensures eraseBitmap[..] == blkBitmap[..]
    {
      this.blkBitmap := blkBitmap;
      eraseBitmap := new bool[blkBitmap.Length];
      new;
      Get(blkInLine);
    }

    /** The erase bookkeeping of `pblk_line_get`, at the start of a cycle */
    method Get(blkInLine: nat)
      requires blkBitmap != eraseBitmap && blkBitmap.Length == eraseBitmap.Length && blkInLine == Clear(blkBitmap[..])
      modifies this, eraseBitmap
      ensures Valid() && picked == submitted == out == {} && eraseBitmap[..] == blkBitmap[..]
    {
      Bitmap.Copy(eraseBitmap, blkBitmap);
      leftEblks, leftSeblks, picked, submitted, out := blkInLine, blkInLine, {}, {}, {};
    }

    /** A block is picked: `test_and_set_bit` found its bit clear */
    method Pick(bit: nat)
      requires Valid() && bit < eraseBitmap.Length && !eraseBitmap[bit]
      modifies this`leftEblks, this`picked, this`out, eraseBitmap
      ensures Valid() && picked == old(picked) + {bit} && out == old(out) + {bit} && bit !in old(out) && !blkBitmap[bit]
      ensures eraseBitmap[..] == old(eraseBitmap[..])[bit := true] && leftEblks == old(leftEblks) - 1
    {
      ghost var was := eraseBitmap[..];
      SetOne(was, bit, |was|);
      MarkOne(blkBitmap[..], was, out, bit);
      eraseBitmap[bit] := true;
      assert eraseBitmap[..] == was[bit := true];
      leftEblks := leftEblks - 1;
      picked, out := picked + {bit}, out + {bit};
    }

    /** `pblk_blk_erase_async`, which the writer calls once its request is mapped */
    ghost method Submit(bit: nat)
      requires Valid() && bit in picked
      modifies this`picked, this`submitted
      ensures Valid() && picked == old(picked) - {bit} && submitted == old(submitted) + {bit}
    {
      hide Marked, Clear;
      assert |picked - {bit}| == |picked| - 1 && |submitted + {bit}| == |submitted| + 1;
      picked, submitted := picked - {bit}, submitted + {bit};
    }

    /** `__pblk_end_io_erase` without an error */
    method Complete(ghost bit: nat)
      requires Valid() && bit in submitted
      modifies this`leftSeblks, this`submitted
      ensures Valid() && submitted == old(submitted) - {bit} && leftSeblks == old(leftSeblks) - 1
    {
      hide Marked, Clear;
      leftSeblks := leftSeblks - 1;
      submitted := submitted - {bit};
    }

    /** `pblk_blk_erase_sync`: a block erased to completion */
    method EraseSync(bit: nat)
      requires Valid() && bit < eraseBitmap.Length && !eraseBitmap[bit]
      modifies this, eraseBitmap
      ensures Valid() && picked == old(picked) && submitted == old(submitted) && out == old(out) + {bit} && bit !in old(out)
      ensures eraseBitmap[..] == old(eraseBitmap[..])[bit := true] && leftEblks == old(leftEblks) - 1
    {
      hide Marked, Clear;
      Pick(bit);
      Submit(bit);
      Complete(bit);
    }

    /** `pblk_line_erase`: the blocks not yet picked, one at a time */
    method FinishErase()
      requires Valid()
      modifies this, eraseBitmap
      ensures Valid() && leftEblks == 0 && picked == old(picked) && submitted == old(submitted) && old(out) <= out
    {
      hide Marked;
      var bit := Bitmap.FindNext(eraseBitmap, false, 0);
      while bit < eraseBitmap.Length
        invariant Valid() && picked == old(picked) && submitted == old(submitted) && old(out) <= out && bit <= eraseBitmap.Length
        invariant (bit < eraseBitmap.Length ==> !eraseBitmap[bit]) && forall b :: 0 <= b < bit ==> eraseBitmap[b]
        decreases eraseBitmap.Length - bit
      {
        ghost var was := eraseBitmap[..];
        EraseSync(bit);
        assert forall b :: 0 <= b < |was| ==> eraseBitmap[..][b] == (was[b] || b == bit);
        bit := Bitmap.FindNext(eraseBitmap, false, bit + 1);
      }
      FullWeight(eraseBitmap[..], eraseBitmap.Length);
    }

    /**
     The loop at `retry_line` in `pblk_line_replace_data`, for as many rounds as the device completes erases: `arrivals`
     are the submitted ones that complete, in any order.  It gets through if and only if every submitted erase completes
     and none is picked and not submitted.
     */
    method WaitErased(arrivals: seq<nat>) returns (ready: bool)
      requires Valid() && Arriving(submitted, submitted, arrivals, 0)
      modifies this, eraseBitmap
      ensures Valid() && picked == old(picked) && submitted == old(submitted) - Elems(arrivals)
      ensures ready <==> picked == {} && submitted == {}
      ensures if ready then Ready() else leftSeblks > 0
    {
      hide Marked, Clear, Arriving;
      var next := 0;
      while leftSeblks != 0 && (leftEblks != 0 || next < |arrivals|)
        invariant Valid() && picked == old(picked) && next <= |arrivals| && Arriving(old(submitted), submitted, arrivals, next)
        decreases leftEblks, |arrivals| - next
      {
        if leftEblks != 0 {
          FinishErase();
        } else {
          Arrive(old(submitted), submitted, arrivals, next);
          Complete(arrivals[next]);
          next := next + 1;
        }
      }
      ready := leftSeblks == 0;
      EmptyOrNot(picked, submitted);
      Arrived(old(submitted), submitted, arrivals, next);
      if ready {
        AllMarked(blkBitmap[..], eraseBitmap[..], out);
        assert forall b :: 0 <= b < blkBitmap.Length ==> eraseBitmap[b] == eraseBitmap[..][b] && blkBitmap[b] == blkBitmap[..][b];
      }
    }
  }

  lemma EmptyOrNot(xs: set<nat>, ys: set<nat>)
    ensures |xs| + |ys| == 0 <==> xs == {} && ys == {}
  {
  }

  /** Of the erases submitted `before` those up to `next` have arrived, the rest of `arrivals` is still to come. */
  predicate Arriving(before: set<nat>, submitted: set<nat>, arrivals: seq<nat>, next: nat) {
    && Distinct(arrivals) && next <= |arrivals| && submitted == before - Elems(arrivals[..next])
    && forall i :: next <= i < |arrivals| ==> arrivals[i] in submitted
  }

  lemma Arrive(before: set<nat>, submitted: set<nat>, arrivals: seq<nat>, next: nat)
    requires Arriving(before, submitted, arrivals, next) && next < |arrivals|
    ensures arrivals[next] in submitted && Arriving(before, submitted - {arrivals[next]}, arrivals, next + 1)
  {
    assert arrivals[..next + 1] == arrivals[..next] + [arrivals[next]];
    assert Elems(arrivals[..next + 1]) == Elems(arrivals[..next]) + {arrivals[next]};
  }

  /** All has arrived, or nothing is submitted any more, so nothing is left to arrive. */
  lemma Arrived(before: set<nat>, submitted: set<nat>, arrivals: seq<nat>, next: nat)
    requires Arriving(before, submitted, arrivals, next) && (submitted == {} || next == |arrivals|)
    ensures submitted == before - Elems(arrivals)
  {
    assert arrivals[..|arrivals|] == arrivals;
  }

  // ---------------------------------------------------------------- the chunks of the line in use

  /** The blocks of the good stripes from `lo` to `hi`, in order: where the next chunks of a line lie. */
  function Luns(blk: seq<bool>, lo: nat, hi: nat): seq<nat>
    requires blk != []
    decreases hi - lo
  {
    if lo >= hi then [] else (if Bad(blk, lo) then [] else [lo % |blk|]) + Luns(blk, lo + 1, hi)
  }

  lemma {:induction false} LunsAre(blk: seq<bool>, lo: nat, hi: nat)
    requires blk != []
    ensures |Luns(blk, lo, hi)| == Good(blk, lo, hi) && forall i :: 0 <= i < |Luns(blk, lo, hi)| ==> Luns(blk, lo, hi)[i] < |blk|
    decreases hi - lo
  {
    if lo < hi {
      LunsAre(blk, lo + 1, hi);
      GoodSplit(blk, lo, lo + 1, hi);
    }
  }

  /** Chunk for chunk: the good stripe `t` lies in its own block, and its place counts the good stripes before it. */
  lemma {:induction false} LunsAt(blk: seq<bool>, lo: nat, t: nat, hi: nat)
    requires blk != [] && lo <= t < hi && !Bad(blk, t)
    ensures Good(blk, lo, t) < |Luns(blk, lo, hi)| && Luns(blk, lo, hi)[Good(blk, lo, t)] == t % |blk|
    decreases t - lo
  {
    if lo < t {
      LunsAt(blk, lo + 1, t, hi);
      GoodFirst(blk, lo, t);
    }
  }

  /** The first good stripe is that of the first chunk. */
  lemma {:induction false} NextLun(blk: seq<bool>, lo: nat, t: nat, hi: nat)
    requires blk != [] && lo <= t < hi && !Bad(blk, t) && forall u :: lo <= u < t ==> Bad(blk, u)
    ensures Luns(blk, lo, hi) == [t % |blk|] + Luns(blk, t + 1, hi)
    decreases t - lo
  {
    if lo < t { NextLun(blk, lo + 1, t, hi); }
  }

  /** The first chunk from `c` on that lies in a block whose bit is clear, or the number of chunks. */
  function PickAt(bits: seq<bool>, luns: seq<nat>, c: nat): (p: nat)
    requires c <= |luns| && forall i :: 0 <= i < |luns| ==> luns[i] < |bits|
    ensures c <= p <= |luns| && (p < |luns| ==> !bits[luns[p]]) && forall i :: c <= i < p ==> bits[luns[i]]
    decreases |luns| - c
  {
    if c == |luns| || !bits[luns[c]] then c else PickAt(bits, luns, c + 1)
  }

  /** The line in use has mapped `c` of its chunks, which lie in blocks `luns`. */
  ghost predicate Using(line: Line, luns: seq<nat>, c: nat, lo: nat, hi: nat)
    reads line, line.blkBitmap, line.mapBitmap
  {
    && line.Sized() && line.Filling(lo, hi) && c <= |luns| && luns[c..] == Luns(line.blkBitmap[..], lo, hi)
    && line.leftMsecs == (|luns| - c) * line.q && forall i :: 0 <= i < |luns| ==> luns[i] < line.blkBitmap.Length
  }

  lemma ChunkUsed(blk: seq<bool>, luns: seq<nat>, c: nat, lo: nat, t: nat, hi: nat)
    requires blk != [] && c < |luns| && luns[c..] == Luns(blk, lo, hi)
    requires lo <= t < hi && !Bad(blk, t) && forall u :: lo <= u < t ==> Bad(blk, u)
    ensures luns[c] == t % |blk| && luns[c + 1..] == Luns(blk, t + 1, hi)
  {
    NextLun(blk, lo, t, hi);
    assert luns[c] == luns[c..][0] && luns[c + 1..] == luns[c..][1..];
  }

  lemma LeftAfter(n: nat, c: nat, q: nat)
    requires c < n && q > 0
    ensures (n - c) * q > 0 && (n - c) * q - q == (n - (c + 1)) * q && ((n - (c + 1)) * q == 0 <==> c + 1 == n)
  {
    TimesNext(n - c, q);
    if c + 1 < n { Monotone(1, n - c - 1, q); }
  }

  /** The allocation of `pblk_map_page_data`: a chunk of the line in use, and the block it lies in */
  method AllocChunk(line: Line, ghost luns: seq<nat>, ghost c: nat, ghost lo: nat, ghost hi: nat) returns (lun: nat, ghost lo': nat)
    requires Using(line, luns, c, lo, hi) && c < |luns|
    modifies line`curSec, line`leftMsecs, line.mapBitmap
    ensures Using(line, luns, c + 1, lo', hi) && lun == luns[c] && (line.leftMsecs == 0 <==> c + 1 == |luns|)
    ensures NextIn(line.blkBitmap[..], lo, lo', lun)
  {
    hide Luns, Good, Bad, GoodSectors, Taken, NextIn;
    LeftAfter(|luns|, c, line.q);
    var addr;
    ghost var t;
    addr, t := line.AllocPage(lo, hi);
    ChunkUsed(line.blkBitmap[..], luns, c, lo, t, hi);
    StripeBounds(addr, line.q, t);
    lun := StripeOf(addr, line.q) % line.blkBitmap.Length;
    IsNext(line.blkBitmap[..], lo, t, lun);
    lo' := t + 1;
  }

  /** The stripe before `next` is the first good one from `lo` on, and lies in block `lun`. */
  predicate NextIn(blk: seq<bool>, lo: nat, next: nat, lun: nat) {
    && lo < next && lun < |blk| && lun == (next - 1) % |blk| && !blk[lun]
    && forall u :: lo <= u < next - 1 ==> blk[u % |blk|]
  }

  lemma IsNext(blk: seq<bool>, lo: nat, t: nat, lun: nat)
    requires blk != [] && lo <= t && !Bad(blk, t) && lun == t % |blk| && forall u :: lo <= u < t ==> Bad(blk, u)
    ensures NextIn(blk, lo, t + 1, lun)
  {
    forall u | lo <= u < t ensures blk[u % |blk|] { assert Bad(blk, u); }
  }

  // ---------------------------------------------------------------- a request that also erases

  /** The line in use and the next one share no bitmap, and have as many blocks. */
  predicate Apart(line: Line, e: EraseLine) {
    && line.mapBitmap != e.eraseBitmap && line.mapBitmap != e.blkBitmap && line.blkBitmap != e.eraseBitmap
    && e.eraseBitmap.Length == line.blkBitmap.Length
  }

  method MapNext(secs: seq<Requests.Sector>, sentry: nat, valid: nat, min: nat, i: nat, ghost c: nat) returns (all: seq<Requests.Sector>)
    requires min > 0 && i == c * min && secs == Requests.Mapped(sentry, valid, min, 0, c)
    ensures all == Requests.Mapped(sentry, valid, min, 0, c + 1) && i + min == (c + 1) * min
  {
    var chunk := Requests.MapChunk(sentry + i, if i + min > valid then valid % min else min, min);
    all := secs + chunk;
    TimesNext(c + 1, min);
  }

  /** The chunk at which an erase is picked: the first in a block whose bit is clear, unless the line is full by then. */
  predicate Picks(bits: seq<bool>, luns: seq<nat>, k: nat)
    requires forall i :: 0 <= i < |luns| ==> luns[i] < |bits|
  {
    PickAt(bits, luns, 0) < k && PickAt(bits, luns, 0) + 1 < |luns|
  }

  /**
   The loop of `pblk_map_erase_rq` over the `k` chunks of a request, up to the one whose block is picked.  The chunks lie
   in blocks `luns` until the line in use is full; then the next line is waited for, and has every bit set from there on.
   */
  method MapUntilPick(line: Line, e: EraseLine, k: nat, arrivals: seq<nat>, sentry: nat, valid: nat, ghost luns: seq<nat>, ghost lo: nat, ghost hi: nat)
      returns (ok: bool, c: nat, secs: seq<Requests.Sector>, lun: nat, ghost lo': nat)
    requires Apart(line, e) && Using(line, luns, 0, lo, hi) && luns != []
    requires e.Valid() && e.picked == {} && Arriving(e.submitted, e.submitted, arrivals, 0)
    modifies line`curSec, line`leftMsecs, line.mapBitmap, e, e.eraseBitmap
    ensures e.Valid() && e.picked == {} && c <= k && (Elems(arrivals) == old(e.submitted) ==> ok)
    ensures ok ==> secs == Requests.Mapped(sentry, valid, line.q, 0, if c < k then c + 1 else c)
    ensures c < k && ok <==> Picks(old(e.eraseBitmap[..]), luns, k)
    ensures c < k && ok ==> unchanged(e) && unchanged(e.eraseBitmap) && c + 1 < |luns| && Using(line, luns, c + 1, lo', hi)
    ensures c < k && ok ==> c == PickAt(old(e.eraseBitmap[..]), luns, 0) && lun == luns[c] < e.eraseBitmap.Length && !e.eraseBitmap[lun]
    ensures c == k && ok && |luns| <= k ==> e.Ready()
    ensures c == k && |luns| > k ==> unchanged(e) && unchanged(e.eraseBitmap)
  {
    hide Luns, Marked, Clear, Arriving;
    ghost var bits := e.eraseBitmap[..];
    secs, c, lun, lo', ok := [], 0, 0, lo, true;
    var i, swapped := 0, false;
    while c < k
      invariant c <= k && i == c * line.q && secs == Requests.Mapped(sentry, valid, line.q, 0, c) && (swapped <==> |luns| <= c)
      invariant !swapped ==> Using(line, luns, c, lo', hi) && unchanged(e) && unchanged(e.eraseBitmap) && c <= PickAt(bits, luns, 0)
      invariant swapped ==> e.Valid() && e.Ready() && |luns| <= PickAt(bits, luns, 0) + 1
    {
      secs := MapNext(secs, sentry, valid, line.q, i, c);
      if !swapped {
        lun, lo' := AllocChunk(line, luns, c, lo', hi);
        if line.leftMsecs == 0 {
          ok := e.WaitErased(arrivals);
          if !ok {
            return;
          }
          swapped := true;
        } else if !e.eraseBitmap[lun] {
          return;
        }
      }
      c, i := c + 1, i + line.q;
    }
  }

  /**
   The `pblk_map_rq` of the chunks after the picked one, whose erase is submitted only once they are mapped.  If one of
   them fills the line in use, the wait for the next line does not end, whatever completes meanwhile.
   */
  method MapAfterPick(line: Line, e: EraseLine, k: nat, c0: nat, arrivals: seq<nat>, sentry: nat, valid: nat, secs0: seq<Requests.Sector>,
                      ghost luns: seq<nat>, ghost lo: nat, ghost hi: nat) returns (done: bool, secs: seq<Requests.Sector>)
    requires Apart(line, e) && c0 <= k && c0 < |luns| && Using(line, luns, c0, lo, hi)
    requires e.Valid() && e.picked != {} && Arriving(e.submitted, e.submitted, arrivals, 0)
    requires secs0 == Requests.Mapped(sentry, valid, line.q, 0, c0)
    modifies line`curSec, line`leftMsecs, line.mapBitmap, e, e.eraseBitmap
    ensures e.Valid() && e.picked == old(e.picked) && (done <==> k < |luns|)
    ensures done ==> unchanged(e) && unchanged(e.eraseBitmap) && secs == Requests.Mapped(sentry, valid, line.q, 0, k)
    ensures !done ==> e.leftSeblks > 0
  {
    hide Luns, Marked, Clear, Arriving;
    secs, done := secs0, true;
    var i, c := c0 * line.q, c0;
    ghost var lo' := lo;
    while c < k
      invariant c <= k && i == c * line.q && secs == Requests.Mapped(sentry, valid, line.q, 0, c)
      invariant c < |luns| && Using(line, luns, c, lo', hi) && unchanged(e) && unchanged(e.eraseBitmap)
    {
      secs := MapNext(secs, sentry, valid, line.q, i, c);
      var lun;
      lun, lo' := AllocChunk(line, luns, c, lo', hi);
      if line.leftMsecs == 0 {
        done := e.WaitErased(arrivals);
        return;
      }
      c, i := c + 1, i + line.q;
    }
  }

  predicate LowestClear(bits: seq<bool>, b: nat) {
    b < |bits| && !bits[b] && forall i :: 0 <= i < b ==> bits[i]
  }

  /** The end of `pblk_map_erase_rq`: a block that is bad in the line in use but not in the next */
  method PickLeft(e: EraseLine) returns (picked: Option<nat>)
    requires e.Valid() && e.picked == {}
    modifies e, e.eraseBitmap
    ensures e.Valid() && (picked.None? <==> old(e.leftEblks) == 0) && e.submitted == old(e.submitted)
    ensures if picked.Some? then e.picked == {picked.value} && picked.value !in old(e.out) else unchanged(e) && unchanged(e.eraseBitmap)
    ensures picked.Some? ==> LowestClear(old(e.eraseBitmap[..]), picked.value)
  {
    picked := None;
    if e.leftEblks > 0 {
      var bit := Bitmap.FindNext(e.eraseBitmap, false, 0);
      FullWeight(e.eraseBitmap[..], e.eraseBitmap.Length);
      e.Pick(bit);
      picked := Some(bit);
    }
  }

  /** The line in use becomes full with a chunk of the request after the one that picked an erase. */
  predicate Deadlock(bits: seq<bool>, luns: seq<nat>, k: nat)
    requires forall i :: 0 <= i < |luns| ==> luns[i] < |bits|
  {
    Picks(bits, luns, k) && |luns| <= k
  }

  /**
   `pblk_map_erase_rq` of a request of `k` chunks with what `pblk_setup_w_rq` does after it.  The line in use has the
   chunks `luns` left; `arrivals` are the erases that complete while the request is mapped, if it has to wait.

   The request is mapped and its erase submitted, provided the erases submitted before complete, if and only if it does not deadlock.
   */
  method MapEraseRq(line: Line, e: EraseLine, k: nat, arrivals: seq<nat>, sentry: nat, valid: nat, ghost luns: seq<nat>, ghost lo: nat, ghost hi: nat)
      returns (done: bool, picked: Option<nat>, secs: seq<Requests.Sector>)
    requires Apart(line, e) && Using(line, luns, 0, lo, hi) && luns != []
    requires e.Valid() && e.picked == {} && Arriving(e.submitted, e.submitted, arrivals, 0)
    modifies line`curSec, line`leftMsecs, line.mapBitmap, e, e.eraseBitmap
    ensures e.Valid() && (Deadlock(old(e.eraseBitmap[..]), luns, k) ==> !done && e.picked != {} && e.leftSeblks > 0)
    ensures Elems(arrivals) == old(e.submitted) && !Deadlock(old(e.eraseBitmap[..]), luns, k) ==> done
    ensures done ==> secs == Requests.Mapped(sentry, valid, line.q, 0, k) && e.picked == {}
    ensures done && |luns| <= k ==> picked == None && e.Ready()
    ensures done && |luns| > k ==> (picked.None? <==> old(e.leftEblks) == 0) && (picked.Some? ==> picked.value !in old(e.out))
    ensures done && |luns| > k ==> e.submitted == old(e.submitted) + (if picked.Some? then {picked.value} else {})
    ensures done && Picks(old(e.eraseBitmap[..]), luns, k) ==> picked == Some(luns[PickAt(old(e.eraseBitmap[..]), luns, 0)])
    ensures done && !Picks(old(e.eraseBitmap[..]), luns, k) && picked.Some? ==> LowestClear(old(e.eraseBitmap[..]), picked.value)
  {
    hide Luns, Marked, Clear, Arriving, PickAt, Using, Picks;
    var ok, c, lun;
    ghost var lo';
    ok, c, secs, lun, lo' := MapUntilPick(line, e, k, arrivals, sentry, valid, luns, lo, hi);
    done, picked := ok, None;
    if !ok {
      return;
    }
    if c < k {
      e.Pick(lun);
      picked := Some(lun);
      done, secs := MapAfterPick(line, e, k, c + 1, arrivals, sentry, valid, secs, luns, lo', hi);
    } else {
      assert |luns| > k ==> e.eraseBitmap[..] == old(e.eraseBitmap[..]);
      picked := PickLeft(e);
    }
    if done && picked.Some? {
      e.Submit(picked.value);
    }
  }

  /** A line being filled has the chunks of its good stripes left. */
  lemma ChunksLeft(line: Line, lo: nat, hi: nat)
    requires line.Sized() && line.Filling(lo, hi)
    ensures var luns := Luns(line.blkBitmap[..], lo, hi); Using(line, luns, 0, lo, hi) && |luns| == Good(line.blkBitmap[..], lo, hi)
  {
    var luns := Luns(line.blkBitmap[..], lo, hi);
    LunsAre(line.blkBitmap[..], lo, hi);
    assert luns[0..] == luns;
  }

  /** A block whose bit is clear is picked with the first chunk. */
  lemma PicksFirst(bits: seq<bool>, luns: seq<nat>, k: nat)
    requires (forall i :: 0 <= i < |luns| ==> luns[i] < |bits|) && 2 <= |luns| <= k && !bits[luns[0]]
    ensures Deadlock(bits, luns, k)
  {
  }

  /**
   The deadlock from a next line just taken: any request over at least as many chunks as the line in use has left, if
   these are two or more and the block of the first one is good in the next line.
   */
  method FreshDeadlock(line: Line, blkBitmap: array<bool>, blkInLine: nat, k: nat, sentry: nat, valid: nat, ghost lo: nat, ghost hi: nat)
      returns (e: EraseLine, done: bool)
    requires line.Sized() && line.Filling(lo, hi) && line.blkBitmap.Length > 0
    requires blkBitmap.Length == line.blkBitmap.Length && blkBitmap != line.mapBitmap && blkInLine == Clear(blkBitmap[..])
    requires var luns := Luns(line.blkBitmap[..], lo, hi); 2 <= |luns| <= k && luns[0] < blkBitmap.Length && !blkBitmap[luns[0]]
    modifies line`curSec, line`leftMsecs, line.mapBitmap
    ensures e.Valid() && !done && e.picked != {} && e.leftSeblks > 0
  {
    hide Luns;
    ghost var luns := Luns(line.blkBitmap[..], lo, hi);
    ChunksLeft(line, lo, hi);
    e := new EraseLine(blkBitmap, blkInLine);
    PicksFirst(e.eraseBitmap[..], luns, k);
    var picked, secs;
    done, picked, secs := MapEraseRq(line, e, k, [], sentry, valid, luns, lo, hi);
  }
}

/**
 How large a write request is and how its sectors are mapped, chunk by chunk.
 */
module Requests {
  import opened Stripes

  /** `pblk_calc_secs` */
  function CalcSecs(avail: nat, toFlush: nat, min: nat, max: nat): nat
    requires min > 0
  {
    if avail >= max then max
    else if avail >= min then min * (avail / min)
    else if toFlush > 0 then min
    else 0
  }

  /**
   A request is a whole number of chunks, at most `max` sectors, and padded only when everything available
   is less than a chunk and a flush asks for it, by less than a chunk.  Without a flush it waits for a chunk.
   */
  lemma RequestSize(avail: nat, toFlush: nat, min: nat, max: nat)
    requires 0 < min <= max && max % min == 0
    ensures var r := CalcSecs(avail, toFlush, min, max);
      && r % min == 0 && r <= max
      && (r == 0 <==> avail < min && toFlush == 0)
      && (r > avail ==> r == min && avail < min && toFlush > 0)
      && (avail >= min ==> avail - r < min || r == max)
  {
    if avail < max && avail >= min {
      var k := avail / min;
      assert avail == min * k + avail % min;
      Multiple(k, min);
      assert min * k >= min by { Monotone(1, k, min); }
    } else if avail >= max {
    } else {
      Multiple(1, min);
    }
  }

  lemma Multiple(k: nat, n: nat)
    requires n > 0
    ensures (n * k) % n == 0 && (k * n) % n == 0
  {
    ModShift(0, k, n);
  }

  /** With whole chunks available a request takes them all, or the largest number allowed. */
  lemma WholeChunks(m: nat, most: nat, min: nat)
    requires min > 0 && m > 0 && most > 0
    ensures CalcSecs(m * min, 0, min, most * min) == (if m < most then m else most) * min
  {
    if m < most {
      DivUnique(m * min, min, m);
      Monotone(1, m, min);
      Monotone(m + 1, most, min);
      TimesNext(m + 1, min);
    } else {
      Monotone(most, m, min);
    }
  }

  // ---------------------------------------------------------------- mapping a request

  datatype Sector = Valid(entry: nat) | Padded

  /** What sector `j` of a request should carry: ring entry `sentry + j`, or padding past the valid ones. */
  function Wanted(sentry: nat, valid: nat, j: nat): Sector {
    if j < valid then Valid(sentry + j) else Padded
  }

  /** How many valid sectors `pblk_map_rq` maps in the chunk at `i`. */
  function ChunkSecs(i: nat, valid: nat, min: nat): nat
    requires min > 0
  {
    if i + min > valid then valid % min else min
  }

  /** The loop of `pblk_map_page_data` over the sectors of a chunk, `mapSecs` of them valid */
  method MapChunk(sentry: nat, mapSecs: nat, min: nat) returns (secs: seq<Sector>)
    ensures secs == Chunk(sentry, mapSecs, min)
  {
    secs := [];
    for i := 0 to min
      invariant secs == Chunk(sentry, mapSecs, i)
    {
      secs := secs + [if i < mapSecs then Valid(sentry + i) else Padded];
    }
  }

  function Chunk(sentry: nat, mapSecs: nat, count: nat): seq<Sector> {
    seq(count, j requires 0 <= j => Wanted(sentry, mapSecs, j))
  }

  /** `pblk_map_rq` of chunks `k0, ..., k - 1`, a request of `k * min` sectors from offset `k0 * min` on */
  method MapRq(sentry: nat, valid: nat, min: nat, nrPpas: nat, off: nat, ghost k0: nat, ghost k: nat) returns (secs: seq<Sector>)
    requires min > 0 && off == k0 * min && nrPpas == k * min && k0 <= k
    ensures secs == Mapped(sentry, valid, min, k0, k)
  {
    secs := [];
    var i := off;
    ghost var c := k0;
    while i < nrPpas
      invariant k0 <= c <= k && i == c * min && secs == Mapped(sentry, valid, min, k0, c)
      decreases k - c
    {
      var mapSecs := if i + min > valid then valid % min else min;
      var chunk := MapChunk(sentry + i, mapSecs, min);
      secs := secs + chunk;
      TimesNext(c + 1, min);
      i, c := i + min, c + 1;
    }
    NoneLeft(c, k, min);
  }

  lemma NoneLeft(c: nat, k: nat, min: nat)
    requires min > 0 && c <= k && c * min >= k * min
    ensures c == k
  {
    if c < k { Monotone(c + 1, k, min); }
  }

  /** What `pblk_map_rq` makes of chunks `k0, ..., k - 1`. */
  function Mapped(sentry: nat, valid: nat, min: nat, k0: nat, k: nat): seq<Sector>
    requires min > 0
    decreases k
  {
    if k <= k0 then []
    else Mapped(sentry, valid, min, k0, k - 1) + Chunk(sentry + (k - 1) * min, ChunkSecs((k - 1) * min, valid, min), min)
  }

  lemma {:induction false} MappedSplit(sentry: nat, valid: nat, min: nat, k0: nat, k1: nat, k: nat)
    requires min > 0 && k0 <= k1 <= k
    ensures Mapped(sentry, valid, min, k0, k) == Mapped(sentry, valid, min, k0, k1) + Mapped(sentry, valid, min, k1, k)
    decreases k
  {
    if k1 < k { MappedSplit(sentry, valid, min, k0, k1, k - 1); }
  }

  /** The request as it should be. */
  function Request(sentry: nat, valid: nat, nrPpas: nat): seq<Sector> {
    seq(nrPpas, j requires 0 <= j => Wanted(sentry, valid, j))
  }

  /** How many valid sectors a chunk should map. */
  function RightSecs(i: nat, valid: nat, min: nat): nat {
    if valid <= i then 0 else if valid - i < min then valid - i else min
  }

  /** A chunk is mapped right when it is full, the first short one, or `valid` is whole chunks. */
  lemma ChunkRight(c: nat, valid: nat, min: nat)
    requires min > 0
    ensures ChunkSecs(c * min, valid, min) == RightSecs(c * min, valid, min) <==> c * min <= valid || valid % min == 0
  {
    var i := c * min;
    if i <= valid < i + min {
      assert valid == (valid - i) + c * min;
      ModShift(valid - i, c, min);
      SmallMod(valid - i, min);
    }
  }

  lemma {:induction false} MappedRight(sentry: nat, valid: nat, min: nat, k: nat)
    requires min > 0 && forall c :: 0 <= c < k ==> ChunkOk(c, valid, min)
    ensures Mapped(sentry, valid, min, 0, k) == Request(sentry, valid, k * min)
    decreases k
  {
    if k > 0 {
      MappedRight(sentry, valid, min, k - 1);
      TimesNext(k, min);
      var i := (k - 1) * min;
      assert ChunkOk(k - 1, valid, min);
      OneMore(sentry, valid, min, i);
    }
  }

  predicate ChunkOk(c: nat, valid: nat, min: nat)
    requires min > 0
  {
    ChunkSecs(c * min, valid, min) == RightSecs(c * min, valid, min)
  }

  lemma OneMore(sentry: nat, valid: nat, min: nat, i: nat)
    ensures Request(sentry, valid, i) + Chunk(sentry + i, RightSecs(i, valid, min), min) == Request(sentry, valid, i + min)
  {
  }

  lemma {:induction false} MappedSize(sentry: nat, valid: nat, min: nat, k: nat)
    requires min > 0
    ensures |Mapped(sentry, valid, min, 0, k)| == k * min
  {
    if k > 0 {
      MappedSize(sentry, valid, min, k - 1);
      TimesNext(k, min);
    }
  }

  lemma Slices(a: seq<Sector>, b: seq<Sector>, i: nat, j: nat)
    requires i <= j <= |a|
    ensures (a + b)[i..j] == a[i..j] && (a + b)[|a|..|a| + |b|] == b
  {
  }

  /** The mapping of the last chunk ends that of the request. */
  lemma LastChunk(sentry: nat, valid: nat, min: nat, k: nat)
    requires min > 0 && k > 0
    ensures Mapped(sentry, valid, min, 0, k) ==
      Mapped(sentry, valid, min, 0, k - 1) + Chunk(sentry + (k - 1) * min, ChunkSecs((k - 1) * min, valid, min), min)
    ensures |Chunk(sentry + (k - 1) * min, ChunkSecs((k - 1) * min, valid, min), min)| == min
  {
  }

  /** Chunk `c` of the mapping, read off the whole. */
  lemma {:induction false} ChunkAt(sentry: nat, valid: nat, min: nat, k: nat, c: nat)
    requires min > 0 && c < k
    ensures |Mapped(sentry, valid, min, 0, k)| == k * min && c * min + min <= k * min
    ensures Mapped(sentry, valid, min, 0, k)[c * min..c * min + min] == Chunk(sentry + c * min, ChunkSecs(c * min, valid, min), min)
    decreases k
  {
    hide Mapped, Chunk, ChunkSecs;
    MappedSize(sentry, valid, min, k);
    MappedSize(sentry, valid, min, k - 1);
    LastChunk(sentry, valid, min, k);
    TimesNext(k, min);
    var a, b := Mapped(sentry, valid, min, 0, k - 1), Chunk(sentry + (k - 1) * min, ChunkSecs((k - 1) * min, valid, min), min);
    if c < k - 1 {
      ChunkAt(sentry, valid, min, k - 1, c);
      Slices(a, b, c * min, c * min + min);
    } else {
      Slices(a, b, 0, 0);
    }
  }

  lemma ChunksDiffer(sentry: nat, a: nat, b: nat, min: nat)
    requires a < b <= min
    ensures Chunk(sentry, a, min) != Chunk(sentry, b, min)
  {
    assert Chunk(sentry, a, min)[a] != Chunk(sentry, b, min)[a];
  }

  lemma SlicesDiffer(sentry: nat, valid: nat, min: nat, k: nat, c: nat)
    requires min > 0 && c < k && !ChunkOk(c, valid, min)
    ensures Mapped(sentry, valid, min, 0, k) != Request(sentry, valid, k * min)
  {
    var i := c * min;
    ChunkAt(sentry, valid, min, k, c);
    var a, b := ChunkSecs(i, valid, min), RightSecs(i, valid, min);
    assert Request(sentry, valid, k * min)[i..i + min] == Chunk(sentry + i, b, min);
    if a < b { ChunksDiffer(sentry + i, a, b, min); } else { ChunksDiffer(sentry + i, b, a, min); }
  }

  /**
   * `pblk_map_rq` maps every valid entry once, in order, and pads the rest, exactly when the padding is less than a
   * chunk or the valid sectors are whole chunks.
   */
  lemma MapExact(sentry: nat, valid: nat, min: nat, k: nat)
    requires min > 0 && valid <= k * min
    ensures Mapped(sentry, valid, min, 0, k) == Request(sentry, valid, k * min) <==> k * min - valid < min || valid % min == 0
  {
    if k * min - valid < min || valid % min == 0 {
      forall c | 0 <= c < k ensures ChunkOk(c, valid, min) {
        ChunkRight(c, valid, min);
        Monotone(c + 1, k, min);
        TimesNext(c + 1, min);
      }
      MappedRight(sentry, valid, min, k);
    } else {
      TimesNext(k, min);
      ChunkRight(k - 1, valid, min);
      SlicesDiffer(sentry, valid, min, k, k - 1);
    }
  }

  lemma ChunkOf(j: nat, valid: nat, min: nat)
    requires min > 0
    ensures var c := j / min; j == c * min + j % min && (j % min < ChunkSecs(c * min, valid, min) <==> j < valid || j % min < valid % min)
  {
    var c := j / min;
    assert j == min * c + j % min;
    var i := c * min;
    if i + min > valid && i <= valid {
      assert valid == (valid - i) + c * min;
      ModShift(valid - i, c, min);
      SmallMod(valid - i, min);
    }
  }

  /**
   Sector for sector what `pblk_map_rq` makes of a request: ring entry `sentry + j`, also past the valid ones wherever the
   place in the chunk is one of those left over, and padding otherwise.
   */
  lemma MappedAt(sentry: nat, valid: nat, min: nat, k: nat, j: nat)
    requires min > 0 && j < k * min
    ensures |Mapped(sentry, valid, min, 0, k)| == k * min
    ensures Mapped(sentry, valid, min, 0, k)[j] == if j < valid || j % min < valid % min then Valid(sentry + j) else Padded
  {
    hide Mapped, ChunkSecs;
    ChunkOf(j, valid, min);
    ChunkBelow(j, min, k);
    MappedIn(sentry, valid, min, k, j / min, j / min * min, j % min);
  }

  lemma ChunkBelow(j: nat, min: nat, k: nat)
    requires min > 0 && j < k * min
    ensures j / min < k
  {
    var c := j / min;
    assert j == min * c + j % min;
    if c >= k { Monotone(k, c, min); }
  }

  lemma MappedIn(sentry: nat, valid: nat, min: nat, k: nat, c: nat, i: nat, off: nat)
    requires min > 0 && c < k && i == c * min && off < min
    ensures |Mapped(sentry, valid, min, 0, k)| == k * min && i + off < k * min
    ensures Mapped(sentry, valid, min, 0, k)[i + off] == if off < ChunkSecs(i, valid, min) then Valid(sentry + (i + off)) else Padded
  {
    hide Mapped, ChunkSecs;
    ChunkAt(sentry, valid, min, k, c);
    SliceAt(Mapped(sentry, valid, min, 0, k), i, min, off);
    ChunkSector(sentry + i, ChunkSecs(i, valid, min), min, off);
  }

  lemma SliceAt(s: seq<Sector>, i: nat, min: nat, j: nat)
    requires i + min <= |s| && j < min
    ensures s[i..i + min][j] == s[i + j]
  {
  }

  lemma ChunkSector(sentry: nat, mapSecs: nat, min: nat, j: nat)
    requires j < min
    ensures |Chunk(sentry, mapSecs, min)| == min && Chunk(sentry, mapSecs, min)[j] == if j < mapSecs then Valid(sentry + j) else Padded
  {
  }

  /** What `pblk_submit_write` submits always satisfies that: all of `min(avail, secs_to_sync)` is valid. */
  lemma SubmitMapsRight(sentry: nat, avail: nat, toFlush: nat, min: nat, most: nat)
    requires min > 0 && most > 0
    ensures var nr := CalcSecs(avail, toFlush, min, most * min);
      && nr % min == 0
      && Mapped(sentry, if nr > avail then avail else nr, min, 0, nr / min) == Request(sentry, if nr > avail then avail else nr, nr)
  {
    var nr := CalcSecs(avail, toFlush, min, most * min);
    var valid := if nr > avail then avail else nr;
    SubmitPads(avail, toFlush, min, most * min, most);
    MapExact(sentry, valid, min, nr / min);
  }

  lemma SubmitPads(avail: nat, toFlush: nat, min: nat, max: nat, most: nat)
    requires min > 0 && most > 0 && max == most * min
    ensures var nr := CalcSecs(avail, toFlush, min, max); nr == nr / min * min && (nr > avail ==> nr - avail < min || avail == 0)
    ensures CalcSecs(avail, toFlush, min, max) % min == 0
  {
    Multiple(most, min);
    Monotone(1, most, min);
    RequestSize(avail, toFlush, min, max);
    var nr := CalcSecs(avail, toFlush, min, max);
    assert nr == min * (nr / min) + nr % min;
  }
}

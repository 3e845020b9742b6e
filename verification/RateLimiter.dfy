/**
 The rate limiter: how many entries of the write ring user I/O and GC may hold before the writer takes them.
 */
module RateLimiter {
  import opened Bitwise
  import opened PblkInstance
  import opened Stripes

  datatype Kind = User | Gc

  /** `1 << PBLK_MAX_REQ_ADDRS_PW` */
  const WINDOW := 64

  function Count(q: seq<Kind>, kind: Kind): nat {
    if q == [] then 0 else Count(q[1..], kind) + if q[0] == kind then 1 else 0
  }

  lemma {:induction false} CountSplit(a: seq<Kind>, b: seq<Kind>, kind: Kind)
    ensures Count(a + b, kind) == Count(a, kind) + Count(b, kind)
  {
    if a == [] {
      assert a + b == b;
    } else {
      CountSplit(a[1..], b, kind);
      assert (a + b)[1..] == a[1..] + b && (a + b)[0] == a[0];
    }
  }

  lemma {:induction false} CountAll(q: seq<Kind>)
    ensures Count(q, User) + Count(q, Gc) == |q|
  {
    if q != [] { CountAll(q[1..]); }
  }

  function Repeat(kind: Kind, n: nat): seq<Kind> {
    seq(n, _ => kind)
  }

  lemma {:induction false} CountRepeat(kind: Kind, n: nat, other: Kind)
    ensures Count(Repeat(kind, n), other) == if kind == other then n else 0
  {
    if n > 0 {
      CountRepeat(kind, n - 1, other);
      assert Repeat(kind, n)[1..] == Repeat(kind, n - 1);
    }
  }

  /** The loop of `pblk_rb_read_to_bio` that tells user from GC entries */
  method CountKinds(entries: seq<Kind>) returns (userIo: nat, gcIo: nat)
    ensures userIo == Count(entries, User) && gcIo == Count(entries, Gc)
  {
    userIo, gcIo := 0, 0;
    for i := 0 to |entries|
      invariant userIo == Count(entries[..i], User) && gcIo == Count(entries[..i], Gc)
    {
      assert entries[..i + 1] == entries[..i] + [entries[i]];
      CountSplit(entries[..i], [entries[i]], User);
      CountSplit(entries[..i], [entries[i]], Gc);
      if entries[i] == User {
        userIo := userIo + 1;
      } else {
        gcIo := gcIo + 1;
      }
    }
    assert entries[..|entries|] == entries;
  }

  datatype Gcing = StartGc | StopGc

  class Limiter {
    const highPw: nat
    const lowPw: nat
    const windowsPw: nat
    const budget: nat
    var freeBlocks: nat
    var userMax: int
    var userCnt: int
    var gcMax: int
    var gcCnt: int
    var gcRsv: nat
    var userActive: bool
    /** The kinds of the entries between `subm` and `mem` of the ring, in ring order. */
    ghost var queue: seq<Kind>

    /** Each counter is the number of entries of its kind the writer has not taken. */
    ghost predicate Valid()
      reads this
    {
      userCnt == Count(queue, User) && gcCnt == Count(queue, Gc) && userCnt + gcCnt == |queue|
    }

    /** The limiter counts the entries of the ring of `p`. */
    ghost predicate Limits(p: Pblk)
      reads this, p, p.entries, p.transMap, p.lines
    {
      Valid() && p.Valid() && |queue| == p.g.mem - p.g.subm
    }

    /** `pblk_rl_init` with the powers it works out given */
    constructor (budget: nat, freeBlocks: nat, highPw: nat, lowPw: nat, windowsPw: nat, gcRsv: nat)
      ensures Valid() && queue == [] && userMax == budget && gcMax == 0 && !userActive
      ensures this.budget == budget && this.freeBlocks == freeBlocks && this.gcRsv == gcRsv
      ensures this.highPw == highPw && this.lowPw == lowPw && this.windowsPw == windowsPw
    {
      this.budget, this.freeBlocks, this.highPw, this.lowPw, this.windowsPw := budget, freeBlocks, highPw, lowPw, windowsPw;
      this.gcRsv, userMax, userCnt, gcMax, gcCnt, userActive := gcRsv, budget, 0, 0, 0, false;
      queue := [];
    }

    /** `pblk_rb_may_write_user` */
    method MayWriteUser(p: Pblk, nrEntries: nat) returns (ok: bool, pos: nat)
      requires Limits(p)
      modifies this`userCnt, this`userActive, this`queue, p`mem, p`l2pUpdate, p`g, p`hist, p.entries, p.lines, p.transMap
      ensures Limits(p) && pos == old(p.mem)
      ensures ok <==> old(userCnt) + nrEntries <= userMax && old(p.g.mem) + nrEntries < old(p.g.sync) + p.entries.Length
      ensures queue == old(queue) + (if ok then Repeat(User, nrEntries) else [])
      ensures if ok then userCnt <= userMax && userActive else p.View() == old(p.View())
      ensures userCnt == old(userCnt) + if ok then nrEntries else 0
    {
      pos := p.mem;
      if userCnt + nrEntries > userMax {
        return false, pos;
      }
      ok, pos := p.MayWrite(nrEntries);
      if !ok {
        return;
      }
      Admit(queue, User, nrEntries);
      userCnt := userCnt + nrEntries;
      userActive := true;
      queue := queue + Repeat(User, nrEntries);
    }

    /** `pblk_rb_may_write_gc` */
    method MayWriteGc(p: Pblk, nrEntries: nat) returns (ok: bool, pos: nat)
      requires Limits(p)
      modifies this`gcCnt, this`queue, p`mem, p`l2pUpdate, p`g, p`hist, p.entries, p.lines, p.transMap
      ensures Limits(p) && pos == old(p.mem)
      ensures ok <==> (old(gcCnt) + nrEntries <= gcMax || !userActive) && old(p.g.mem) + nrEntries < old(p.g.sync) + p.entries.Length
      ensures queue == old(queue) + (if ok then Repeat(Gc, nrEntries) else [])
      ensures !ok ==> p.View() == old(p.View())
      ensures gcCnt == old(gcCnt) + if ok then nrEntries else 0
    {
      pos := p.mem;
      if gcCnt + nrEntries > gcMax && userActive {
        return false, pos;
      }
      ok, pos := p.MayWrite(nrEntries);
      if !ok {
        return;
      }
      Admit(queue, Gc, nrEntries);
      gcCnt := gcCnt + nrEntries;
      queue := queue + Repeat(Gc, nrEntries);
    }

    /** The writer takes entries into a chunk: the count of `pblk_rb_read_to_bio` over them, and `pblk_rl_out` */
    method Take(p: Pblk, entries: seq<Kind>, nrSecs: nat)
      requires Limits(p) && entries <= queue && |entries| <= nrSecs && ToMap(p.View(), |entries|, nrSecs)
      modifies this`userCnt, this`gcCnt, this`queue, p`subm, p`g, p`hist, p.entries, p.lines
      ensures Limits(p) && old(queue) == entries + queue && userCnt >= 0 && gcCnt >= 0
    {
      var userIo, gcIo := CountKinds(entries);
      assert queue == entries + queue[|entries|..];
      CountSplit(entries, queue[|entries|..], User);
      CountSplit(entries, queue[|entries|..], Gc);
      CountAll(queue[|entries|..]);
      queue := queue[|entries|..];
      userCnt, gcCnt := userCnt - userIo, gcCnt - gcIo;
      p.MapChunk(nrSecs, |entries|);
    }

    /** `pblk_rl_update_rates` */
    method UpdateRates() returns (r: Gcing)
      requires highPw >= windowsPw
      modifies this`userMax, this`gcMax
      ensures userMax == UserMax(freeBlocks, highPw, lowPw, windowsPw, budget, gcRsv)
      ensures gcMax == GcMax(freeBlocks, highPw, lowPw, windowsPw, budget, gcRsv)
      ensures r == StopGc <==> freeBlocks >= Pow2(highPw)
      ensures freeBlocks >= Pow2(highPw) ==> gcMax == gcRsv && userMax + gcMax == budget
      ensures freeBlocks < Pow2(highPw) && freeBlocks <= Pow2(lowPw) ==> userMax == 0 && gcMax == budget
      ensures Throttled(freeBlocks, highPw, lowPw) ==>
        Windows(userMax, freeBlocks, Pow2(highPw - windowsPw)) && gcMax == Larger(budget - userMax, gcRsv)
    {
      RatesAre(freeBlocks, highPw, lowPw, windowsPw, budget, gcRsv);
      var high, low := Shl(1, highPw), Shl(1, lowPw);
      if freeBlocks >= high {
        userMax, gcMax := budget - gcRsv, gcRsv;
        return StopGc;
      } else if freeBlocks > low {
        var shift := highPw - windowsPw;
        var userWindows := Shr(freeBlocks, shift);
        userMax := userWindows * WINDOW;
        var rest := budget - userMax;
        gcMax := if rest > gcRsv then rest else gcRsv;
        return StartGc;
      } else {
        userMax, gcMax := 0, budget;
        return StartGc;
      }
    }
  }

  lemma Admit(q: seq<Kind>, kind: Kind, n: nat)
    ensures Count(q + Repeat(kind, n), User) == Count(q, User) + if kind == User then n else 0
    ensures Count(q + Repeat(kind, n), Gc) == Count(q, Gc) + if kind == Gc then n else 0
  {
    CountSplit(q, Repeat(kind, n), User);
    CountSplit(q, Repeat(kind, n), Gc);
    CountRepeat(kind, n, User);
    CountRepeat(kind, n, Gc);
  }

  // ---------------------------------------------------------------- the budgets

  predicate Throttled(free: nat, highPw: nat, lowPw: nat) {
    Pow2(lowPw) < free < Pow2(highPw)
  }

  /** `user` is one window for each full `size` of the free blocks. */
  ghost predicate Windows(user: int, free: nat, size: nat) {
    exists w: nat :: user == w * WINDOW && w * size <= free < w * size + size
  }

  function Larger(a: int, b: int): (m: int)
    ensures m >= a && m >= b && (m == a || m == b)
  {
    if a > b then a else b
  }

  lemma RatesAre(free: nat, highPw: nat, lowPw: nat, windowsPw: nat, budget: nat, rsv: nat)
    requires highPw >= windowsPw
    ensures Throttled(free, highPw, lowPw) ==> Windows(UserMax(free, highPw, lowPw, windowsPw, budget, rsv), free, Pow2(highPw - windowsPw))
  {
    var size := Pow2(highPw - windowsPw);
    var w := Shr(free, highPw - windowsPw);
    StripeBounds(free, size, w);
    if Throttled(free, highPw, lowPw) {
      assert UserMax(free, highPw, lowPw, windowsPw, budget, rsv) == w * WINDOW;
    }
  }

  function UserMax(free: nat, highPw: nat, lowPw: nat, windowsPw: nat, budget: nat, rsv: nat): int
    requires highPw >= windowsPw
  {
    if free >= Pow2(highPw) then budget - rsv
    else if free > Pow2(lowPw) then Shr(free, highPw - windowsPw) * WINDOW
    else 0
  }

  function GcMax(free: nat, highPw: nat, lowPw: nat, windowsPw: nat, budget: nat, rsv: nat): int
    requires highPw >= windowsPw
  {
    if free >= Pow2(highPw) then rsv
    else if free > Pow2(lowPw) then
      var rest := budget - Shr(free, highPw - windowsPw) * WINDOW; if rest > rsv then rest else rsv
    else budget
  }

  lemma DivMonotone(x: nat, y: nat, d: nat)
    requires x <= y && d > 0
    ensures x / d <= y / d
  {
    assert x == d * (x / d) + x % d && y == d * (y / d) + y % d;
    if x / d > y / d {
      Monotone(y / d + 1, x / d, d);
    }
  }

  /** Below the high mark fewer than all windows go to users. */
  lemma WindowsLeft(free: nat, highPw: nat, windowsPw: nat)
    requires highPw >= windowsPw && free < Pow2(highPw)
    ensures Shr(free, highPw - windowsPw) < Pow2(windowsPw)
  {
    PowDivides(windowsPw, highPw);
    DivBound(free, Pow2(highPw - windowsPw), Pow2(windowsPw));
  }

  lemma DivBound(x: nat, d: nat, w: nat)
    requires d > 0 && x < w * d
    ensures x / d < w
  {
    assert x == d * (x / d) + x % d;
    if x / d >= w {
      Monotone(w, x / d, d);
    }
  }

  /** When throttled, users leave GC at least one window of a budget of `2^windows_pw` windows. */
  lemma GcKeepsWindow(free: nat, highPw: nat, lowPw: nat, windowsPw: nat, budget: nat, rsv: nat)
    requires highPw >= windowsPw && Throttled(free, highPw, lowPw) && budget == Pow2(windowsPw) * WINDOW
    ensures var u := UserMax(free, highPw, lowPw, windowsPw, budget, rsv);
      0 <= u <= budget - WINDOW && GcMax(free, highPw, lowPw, windowsPw, budget, rsv) >= WINDOW
    ensures rsv <= WINDOW ==> UserMax(free, highPw, lowPw, windowsPw, budget, rsv) + GcMax(free, highPw, lowPw, windowsPw, budget, rsv) == budget
  {
    WindowsLeft(free, highPw, windowsPw);
  }

  /** The user budget never shrinks as blocks become free, if GC's reserve is no more than a window. */
  lemma UserMonotone(free: nat, more: nat, highPw: nat, lowPw: nat, windowsPw: nat, budget: nat, rsv: nat)
    requires highPw >= windowsPw && free <= more && budget == Pow2(windowsPw) * WINDOW && rsv <= WINDOW
    ensures UserMax(free, highPw, lowPw, windowsPw, budget, rsv) <= UserMax(more, highPw, lowPw, windowsPw, budget, rsv)
  {
    DivMonotone(free, more, Pow2(highPw - windowsPw));
    if Throttled(free, highPw, lowPw) { GcKeepsWindow(free, highPw, lowPw, windowsPw, budget, rsv); }
    Monotone(1, Pow2(windowsPw), WINDOW);
  }

  lemma LastWindow(highPw: nat, windowsPw: nat)
    requires highPw >= windowsPw
    ensures Shr(Pow2(highPw) - 1, highPw - windowsPw) == Pow2(windowsPw) - 1
  {
    PowDivides(windowsPw, highPw);
    OneLess(Pow2(highPw - windowsPw), Pow2(windowsPw));
  }

  lemma OneLess(d: nat, w: nat)
    requires d > 0 && w > 0
    ensures w * d > 0 && (w * d - 1) / d == w - 1
  {
    TimesNext(w, d);
    DivModUnique(w * d - 1, d, w - 1, d - 1);
  }

  /** That bound is exact: with a larger reserve the user budget shrinks as the high mark is passed. */
  lemma MonotoneExact(highPw: nat, lowPw: nat, windowsPw: nat, budget: nat, rsv: nat)
    requires highPw >= windowsPw && budget == Pow2(windowsPw) * WINDOW && Throttled(Pow2(highPw) - 1, highPw, lowPw)
    ensures rsv <= WINDOW <==>
      forall free, more :: free <= more ==>
        UserMax(free, highPw, lowPw, windowsPw, budget, rsv) <= UserMax(more, highPw, lowPw, windowsPw, budget, rsv)
  {
    if rsv <= WINDOW {
      forall free, more | free <= more
        ensures UserMax(free, highPw, lowPw, windowsPw, budget, rsv) <= UserMax(more, highPw, lowPw, windowsPw, budget, rsv)
      {
        UserMonotone(free, more, highPw, lowPw, windowsPw, budget, rsv);
      }
    } else {
      LastWindow(highPw, windowsPw);
      var last := Pow2(highPw) - 1;
      assert UserMax(last, highPw, lowPw, windowsPw, budget, rsv) == budget - WINDOW;
      assert UserMax(last + 1, highPw, lowPw, windowsPw, budget, rsv) == budget - rsv;
    }
  }
}

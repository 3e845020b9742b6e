/**
 The scan of a victim line: which valid sectors GC looks at, in what batches, and which of them it hands on.
 */
module GcScan {
  import opened Stripes
  import Bitmap

  /** The clear bits from `from` on, in order: the sectors still valid. */
  function Clears(b: seq<bool>, from: nat): seq<nat>
    decreases |b| - from
  {
    if from >= |b| then [] else (if b[from] then [] else [from]) + Clears(b, from + 1)
  }

  lemma {:induction false} ClearsAre(b: seq<bool>, from: nat)
    ensures forall p: nat :: p in Clears(b, from) <==> from <= p < |b| && !b[p]
    ensures forall i, j :: 0 <= i < j < |Clears(b, from)| ==> Clears(b, from)[i] < Clears(b, from)[j]
    decreases |b| - from
  {
    if from < |b| {
      ClearsAre(b, from + 1);
      FirstOf(Clears(b, from + 1), from);
      if !b[from] { assert Clears(b, from) == [from] + Clears(b, from + 1); }
    }
  }

  lemma FirstOf(rest: seq<nat>, p: nat)
    requires (forall i, j :: 0 <= i < j < |rest| ==> rest[i] < rest[j]) && forall x :: x in rest ==> p < x
    ensures forall i, j :: 0 <= i < j < |[p] + rest| ==> ([p] + rest)[i] < ([p] + rest)[j]
    ensures forall x :: x in [p] + rest <==> x == p || x in rest
  {
    assert forall i :: 0 <= i < |rest| ==> rest[i] in rest;
  }

  lemma {:induction false} SkipSet(b: seq<bool>, from: nat, upto: nat)
    requires from <= upto <= |b| && forall j :: from <= j < upto ==> b[j]
    ensures Clears(b, from) == Clears(b, upto)
    decreases upto - from
  {
    if from < upto { SkipSet(b, from + 1, upto); }
  }

  /** There are as many as the bitmap's weight leaves. */
  lemma {:induction false} ClearsCount(b: seq<bool>, n: nat)
    requires n <= |b|
    ensures |Clears(b, n)| == |b| - n - (Bitmap.Weight(b, |b|) - Bitmap.Weight(b, n))
    decreases |b| - n
  {
    if n < |b| { ClearsCount(b, n + 1); }
  }

  /** The sectors GC hands on from what it looked up: those in `live`, whose lba still maps into the victim. */
  function Live(secs: seq<nat>, live: set<nat>): seq<nat> {
    if secs == [] then [] else (if secs[0] in live then [secs[0]] else []) + Live(secs[1..], live)
  }

  lemma {:induction false} LiveSplit(a: seq<nat>, b: seq<nat>, live: set<nat>)
    ensures Live(a + b, live) == Live(a, live) + Live(b, live)
  {
    if a == [] {
      assert a + b == b;
    } else {
      LiveSplit(a[1..], b, live);
      assert (a + b)[1..] == a[1..] + b && (a + b)[0] == a[0];
      Associate(if a[0] in live then [a[0]] else [], Live(a[1..], live), Live(b, live));
    }
  }

  /** `pblk_submit_read_gc`: a list is filtered; for a single sector `read_rq_gc` reports nothing to move. */
  function Handed(batch: seq<nat>, live: set<nat>): seq<nat> {
    if |batch| > 1 then Live(batch, live) else []
  }

  /** What is handed on when `secs` is taken in batches of `max`. */
  function HandedAll(secs: seq<nat>, max: nat, live: set<nat>): seq<nat>
    requires max > 0
    decreases |secs|
  {
    if secs == [] then []
    else var k := if |secs| > max then max else |secs|; Handed(secs[..k], live) + HandedAll(secs[k..], max, live)
  }

  /** `pblk_gc_move_valid_secs` without failures */
  method MoveValidSecs(secs: seq<nat>, max: nat, live: set<nat>) returns (off: nat, handed: seq<nat>)
    requires max > 0
    ensures off == |secs| && handed == HandedAll(secs, max, live)
  {
    hide HandedAll, Handed;
    off, handed := 0, [];
    var left := |secs|;
    Ends(secs, max, live);
    while left > 0
      invariant left == |secs| - off >= 0 && handed + HandedAll(secs[off..], max, live) == HandedAll(secs, max, live)
    {
      var nr := if left > max then max else left;
      NextBatch(secs, off, nr, max, live, handed);
      handed := handed + Handed(secs[off..off + nr], live);
      left, off := left - nr, off + nr;
    }
  }

  lemma Ends(secs: seq<nat>, max: nat, live: set<nat>)
    requires max > 0
    ensures secs[0..] == secs && secs[|secs|..] == [] && HandedAll([], max, live) == []
    ensures [] + HandedAll(secs, max, live) == HandedAll(secs, max, live)
  {
  }

  lemma NextBatch(secs: seq<nat>, off: nat, nr: nat, max: nat, live: set<nat>, handed: seq<nat>)
    requires max > 0 && off < |secs| && nr == if |secs| - off > max then max else |secs| - off
    ensures handed + HandedAll(secs[off..], max, live) ==
      (handed + Handed(secs[off..off + nr], live)) + HandedAll(secs[off + nr..], max, live)
  {
    assert secs[off..][..nr] == secs[off..off + nr] && secs[off..][nr..] == secs[off + nr..];
    Associate(handed, Handed(secs[off..off + nr], live), HandedAll(secs[off + nr..], max, live));
  }

  lemma Associate(a: seq<nat>, b: seq<nat>, c: seq<nat>)
    ensures a + (b + c) == (a + b) + c
  {
  }

  /** The loop at `next_rq` that gathers a batch, looking from bit `from` on */
  method Gather(invalid: array<bool>, emetaSsec: nat, max: nat, from: nat) returns (batch: seq<nat>, next: nat)
    requires max > 0 && emetaSsec < invalid.Length && forall a :: emetaSsec <= a < invalid.Length ==> invalid[a]
    ensures batch + Clears(invalid[..], next) == Clears(invalid[..], from)
    ensures |batch| <= max && (|batch| < max ==> Clears(invalid[..], next) == [])
  {
    ghost var b := invalid[..];
    batch, next := [], from;
    while |batch| < max
      invariant |batch| <= max && batch + Clears(b, next) == Clears(b, from)
    {
      var bit := Bitmap.FindNext(invalid, false, next);
      if next <= |b| { SkipSet(b, next, bit); }
      if bit > emetaSsec {
        return batch, bit + 1;
      }
      assert Clears(b, bit) == [bit] + Clears(b, bit + 1);
      Associate(batch, [bit], Clears(b, bit + 1));
      batch := batch + [bit];
      next := bit + 1;
    }
  }

  /** `pblk_gc_line_ws` past the empty line: every valid sector is looked at once, in order, and none is left */
  method CollectLine(invalid: array<bool>, emetaSsec: nat, vsc: nat, max: nat, live: set<nat>) returns (handed: seq<nat>, looked: seq<nat>)
    requires max > 0 && emetaSsec < invalid.Length && forall a :: emetaSsec <= a < invalid.Length ==> invalid[a]
    requires vsc == invalid.Length - Bitmap.Weight(invalid[..], invalid.Length)
    ensures looked == Clears(invalid[..], 0) && handed == HandedAll(Clears(invalid[..], 0), max, live)
  {
    ghost var b := invalid[..];
    ClearsCount(b, 0);
    var secLeft := vsc;
    var from := 0;
    handed, looked := [], [];
    while secLeft > 0
      invariant secLeft == |Clears(b, from)| && looked + Clears(b, from) == Clears(b, 0)
      invariant handed + HandedAll(Clears(b, from), max, live) == HandedAll(Clears(b, 0), max, live)
    {
      ghost var todo := Clears(b, from);
      var batch, next := Gather(invalid, emetaSsec, max, from);
      var moved, more := MoveValidSecs(batch, max, live);
      OneBatch(todo, batch, Clears(b, next), max, live);
      Associate(handed, more, HandedAll(Clears(b, next), max, live));
      Associate(looked, batch, Clears(b, next));
      assert moved == |batch|;
      handed, looked := handed + more, looked + batch;
      secLeft, from := secLeft - moved, next;
    }
    assert secLeft == 0;
  }

  lemma OneBatch(todo: seq<nat>, batch: seq<nat>, rest: seq<nat>, max: nat, live: set<nat>)
    requires max > 0 && todo == batch + rest && todo != [] && |batch| <= max && (|batch| < max ==> rest == [])
    ensures batch != [] && HandedAll(batch, max, live) == Handed(batch, live)
    ensures HandedAll(todo, max, live) == Handed(batch, live) + HandedAll(rest, max, live)
  {
    assert batch[..|batch|] == batch && batch[|batch|..] == [];
    assert todo[..|batch|] == batch && todo[|batch|..] == rest;
  }

  // ---------------------------------------------------------------- what a batch of one costs

  /** No sector that is alone in its batch is live. */
  predicate NoneAlone(secs: seq<nat>, max: nat, live: set<nat>)
    requires max > 0
  {
    if max == 1 then forall p :: p in secs ==> p !in live
    else |secs| % max == 1 ==> secs[|secs| - 1] !in live
  }

  lemma {:induction false} LiveSize(secs: seq<nat>, live: set<nat>)
    ensures |Live(secs, live)| <= |secs|
    ensures Live(secs, live) == [] <==> forall p :: p in secs ==> p !in live
  {
    if secs != [] {
      LiveSize(secs[1..], live);
      assert forall p :: p in secs <==> p == secs[0] || p in secs[1..];
    }
  }

  lemma SingleBatch(secs: seq<nat>, max: nat, live: set<nat>)
    requires 0 < |secs| <= max
    ensures HandedAll(secs, max, live) == Handed(secs, live) && |secs| % max == if |secs| == max then 0 else |secs|
  {
    assert secs[..|secs|] == secs && secs[|secs|..] == [];
  }

  lemma LastOfRest(secs: seq<nat>, max: nat, live: set<nat>)
    requires 1 < max < |secs|
    ensures NoneAlone(secs, max, live) <==> NoneAlone(secs[max..], max, live)
  {
    ModAdd(|secs| - max, max);
    assert |secs| % max == (|secs| - max) % max;
    assert secs[max..][|secs| - max - 1] == secs[|secs| - 1];
  }

  lemma FirstBatch(secs: seq<nat>, max: nat, live: set<nat>)
    requires 1 < max < |secs|
    ensures HandedAll(secs, max, live) == Live(secs[..max], live) + HandedAll(secs[max..], max, live)
    ensures Live(secs, live) == Live(secs[..max], live) + Live(secs[max..], live)
  {
    assert secs == secs[..max] + secs[max..];
    LiveSplit(secs[..max], secs[max..], live);
  }

  /** At most one batch. */
  lemma FewExact(secs: seq<nat>, max: nat, live: set<nat>)
    requires max > 1 && |secs| <= max
    ensures HandedAll(secs, max, live) == Live(secs, live) <==> NoneAlone(secs, max, live)
  {
    if secs != [] {
      SingleBatch(secs, max, live);
      LiveSize(secs, live);
      if |secs| == 1 { assert forall p :: p in secs <==> p == secs[0]; }
    }
  }

  lemma {:induction false} ManyExact(secs: seq<nat>, max: nat, live: set<nat>)
    requires max > 1
    ensures HandedAll(secs, max, live) == Live(secs, live) <==> NoneAlone(secs, max, live)
    decreases |secs|
  {
    hide HandedAll, Handed, Live, NoneAlone;
    if |secs| > max {
      ManyExact(secs[max..], max, live);
      LastOfRest(secs, max, live);
      FirstBatch(secs, max, live);
      SamePrefix(Live(secs[..max], live), HandedAll(secs[max..], max, live), Live(secs[max..], live));
    } else {
      FewExact(secs, max, live);
    }
  }

  lemma SamePrefix(h: seq<nat>, a: seq<nat>, b: seq<nat>)
    ensures h + a == h + b <==> a == b
  {
    assert a == (h + a)[|h|..] && b == (h + b)[|h|..];
  }

  lemma {:induction false} OnesHandNothing(secs: seq<nat>, live: set<nat>)
    ensures HandedAll(secs, 1, live) == []
    decreases |secs|
  {
    if secs != [] { OnesHandNothing(secs[1..], live); }
  }

  /**
   GC hands on every live sector exactly when none is alone in its batch: the last one, when the valid count
   leaves one over, or all of them when batches have one sector.
   */
  lemma HandsOnAll(secs: seq<nat>, max: nat, live: set<nat>)
    requires max > 0
    ensures HandedAll(secs, max, live) == Live(secs, live) <==> NoneAlone(secs, max, live)
  {
    if max > 1 {
      ManyExact(secs, max, live);
    } else {
      OnesHandNothing(secs, live);
      LiveSize(secs, live);
    }
  }

  /** What is in a filtered list, in the order of the whole. */
  lemma {:induction false} LiveAre(secs: seq<nat>, live: set<nat>)
    ensures forall p :: p in Live(secs, live) <==> p in secs && p in live
    ensures Increasing(secs) ==> Increasing(Live(secs, live))
  {
    if secs != [] {
      var rest := Live(secs[1..], live);
      LiveAre(secs[1..], live);
      assert forall p :: p in secs <==> p == secs[0] || p in secs[1..];
      if Increasing(secs) {
        assert Increasing(secs[1..]);
        forall p | p in rest ensures secs[0] < p {
          var i :| 0 <= i < |secs[1..]| && secs[1..][i] == p;
          assert secs[i + 1] == p;
        }
        if secs[0] in live { FirstOf(rest, secs[0]); }
      }
    }
  }

  predicate Increasing(s: seq<nat>) {
    forall i, j :: 0 <= i < j < |s| ==> s[i] < s[j]
  }

  /** The sectors alone in their batch: all, or the last one where one is left over. */
  function AloneSecs(secs: seq<nat>, max: nat): set<nat>
    requires max > 0
  {
    if max == 1 then set p | p in secs else if |secs| % max == 1 then {secs[|secs| - 1]} else {}
  }

  lemma {:induction false} SameLive(secs: seq<nat>, live: set<nat>, live': set<nat>)
    requires forall p :: p in secs ==> (p in live <==> p in live')
    ensures Live(secs, live) == Live(secs, live')
  {
    if secs != [] { SameLive(secs[1..], live, live'); }
  }

  lemma AloneRest(secs: seq<nat>, max: nat)
    requires 1 < max < |secs|
    ensures AloneSecs(secs[max..], max) == AloneSecs(secs, max)
  {
    ModAdd(|secs| - max, max);
    assert |secs| % max == (|secs| - max) % max;
    assert secs[max..][|secs| - max - 1] == secs[|secs| - 1];
  }

  lemma AloneLast(secs: seq<nat>, max: nat, p: nat)
    requires 1 < max < |secs| && Increasing(secs) && p in secs[..max]
    ensures p !in AloneSecs(secs, max)
  {
    var i :| 0 <= i < max && secs[i] == p;
  }

  /** Exactly what a scan hands on: the live sectors, in order, but those alone in their batch. */
  lemma {:induction false} HandedIs(secs: seq<nat>, max: nat, live: set<nat>)
    requires max > 0 && Increasing(secs)
    ensures HandedAll(secs, max, live) == Live(secs, live - AloneSecs(secs, max))
    decreases |secs|
  {
    var alone := AloneSecs(secs, max);
    if max == 1 {
      OnesHandNothing(secs, live);
      LiveSize(secs, live - alone);
    } else if |secs| > max {
      HandedIs(secs[max..], max, live);
      AloneRest(secs, max);
      FirstBatch(secs, max, live);
      FirstBatch(secs, max, live - alone);
      forall p | p in secs[..max] ensures p !in alone { AloneLast(secs, max, p); }
      SameLive(secs[..max], live, live - alone);
    } else if secs != [] {
      SingleBatch(secs, max, live);
      LiveSize(secs, live - alone);
      if |secs| > 1 { SameLive(secs, live, live - alone); } else { assert forall p :: p in secs <==> p == secs[0]; }
    }
  }

  /** The smallest loss: a line with one valid sector, live. */
  lemma OneSectorLost(p: nat, max: nat, live: set<nat>)
    requires max > 0 && p in live
    ensures HandedAll([p], max, live) == [] && Live([p], live) == [p]
  {
    SingleBatch([p], max, live);
    assert Live([p], live) == [p] + Live([p][1..], live) && [p][1..] == [];
  }
}

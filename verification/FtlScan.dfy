/**
 What it costs that GC hands on nothing from a batch of one sector, in the step system.

 The scan of a victim looks at its valid sectors in batches.  A sector alone in its batch is passed over by a `GcSkip`
 step, which is harmless only if its address has moved on, is moved for another sector that names it, or is written over
 before the line can be freed.
 */
module FtlScan {
  import opened Basics
  import opened Ftl
  import opened FtlInv
  import opened FtlSteps
  import opened FtlGc
  import opened FtlRun
  import opened FtlFacts
  import opened FtlPadded
  import opened FtlVictim
  import GcScan
  import Stripes

  // ---------------------------------------------------------------- the scan as coded

  /** The steps of one batch. */
  function BatchOps(l: nat, batch: seq<nat>): seq<Op> {
    if |batch| == 1 then [GcSkip(l, batch[0])] else seq(|batch|, i requires 0 <= i < |batch| => GcRead(l, batch[i]))
  }

  /** The steps of the scan of `secs` in batches of `max`. */
  function ScanOps(l: nat, secs: seq<nat>, max: nat): seq<Op>
    requires max > 0
    decreases |secs|
  {
    if secs == [] then []
    else var k := if |secs| > max then max else |secs|; BatchOps(l, secs[..k]) + ScanOps(l, secs[k..], max)
  }

  /** Sector `p` is alone in its batch: batches of one, or the last sector where one is left over. */
  predicate Alone(secs: seq<nat>, max: nat, p: nat)
    requires max > 0
  {
    p in secs && (max == 1 || (|secs| % max == 1 && p == secs[|secs| - 1]))
  }

  lemma AloneRest(secs: seq<nat>, max: nat, p: nat)
    requires 1 < max < |secs|
    ensures Alone(secs[max..], max, p) <==> Alone(secs, max, p)
  {
    Stripes.ModAdd(|secs| - max, max);
    assert |secs| % max == (|secs| - max) % max;
    assert secs[max..][|secs| - max - 1] == secs[|secs| - 1];
  }

  /** The sectors passed over are those alone in their batch. */
  lemma {:induction false} SkipsAre(l: nat, secs: seq<nat>, max: nat, p: nat)
    requires max > 0 && Distinct(secs) && GcSkip(l, p) in ScanOps(l, secs, max)
    ensures Alone(secs, max, p)
    decreases |secs|
  {
    var k := if |secs| > max then max else |secs|;
    if GcSkip(l, p) in BatchOps(l, secs[..k]) {
      assert |secs[..k]| == 1;
      if max > 1 { assert k == |secs| == 1; }
    } else {
      SkipsAre(l, secs[k..], max, p);
      if max > 1 { AloneRest(secs, max, p); }
    }
  }

  /** The scan steps of a run on line `l`. */
  function ScansOf(r: Run, l: nat): seq<Op> {
    match r
    case Start => []
    case Then(prev, op) => ScansOf(prev, l) + if (op.GcRead? || op.GcSkip?) && op.line == l then [op] else []
  }

  /** Every step can be taken, and is safe unless it passes over a sector of `l`. */
  predicate SafeButSkips(s: State, r: Run, l: nat) {
    match r
    case Start => true
    case Then(prev, op) =>
      && SafeButSkips(s, prev, l) && Goes(s, prev).Some? && Enabled(Goes(s, prev).value, op)
      && ((op.GcSkip? && op.line == l) || Safe(Goes(s, prev).value, op))
  }

  /** GC scans `l` as the driver does: the scan steps of the run are the first of `ScanOps`, and `l` is collected once. */
  predicate AsCoded(s: State, r: Run, l: nat, secs: seq<nat>, max: nat)
    requires max > 0
  {
    SafeButSkips(s, r, l) && NotReplaced(r, l) && ScansOf(r, l) <= ScanOps(l, secs, max)
  }

  /** GC has just started on `l`, whose valid sectors are `secs`. */
  predicate Started(s: State, l: nat, secs: seq<nat>) {
    && Inv(s) && l < |s.lines| && s.lines[l].state == Gc && s.lines[l].held && s.lines[l].scanned == {}
    && (forall key :: key in s.gc ==> key.0 != l)
    && Distinct(secs) && Elems(secs) == ValidSecs(s.lines[l], s.secPerLine)
  }

  /** So it is after a safe start. */
  lemma Starting(s: State, l: nat, secs: seq<nat>)
    requires Inv(s) && l < |s.lines| && s.lines[l].state == Closed && NoInstalls(s, l)
    requires Distinct(secs) && Elems(secs) == ValidSecs(s.lines[l], s.secPerLine)
    ensures Started(GcStartStep(s, l), l, secs)
  {
    hide RingOk, MapOk, SlotsOk, Counts, Owned, HalfOk, Quiet, Tended, NoInstalls;
    assert LineOk(s.lines[l], s.secPerLine, |s.trans|);
    GcStartKeeps(s, l);
  }

  /** The address the end metadata of `l` names for sector `p`. */
  predicate Names(s: State, l: nat, p: nat, a: nat) {
    l < |s.lines| && p in s.lines[l].lbas && s.lines[l].lbas[p] == Some(a)
  }

  /** Every valid sector of a line in GC names an address. */
  lemma Named(s: State, l: nat, p: nat)
    requires Inv(s) && l < |s.lines| && s.lines[l].state == Gc && p in ValidSecs(s.lines[l], s.secPerLine)
    ensures p in s.lines[l].lbas && s.lines[l].lbas[p].Some? && Readable(s, s.lines[l].lbas[p].value)
  {
    assert LineOk(s.lines[l], s.secPerLine, |s.trans|);
  }

  // ---------------------------------------------------------------- nothing comes back into a victim

  /** Line `l` is in GC or free, with the lba list it had. */
  predicate Ending(s: State, t: State, l: nat) {
    l < |s.lines| && l < |t.lines| && t.lines[l].lbas == s.lines[l].lbas && (t.lines[l].state == Gc || t.lines[l].state == Free)
  }

  lemma NotOpenFull(t: State, l: nat)
    requires LinesOk(t.secPerLine, |t.trans|, t.lines) && l < |t.lines| && t.lines[l].state != Open
    ensures t.lines[l].next == |t.lines[l].secs|
  {
    assert LineOk(t.lines[l], t.secPerLine, |t.trans|);
  }

  lemma L2pEnding(t: State, l: nat)
    requires L2pReady(t) && Ending(t, t, l)
    ensures Ending(t, L2pStep(t), l)
  {
    RetiredLine(t);
  }

  lemma RemapEnding(t: State, a: nat, q: Ppa, l: nat)
    requires Mapped(t, a) && Ending(t, t, l)
    ensures Ending(t, Remap(t, a, q), l)
  {
  }

  lemma EndingStep(t: State, op: Op, l: nat)
    requires LinesOk(t.secPerLine, |t.trans|, t.lines) && Enabled(t, op) && Ending(t, t, l) && !(op.Replace? && op.line == l)
    ensures Ending(t, Step(t, op), l)
  {
    hide LinesOk;
    NotOpenFull(t, l);
    match op
    case Publish(k, a, d) => RemapEnding(t, a, Cached(Wrap(k, |t.ring|)), l);
    case Discard(a) => RemapEnding(t, a, Empty, l);
    case L2pOne => L2pEnding(t, l);
    case _ =>
  }

  lemma L2pBack(t: State, l: nat, b: nat, p: nat)
    requires Inv(t) && L2pReady(t) && Ending(t, t, l) && b < |t.trans| && t.trans[b] != Media(l, p)
    ensures b < |L2pStep(t).trans| && L2pStep(t).trans[b] != Media(l, p)
  {
    hide Core, HalfOk, Quiet, Tended;
    InvLive(t);
  }

  /** An entry is installed into a line in use and not in GC. */
  lemma InvLive(t: State)
    requires Inv(t) && L2pReady(t)
    ensures t.lines[Slot(t.ring, t.l2p).ppa.line].state != Free
    ensures t.trans[Slot(t.ring, t.l2p).lba] == Cached(Wrap(t.l2p, |t.ring|)) ==> t.lines[Slot(t.ring, t.l2p).ppa.line].state != Gc
  {
    L2pLive(t);
    if t.trans[Slot(t.ring, t.l2p).lba] == Cached(Wrap(t.l2p, |t.ring|)) { L2pAlive(t); }
  }

  /** No safe step maps an address into a line in GC or free. */
  lemma NoneBack(t: State, op: Op, l: nat, b: nat, p: nat)
    requires Inv(t) && Enabled(t, op) && Ending(t, t, l) && b < |t.trans| && t.trans[b] != Media(l, p)
    ensures b < |Step(t, op).trans| && Step(t, op).trans[b] != Media(l, p)
  {
    hide Inv;
    if op.L2pOne? { L2pBack(t, l, b, p); }
  }

  // ---------------------------------------------------------------- no sector alone in its batch is mapped

  /** Address `a` is read for a sector of the scan that names it, or a user takes it away in time. */
  predicate Saved(s: State, l: nat, secs: seq<nat>, max: nat, a: nat)
    requires max > 0 && Sized(s)
  {
    (exists q :: q in secs && !Alone(secs, max, q) && Names(s, l, q, a)) || WrittenOver(s, l, a)
  }

  /** Sectors alone in their batch hold no address that is not saved otherwise. */
  predicate NoneAlone(s: State, l: nat, secs: seq<nat>, max: nat)
    requires max > 0 && Sized(s) && l < |s.lines|
  {
    forall p, a :: p in secs && Alone(secs, max, p) && 0 <= a < |s.trans| && Names(s, l, p, a) && s.trans[a] == Media(l, p) ==>
      Saved(s, l, secs, max, a)
  }

  /** Along a safe run the lba list stays, what does not map into the line never will, and users still write over what does. */
  predicate Settling(s: State, t: State, l: nat) {
    && Sized(s) && Sized(t) && Ending(s, t, l) && |t.trans| == |s.trans|
    && (forall b, p :: 0 <= b < |s.trans| && p in s.lines[l].lbas && s.trans[b] != Media(l, p) ==> t.trans[b] != Media(l, p))
    && (forall b :: 0 <= b < |s.trans| && WrittenOver(s, l, b) && LiesIn(t.trans, b, l) ==> WrittenOver(t, l, b))
  }

  /** What stays in a line in GC or free was there before. */
  lemma LayBefore(t: State, op: Op, l: nat, b: nat)
    requires Inv(t) && Enabled(t, op) && Ending(t, t, l) && b < |t.trans| && LiesIn(Step(t, op).trans, b, l)
    ensures t.trans[b] == Step(t, op).trans[b]
  {
    hide Inv, Enabled, Step;
    var q := Step(t, op).trans[b];
    if t.trans[b] != q { NoneBack(t, op, l, b, q.sec); }
  }

  lemma InvHalf(t: State)
    requires Inv(t)
    ensures Pointers(t) && HalfOk(t)
  {
  }

  lemma SlotEntries(t: State, k: nat, e: Entry, t': State)
    requires Pointers(t) && Sized(t') && t.l2p <= k < t.mem && t'.ring == t.ring[Wrap(k, |t.ring|) := e]
    requires k < t.subm ==> e.ppa == Slot(t.ring, k).ppa
    requires t'.l2p == t.l2p && t.subm <= t'.subm && HalfOk(t)
    ensures SameEntries(t, t')
  {
    UpdateSlot(t.ring, t'.ring, t.l2p, k, e);
    UsersStay(t);
  }

  lemma L2pEntries(t: State)
    requires Pointers(t) && L2pReady(t) && HalfOk(t) && (t.l2p in t.half ==> !Due(t.half[t.l2p], t.trans, t.gc))
    ensures SameEntries(t, L2pStep(t))
  {
    L2pSlots(t);
    UsersStay(t);
  }

  /** The steps that leave the ring alone. */
  lemma OtherEntries(t: State, op: Op)
    requires Pointers(t) && HalfOk(t) && Enabled(t, op)
    requires !op.Fill? && !op.GcFill? && !op.MapEntry? && !op.Program? && !op.L2pOne?
    ensures Sized(Step(t, op)) && SameEntries(t, Step(t, op))
  {
    hide HalfOk;
    UsersStay(t);
  }

  /** No safe step moves an entry that stays or leaves a user behind. */
  lemma EntriesStep(t: State, op: Op)
    requires Pointers(t) && HalfOk(t) && Enabled(t, op) && Safe(t, op)
    ensures Sized(Step(t, op)) && SameEntries(t, Step(t, op))
  {
    hide HalfOk, SameEntries;
    match op
    case Fill(k, a, d) => SlotEntries(t, k, Entry(Written, a, Empty, d, false), Step(t, op));
    case GcFill(k, l, p) => SlotEntries(t, k, Entry(Written, t.gc[(l, p)].lba, Empty, t.gc[(l, p)].data, false), Step(t, op));
    case MapEntry => SlotEntries(t, t.subm, Step(t, op).ring[Wrap(t.subm, |t.ring|)], Step(t, op));
    case Program(k) => SlotEntries(t, k, Slot(t.ring, k).(done := true), Step(t, op));
    case L2pOne => L2pEntries(t);
    case _ => OtherEntries(t, op);
  }

  /** Only a map update takes a user's writer away, and with it the address. */
  lemma WritersStay(t: State, op: Op, l: nat, a: nat, j: nat)
    requires Sized(t) && HalfOk(t) && Enabled(t, op) && LiesIn(Step(t, op).trans, a, l) && j in t.half && t.half[j].User? && t.half[j].lba == a
    ensures j in Step(t, op).half && Step(t, op).half[j] == t.half[j]
  {
    hide HalfOk;
    if op.Reserve? || op.Fill? || op.GcFill? || op.Publish? || op.GcPublish? {
      NotUnfilled(t, j);
    } else {
      hide Enabled, Step;
      SameWriting(t, op);
    }
  }

  lemma NotUnfilled(t: State, j: nat)
    requires Sized(t) && HalfOk(t) && j in t.half
    ensures j !in t.unfilled
  {
  }

  lemma OverStays(t: State, op: Op, l: nat, a: nat)
    requires Inv(t) && Enabled(t, op) && Safe(t, op) && WrittenOver(t, l, a) && LiesIn(Step(t, op).trans, a, l)
    ensures Sized(Step(t, op)) && WrittenOver(Step(t, op), l, a)
  {
    hide Inv, Enabled, Safe, Step, WrittenOver, HalfOk;
    InvHalf(t);
    EntriesStep(t, op);
    forall j | j in t.half && t.half[j].User? && t.half[j].lba == a ensures j in Step(t, op).half && Step(t, op).half[j] == t.half[j] {
      WritersStay(t, op, l, a, j);
    }
    OverFrame(t, Step(t, op), l, a);
  }

  lemma SettlingStep(s: State, t: State, op: Op, l: nat)
    requires Inv(t) && Enabled(t, op) && Safe(t, op) && Settling(s, t, l) && !(op.Replace? && op.line == l)
    ensures Settling(s, Step(t, op), l)
  {
    StepSize(t, op);
    EndingStep(t, op, l);
    InvHalf(t);
    EntriesStep(t, op);
    forall b, p | 0 <= b < |s.trans| && p in s.lines[l].lbas && s.trans[b] != Media(l, p) ensures Step(t, op).trans[b] != Media(l, p) {
      NoneBack(t, op, l, b, p);
    }
    forall b | 0 <= b < |s.trans| && WrittenOver(s, l, b) && LiesIn(Step(t, op).trans, b, l) ensures WrittenOver(Step(t, op), l, b) {
      LayBefore(t, op, l, b);
      OverStays(t, op, l, b);
    }
  }

  // ---------------------------------------------------------------- what has been read is in hand or gone

  /** What the scan steps `scans` have read is in hand as long as it lies in the line. */
  ghost predicate Traced(s: State, t: State, l: nat, scans: seq<Op>) {
    forall q, a :: GcRead(l, q) in scans && Names(s, l, q, a) && LiesIn(t.trans, a, l) ==> Copied(t.gc, l, a)
  }

  /** An item is dropped only with its address gone from the victim. */
  lemma CopiedStays(t: State, op: Op, l: nat, a: nat)
    requires Inv(t) && Enabled(t, op) && Copied(t.gc, l, a) && LiesIn(Step(t, op).trans, a, l)
    ensures Copied(Step(t, op).gc, l, a)
  {
    hide Inv, Enabled, Step;
    var key :| key in t.gc && key.0 == l && t.gc[key].lba == a;
    if op.GcRead? {
      ReadStays(t, op, key);
    } else if op.GcPublish? {
      PublishStays(t, op, key);
    } else {
      SameItems(t, op);
    }
  }

  lemma ReadStays(t: State, op: Op, key: (nat, nat))
    requires Inv(t) && op.GcRead? && Enabled(t, op) && key in t.gc
    ensures key in Step(t, op).gc && Step(t, op).gc[key] == t.gc[key]
  {
    hide Core, HalfOk, Quiet, Tended;
    CoreGc(t);
  }

  lemma PublishStays(t: State, op: Op, key: (nat, nat))
    requires op.GcPublish? && Enabled(t, op) && key in t.gc && LiesIn(Step(t, op).trans, t.gc[key].lba, key.0)
    ensures key in Step(t, op).gc && Step(t, op).gc[key] == t.gc[key]
  {
  }

  lemma ReadCopies(t: State, l: nat, q: nat, a: nat)
    requires CanScan(t, l, q) && Names(t, l, q, a) && LiesIn(t.trans, a, l)
    ensures Copied(GcReadStep(t, l, q).gc, l, a)
  {
    assert (l, q) in GcReadStep(t, l, q).gc;
  }

  lemma TracedStep(s: State, t: State, op: Op, l: nat, scans: seq<Op>)
    requires Inv(t) && Enabled(t, op) && Settling(s, t, l) && Traced(s, t, l, scans)
    ensures Traced(s, Step(t, op), l, scans + if (op.GcRead? || op.GcSkip?) && op.line == l then [op] else [])
  {
    var t' := Step(t, op);
    StepSize(t, op);
    var scans' := scans + if (op.GcRead? || op.GcSkip?) && op.line == l then [op] else [];
    forall q, a | GcRead(l, q) in scans' && Names(s, l, q, a) && LiesIn(t'.trans, a, l) ensures Copied(t'.gc, l, a) {
      hide Inv, Step, Enabled;
      LayBefore(t, op, l, a);
      if GcRead(l, q) in scans {
        CopiedStays(t, op, l, a);
      } else {
        ReadNow(t, op, l, q, a);
      }
    }
  }

  lemma ReadNow(t: State, op: Op, l: nat, q: nat, a: nat)
    requires op == GcRead(l, q) && Enabled(t, op) && Names(t, l, q, a) && LiesIn(t.trans, a, l)
    ensures Copied(Step(t, op).gc, l, a)
  {
    ReadCopies(t, l, q, a);
  }

  /** When the sector `p` alone in its batch is passed over, all that is read has been. */
  lemma ReadBefore(l: nat, secs: seq<nat>, max: nat, p: nat, q: nat, i: nat)
    requires max > 0 && Distinct(secs) && i < |ScanOps(l, secs, max)| && ScanOps(l, secs, max)[i] == GcSkip(l, p)
    requires Alone(secs, max, p) && q in secs && !Alone(secs, max, q)
    ensures GcRead(l, q) in ScanOps(l, secs, max)[..i]
  {
    hide ScanOps;
    var ops := ScanOps(l, secs, max);
    ScanOpsAre(l, secs, max);
    assert ScanStep(ops[i], l, secs[i]);
    var j :| 0 <= j < |secs| && secs[j] == q;
    assert ScanStep(ops[j], l, secs[j]);
    if ops[j] == GcSkip(l, q) { SkipsAre(l, secs, max, q); }
    assert secs[|secs| - 1] == p && i == |secs| - 1;
    assert ops[..i][j] == GcRead(l, q);
  }

  /** A sector passed over holds no address that is lost. */
  lemma SkipSafe(s: State, t: State, l: nat, p: nat, secs: seq<nat>, max: nat, i: nat)
    requires max > 0 && Started(s, l, secs) && Sized(s) && NoneAlone(s, l, secs, max) && Settling(s, t, l)
    requires i < |ScanOps(l, secs, max)| && ScanOps(l, secs, max)[i] == GcSkip(l, p) && Traced(s, t, l, ScanOps(l, secs, max)[..i])
    requires CanScan(t, l, p) && Alone(secs, max, p)
    ensures Skippable(t, l, p)
  {
    hide Inv, ScanOps, WrittenOver;
    Named(s, l, p);
    var a := t.lines[l].lbas[p].value;
    if t.trans[a] == Media(l, p) && !WrittenOver(s, l, a) {
      assert s.trans[a] == Media(l, p) && Names(s, l, p, a);
      var q :| q in secs && !Alone(secs, max, q) && Names(s, l, q, a);
      ReadBefore(l, secs, max, p, q, i);
    }
  }

  lemma StartSettling(s: State, l: nat, secs: seq<nat>)
    requires Started(s, l, secs)
    ensures Inv(s) && Settling(s, s, l) && Traced(s, s, l, [])
  {
  }

  /** Every run as coded is safe, if no sector alone in its batch holds an address that is lost. */
  lemma {:induction false} CodedSafe(s: State, r: Run, l: nat, secs: seq<nat>, max: nat)
    requires max > 0 && Sized(s) && Started(s, l, secs) && NoneAlone(s, l, secs, max) && AsCoded(s, r, l, secs, max)
    ensures RunTo(s, r).Some? && RunTo(s, r) == Goes(s, r) && Inv(RunTo(s, r).value)
    ensures Settling(s, RunTo(s, r).value, l) && Traced(s, RunTo(s, r).value, l, ScansOf(r, l))
  {
    hide Inv, Settling, AsCoded, NoneAlone, Traced;
    StartSettling(s, l, secs);
    if r.Then? {
      Prefix(s, r, l, secs, max);
      CodedSafe(s, r.prev, l, secs, max);
      var t := RunTo(s, r.prev).value;
      if r.op.GcSkip? && r.op.line == l {
        SkipsAre(l, secs, max, r.op.sec);
        SkipSafe(s, t, l, r.op.sec, secs, max, |ScansOf(r.prev, l)|);
      }
      StepKeeps(t, r.op);
      SettlingStep(s, t, r.op, l);
      TracedStep(s, t, r.op, l, ScansOf(r.prev, l));
    }
  }

  lemma Prefix(s: State, r: Run, l: nat, secs: seq<nat>, max: nat)
    requires max > 0 && AsCoded(s, r, l, secs, max) && r.Then?
    ensures AsCoded(s, r.prev, l, secs, max) && Goes(s, r.prev).Some? && Enabled(Goes(s, r.prev).value, r.op)
    ensures !(r.op.Replace? && r.op.line == l) && ((r.op.GcSkip? && r.op.line == l) || Safe(Goes(s, r.prev).value, r.op))
    ensures r.op.GcSkip? && r.op.line == l ==>
      var i := |ScansOf(r.prev, l)|;
      i < |ScanOps(l, secs, max)| && ScanOps(l, secs, max)[i] == r.op && ScansOf(r.prev, l) == ScanOps(l, secs, max)[..i]
  {
    var ops := ScanOps(l, secs, max);
    assert ScansOf(r.prev, l) <= ScansOf(r, l);
    if r.op.GcSkip? && r.op.line == l {
      assert ScansOf(r, l)[|ScansOf(r, l)| - 1] == r.op;
      assert ops[|ScansOf(r, l)| - 1] == r.op;
    }
  }

  // ---------------------------------------------------------------- a mapped sector alone in its batch

  /** A run as coded so far. */
  predicate Coding(s: State, r: Run, t: State, l: nat, scans: seq<Op>) {
    Goes(s, r) == Some(t) && SafeButSkips(s, r, l) && NotReplaced(r, l) && ScansOf(r, l) == scans
  }

  lemma CodeOn(s: State, r: Run, t: State, op: Op, l: nat, scans: seq<Op>)
    requires Coding(s, r, t, l, scans) && Enabled(t, op) && Safe(t, op) && !op.Replace? && !op.GcRead? && !op.GcSkip?
    ensures Coding(s, Then(r, op), Step(t, op), l, scans)
  {
    assert scans + [] == scans;
  }

  lemma CodeScan(s: State, r: Run, t: State, op: Op, l: nat, scans: seq<Op>)
    requires Coding(s, r, t, l, scans) && (op.GcRead? || op.GcSkip?) && op.line == l && Enabled(t, op)
    ensures Coding(s, Then(r, op), Step(t, op), l, scans + [op])
  {
  }

  /** GC has the line `m` as `l` and nothing of it in hand; address `a` maps to its sector `p`. */
  predicate Keeps(t: State, l: nat, m: Line, a: nat, p: nat) {
    && Inv(t) && l < |t.lines| && t.lines[l] == m && m.state == Gc && m.held
    && (forall key :: key in t.gc ==> key.0 != l) && a < |t.trans| && t.trans[a] == Media(l, p)
  }

  lemma UserSpares(t: State, l: nat, m: Line, a: nat, p: nat, k: nat)
    requires Keeps(t, l, m, a, p) && k in t.half && t.half[k].User? && t.half[k].lba != a
    ensures var b, d := t.half[k].lba, t.half[k].data;
      Enabled(t, Publish(k, b, d)) && Keeps(PublishStep(t, k, b), l, m, a, p) && PublishStep(t, k, b).half == t.half - {k} && SameRing(t, PublishStep(t, k, b))
  {
    hide Core, HalfOk, Quiet, Tended;
    UserPublished(t, k);
    PublishKeeps(t, k, t.half[k].lba, t.half[k].data);
    RemapPadded(t, t.half[k].lba, Cached(Wrap(k, |t.ring|)), l);
  }

  lemma CollectorSpares(t: State, l: nat, m: Line, a: nat, p: nat, k: nat)
    requires Keeps(t, l, m, a, p) && k in t.half && t.half[k].Collector?
    ensures var n, q := t.half[k].line, t.half[k].sec;
      Enabled(t, GcPublish(k, n, q)) && Keeps(GcPublishStep(t, k, n, q), l, m, a, p) && GcPublishStep(t, k, n, q).half == t.half - {k} && SameRing(t, GcPublishStep(t, k, n, q))
  {
    hide Core, HalfOk, Quiet, Tended;
    CollectorPublished(t, k, t.half[k].line, t.half[k].sec);
    GcPublishKeeps(t, k, t.half[k].line, t.half[k].sec);
  }

  /** The writers `todo` map what they filled; none writes `a`. */
  lemma {:induction false} PublishEach(s: State, run: Run, t: State, l: nat, m: Line, a: nat, p: nat, todo: set<nat>) returns (r: Run, t': State)
    requires Coding(s, run, t, l, []) && Keeps(t, l, m, a, p) && todo <= t.half.Keys && Spares(t.half, todo, a)
    ensures Coding(s, r, t', l, []) && Keeps(t', l, m, a, p) && t'.half == t.half - todo && SameRing(t, t')
    decreases todo
  {
    hide Coding, Keeps;
    if todo == {} {
      r, t' := run, t;
      assert t.half - todo == t.half;
    } else {
      var k :| k in todo;
      var u := t;
      if t.half[k].User? {
        UserSpares(t, l, m, a, p, k);
        CodeOn(s, run, t, Publish(k, t.half[k].lba, t.half[k].data), l, []);
        r, u := Then(run, Publish(k, t.half[k].lba, t.half[k].data)), PublishStep(t, k, t.half[k].lba);
      } else {
        CollectorSpares(t, l, m, a, p, k);
        CodeOn(s, run, t, GcPublish(k, t.half[k].line, t.half[k].sec), l, []);
        r, u := Then(run, GcPublish(k, t.half[k].line, t.half[k].sec)), GcPublishStep(t, k, t.half[k].line, t.half[k].sec);
      }
      r, t' := PublishEach(s, r, u, l, m, a, p, todo - {k});
      assert t.half - todo == (t.half - {k}) - (todo - {k});
    }
  }

  lemma DiscardSpares(t: State, l: nat, m: Line, a: nat, p: nat, b: nat)
    requires Keeps(t, l, m, a, p) && b < |t.trans| && b != a
    ensures Enabled(t, Discard(b)) && Keeps(Remap(t, b, Empty), l, m, a, p) && SameRing(t, Remap(t, b, Empty))
  {
    hide Core, HalfOk, Quiet, Tended;
    InvDrop(t, b);
    UnmapKeeps(t, b);
    RemapPadded(t, b, Empty, l);
  }

  lemma InvDrop(t: State, b: nat)
    requires Inv(t) && b < |t.trans|
    ensures Sized(t) && Mapped(t, b)
  {
    DropGuard(t, b);
  }

  /** Users discard the addresses `todo`, `a` not among them. */
  lemma {:induction false} DiscardEach(s: State, run: Run, t: State, l: nat, m: Line, a: nat, p: nat, todo: set<nat>) returns (r: Run, t': State)
    requires Coding(s, run, t, l, []) && Keeps(t, l, m, a, p) && a !in todo && forall b :: b in todo ==> b < |t.trans|
    ensures Coding(s, r, t', l, []) && Keeps(t', l, m, a, p) && t'.half == t.half && SameRing(t, t')
    ensures forall b :: 0 <= b < |t.trans| ==> t'.trans[b] == if b in todo then Empty else t.trans[b]
    decreases todo
  {
    hide Coding, Keeps;
    if todo == {} {
      r, t' := run, t;
    } else {
      var b :| b in todo;
      DiscardSpares(t, l, m, a, p, b);
      CodeOn(s, run, t, Discard(b), l, []);
      r, t' := DiscardEach(s, Then(run, Discard(b)), Remap(t, b, Empty), l, m, a, p, todo - {b});
    }
  }

  // ---------------------------------------------------------------- the victim without the address

  /** `v` is `u` but for address `a`, which maps to `q` and in `u` to nothing. */
  predicate Astray(u: State, v: State, a: nat, q: Ppa) {
    a < |u.trans| && u.trans[a] == Empty && v == u.(trans := u.trans[a := q])
  }

  lemma BeginAstray(t: State, l: nat, m: Line, a: nat, p: nat)
    requires Keeps(t, l, m, a, p)
    ensures Mapped(t, a) && Inv(Remap(t, a, Empty)) && Astray(Remap(t, a, Empty), t, a, Media(l, p)) && Remap(t, a, Empty).lines == t.lines
  {
    hide Core, HalfOk, Quiet, Tended;
    InvDrop(t, a);
    UnmapKeeps(t, a);
    assert t.lines[l := t.lines[l]] == t.lines;
    assert t.trans[a := Empty][a := Media(l, p)] == t.trans;
  }

  /** Every entry mapped to `l` is before position `hi`, and no writer is still to map an entry up to there. */
  predicate Past(u: State, l: nat, hi: nat) {
    Sized(u) && (forall j :: j in u.half ==> hi <= j) && forall k :: k in MappedTo(u.ring, u.l2p, u.subm, l) ==> k < hi
  }

  /** `u` and `v` with sectors `done` of the victim `m` looked at, and nothing in `u` mapped there. */
  predicate Scanned(u: State, v: State, l: nat, m: Line, a: nat, p: nat, done: set<nat>, hi: nat) {
    && Inv(u) && Astray(u, v, a, Media(l, p)) && Past(u, l, hi) && NoneMapped(u.trans, l) && (l, p) in u.media
    && l < |u.lines| && u.lines[l] == m.(scanned := done) && m.state == Gc && m.held && m.pads == 0
    && (forall key :: key in u.gc ==> key.0 != l)
  }

  predicate ScanStep(op: Op, l: nat, q: nat) {
    op == GcRead(l, q) || op == GcSkip(l, q)
  }

  lemma CanScanAstray(u: State, v: State, l: nat, a: nat, p: nat, q: nat)
    requires Inv(u) && Astray(u, v, a, Media(l, p)) && ToScan(u, l, q) && (l, p) in u.media
    ensures Sized(u) && CanScan(u, l, q) && CanScan(v, l, q)
  {
    ScanGuard(u, l, q);
  }

  /** One scan step: whichever it is, nothing is handed on. */
  lemma ScanAstray(u: State, v: State, l: nat, m: Line, a: nat, p: nat, done: set<nat>, hi: nat, op: Op, q: nat)
    requires Scanned(u, v, l, m, a, p, done, hi) && ScanStep(op, l, q)
    requires q in ValidSecs(m, u.secPerLine) && q !in done && (op.GcRead? ==> !Names(u, l, q, a))
    ensures Enabled(v, op) && Scanned(GcSkipStep(u, l, q), Step(v, op), l, m, a, p, done + {q}, hi)
  {
    hide Core, HalfOk, Quiet, Tended;
    CanScanAstray(u, v, l, a, p, q);
    GcSkipKeeps(u, l, q);
    SameScan(u, v, l, a, p, op, q);
  }

  lemma SameScan(u: State, v: State, l: nat, a: nat, p: nat, op: Op, q: nat)
    requires Astray(u, v, a, Media(l, p)) && Sized(u) && CanScan(u, l, q) && CanScan(v, l, q) && NoneMapped(u.trans, l)
    requires ScanStep(op, l, q) && (op.GcRead? ==> !Names(u, l, q, a))
    ensures Enabled(v, op) && Astray(GcSkipStep(u, l, q), Step(v, op), a, Media(l, p))
  {
  }

  /** The scan step of each sector, in order. */
  predicate StepsOf(ops: seq<Op>, l: nat, secs: seq<nat>) {
    |ops| == |secs| && forall i :: 0 <= i < |secs| ==> ScanStep(ops[i], l, secs[i])
  }

  lemma {:induction false} ScanOpsAre(l: nat, secs: seq<nat>, max: nat)
    requires max > 0
    ensures StepsOf(ScanOps(l, secs, max), l, secs)
    decreases |secs|
  {
    if secs != [] {
      var k := if |secs| > max then max else |secs|;
      ScanOpsAre(l, secs[k..], max);
      JoinSteps(BatchOps(l, secs[..k]), secs[..k], ScanOps(l, secs[k..], max), secs[k..], l);
      assert secs == secs[..k] + secs[k..];
    }
  }

  lemma JoinSteps(ops: seq<Op>, secs: seq<nat>, more: seq<Op>, rest: seq<nat>, l: nat)
    requires StepsOf(ops, l, secs) && StepsOf(more, l, rest)
    ensures StepsOf(ops + more, l, secs + rest)
  {
  }

  /** What is left of the scan reads no sector that names `a`. */
  predicate Passes(m: Line, ops: seq<Op>, l: nat, secs: seq<nat>, a: nat) {
    && StepsOf(ops, l, secs) && Distinct(secs)
    && forall i :: 0 <= i < |secs| && ops[i].GcRead? ==> !(secs[i] in m.lbas && m.lbas[secs[i]] == Some(a))
  }

  lemma {:induction false} ScanEach(s: State, run: Run, u: State, v: State, l: nat, m: Line, a: nat, p: nat, ops: seq<Op>, secs: seq<nat>, i: nat, hi: nat)
      returns (r: Run, u': State, v': State)
    requires i <= |secs| && Passes(m, ops, l, secs, a) && Elems(secs) <= ValidSecs(m, u.secPerLine)
    requires Coding(s, run, v, l, ops[..i]) && Scanned(u, v, l, m, a, p, Elems(secs[..i]), hi)
    ensures Coding(s, r, v', l, ops) && Scanned(u', v', l, m, a, p, Elems(secs), hi) && u'.secPerLine == u.secPerLine
    decreases |secs| - i
  {
    hide Coding, Inv;
    if i == |secs| {
      assert ops[..i] == ops && secs[..i] == secs;
      r, u', v' := run, u, v;
    } else {
      var q := secs[i];
      assert ops[..i + 1] == ops[..i] + [ops[i]] && secs[..i + 1] == secs[..i] + [q];
      assert Elems(secs[..i + 1]) == Elems(secs[..i]) + {q} && q in Elems(secs);
      ScanAstray(u, v, l, m, a, p, Elems(secs[..i]), hi, ops[i], q);
      CodeScan(s, run, v, ops[i], l, ops[..i]);
      r, u', v' := ScanEach(s, Then(run, ops[i]), GcSkipStep(u, l, q), Step(v, ops[i]), l, m, a, p, ops, secs, i + 1, hi);
    }
  }

  // ---------------------------------------------------------------- freeing it

  /** GC has put the victim, which is free or has references of entries still in the ring. */
  predicate Draining(u: State, v: State, l: nat, a: nat, q: Ppa, hi: nat) {
    && Inv(u) && Astray(u, v, a, q) && Past(u, l, hi) && l < |u.lines|
    && (u.lines[l].state == Free || (u.lines[l].state == Gc && !u.lines[l].held && u.lines[l].pads == 0 && u.lines[l].refs > 0))
  }

  lemma PutAstray(u: State, v: State, l: nat, m: Line, a: nat, p: nat, hi: nat)
    requires Scanned(u, v, l, m, a, p, ValidSecs(m, u.secPerLine), hi) && m.refs > 0
    ensures l < |u.lines| && Enabled(v, GcPut(l)) && Draining(GcPutStep(u, l), GcPutStep(v, l), l, a, Media(l, p), hi)
  {
    hide Core, HalfOk, Quiet, Tended;
    InvDrop(u, a);
    GcPutKeeps(u, l);
  }

  /** An entry still holds a reference, so the ring can be drained further. */
  lemma RefsLeft(u: State, l: nat)
    requires Inv(u) && l < |u.lines| && u.lines[l].state == Gc && !u.lines[l].held && u.lines[l].pads == 0 && u.lines[l].refs > 0
    ensures L2pReady(u) && MappedTo(u.ring, u.l2p, u.subm, l) != {}
  {
    assert LineOk(u.lines[l], u.secPerLine, |u.trans|);
    var mapped := MappedTo(u.ring, u.l2p, u.subm, l);
    assert |mapped| > 0;
    var k :| k in mapped;
    assert MappedTo(u.ring, u.sync, u.subm, l) == {} && k !in MappedTo(u.ring, u.sync, u.subm, l);
    L2pEnabled(u);
  }

  lemma L2pAstray(u: State, v: State, a: nat, q: Ppa)
    requires L2pReady(u) && Astray(u, v, a, q) && q.Media?
    ensures L2pReady(v) && Astray(L2pStep(u), L2pStep(v), a, q)
  {
  }

  lemma PastStep(u: State, l: nat, hi: nat)
    requires Pointers(u) && L2pReady(u) && Past(u, l, hi) && MappedTo(u.ring, u.l2p, u.subm, l) != {}
    ensures u.l2p !in u.half && Past(L2pStep(u), l, hi)
  {
    var k :| k in MappedTo(u.ring, u.l2p, u.subm, l);
    MappedStep(u, l);
  }

  lemma L2pDraining(u: State, v: State, l: nat, a: nat, q: Ppa, hi: nat)
    requires Draining(u, v, l, a, q, hi) && u.lines[l].state != Free && q.Media?
    ensures L2pReady(u) && L2pReady(v) && v.l2p !in v.half && Draining(L2pStep(u), L2pStep(v), l, a, q, hi)
  {
    hide Core, HalfOk, Quiet, Tended, Past;
    RefsLeft(u, l);
    InvHalf(u);
    PastStep(u, l, hi);
    L2pAstray(u, v, a, q);
    L2pKeeps(u);
    RetiredLine(u);
  }

  lemma {:induction false} DrainEach(s: State, run: Run, u: State, v: State, l: nat, a: nat, q: Ppa, scans: seq<Op>, hi: nat) returns (r: Run, v': State)
    requires Coding(s, run, v, l, scans) && Draining(u, v, l, a, q, hi) && q.Media? && q.line == l
    ensures Coding(s, r, v', l, scans) && FreedUnder(v', l)
    decreases u.sync - u.l2p
  {
    hide Coding, Inv;
    if u.lines[l].state == Free {
      r, v' := run, v;
      assert v.trans[a] == q;
    } else {
      L2pDraining(u, v, l, a, q, hi);
      CodeOn(s, run, v, L2pOne, l, scans);
      r, v' := DrainEach(s, Then(run, L2pOne), L2pStep(u), L2pStep(v), l, a, q, scans, hi);
    }
  }

  // ---------------------------------------------------------------- the condition is exact

  lemma {:induction false} AloneSkips(l: nat, secs: seq<nat>, max: nat, p: nat)
    requires max > 0 && Alone(secs, max, p)
    ensures GcSkip(l, p) in ScanOps(l, secs, max)
    decreases |secs|
  {
    var k := if |secs| > max then max else |secs|;
    if max == 1 && p != secs[0] {
      assert p in secs[1..];
      AloneSkips(l, secs[k..], max, p);
    } else if max > 1 && |secs| > max {
      AloneRest(secs, max, p);
      AloneSkips(l, secs[k..], max, p);
    } else {
      if max > 1 { OneLeft(|secs|, max); }
      assert secs[..k] == [p] && BatchOps(l, secs[..k]) == [GcSkip(l, p)];
    }
  }

  lemma OneLeft(n: nat, max: nat)
    requires 1 < max && n <= max && n % max == 1
    ensures n == 1
  {
    if n < max { Stripes.SmallMod(n, max); } else { Stripes.ModAdd(0, max); }
  }

  /** A sector alone in its batch is not read. */
  lemma AloneUnread(l: nat, secs: seq<nat>, max: nat, i: nat)
    requires max > 0 && Distinct(secs) && i < |secs| && Alone(secs, max, secs[i])
    ensures |ScanOps(l, secs, max)| == |secs| && ScanOps(l, secs, max)[i] == GcSkip(l, secs[i])
  {
    var ops := ScanOps(l, secs, max);
    ScanOpsAre(l, secs, max);
    AloneSkips(l, secs, max, secs[i]);
    var j :| 0 <= j < |ops| && ops[j] == GcSkip(l, secs[i]);
    assert ScanStep(ops[j], l, secs[j]);
  }

  /** If only sectors alone in their batch name the address, it is not read. */
  lemma AlonePasses(s: State, l: nat, secs: seq<nat>, max: nat, a: nat)
    requires max > 0 && Distinct(secs) && l < |s.lines|
    requires forall q :: q in secs && Names(s, l, q, a) ==> Alone(secs, max, q)
    ensures Passes(s.lines[l], ScanOps(l, secs, max), l, secs, a)
  {
    var ops := ScanOps(l, secs, max);
    ScanOpsAre(l, secs, max);
    forall i | 0 <= i < |secs| && ops[i].GcRead? ensures !Names(s, l, secs[i], a) {
      if Names(s, l, secs[i], a) { AloneUnread(l, secs, max, i); }
    }
  }

  /** GC's own reference is counted. */
  lemma HeldRef(s: State, l: nat)
    requires Inv(s) && l < |s.lines| && s.lines[l].state == Gc && s.lines[l].held
    ensures s.lines[l].refs > 0
  {
  }

  /** Only `a` is left of what maps into the line; without it nothing is. */
  lemma OnlyLeft(trans: seq<Ppa>, trans': seq<Ppa>, l: nat, a: nat)
    requires |trans'| == |trans| && a < |trans|
    requires forall b :: 0 <= b < |trans| ==> trans'[b] == if b in MappedLbas(trans, l) - {a} then Empty else trans[b]
    ensures NoneMapped(trans'[a := Empty], l)
  {
  }

  lemma BeginScan(t: State, l: nat, m: Line, a: nat, p: nat, hi: nat)
    requires Keeps(t, l, m, a, p) && Past(t, l, hi) && m.scanned == {} && m.pads == 0 && NoneMapped(t.trans[a := Empty], l)
    ensures Mapped(t, a) && Scanned(Remap(t, a, Empty), t, l, m, a, p, {}, hi) && Remap(t, a, Empty).secPerLine == t.secPerLine
  {
    hide Core, HalfOk, Quiet, Tended;
    BeginAstray(t, l, m, a, p);
    StoredAt(t, l, a, p);
  }

  lemma StoredAt(t: State, l: nat, a: nat, p: nat)
    requires Inv(t) && a < |t.trans| && t.trans[a] == Media(l, p)
    ensures (l, p) in t.media
  {
  }

  /** GC has just started on `l`; sector `p`, alone in its batch, holds address `a`, and nothing saves it. */
  predicate Doomed(s: State, l: nat, secs: seq<nat>, max: nat, p: nat, a: nat)
    requires max > 0
  {
    && Sized(s) && Started(s, l, secs) && s.lines[l].pads == 0 && Alone(secs, max, p) && a < |s.trans| && s.trans[a] == Media(l, p)
    && !Saved(s, l, secs, max, a)
  }

  lemma DoomedKeeps(s: State, l: nat, secs: seq<nat>, max: nat, p: nat, a: nat)
    requires max > 0 && Doomed(s, l, secs, max, p, a)
    ensures l < |s.lines| && Keeps(s, l, s.lines[l], a, p) && Coding(s, Start, s, l, []) && s.lines[l].refs > 0
    ensures s.lines[l].scanned == {} && s.lines[l].pads == 0 && Elems(secs) == ValidSecs(s.lines[l], s.secPerLine)
    ensures !WrittenOver(s, l, a) && Passes(s.lines[l], ScanOps(l, secs, max), l, secs, a)
  {
    hide Core, HalfOk, Quiet, Tended;
    HeldRef(s, l);
    AlonePasses(s, l, secs, max, a);
  }

  /** A position past the last entry mapped to the line, and not further than that. */
  lemma Horizon(s: State, l: nat) returns (hi: nat)
    requires Sized(s)
    ensures forall k :: k in MappedTo(s.ring, s.l2p, s.subm, l) ==> k < hi
    ensures hi > 0 ==> hi - 1 in MappedTo(s.ring, s.l2p, s.subm, l)
  {
    hi := 0;
    if MappedTo(s.ring, s.l2p, s.subm, l) != {} {
      hi := MaxOf(MappedTo(s.ring, s.l2p, s.subm, l));
      hi := hi + 1;
    }
  }

  /** No user with an entry up to there writes an address that is not written over. */
  lemma SparesUpTo(s: State, l: nat, a: nat, hi: nat, j: nat)
    requires Sized(s) && Quiet(s) && l < |s.lines| && s.lines[l].state == Gc && !WrittenOver(s, l, a)
    requires hi > 0 ==> hi - 1 in MappedTo(s.ring, s.l2p, s.subm, l)
    requires j in s.half && j < hi && s.half[j].User?
    ensures s.half[j].lba != a
  {
    assert NoInstalls(s, l) && MapsTo(s.ring, hi - 1, l);
    assert !Overtaken(s.half, a, hi - 1);
  }

  /** The writers before position `hi`. */
  function UpTo(half: map<nat, Writer>, hi: nat): set<nat> {
    set j | j in half && j < hi
  }

  lemma WritersUpTo(s: State, l: nat, m: Line, a: nat, p: nat, hi: nat)
    requires Keeps(s, l, m, a, p) && Sized(s) && !WrittenOver(s, l, a) && (hi > 0 ==> hi - 1 in MappedTo(s.ring, s.l2p, s.subm, l))
    ensures Spares(s.half, UpTo(s.half, hi), a)
  {
    hide Core, HalfOk, Tended, WrittenOver, Quiet;
    forall j | j in s.half && j < hi && s.half[j].User? ensures s.half[j].lba != a {
      SparesUpTo(s, l, a, hi, j);
    }
  }

  /** Writers up to the last entry mapped to the victim map what they filled, and users discard what else lies in it. */
  lemma Clearing(s: State, l: nat, m: Line, a: nat, p: nat) returns (r: Run, t: State, hi: nat)
    requires l < |s.lines| && Sized(s) && Keeps(s, l, m, a, p) && Coding(s, Start, s, l, []) && !WrittenOver(s, l, a)
    ensures Coding(s, r, t, l, []) && Keeps(t, l, m, a, p) && Past(t, l, hi) && a < |t.trans| && NoneMapped(t.trans[a := Empty], l)
  {
    hide Coding, Inv, WrittenOver;
    hi := Horizon(s, l);
    WritersUpTo(s, l, m, a, p, hi);
    r, t := PublishEach(s, Start, s, l, m, a, p, UpTo(s.half, hi));
    var t0 := t;
    r, t := DiscardEach(s, r, t0, l, m, a, p, MappedLbas(t0.trans, l) - {a});
    OnlyLeft(t0.trans, t.trans, l, a);
    InvHalf(t);
  }

  lemma StepSecs(s: State, op: Op)
    requires Enabled(s, op)
    ensures Step(s, op).secPerLine == s.secPerLine
  {
  }

  lemma {:induction false} GoesSecs(s: State, r: Run)
    requires Goes(s, r).Some?
    ensures Goes(s, r).value.secPerLine == s.secPerLine
  {
    if r.Then? {
      GoesSecs(s, r.prev);
      StepSecs(Goes(s, r.prev).value, r.op);
    }
  }

  lemma CodedSecs(s: State, r: Run, t: State, l: nat, scans: seq<Op>)
    requires Coding(s, r, t, l, scans)
    ensures t.secPerLine == s.secPerLine
  {
    GoesSecs(s, r);
  }

  /** There is a run as coded that frees the line under the address. */
  lemma AloneLoses(s: State, l: nat, secs: seq<nat>, max: nat, p: nat, a: nat) returns (r: Run, w: State)
    requires max > 0 && Doomed(s, l, secs, max, p, a)
    ensures Coding(s, r, w, l, ScanOps(l, secs, max)) && FreedUnder(w, l)
  {
    DoomedSized(s, l, secs, max, p, a);
    hide Coding, Keeps, Scanned, Draining, Doomed, Passes, ScanOps, FreedUnder, StepsOf, Past, WrittenOver;
    DoomedKeeps(s, l, secs, max, p, a);
    var m, ops := s.lines[l], ScanOps(l, secs, max);
    var t, u, v, hi;
    r, t, hi := Clearing(s, l, m, a, p);
    CodedSecs(s, r, t, l, []);
    BeginScan(t, l, m, a, p, hi);
    assert ops[..0] == [] && secs[..0] == [] && Elems([]) == {};
    r, u, v := ScanEach(s, r, Remap(t, a, Empty), t, l, m, a, p, ops, secs, 0, hi);
    PutAstray(u, v, l, m, a, p, hi);
    CodeOn(s, r, v, GcPut(l), l, ops);
    r, w := DrainEach(s, Then(r, GcPut(l)), GcPutStep(u, l), GcPutStep(v, l), l, a, Media(l, p), ops, hi);
  }

  lemma DoomedSized(s: State, l: nat, secs: seq<nat>, max: nat, p: nat, a: nat)
    requires max > 0 && Doomed(s, l, secs, max, p, a)
    ensures Sized(s)
  {
  }

  /** No run in which GC scans `l` as the driver does frees it under an address. */
  ghost predicate Harmless(s: State, l: nat, secs: seq<nat>, max: nat)
    requires max > 0
  {
    forall r :: AsCoded(s, r, l, secs, max) && Goes(s, r).Some? ==> !FreedUnder(Goes(s, r).value, l)
  }

  lemma CodedHarmless(s: State, r: Run, l: nat, secs: seq<nat>, max: nat)
    requires max > 0 && Sized(s) && Started(s, l, secs) && NoneAlone(s, l, secs, max) && AsCoded(s, r, l, secs, max)
    ensures Goes(s, r).Some? && !FreedUnder(Goes(s, r).value, l)
  {
    hide Inv, Started, NoneAlone, AsCoded, Settling, Traced;
    CodedSafe(s, r, l, secs, max);
    InvNotFreed(Goes(s, r).value, l);
  }

  lemma InvNotFreed(s: State, l: nat)
    requires Inv(s)
    ensures !FreedUnder(s, l)
  {
  }

  lemma IsPadded(s: State, l: nat)
    requires Inv(s) && l < |s.lines| && s.lines[l].state == Gc && s.lines[l].pads > 0
    ensures RingOk(s) && Padded(s, l)
  {
    NotOpenFull(s, l);
  }

  /** A line with padding is not freed, whatever is passed over. */
  lemma PaddedHarmless(s: State, r: Run, l: nat)
    requires Inv(s) && l < |s.lines| && s.lines[l].state == Gc && s.lines[l].pads > 0 && Goes(s, r).Some?
    ensures !FreedUnder(Goes(s, r).value, l)
  {
    hide Inv, RingOk;
    IsPadded(s, l);
    NeverFreed(s, r, l);
  }

  lemma LosingRun(s: State, r: Run, w: State, l: nat, secs: seq<nat>, max: nat)
    requires max > 0 && Coding(s, r, w, l, ScanOps(l, secs, max)) && FreedUnder(w, l)
    ensures !Harmless(s, l, secs, max)
  {
    assert AsCoded(s, r, l, secs, max);
  }

  lemma NoneLost(s: State, l: nat, secs: seq<nat>, max: nat)
    requires max > 0 && Sized(s) && Started(s, l, secs) && (s.lines[l].pads > 0 || NoneAlone(s, l, secs, max))
    ensures Harmless(s, l, secs, max)
  {
    hide Inv, AsCoded, NoneAlone;
    forall r | AsCoded(s, r, l, secs, max) && Goes(s, r).Some? ensures !FreedUnder(Goes(s, r).value, l) {
      if s.lines[l].pads > 0 { PaddedHarmless(s, r, l); } else { CodedHarmless(s, r, l, secs, max); }
    }
  }

  /**
   The scan as coded frees no address's line if and only if the line has padding, or no sector alone in its batch still
   holds an address, except for addresses that are read for another sector or written over in time.
   */
  lemma ScanExact(s: State, l: nat, secs: seq<nat>, max: nat)
    requires max > 0 && Sized(s) && Started(s, l, secs)
    ensures Harmless(s, l, secs, max) <==> s.lines[l].pads > 0 || NoneAlone(s, l, secs, max)
  {
    hide Inv, AsCoded, Coding, ScanOps, Harmless, Saved;
    if s.lines[l].pads > 0 || NoneAlone(s, l, secs, max) {
      NoneLost(s, l, secs, max);
    } else {
      var p, a :| p in secs && Alone(secs, max, p) && 0 <= a < |s.trans| && Names(s, l, p, a) && s.trans[a] == Media(l, p) &&
        !Saved(s, l, secs, max, a);
      var r, w := AloneLoses(s, l, secs, max, p, a);
      LosingRun(s, r, w, l, secs, max);
    }
  }

  /** The sectors that hold their address, which nothing else saves. */
  function Needed(s: State, l: nat, secs: seq<nat>, max: nat): set<nat>
    requires max > 0 && Sized(s) && l < |s.lines|
  {
    set p | p in secs && p in s.lines[l].lbas && s.lines[l].lbas[p].Some? && s.lines[l].lbas[p].value < |s.trans| &&
            s.trans[s.lines[l].lbas[p].value] == Media(l, p) && !Saved(s, l, secs, max, s.lines[l].lbas[p].value)
  }

  lemma AloneIs(s: State, l: nat, secs: seq<nat>, max: nat)
    requires max > 0 && Sized(s) && l < |s.lines|
    ensures NoneAlone(s, l, secs, max) <==> GcScan.NoneAlone(secs, max, Needed(s, l, secs, max))
  {
    hide Saved;
    var live := Needed(s, l, secs, max);
    if NoneAlone(s, l, secs, max) {
      forall p | p in secs && Alone(secs, max, p) ensures p !in live { }
    } else {
      var p, a :| p in secs && Alone(secs, max, p) && 0 <= a < |s.trans| && Names(s, l, p, a) && s.trans[a] == Media(l, p) &&
        !Saved(s, l, secs, max, a);
      assert p in live;
    }
  }

  /** Put together: a scan is harmless exactly when the line has padding or it hands on every sector that needs it. */
  lemma HandsOnExact(s: State, l: nat, secs: seq<nat>, max: nat)
    requires max > 0 && Sized(s) && Started(s, l, secs)
    ensures var live := Needed(s, l, secs, max);
      Harmless(s, l, secs, max) <==> s.lines[l].pads > 0 || GcScan.HandedAll(secs, max, live) == GcScan.Live(secs, live)
  {
    hide Inv, Harmless, NoneAlone, Needed;
    ScanExact(s, l, secs, max);
    AloneIs(s, l, secs, max);
    GcScan.HandsOnAll(secs, max, Needed(s, l, secs, max));
  }

  /** Bitmap `b` has the invalid sectors of line `l` set. */
  predicate IsBitmap(s: State, l: nat, b: seq<bool>)
    requires l < |s.lines|
  {
    |b| == s.secPerLine && forall p :: 0 <= p < |b| ==> (b[p] <==> p in s.lines[l].invalid)
  }

  lemma ScanOrder(s: State, l: nat, b: seq<bool>)
    requires l < |s.lines| && IsBitmap(s, l, b)
    ensures Distinct(GcScan.Clears(b, 0)) && Elems(GcScan.Clears(b, 0)) == ValidSecs(s.lines[l], s.secPerLine)
  {
    GcScan.ClearsAre(b, 0);
  }

  /**
   From the closed line on: GC may start on it and scan its bitmap as coded, and no run frees it under an address, if and
   only if it has padding or every sector that needs it is handed on.
   */
  lemma CollectExact(s: State, l: nat, b: seq<bool>, max: nat)
    requires max > 0 && Reachable(s) && Enabled(s, GcStart(l)) && Safe(s, GcStart(l)) && IsBitmap(s, l, b)
    ensures var t, secs := GcStartStep(s, l), GcScan.Clears(b, 0);
      var live := Needed(t, l, secs, max);
      Harmless(t, l, secs, max) <==> s.lines[l].pads > 0 || GcScan.HandedAll(secs, max, live) == GcScan.Live(secs, live)
  {
    hide Inv, Reachable, Harmless, Needed, Started;
    ReachInv(s);
    ScanOrder(s, l, b);
    Starting(s, l, GcScan.Clears(b, 0));
    HandsOnExact(GcStartStep(s, l), l, GcScan.Clears(b, 0), max);
  }
}

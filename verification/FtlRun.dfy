/**
 Runs of the step system.  Every run keeps the invariant and, seen through `Read`, is a
 plain map from logical addresses to data that only user writes and discards change.
 */
module FtlRun {
  import opened Basics
  import opened Ftl
  import opened FtlInv
  import opened FtlSteps
  import opened FtlDevice
  import opened FtlGc

  /** Sector `p` of victim `l` is valid and GC has not looked at it. */
  predicate ToScan(s: State, l: nat, p: nat) {
    && l < |s.lines| && s.lines[l].state == Gc && s.lines[l].held
    && p < s.secPerLine && p !in s.lines[l].invalid && p !in s.lines[l].scanned
  }

  /** The driver's own condition for a step, without the facts it takes for granted. */
  predicate Guard(s: State, op: Op) {
    Sized(s) &&
    match op
    case Reserve(count) => s.mem + count < s.l2p + |s.ring|
    case Fill(k, a, d) => k in s.unfilled && a < |s.trans|
    case Publish(k, a, d) => k in s.half && s.half[k] == User(a, d)
    case Discard(a) => a < |s.trans|
    case MapEntry => s.subm < s.mem && s.subm !in s.unfilled && CanAlloc(s)
    case MapPad => CanAlloc(s)
    case Dispatch(count) => 0 < count && s.disp + count <= s.subm
    case Program(k) => s.sync <= k < s.disp
    case Ack(i) =>
      && i < |s.reqs| && !s.reqs[i].back
      && (forall k :: s.reqs[i].sentry <= k < End(s.reqs[i]) ==> Slot(s.ring, k).done)
    case SyncOne => s.reqs != [] && s.reqs[0].back
    case L2pOne => s.l2p < s.sync
    case Close(l) => l < |s.lines| && s.lines[l].state == Open && s.lines[l].leftSsecs == 0
    case Wipe(l, p) => l < |s.lines| && s.lines[l].state == Free
    case Replace(l, secs) =>
      && !CanAlloc(s) && l < |s.lines| && s.lines[l].state == Free && Erased(s.media, l) && GoodSecs(secs, s.secPerLine)
    case GcStart(l) => l < |s.lines| && s.lines[l].state == Closed
    case GcRead(l, p) => ToScan(s, l, p)
    case GcSkip(l, p) => ToScan(s, l, p)
    case GcFill(k, l, p) => k in s.unfilled && (l, p) in s.gc && Collector(l, p) !in s.half.Values
    case GcPublish(k, l, p) => k in s.half && s.half[k] == Collector(l, p)
    case GcPut(l) =>
      && l < |s.lines| && s.lines[l].state == Gc && s.lines[l].held && ScanDone(s, l)
  }

  /** A sector about to be invalidated is in use and valid, or GC has its line. */
  predicate Droppable(s: State, q: Ppa) {
    q.Media? ==> q.line < |s.lines| && s.lines[q.line].state != Free && (s.lines[q.line].state == Gc || q.sec !in s.lines[q.line].invalid)
  }

  /** The sector to be handed out next lies in the line, was not handed out before and is valid. */
  predicate NewSector(s: State)
    requires CanAlloc(s)
  {
    var l := s.lines[s.cur];
    var p := l.secs[l.next];
    l.state == Open && p < s.secPerLine && p !in l.lbas && p !in l.invalid
  }

  /** The last reference to a line goes only in GC. */
  predicate PutOk(l: Line) {
    l.refs == 1 ==> l.state == Gc
  }

  /**
   What the driver tests with BUG_ON or WARN_ON as it takes a step: a slot to be filled is writable, nothing is
   invalidated twice or handed out twice, an entry that leaves the ring is submitted and programmed, only lines in GC
   are freed, and the valid count of a victim is not negative.
   */
  predicate Checked(s: State, op: Op)
    requires Enabled(s, op)
  {
    match op
    case Fill(k, _, _) => Slot(s.ring, k).flag == Writable
    case GcFill(k, _, _) => Slot(s.ring, k).flag == Writable
    case Publish(k, a, _) => Slot(s.ring, k).flag != Writable && Droppable(s, s.trans[a])
    case Discard(a) => Droppable(s, s.trans[a])
    case MapEntry => NewSector(s)
    case MapPad => NewSector(s)
    case Program(k) => Slot(s.ring, k).flag == Submitted
    case L2pOne =>
      var e := Slot(s.ring, s.l2p); e.done && Droppable(s, e.ppa) && PutOk(s.lines[e.ppa.line])
    case GcStart(l) => s.lines[l].vsc >= 0
    case GcPut(l) => PutOk(s.lines[l])
    case _ => true
  }

  lemma FillGuard(s: State, k: nat)
    requires Pointers(s) && Flags(s.ring, s.unfilled, s.l2p, s.sync, s.subm, s.mem) && k in s.unfilled
    ensures Slot(s.ring, k).flag == Writable
  {
  }

  lemma AllocGuard(s: State)
    requires LinesOk(s.secPerLine, |s.trans|, s.lines) && CanAlloc(s)
    ensures NewSector(s)
  {
    assert LineOk(s.lines[s.cur], s.secPerLine, |s.trans|);
  }

  lemma DropGuard(s: State, a: nat)
    requires MapOk(s.secPerLine, s.ring, s.trans, s.lines, s.media) && a < |s.trans|
    ensures Mapped(s, a) && Droppable(s, s.trans[a])
  {
  }

  lemma SyncGuard(s: State)
    requires Core(s) && Guard(s, SyncOne)
    ensures SyncReady(s)
  {
    TiledOrder(s.reqs, s.sync, s.disp);
    assert Slot(s.ring, s.sync).flag == Submitted;
  }

  lemma L2pGuard(s: State)
    requires Core(s) && s.l2p < s.sync
    ensures Enabled(s, L2pOne) && Checked(s, L2pOne)
  {
    L2pEnabled(s);
    L2pLive(s);
    L2pRefs(s);
    assert LineOk(s.lines[Slot(s.ring, s.l2p).ppa.line], s.secPerLine, |s.trans|);
    assert Slot(s.ring, s.l2p).done;
  }

  lemma ScanGuard(s: State, l: nat, p: nat)
    requires LinesOk(s.secPerLine, |s.trans|, s.lines) && MapOk(s.secPerLine, s.ring, s.trans, s.lines, s.media) && ToScan(s, l, p)
    ensures CanScan(s, l, p)
  {
    assert LineOk(s.lines[l], s.secPerLine, |s.trans|);
  }

  lemma StartGuard(s: State, l: nat)
    requires LinesOk(s.secPerLine, |s.trans|, s.lines) && l < |s.lines| && s.lines[l].state == Closed
    ensures s.lines[l].vsc >= 0
  {
    var line := s.lines[l];
    assert LineOk(line, s.secPerLine, |s.trans|);
    RangeSize(0, s.secPerLine);
    Subsize(line.invalid, Range(0, s.secPerLine));
  }

  lemma {:induction false} Subsize(xs: set<nat>, ys: set<nat>)
    requires xs <= ys
    ensures |xs| <= |ys|
    decreases xs
  {
    if xs != {} {
      var x :| x in xs;
      Subsize(xs - {x}, ys - {x});
    }
  }

  /** The steps of users and of GC on the ring and the map. */
  lemma MapGuard(s: State, op: Op)
    requires Core(s) && HalfOk(s) && Guard(s, op)
    requires op.Fill? || op.GcFill? || op.Publish? || op.Discard? || op.GcPublish?
    ensures Enabled(s, op) && Checked(s, op)
  {
    match op
    case Fill(k, a, d) => FillGuard(s, k);
    case GcFill(k, l, p) => FillGuard(s, k);
    case Publish(k, a, d) =>
      assert WriterOk(s.half[k], s.lines, s.gc, |s.trans|);
      DueFilled(s, k);
      DropGuard(s, a);
    case Discard(a) => DropGuard(s, a);
    case GcPublish(k, l, p) => assert WriterOk(s.half[k], s.lines, s.gc, |s.trans|);
  }

  /** The steps of the writer, the device and the collector on lines. */
  lemma LineGuard(s: State, op: Op)
    requires Core(s) && Guard(s, op)
    requires !op.Fill? && !op.GcFill? && !op.Publish? && !op.Discard? && !op.GcPublish?
    ensures Enabled(s, op) && Checked(s, op)
  {
    match op
    case MapEntry => AllocGuard(s);
    case MapPad => AllocGuard(s);
    case Program(k) => assert Slot(s.ring, k).flag == Submitted;
    case SyncOne => SyncGuard(s);
    case L2pOne => L2pGuard(s);
    case GcStart(l) => StartGuard(s, l);
    case GcRead(l, p) => ScanGuard(s, l, p);
    case GcSkip(l, p) => ScanGuard(s, l, p);
    case _ =>
  }

  /** Where the driver's own condition for a step holds, so does all it takes for granted and all it tests. */
  lemma GuardSuffices(s: State, op: Op)
    requires Inv(s) && Guard(s, op)
    ensures Enabled(s, op) && Checked(s, op)
  {
    if op.Fill? || op.GcFill? || op.Publish? || op.Discard? || op.GcPublish? {
      MapGuard(s, op);
    } else {
      LineGuard(s, op);
    }
  }

  /**
   What the driver does not check.  A victim is safe to collect when no ring entry would still be installed into it; an
   entry is safe to leave the ring when no writer has still to map it; a sector alone in its batch is safe to pass over
   when its address does not map to it.
   */
  predicate Safe(s: State, op: Op)
    requires Enabled(s, op)
  {
    match op
    case GcStart(l) => NoInstalls(s, l)
    case L2pOne => s.l2p in s.half ==> !Due(s.half[s.l2p], s.trans, s.gc)
    case GcSkip(l, p) => Skippable(s, l, p)
    case _ => true
  }

  /** The steps of users and of GC on the ring and the map. */
  lemma MapStepKeeps(s: State, op: Op)
    requires Inv(s) && Enabled(s, op)
    requires op.Reserve? || op.Fill? || op.Publish? || op.Discard? || op.GcFill? || op.GcPublish?
    ensures Inv(Step(s, op))
  {
    hide Inv;
    match op
    case Reserve(count) => ReserveKeeps(s, count);
    case Fill(k, a, d) => FillKeeps(s, k, a, d);
    case Publish(k, a, d) => PublishKeeps(s, k, a, d);
    case Discard(a) => UnmapKeeps(s, a);
    case GcFill(k, l, p) => GcFillKeeps(s, k, l, p);
    case GcPublish(k, l, p) => GcPublishKeeps(s, k, l, p);
  }

  /** The steps of the writer and the device. */
  lemma DeviceStepKeeps(s: State, op: Op)
    requires Inv(s) && Enabled(s, op) && Safe(s, op)
    requires op.MapEntry? || op.MapPad? || op.Dispatch? || op.Program? || op.Ack? || op.SyncOne? || op.L2pOne?
    ensures Inv(Step(s, op))
  {
    hide Inv;
    match op
    case MapEntry => MapEntryKeeps(s);
    case MapPad => MapPadKeeps(s);
    case Dispatch(count) => DispatchKeeps(s, count);
    case Program(k) => ProgramKeeps(s, k);
    case Ack(i) => AckKeeps(s, i);
    case SyncOne => SyncKeeps(s);
    case L2pOne => L2pKeeps(s);
  }

  /** The steps that turn lines over and collect them. */
  lemma LineStepKeeps(s: State, op: Op)
    requires Inv(s) && Enabled(s, op) && Safe(s, op)
    requires op.Close? || op.Wipe? || op.Replace? || op.GcStart? || op.GcRead? || op.GcSkip? || op.GcPut?
    ensures Inv(Step(s, op))
  {
    hide Inv;
    match op
    case Close(l) => CloseKeeps(s, l);
    case Wipe(l, p) => WipeKeeps(s, l, p);
    case Replace(l, secs) => ReplaceKeeps(s, l, secs);
    case GcStart(l) => GcStartKeeps(s, l);
    case GcRead(l, p) => GcReadKeeps(s, l, p);
    case GcSkip(l, p) => GcSkipKeeps(s, l, p);
    case GcPut(l) => GcPutKeeps(s, l);
  }

  lemma StepKeeps(s: State, op: Op)
    requires Inv(s) && Enabled(s, op) && Safe(s, op)
    ensures Inv(Step(s, op))
  {
    hide Inv, Enabled, Safe, Step;
    if op.Reserve? || op.Fill? || op.Publish? || op.Discard? || op.GcFill? || op.GcPublish? {
      MapStepKeeps(s, op);
    } else if op.Close? || op.Wipe? || op.Replace? || op.GcStart? || op.GcRead? || op.GcSkip? || op.GcPut? {
      LineStepKeeps(s, op);
    } else {
      DeviceStepKeeps(s, op);
    }
  }

  // ---------------------------------------------------------------- the plain map

  type Plain = seq<Option<Data>>

  predicate AllReadable(s: State) {
    forall a :: 0 <= a < |s.trans| ==> Readable(s, a)
  }

  lemma InvReadable(s: State)
    requires MapsOk(s)
    ensures AllReadable(s)
  {
  }

  /** What the device looks like to its user. */
  function View(s: State): Plain
    requires AllReadable(s)
  {
    seq(|s.trans|, a requires 0 <= a < |s.trans| => Read(s, a))
  }

  function PlainStep(m: Plain, op: Op): Plain {
    match op
    case Publish(_, a, d) => if a < |m| then m[a := Some(d)] else m
    case Discard(a) => if a < |m| then m[a := None] else m
    case _ => m
  }

  predicate MapsOk(s: State) {
    Sized(s) && MapOk(s.secPerLine, s.ring, s.trans, s.lines, s.media)
  }

  /** A slot nobody maps to is filled. */
  lemma WriteReads(s: State, k: nat, a: nat, d: Data, b: nat)
    requires MapsOk(s) && Slot(s.ring, k).flag == Writable && b < |s.trans|
    ensures Readable(WriteEntry(s, k, a, d), b) && Read(WriteEntry(s, k, a, d), b) == Read(s, b)
  {
  }

  lemma PublishReads(s: State, k: nat, a: nat, b: nat)
    requires MapsOk(s) && a < |s.trans| && b < |s.trans|
    ensures Mapped(s, a) && Readable(PublishStep(s, k, a), b)
    ensures Read(PublishStep(s, k, a), b) == if b == a then Some(Slot(s.ring, k).data) else Read(s, b)
  {
  }

  lemma DiscardReads(s: State, a: nat, b: nat)
    requires MapsOk(s) && Mapped(s, a) && b < |s.trans|
    ensures Readable(s, b) && Readable(Remap(s, a, Empty), b)
    ensures Read(Remap(s, a, Empty), b) == if b == a then None else Read(s, b)
  {
  }

  lemma GcPublishReads(s: State, k: nat, l: nat, p: nat, b: nat)
    requires MapsOk(s) && Enabled(s, GcPublish(k, l, p)) && b < |s.trans|
    requires ItemOk(s.trans, s.media, l, s.gc[(l, p)])
    requires LiesIn(s.trans, s.gc[(l, p)].lba, l) ==> Slot(s.ring, k).data == s.gc[(l, p)].data
    ensures Readable(GcPublishStep(s, k, l, p), b)
    ensures Read(GcPublishStep(s, k, l, p), b) == Read(s, b)
  {
  }

  lemma L2pReads(s: State, b: nat)
    requires MapsOk(s) && SlotsOk(s.secPerLine, s.ring, |s.trans|, s.lines, s.media) && b < |s.trans|
    requires L2pReady(s) && Slot(s.ring, s.l2p).done
    ensures Readable(L2pStep(s), b) && Read(L2pStep(s), b) == Read(s, b)
  {
  }

  lemma ProgramReads(s: State, k: nat, b: nat)
    requires MapsOk(s) && SlotsOk(s.secPerLine, s.ring, |s.trans|, s.lines, s.media) && b < |s.trans|
    requires Slot(s.ring, k).flag == Submitted && Slot(s.ring, k).ppa.Media?
    ensures Readable(ProgramStep(s, k), b) && Read(ProgramStep(s, k), b) == Read(s, b)
  {
  }

  lemma WipeReads(s: State, l: nat, p: nat, b: nat)
    requires MapsOk(s) && l < |s.lines| && s.lines[l].state == Free && b < |s.trans|
    ensures Readable(WipeStep(s, l, p), b) && Read(WipeStep(s, l, p), b) == Read(s, b)
  {
  }

  lemma MapEntryReads(s: State, b: nat)
    requires MapsOk(s) && CanAlloc(s) && b < |s.trans|
    ensures Readable(MapEntryStep(s), b) && Read(MapEntryStep(s), b) == Read(s, b)
  {
  }

  /** What one address reads across a step of users or of GC on the ring and the map. */
  lemma MapStepReads(s: State, op: Op, b: nat)
    requires Core(s) && HalfOk(s) && Enabled(s, op) && b < |s.trans|
    requires op.Fill? || op.GcFill? || op.Publish? || op.Discard? || op.GcPublish?
    ensures var t := Step(s, op); Readable(t, b) && Read(t, b) == ReadAfter(s, op, b)
  {
    match op
    case Fill(k, a, d) =>
      FillGuard(s, k);
      WriteReads(s, k, a, d, b);
    case GcFill(k, l, p) =>
      FillGuard(s, k);
      WriteReads(s, k, s.gc[(l, p)].lba, s.gc[(l, p)].data, b);
    case Publish(k, a, d) =>
      DueFilled(s, k);
      PublishReads(s, k, a, b);
    case GcPublish(k, l, p) =>
      if Due(s.half[k], s.trans, s.gc) { DueFilled(s, k); }
      GcPublishReads(s, k, l, p, b);
    case Discard(a) => DiscardReads(s, a, b);
  }

  /** Across any other step. */
  lemma LineStepReads(s: State, op: Op, b: nat)
    requires Core(s) && Enabled(s, op) && b < |s.trans|
    requires !op.Fill? && !op.GcFill? && !op.Publish? && !op.Discard? && !op.GcPublish?
    ensures var t := Step(s, op); Readable(t, b) && Read(t, b) == Read(s, b)
  {
    match op
    case L2pOne =>
      assert Slot(s.ring, s.l2p).done;
      L2pReads(s, b);
    case Program(k) =>
      assert Slot(s.ring, k).flag == Submitted;
      ProgramReads(s, k, b);
    case MapEntry => MapEntryReads(s, b);
    case Wipe(l, p) => WipeReads(s, l, p, b);
    case _ =>
  }

  /** What address `b` reads after the step, were the device a plain map. */
  function ReadAfter(s: State, op: Op, b: nat): Option<Data>
    requires Readable(s, b)
  {
    if op.Publish? && op.lba == b then Some(op.data) else if op.Discard? && op.lba == b then None else Read(s, b)
  }

  /** One address across one step. */
  lemma StepReads(s: State, op: Op, b: nat)
    requires Inv(s) && Enabled(s, op) && b < |s.trans|
    ensures Readable(s, b)
    ensures var t := Step(s, op); Readable(t, b) && Read(t, b) == ReadAfter(s, op, b)
  {
    if op.Fill? || op.GcFill? || op.Publish? || op.Discard? || op.GcPublish? {
      MapStepReads(s, op, b);
    } else {
      LineStepReads(s, op, b);
    }
  }

  /** Only these steps concern reservations and writers. */
  lemma SameWriting(s: State, op: Op)
    requires Enabled(s, op) && !op.Reserve? && !op.Fill? && !op.GcFill? && !op.Publish? && !op.GcPublish?
    ensures var t := Step(s, op); t.mem == s.mem && t.unfilled == s.unfilled && t.half == s.half
  {
    hide Wrap, Slot, Range, FreshLine, HandOut, PadOut, PutRef, Invalidate, SyncReqs, CanScan, ScanDone, Erased, GoodSecs;
  }

  /** Only these concern what GC has in hand. */
  lemma SameItems(s: State, op: Op)
    requires Enabled(s, op) && !op.GcRead? && !op.GcPublish?
    ensures Step(s, op).gc == s.gc
  {
    hide Wrap, Slot, Range, FreshLine, HandOut, PadOut, PutRef, Invalidate, SyncReqs, CanScan, ScanDone, Erased, GoodSecs;
  }

  lemma StepSize(s: State, op: Op)
    requires Enabled(s, op)
    ensures |Step(s, op).trans| == |s.trans|
  {
  }

  /** The step address by address is the step of the plain map. */
  lemma ViewStep(s: State, t: State, op: Op)
    requires AllReadable(s) && |t.trans| == |s.trans|
    requires forall b :: 0 <= b < |s.trans| ==> Readable(t, b) && Read(t, b) == ReadAfter(s, op, b)
    ensures AllReadable(t) && View(t) == PlainStep(View(s), op)
  {
  }

  lemma StepRefines(s: State, op: Op)
    requires Inv(s) && Enabled(s, op) && AllReadable(s)
    ensures AllReadable(Step(s, op)) && View(Step(s, op)) == PlainStep(View(s), op)
  {
    StepSize(s, op);
    forall b | 0 <= b < |s.trans| ensures Readable(Step(s, op), b) && Read(Step(s, op), b) == ReadAfter(s, op, b) {
      StepReads(s, op, b);
    }
    ViewStep(s, Step(s, op), op);
  }

  // ---------------------------------------------------------------- runs

  /** A finite run, by its last step. */
  datatype Run = Start | Then(prev: Run, op: Op)

  /** Where `r` leads from `s`, if every step can be taken and is safe. */
  function RunTo(s: State, r: Run): Option<State> {
    match r
    case Start => Some(s)
    case Then(prev, op) =>
      var t := RunTo(s, prev);
      if t.Some? && Enabled(t.value, op) && Safe(t.value, op) then Some(Step(t.value, op)) else None
  }

  lemma RunOn(s: State, r: Run, t: State, op: Op)
    requires RunTo(s, r) == Some(t) && Enabled(t, op) && Safe(t, op)
    ensures RunTo(s, Then(r, op)) == Some(Step(t, op))
  {
  }

  function PlainRun(m: Plain, r: Run): Plain {
    match r
    case Start => m
    case Then(prev, op) => PlainStep(PlainRun(m, prev), op)
  }

  /** Every run refines the plain map and keeps the invariant. */
  lemma {:induction false} RunRefines(s: State, r: Run)
    requires Inv(s) && RunTo(s, r).Some?
    ensures var t := RunTo(s, r).value; Inv(t) && AllReadable(s) && AllReadable(t) && View(t) == PlainRun(View(s), r)
  {
    InvReadable(s);
    if r.Then? {
      RunRefines(s, r.prev);
      var t := RunTo(s, r.prev).value;
      StepKeeps(t, r.op);
      StepRefines(t, r.op);
    }
  }

  /** A freshly initialised instance: an empty ring and map, one line set up, the others free. */
  predicate Init(s: State) {
    && Sized(s) && s.mem == s.subm == s.disp == s.sync == s.l2p == 0
    && s.unfilled == {} && s.half == map[] && s.reqs == [] && s.gc == map[]
    && (forall c :: 0 <= c < |s.ring| ==> s.ring[c].flag == Writable && s.ring[c].ppa == Empty)
    && (forall a :: 0 <= a < |s.trans| ==> s.trans[a] == Empty)
    && GoodSecs(s.lines[s.cur].secs, s.secPerLine)
    && s.lines[s.cur] == FreshLine(s.lines[s.cur].secs, s.secPerLine)
    && (forall l :: 0 <= l < |s.lines| && l != s.cur ==> s.lines[l] == FreeLine())
  }

  function FreeLine(): Line {
    Line(Free, [], 0, {}, 0, 0, 0, map[], map[], 0, false, {})
  }

  lemma InitOk(s: State)
    requires Init(s)
    ensures Inv(s) && AllReadable(s) && forall a :: 0 <= a < |s.trans| ==> Read(s, a) == None
  {
    FreshLineOk(s.lines[s.cur].secs, s.secPerLine, |s.trans|);
    assert LineOk(FreeLine(), s.secPerLine, |s.trans|);
    assert MappedTo(s.ring, 0, 0, s.cur) == {};
    InvReadable(s);
  }

  /** What the last write or discard of `a` in `r` left, or nothing if there was none. */
  function LastValue(r: Run, a: nat): Option<Data> {
    match r
    case Start => None
    case Then(prev, op) =>
      if op.Publish? && op.lba == a then Some(op.data)
      else if op.Discard? && op.lba == a then None
      else LastValue(prev, a)
  }

  lemma {:induction false} PlainRunLast(m: Plain, r: Run, a: nat)
    requires a < |m| && m[a] == None
    ensures |PlainRun(m, r)| == |m| && PlainRun(m, r)[a] == LastValue(r, a)
  {
    if r.Then? { PlainRunLast(m, r.prev, a); }
  }

  lemma {:induction false} PlainRunSize(m: Plain, r: Run)
    ensures |PlainRun(m, r)| == |m|
  {
    if r.Then? { PlainRunSize(m, r.prev); }
  }

  /** `s` occurs in a run of a fresh instance. */
  ghost predicate Reachable(s: State) {
    exists s0, r :: Init(s0) && RunTo(s0, r) == Some(s)
  }

  lemma ReachInv(s: State)
    requires Reachable(s)
    ensures Inv(s)
  {
    var s0, r :| Init(s0) && RunTo(s0, r) == Some(s);
    InitOk(s0);
    RunRefines(s0, r);
  }

  /**
   Reading any address after any run from a fresh instance, through the map as it then stands,
   gives what the last write of that address stored, or nothing if it was discarded or never written.
   */
  lemma ReadsLastWrite(s: State, r: Run, a: nat)
    requires Init(s) && RunTo(s, r).Some? && a < |s.trans|
    ensures var t := RunTo(s, r).value; Readable(t, a) && Read(t, a) == LastValue(r, a)
  {
    InitOk(s);
    RunRefines(s, r);
    PlainRunLast(View(s), r, a);
    var t := RunTo(s, r).value;
    assert View(t)[a] == LastValue(r, a);
  }

  /** In no state a run reaches does a step whose own condition holds go wrong or fail one of the driver's tests. */
  lemma NeverStuck(s: State, op: Op)
    requires Reachable(s) && Guard(s, op)
    ensures Enabled(s, op) && Checked(s, op)
  {
    ReachInv(s);
    GuardSuffices(s, op);
  }
}

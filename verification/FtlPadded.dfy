/**
 A padded sector holds a reference to its line that nothing ever drops, so a line with padding is never freed.
 */
module FtlPadded {
  import opened Basics
  import opened Ftl
  import opened FtlInv
  import opened FtlSteps
  import opened FtlDevice
  import opened FtlGc
  import opened FtlRun

  /** Where `r` leads from `s` if every step can be taken, safe or not. */
  function Goes(s: State, r: Run): Option<State> {
    match r
    case Start => Some(s)
    case Then(prev, op) =>
      var t := Goes(s, prev);
      if t.Some? && Enabled(t.value, op) then Some(Step(t.value, op)) else None
  }

  lemma {:induction false} SafeGoes(s: State, r: Run)
    requires RunTo(s, r).Some?
    ensures Goes(s, r) == RunTo(s, r)
  {
    if r.Then? { SafeGoes(s, r.prev); }
  }

  // ---------------------------------------------------------------- the ring by itself

  lemma WriteRingOk(s: State, k: nat, a: nat, d: Data, w: Writer)
    requires RingOk(s) && k in s.unfilled
    ensures RingOk(Noted(s, k, a, d, w))
  {
    WriteRing(s, k, Entry(Written, a, Empty, d, false), WriteEntry(s, k, a, d).ring);
  }

  lemma ReserveRing(s: State, count: nat)
    requires RingOk(s) && s.mem + count < s.l2p + |s.ring|
    ensures RingOk(ReserveStep(s, count))
  {
  }

  lemma MapEntryRing(s: State)
    requires RingOk(s) && CanAlloc(s) && s.subm < s.mem && Slot(s.ring, s.subm).flag == Written
    ensures RingOk(MapEntryStep(s))
  {
    MapEntryPointers(s);
    MapEntryDone(s);
  }

  lemma DispatchRing(s: State, count: nat)
    requires RingOk(s) && 0 < count && s.disp + count <= s.subm
    ensures RingOk(DispatchStep(s, count))
  {
    TiledAppend(s.reqs, s.sync, s.disp, Req(s.disp, count, false));
  }

  lemma AckRing(s: State, i: nat)
    requires RingOk(s) && Enabled(s, Ack(i))
    ensures RingOk(Step(s, Ack(i)))
  {
    TiledAck(s.reqs, s.sync, s.disp, i);
  }

  /** The steps that leave the ring alone. */
  lemma OtherRing(s: State, op: Op)
    requires RingOk(s) && Enabled(s, op)
    requires op.Publish? || op.Discard? || op.MapPad? || op.Close? || op.Wipe? || op.Replace? || op.GcStart? || op.GcRead? || op.GcSkip? || op.GcPublish? || op.GcPut?
    ensures RingOk(Step(s, op))
  {
    hide RingOk;
    RingFrame(s, Step(s, op));
  }

  /** No step, safe or not, upsets the ring. */
  lemma RingStep(s: State, op: Op)
    requires RingOk(s) && Enabled(s, op)
    ensures RingOk(Step(s, op))
  {
    hide RingOk;
    match op
    case Reserve(count) => ReserveRing(s, count);
    case Fill(k, a, d) => WriteRingOk(s, k, a, d, User(a, d));
    case GcFill(k, l, p) => WriteRingOk(s, k, s.gc[(l, p)].lba, s.gc[(l, p)].data, Collector(l, p));
    case MapEntry => MapEntryRing(s);
    case Dispatch(count) => DispatchRing(s, count);
    case Program(k) => ProgramRing(s, k);
    case Ack(i) => AckRing(s, i);
    case SyncOne => SyncRing(s);
    case L2pOne => L2pRing(s);
    case _ => OtherRing(s, op);
  }

  /** A slot free to be filled names no sector. */
  predicate Clean(ring: seq<Entry>) {
    forall c :: 0 <= c < |ring| && ring[c].flag == Writable ==> ring[c].ppa == Empty
  }

  lemma CleanStep(s: State, op: Op)
    requires Clean(s.ring) && Enabled(s, op)
    ensures Clean(Step(s, op).ring)
  {
    hide Range, FreshLine, HandOut, PadOut, PutRef, Invalidate, SyncReqs, CanScan, ScanDone, Erased, GoodSecs;
  }

  /** In every state of every run of a fresh instance, safe or not, the slots free to be filled are clean. */
  lemma {:induction false} AlwaysClean(s: State, r: Run)
    requires Init(s) && Goes(s, r).Some?
    ensures Clean(Goes(s, r).value.ring)
  {
    if r.Then? {
      AlwaysClean(s, r.prev);
      CleanStep(Goes(s, r.prev).value, r.op);
    }
  }

  // ---------------------------------------------------------------- the references of a padded line

  /** A full line in GC with padding, one reference for each holder. */
  predicate Padded(s: State, l: nat) {
    && Sized(s) && l < |s.lines| && s.lines[l].state == Gc && s.lines[l].pads > 0 && s.lines[l].next == |s.lines[l].secs|
    && s.lines[l].refs == (if s.lines[l].held then 1 else 0) + s.lines[l].pads + |MappedTo(s.ring, s.l2p, s.subm, l)|
  }

  /** What concerns the references of two lines is the same. */
  predicate SameRefs(m: Line, m': Line) {
    m'.state == m.state && m'.pads == m.pads && m'.next == m.next && m'.secs == m.secs && m'.refs == m.refs && m'.held == m.held
  }

  /** The line keeps its references and no entry comes or goes that is mapped to it. */
  lemma PaddedFrame(s: State, t: State, l: nat)
    requires Padded(s, l) && Sized(t) && l < |t.lines| && SameRefs(s.lines[l], t.lines[l])
    requires MappedTo(t.ring, t.l2p, t.subm, l) == MappedTo(s.ring, s.l2p, s.subm, l)
    ensures Padded(t, l)
  {
  }

  lemma WritePadded(s: State, k: nat, a: nat, d: Data, w: Writer, l: nat)
    requires RingOk(s) && k in s.unfilled && Padded(s, l)
    ensures Padded(Noted(s, k, a, d, w), l)
  {
    var t := Noted(s, k, a, d, w);
    WriteRing(s, k, Entry(Written, a, Empty, d, false), t.ring);
    PaddedFrame(s, t, l);
  }

  lemma MapEntryPadded(s: State, l: nat)
    requires RingOk(s) && CanAlloc(s) && s.subm < s.mem && Padded(s, l)
    ensures Padded(MapEntryStep(s), l)
  {
    MapEntryMapped(s, s.l2p, l);
  }

  lemma ProgramPadded(s: State, k: nat, l: nat)
    requires RingOk(s) && s.sync <= k < s.disp && Slot(s.ring, k).ppa.Media? && Padded(s, l)
    ensures Padded(ProgramStep(s, k), l)
  {
    ProgramRing(s, k);
    MappedFrame(s.ring, ProgramStep(s, k).ring, s.l2p, s.subm, l);
    PaddedFrame(s, ProgramStep(s, k), l);
  }

  lemma L2pPadded(s: State, l: nat)
    requires RingOk(s) && L2pReady(s) && Padded(s, l)
    ensures Padded(L2pStep(s), l)
  {
    hide MappedTo, Flags, Tiled, BackDone;
    var t, i := L2pStep(s), Slot(s.ring, s.l2p).ppa.line;
    L2pSlots(s);
    RetiredLine(s);
    MappedShrink(s.ring, t.ring, s.l2p, s.subm, i, l);
    if i == l { RetiredRefs(s); }
  }

  lemma RetiredRefs(s: State)
    requires L2pReady(s)
    ensures var m := s.lines[Slot(s.ring, s.l2p).ppa.line]; m.state == Gc && m.refs > 1 ==> Retired(s) == m.(refs := m.refs - 1)
  {
  }

  lemma RemapPadded(s: State, a: nat, q: Ppa, l: nat)
    requires Mapped(s, a) && l < |s.lines| && s.lines[l].state == Gc
    ensures l < |Remap(s, a, q).lines| && Remap(s, a, q).lines[l] == s.lines[l]
  {
  }

  /** The steps on the map and the lines. */
  lemma OtherPadded(s: State, op: Op, l: nat)
    requires Enabled(s, op) && Padded(s, l)
    requires !op.Fill? && !op.GcFill? && !op.MapEntry? && !op.Program? && !op.L2pOne?
    ensures Padded(Step(s, op), l)
  {
    hide MappedTo;
    match op
    case Publish(k, a, d) => RemapPadded(s, a, Cached(Wrap(k, |s.ring|)), l);
    case Discard(a) => RemapPadded(s, a, Empty, l);
    case _ =>
  }

  lemma PaddedStep(s: State, op: Op, l: nat)
    requires RingOk(s) && Enabled(s, op) && Padded(s, l)
    ensures Padded(Step(s, op), l)
  {
    hide RingOk, Padded;
    match op
    case Fill(k, a, d) => WritePadded(s, k, a, d, User(a, d), l);
    case GcFill(k, m, p) => WritePadded(s, k, s.gc[(m, p)].lba, s.gc[(m, p)].data, Collector(m, p), l);
    case MapEntry => MapEntryPadded(s, l);
    case Program(k) => ProgramPadded(s, k, l);
    case L2pOne => L2pPadded(s, l);
    case _ => OtherPadded(s, op, l);
  }

  /** No run, safe or not, frees a padded line in GC. */
  lemma {:induction false} NeverFreed(s: State, r: Run, l: nat)
    requires RingOk(s) && Padded(s, l) && Goes(s, r).Some?
    ensures var t := Goes(s, r).value; RingOk(t) && Padded(t, l)
  {
    if r.Then? {
      NeverFreed(s, r.prev, l);
      hide RingOk, Padded;
      RingStep(Goes(s, r.prev).value, r.op);
      PaddedStep(Goes(s, r.prev).value, r.op, l);
    }
  }

  lemma StartPadded(s: State, l: nat)
    requires Core(s) && l < |s.lines| && s.lines[l].state == Closed && s.lines[l].pads > 0
    ensures RingOk(GcStartStep(s, l)) && Padded(GcStartStep(s, l), l)
  {
    assert LineOk(s.lines[l], s.secPerLine, |s.trans|);
  }
}

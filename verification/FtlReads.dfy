/**
 Reads in flight: what the device returns for an address looked up earlier.
 */
module FtlReads {
  import opened Basics
  import opened Ftl
  import opened FtlInv
  import opened FtlSteps
  import opened FtlRun
  import opened FtlFacts

  predicate HandedOut(lines: seq<Line>, l: nat, p: nat) {
    l < |lines| && p in lines[l].lbas
  }

  /** No ring entry will be stored in sector `p` of line `l`. */
  predicate NotPending(ring: seq<Entry>, l: nat, p: nat) {
    forall c :: 0 <= c < |ring| ==> ring[c].flag != Submitted || ring[c].ppa != Media(l, p)
  }

  predicate Settled(s: State, l: nat, p: nat) {
    HandedOut(s.lines, l, p) && NotPending(s.ring, l, p)
  }

  /** What an address maps to on the device is settled. */
  lemma MappedSettled(s: State, a: nat)
    requires MapsOk(s) && SlotsOk(s.secPerLine, s.ring, |s.trans|, s.lines, s.media) && a < |s.trans| && s.trans[a].Media?
    ensures Settled(s, s.trans[a].line, s.trans[a].sec)
  {
  }

  lemma SlotSettled(ring: seq<Entry>, c: nat, e: Entry, l: nat, p: nat)
    requires NotPending(ring, l, p) && c < |ring| && (e.flag != Submitted || e.ppa != Media(l, p))
    ensures NotPending(ring[c := e], l, p)
  {
  }

  /** No sector is handed out twice before its line is set up anew. */
  lemma MapSettled(s: State, l: nat, p: nat)
    requires CanAlloc(s) && Core(s) && Settled(s, l, p)
    ensures Settled(MapEntryStep(s), l, p)
  {
    assert LineOk(s.lines[s.cur], s.secPerLine, |s.trans|);
    var c, m := Wrap(s.subm, |s.ring|), s.lines[s.cur];
    SlotSettled(s.ring, c, s.ring[c].(flag := Submitted, ppa := Media(s.cur, m.secs[m.next])), l, p);
  }

  lemma ProgramSettled(s: State, k: nat, l: nat, p: nat)
    requires Core(s) && s.sync <= k < s.disp && Slot(s.ring, k).ppa.Media? && Settled(s, l, p) && (l, p) in s.media
    ensures var t := ProgramStep(s, k); Settled(t, l, p) && (l, p) in t.media && t.media[(l, p)] == s.media[(l, p)]
  {
    var c := Wrap(k, |s.ring|);
    assert Slot(s.ring, k).flag == Submitted;
    assert s.ring[c].ppa != Media(l, p);
    SlotSettled(s.ring, c, s.ring[c].(done := true), l, p);
  }

  lemma L2pSettled(s: State, l: nat, p: nat)
    requires L2pReady(s) && Settled(s, l, p)
    ensures Settled(L2pStep(s), l, p)
  {
    var c := Wrap(s.l2p, |s.ring|);
    SlotSettled(s.ring, c, s.ring[c].(flag := Writable, ppa := Empty), l, p);
  }

  lemma WriteSettled(s: State, k: nat, a: nat, d: Data, w: Writer, l: nat, p: nat)
    requires Sized(s) && Settled(s, l, p)
    ensures Settled(Noted(s, k, a, d, w), l, p)
  {
    SlotSettled(s.ring, Wrap(k, |s.ring|), Entry(Written, a, Empty, d, false), l, p);
  }

  lemma ReplaceSettled(s: State, m: nat, secs: seq<nat>, l: nat, p: nat)
    requires m < |s.lines| && Erased(s.media, m) && Settled(s, l, p) && (l, p) in s.media
    ensures Settled(ReplaceStep(s, m, secs), l, p)
  {
  }

  lemma WipeSettled(s: State, m: nat, q: nat, l: nat, p: nat)
    requires (m, q) != (l, p) && Settled(s, l, p) && (l, p) in s.media
    ensures var t := WipeStep(s, m, q); Settled(t, l, p) && (l, p) in t.media && t.media[(l, p)] == s.media[(l, p)]
  {
  }

  /** The sector is settled in both and holds the same. */
  predicate Keeping(s: State, t: State, l: nat, p: nat)
    requires (l, p) in s.media
  {
    Settled(t, l, p) && (l, p) in t.media && t.media[(l, p)] == s.media[(l, p)]
  }

  lemma RemapSettled(s: State, a: nat, q: Ppa, l: nat, p: nat)
    requires Mapped(s, a) && HandedOut(s.lines, l, p)
    ensures var t := Remap(s, a, q); HandedOut(t.lines, l, p) && t.ring == s.ring && t.media == s.media
  {
  }

  /** The steps that change neither a slot nor the device. */
  lemma LineSettled(s: State, op: Op, l: nat, p: nat)
    requires Enabled(s, op) && HandedOut(s.lines, l, p)
    requires !op.Replace? && !op.Wipe? && !op.L2pOne? && !op.MapEntry? && !op.Fill? && !op.GcFill? && !op.Program?
    ensures HandedOut(Step(s, op).lines, l, p) && Step(s, op).ring == s.ring && Step(s, op).media == s.media
  {
    match op
    case Publish(k, a, d) => RemapSettled(s, a, Cached(Wrap(k, |s.ring|)), l, p);
    case Discard(a) => RemapSettled(s, a, Empty, l, p);
    case _ =>
  }

  lemma SettledFrame(s: State, t: State, l: nat, p: nat)
    requires Settled(s, l, p) && (l, p) in s.media && HandedOut(t.lines, l, p) && t.ring == s.ring && t.media == s.media
    ensures Keeping(s, t, l, p)
  {
  }

  /** The steps that do. */
  lemma SlotSettledStep(s: State, op: Op, l: nat, p: nat)
    requires Core(s) && Enabled(s, op) && Settled(s, l, p) && (l, p) in s.media && op != Wipe(l, p)
    requires op.Replace? || op.Wipe? || op.L2pOne? || op.MapEntry? || op.Fill? || op.GcFill? || op.Program?
    ensures Keeping(s, Step(s, op), l, p)
  {
    hide Core, Settled, NotPending, HandedOut;
    match op
    case MapEntry => MapSettled(s, l, p);
    case Program(k) => ProgramSettled(s, k, l, p);
    case L2pOne => L2pSettled(s, l, p);
    case Fill(k, a, d) => WriteSettled(s, k, a, d, User(a, d), l, p);
    case GcFill(k, m, q) => WriteSettled(s, k, s.gc[(m, q)].lba, s.gc[(m, q)].data, Collector(m, q), l, p);
    case Replace(m, secs) => ReplaceSettled(s, m, secs, l, p);
    case Wipe(m, q) => WipeSettled(s, m, q, l, p);
  }

  lemma SettledStep(s: State, op: Op, l: nat, p: nat)
    requires Inv(s) && Enabled(s, op) && Settled(s, l, p) && (l, p) in s.media && op != Wipe(l, p)
    ensures Keeping(s, Step(s, op), l, p)
  {
    hide Core, Keeping, NotPending, HandedOut;
    if op.Replace? || op.Wipe? || op.L2pOne? || op.MapEntry? || op.Fill? || op.GcFill? || op.Program? {
      SlotSettledStep(s, op, l, p);
    } else {
      LineSettled(s, op, l, p);
      SettledFrame(s, Step(s, op), l, p);
    }
  }

  /** The run does not erase sector `p` of line `l`. */
  predicate NotWiped(r: Run, l: nat, p: nat) {
    r.Then? ==> r.op != Wipe(l, p) && NotWiped(r.prev, l, p)
  }

  lemma {:induction false} SettledRun(s: State, r: Run, l: nat, p: nat)
    requires Inv(s) && RunTo(s, r).Some? && Settled(s, l, p) && (l, p) in s.media && NotWiped(r, l, p)
    ensures Keeping(s, RunTo(s, r).value, l, p)
  {
    if r.Then? {
      hide Inv, Settled;
      SettledRun(s, r.prev, l, p);
      RunRefines(s, r.prev);
      SettledStep(RunTo(s, r.prev).value, r.op, l, p);
    }
  }

  /**
   A read sent to the device returns what its address held at the lookup, whatever runs meanwhile (overwriting and
   discarding it, GC moving it and freeing its line), as long as its sector is not erased.
   */
  lemma ReadInFlight(s: State, r: Run, a: nat)
    requires Inv(s) && RunTo(s, r).Some? && a < |s.trans| && s.trans[a].Media? && NotWiped(r, s.trans[a].line, s.trans[a].sec)
    ensures var key := (s.trans[a].line, s.trans[a].sec); Readable(s, a) && OnDevice(RunTo(s, r).value, key, Read(s, a))
  {
    InvReadable(s);
    MappedSettled(s, a);
    SettledRun(s, r, s.trans[a].line, s.trans[a].sec);
  }

  /** The device holds `d` at `key`. */
  predicate OnDevice(t: State, key: (nat, nat), d: Option<Data>) {
    key in t.media && d == Some(t.media[key])
  }

  /** In every state of the run. */
  predicate StaysOnDevice(s: State, r: Run, key: (nat, nat), d: Option<Data>)
    requires RunTo(s, r).Some?
  {
    OnDevice(RunTo(s, r).value, key, d) && (r.Then? ==> StaysOnDevice(s, r.prev, key, d))
  }

  lemma WipeErases(s: State, r: Run, key: (nat, nat), d: Option<Data>)
    requires RunTo(s, r).Some? && r.Then? && r.op == Wipe(key.0, key.1)
    ensures !OnDevice(RunTo(s, r).value, key, d)
  {
    assert RunTo(s, r).value == WipeStep(RunTo(s, r.prev).value, key.0, key.1);
  }

  /**
   The device holds what a read was sent for all through a run if and only if the run does not erase its sector; the
   driver does nothing to keep it from doing so.
   */
  lemma {:induction false} ReadExact(s: State, r: Run, a: nat)
    requires Inv(s) && RunTo(s, r).Some? && a < |s.trans| && s.trans[a].Media? && Readable(s, a)
    ensures var l, p := s.trans[a].line, s.trans[a].sec; StaysOnDevice(s, r, (l, p), Read(s, a)) <==> NotWiped(r, l, p)
  {
    var l, p := s.trans[a].line, s.trans[a].sec;
    if r.Then? {
      ReadExact(s, r.prev, a);
      if r.op == Wipe(l, p) {
        WipeErases(s, r, (l, p), Read(s, a));
      } else if NotWiped(r, l, p) {
        ReadInFlight(s, r, a);
      }
    }
  }

  lemma {:induction false} CollectingKept(s: State, r: Run, l: nat, p: nat)
    requires Collecting(s, r, l)
    ensures NotWiped(r, l, p)
  {
    if r.Then? { CollectingKept(s, r.prev, l, p); }
  }

  /** What GC looked up in its victim the device still holds when the read completes, as long as GC has the line. */
  lemma GcReadInFlight(s: State, r: Run, l: nat, a: nat)
    requires Inv(s) && Collecting(s, r, l) && LiesIn(s.trans, a, l)
    ensures Readable(s, a) && OnDevice(RunTo(s, r).value, (l, s.trans[a].sec), Read(s, a))
  {
    CollectingKept(s, r, l, s.trans[a].sec);
    ReadInFlight(s, r, a);
  }

  // ---------------------------------------------------------------- reads from the ring

  /** The check of `pblk_rb_copy_to_bio`: slot `c` still holds address `a`. */
  predicate CopyOk(s: State, a: nat, c: nat) {
    c < |s.ring| && s.ring[c].lba == a && s.ring[c].flag != Writable
  }

  /** `l2p` only advances. */
  lemma L2pAdvances(s: State, op: Op)
    requires Enabled(s, op)
    ensures s.l2p <= Step(s, op).l2p
  {
  }

  /** Position `k` is filled and has not left the ring. */
  predicate Filled(s: State, k: nat) {
    s.l2p <= k < s.mem && k !in s.unfilled
  }

  /** Position `k` keeps its address and data from `s` to `t`. */
  predicate Stays(s: State, t: State, k: nat)
    requires s.ring != []
  {
    && t.ring != [] && |t.ring| == |s.ring| && Filled(t, k)
    && Slot(t.ring, k).lba == Slot(s.ring, k).lba && Slot(t.ring, k).data == Slot(s.ring, k).data
  }

  lemma WriteStays(s: State, j: nat, b: nat, d: Data, k: nat)
    requires Pointers(s) && Filled(s, k) && j in s.unfilled
    ensures Stays(s, WriteEntry(s, j, b, d), k)
  {
    UpdateSlot(s.ring, WriteEntry(s, j, b, d).ring, s.l2p, j, Entry(Written, b, Empty, d, false));
  }

  lemma MapStays(s: State, k: nat)
    requires Pointers(s) && Filled(s, k) && CanAlloc(s) && s.subm < s.mem
    ensures Stays(s, MapEntryStep(s), k)
  {
    UpdateSlot(s.ring, MapEntryStep(s).ring, s.l2p, s.subm, MapEntryStep(s).ring[Wrap(s.subm, |s.ring|)]);
  }

  lemma ProgramStays(s: State, j: nat, k: nat)
    requires Pointers(s) && Filled(s, k) && s.sync <= j < s.disp && Slot(s.ring, j).ppa.Media?
    ensures Stays(s, ProgramStep(s, j), k)
  {
    UpdateSlot(s.ring, ProgramStep(s, j).ring, s.l2p, j, Slot(s.ring, j).(done := true));
  }

  lemma L2pStays(s: State, k: nat)
    requires Pointers(s) && Filled(s, k) && L2pReady(s) && s.l2p < k
    ensures Stays(s, L2pStep(s), k)
  {
    UpdateSlot(s.ring, L2pStep(s).ring, s.l2p, s.l2p, Slot(s.ring, s.l2p).(flag := Writable, ppa := Empty));
  }

  lemma OtherStays(s: State, op: Op, k: nat)
    requires Pointers(s) && Enabled(s, op) && Filled(s, k)
    requires !op.Fill? && !op.GcFill? && !op.MapEntry? && !op.Program? && !op.L2pOne?
    ensures Stays(s, Step(s, op), k)
  {
  }

  lemma SlotStays(s: State, op: Op, k: nat)
    requires Pointers(s) && Enabled(s, op) && Filled(s, k) && Step(s, op).l2p <= k
    ensures Stays(s, Step(s, op), k)
  {
    match op
    case Fill(j, b, d) => WriteStays(s, j, b, d, k);
    case GcFill(j, l, p) => WriteStays(s, j, s.gc[(l, p)].lba, s.gc[(l, p)].data, k);
    case MapEntry => MapStays(s, k);
    case Program(j) => ProgramStays(s, j, k);
    case L2pOne => L2pStays(s, k);
    case _ => OtherStays(s, op, k);
  }

  lemma {:induction false} FilledRun(s: State, r: Run, k: nat)
    requires Inv(s) && RunTo(s, r).Some? && Filled(s, k) && RunTo(s, r).value.l2p <= k
    ensures Inv(RunTo(s, r).value) && Stays(s, RunTo(s, r).value, k)
  {
    if r.Then? {
      var t := RunTo(s, r.prev).value;
      L2pAdvances(t, r.op);
      FilledRun(s, r.prev, k);
      StepKeeps(t, r.op);
      SlotStays(t, r.op, k);
    }
  }

  /**
   A read that found its address in the ring, at position `k`, copies what the address held at the lookup as long as
   the entry has not left the ring; only after that can the driver's check send it back to look again.
   */
  lemma CopyInFlight(s: State, r: Run, a: nat, k: nat)
    requires Inv(s) && RunTo(s, r).Some? && a < |s.trans| && s.trans[a] == Cached(Wrap(k, |s.ring|))
    requires s.l2p <= k < s.l2p + |s.ring| && RunTo(s, r).value.l2p <= k
    ensures var t := RunTo(s, r).value; var c := Wrap(k, |s.ring|);
      Readable(s, a) && CopyOk(t, a, c) && Read(s, a) == Some(t.ring[c].data)
  {
    InvReadable(s);
    assert Slot(s.ring, k).flag != Writable;
    FilledRun(s, r, k);
    var t := RunTo(s, r).value;
    assert Slot(t.ring, k) == t.ring[Wrap(k, |s.ring|)];
  }
}

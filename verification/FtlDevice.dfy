/** The steps of the writer thread, the device and the garbage collector keep the invariant. */
module FtlDevice {
  import opened Ftl
  import opened FtlInv
  import opened FtlSteps

  // ---------------------------------------------------------------- mapping entries to sectors

  lemma NextSecs(l: Line)
    requires l.next < |l.secs|
    ensures forall p :: p in l.secs[l.next..] ==> p == l.secs[l.next] || p in l.secs[l.next + 1..]
  {
    assert l.secs[l.next..] == [l.secs[l.next]] + l.secs[l.next + 1..];
  }

  lemma HandOutLine(l: Line, a: nat, c: nat, S: nat, nrSecs: nat)
    requires LineOk(l, S, nrSecs) && l.next < |l.secs| && a < nrSecs
    ensures LineOk(HandOut(l, a, c), S, nrSecs)
  {
    NextSecs(l);
  }

  lemma PadOutLine(l: Line, S: nat, nrSecs: nat)
    requires LineOk(l, S, nrSecs) && l.next < |l.secs|
    ensures LineOk(PadOut(l), S, nrSecs)
  {
    NextSecs(l);
  }

  lemma HandOutMaps(S: nat, ring: seq<Entry>, trans: seq<Ppa>, lines: seq<Line>, media: map<(nat, nat), Data>, c: nat, i: nat,
                   ring': seq<Entry>, lines': seq<Line>)
    requires MapOk(S, ring, trans, lines, media)
    requires c < |ring| && ring[c].flag == Written && i < |lines| && lines[i].next < |lines[i].secs|
    requires LineOk(lines[i], S, |trans|)
    requires ring' == ring[c := ring[c].(flag := Submitted, ppa := Media(i, lines[i].secs[lines[i].next]))]
    requires lines' == lines[i := HandOut(lines[i], ring[c].lba, c)]
    ensures MapOk(S, ring', trans, lines', media)
  {
  }

  lemma HandOutSlots(S: nat, ring: seq<Entry>, trans: seq<Ppa>, lines: seq<Line>, media: map<(nat, nat), Data>, c: nat, i: nat,
                    ring': seq<Entry>, lines': seq<Line>)
    requires SlotsOk(S, ring, |trans|, lines, media)
    requires c < |ring| && ring[c].flag == Written && i < |lines| && lines[i].next < |lines[i].secs|
    requires LineOk(lines[i], S, |trans|)
    requires ring' == ring[c := ring[c].(flag := Submitted, ppa := Media(i, lines[i].secs[lines[i].next]))]
    requires lines' == lines[i := HandOut(lines[i], ring[c].lba, c)]
    ensures SlotsOk(S, ring', |trans|, lines', media)
  {
  }

  lemma HandOutOwned(S: nat, ring: seq<Entry>, trans: seq<Ppa>, lines: seq<Line>, media: map<(nat, nat), Data>, c: nat, i: nat,
                    ring': seq<Entry>, lines': seq<Line>)
    requires Owned(S, ring, trans, lines) && SlotsOk(S, ring, |trans|, lines, media)
    requires c < |ring| && ring[c].flag == Written && i < |lines| && lines[i].next < |lines[i].secs|
    requires LineOk(lines[i], S, |trans|)
    requires ring' == ring[c := ring[c].(flag := Submitted, ppa := Media(i, lines[i].secs[lines[i].next]))]
    requires lines' == lines[i := HandOut(lines[i], ring[c].lba, c)]
    ensures Owned(S, ring', trans, lines')
  {
  }

  lemma MappedGrow(ring: seq<Entry>, ring': seq<Entry>, lo: nat, hi: nat, i: nat, j: nat)
    requires ring != [] && ring' != [] && lo <= hi
    requires forall k {:trigger Slot(ring', k)} :: lo <= k < hi ==> Slot(ring', k).ppa == Slot(ring, k).ppa
    requires Slot(ring', hi).ppa.Media? && Slot(ring', hi).ppa.line == i
    ensures |MappedTo(ring', lo, hi + 1, j)| == |MappedTo(ring, lo, hi, j)| + if j == i then 1 else 0
  {
    MappedFrame(ring, ring', lo, hi, j);
    var mapped := MappedTo(ring', lo, hi, j);
    assert MappedTo(ring', lo, hi + 1, j) == mapped + if j == i then {hi} else {};
  }

  lemma MapFlags(ring: seq<Entry>, ring': seq<Entry>, unfilled: set<nat>, l2p: nat, sync: nat, subm: nat, mem: nat, e: Entry)
    requires ring != [] && Flags(ring, unfilled, l2p, sync, subm, mem)
    requires l2p <= sync <= subm < mem < l2p + |ring| && e.flag == Submitted
    requires ring' == ring[Wrap(subm, |ring|) := e]
    ensures Flags(ring', unfilled, l2p, sync, subm + 1, mem)
  {
    UpdateSlot(ring, ring', l2p, subm, e);
  }

  lemma UnfilledAfter(unfilled: set<nat>, subm: nat, mem: nat)
    requires subm !in unfilled && (forall k :: k in unfilled ==> subm <= k < mem)
    ensures forall k :: k in unfilled ==> subm + 1 <= k < mem
  {
    forall k | k in unfilled ensures subm + 1 <= k {
      if k == subm { assert false; }
    }
  }

  lemma MapEntryPointers(s: State)
    requires Pointers(s) && Flags(s.ring, s.unfilled, s.l2p, s.sync, s.subm, s.mem) && s.subm < s.mem
    requires CanAlloc(s) && Slot(s.ring, s.subm).flag == Written
    ensures Pointers(MapEntryStep(s))
    ensures var t := MapEntryStep(s); Flags(t.ring, t.unfilled, t.l2p, t.sync, t.subm, t.mem)
  {
    UnfilledAfter(s.unfilled, s.subm, s.mem);
    var t := MapEntryStep(s);
    MapFlags(s.ring, t.ring, s.unfilled, s.l2p, s.sync, s.subm, s.mem, t.ring[Wrap(s.subm, |s.ring|)]);
  }

  lemma MapEntryDone(s: State)
    requires Pointers(s) && CanAlloc(s) && s.subm < s.mem
    requires Tiled(s.reqs, s.sync, s.disp) && BackDone(s.ring, s.reqs)
    ensures BackDone(MapEntryStep(s).ring, s.reqs)
  {
    var t := MapEntryStep(s);
    UpdateSlot(s.ring, t.ring, s.l2p, s.subm, t.ring[Wrap(s.subm, |s.ring|)]);
    BackDoneFrame(s.ring, t.ring, s.reqs, s.sync, s.disp);
  }

  lemma MapEntryMapped(s: State, lo: nat, j: nat)
    requires Pointers(s) && CanAlloc(s) && s.subm < s.mem && s.l2p <= lo <= s.subm
    ensures var t := MapEntryStep(s);
      |MappedTo(t.ring, lo, t.subm, j)| == |MappedTo(s.ring, lo, s.subm, j)| + if j == s.cur then 1 else 0
  {
    var t := MapEntryStep(s);
    UpdateSlot(s.ring, t.ring, s.l2p, s.subm, t.ring[Wrap(s.subm, |s.ring|)]);
    MappedGrow(s.ring, t.ring, lo, s.subm, s.cur, j);
  }

  lemma MapEntryCounts(s: State)
    requires Pointers(s) && CanAlloc(s) && s.lines[s.cur].state == Open && s.subm < s.mem
    requires Counts(s.ring, s.lines, s.l2p, s.sync, s.subm)
    ensures var t := MapEntryStep(s); Counts(t.ring, t.lines, t.l2p, t.sync, t.subm)
  {
    var t := MapEntryStep(s);
    forall j | 0 <= j < |s.lines|
      ensures |MappedTo(t.ring, t.sync, t.subm, j)| == |MappedTo(s.ring, s.sync, s.subm, j)| + if j == s.cur then 1 else 0
      ensures |MappedTo(t.ring, t.l2p, t.subm, j)| == |MappedTo(s.ring, s.l2p, s.subm, j)| + if j == s.cur then 1 else 0
    {
      MapEntryMapped(s, s.sync, j);
      MapEntryMapped(s, s.l2p, j);
    }
  }

  lemma MapEntryCore(s: State)
    requires Core(s) && s.subm < s.mem && Slot(s.ring, s.subm).flag == Written && CanAlloc(s)
    ensures Core(MapEntryStep(s))
  {
    var c, l, t := Wrap(s.subm, |s.ring|), s.lines[s.cur], MapEntryStep(s);
    assert LineOk(l, s.secPerLine, |s.trans|);
    MapEntryPointers(s);
    MapEntryDone(s);
    MapEntryCounts(s);
    HandOutLine(l, s.ring[c].lba, c, s.secPerLine, |s.trans|);
    LinesUpdate(s.secPerLine, |s.trans|, s.lines, s.cur, HandOut(l, s.ring[c].lba, c));
    HandOutMaps(s.secPerLine, s.ring, s.trans, s.lines, s.media, c, s.cur, t.ring, t.lines);
    HandOutSlots(s.secPerLine, s.ring, s.trans, s.lines, s.media, c, s.cur, t.ring, t.lines);
    HandOutOwned(s.secPerLine, s.ring, s.trans, s.lines, s.media, c, s.cur, t.ring, t.lines);
    GcLine(s.trans, s.lines, s.media, s.gc, s.cur, t.lines[s.cur]);
  }

  /** A slot of the ring changes and keeps its lba and data; the lines keep what GC has looked at. */
  lemma SlotHalf(s: State, t: State, k: nat, e: Entry)
    requires Pointers(s) && Sized(t) && HalfOk(s) && s.l2p <= k < s.mem && t.ring == s.ring[Wrap(k, |s.ring|) := e]
    requires t.half == s.half && t.gc == s.gc && t.trans == s.trans && t.l2p == s.l2p && t.mem == s.mem && t.unfilled == s.unfilled
    requires e.lba == Slot(s.ring, k).lba && e.data == Slot(s.ring, k).data
    requires |t.lines| == |s.lines| && forall l :: 0 <= l < |s.lines| ==> t.lines[l].scanned == s.lines[l].scanned
    ensures HalfOk(t)
  {
    UpdateSlot(s.ring, t.ring, s.l2p, k, e);
    forall j | j in s.half ensures WriterOk(s.half[j], t.lines, s.gc, |s.trans|) {
      assert WriterOk(s.half[j], s.lines, s.gc, |s.trans|);
    }
    HalfFrame(s, t);
  }

  lemma MapEntryHalf(s: State)
    requires Pointers(s) && CanAlloc(s) && s.subm < s.mem && HalfOk(s)
    ensures HalfOk(MapEntryStep(s))
  {
    var t := MapEntryStep(s);
    SlotHalf(s, t, s.subm, t.ring[Wrap(s.subm, |s.ring|)]);
  }

  /** The new entry is mapped to an open line, so it is no concern of GC. */
  lemma MapEntryQuiet(s: State)
    requires Pointers(s) && CanAlloc(s) && s.subm < s.mem && s.lines[s.cur].state == Open && Quiet(s)
    ensures Quiet(MapEntryStep(s))
  {
    var t := MapEntryStep(s);
    UpdateSlot(s.ring, t.ring, s.l2p, s.subm, t.ring[Wrap(s.subm, |s.ring|)]);
    forall l, k | 0 <= l < |t.lines| && t.lines[l].state == Gc && t.l2p <= k < t.subm && MapsTo(t.ring, k, l) ensures !Installs(t, k) {
      assert NoInstalls(s, l) && MapsTo(s.ring, k, l);
    }
  }

  lemma MapEntryKeeps(s: State)
    requires Inv(s) && s.subm < s.mem && Slot(s.ring, s.subm).flag == Written && CanAlloc(s)
    ensures Inv(MapEntryStep(s))
  {
    assert LineOk(s.lines[s.cur], s.secPerLine, |s.trans|);
    MapEntryCore(s);
    MapEntryHalf(s);
    MapEntryQuiet(s);
    MapEntryTended(s);
  }

  lemma MapEntryTended(s: State)
    requires Pointers(s) && CanAlloc(s) && s.subm < s.mem && HalfOk(s) && Tended(s)
    ensures Tended(MapEntryStep(s))
  {
    var t := MapEntryStep(s);
    UpdateSlot(s.ring, t.ring, s.l2p, s.subm, t.ring[Wrap(s.subm, |s.ring|)]);
    UsersStay(s);
    TendedFrame(s, t);
  }

  lemma PadMaps(S: nat, ring: seq<Entry>, trans: seq<Ppa>, lines: seq<Line>, media: map<(nat, nat), Data>, i: nat)
    requires MapOk(S, ring, trans, lines, media) && SlotsOk(S, ring, |trans|, lines, media)
    requires i < |lines| && LineOk(lines[i], S, |trans|) && lines[i].next < |lines[i].secs|
    ensures var lines' := lines[i := PadOut(lines[i])];
      MapOk(S, ring, trans, lines', media) && SlotsOk(S, ring, |trans|, lines', media)
  {
  }

  lemma PadOwned(S: nat, ring: seq<Entry>, trans: seq<Ppa>, lines: seq<Line>, i: nat)
    requires Owned(S, ring, trans, lines) && i < |lines| && LineOk(lines[i], S, |trans|) && lines[i].next < |lines[i].secs|
    ensures Owned(S, ring, trans, lines[i := PadOut(lines[i])])
  {
  }

  /** Replacing a line by one in the same state, with the same reference and scan, keeps GC's facts. */
  lemma GcLine(trans: seq<Ppa>, lines: seq<Line>, media: map<(nat, nat), Data>, gc: map<(nat, nat), GcItem>, i: nat, l: Line)
    requires GcOk(trans, lines, media, gc) && i < |lines|
    requires l.state == lines[i].state && l.held == lines[i].held && l.scanned == lines[i].scanned
    ensures GcOk(trans, lines[i := l], media, gc)
  {
  }

  lemma PadCounts(ring: seq<Entry>, lines: seq<Line>, l2p: nat, sync: nat, subm: nat, i: nat)
    requires ring != [] && Counts(ring, lines, l2p, sync, subm)
    requires i < |lines| && lines[i].next < |lines[i].secs| && lines[i].state != Free
    ensures Counts(ring, lines[i := PadOut(lines[i])], l2p, sync, subm)
  {
  }

  lemma MapPadCore(s: State)
    requires Core(s) && CanAlloc(s)
    ensures Core(MapPadStep(s))
  {
    var l := s.lines[s.cur];
    assert LineOk(l, s.secPerLine, |s.trans|);
    PadOutLine(l, s.secPerLine, |s.trans|);
    LinesUpdate(s.secPerLine, |s.trans|, s.lines, s.cur, PadOut(l));
    PadMaps(s.secPerLine, s.ring, s.trans, s.lines, s.media, s.cur);
    PadOwned(s.secPerLine, s.ring, s.trans, s.lines, s.cur);
    GcLine(s.trans, s.lines, s.media, s.gc, s.cur, PadOut(l));
    PadCounts(s.ring, s.lines, s.l2p, s.sync, s.subm, s.cur);
  }

  /** A step on the lines that lets none enter GC and keeps what GC has looked at. */
  lemma LineWriters(s: State, t: State)
    requires Sized(s) && Sized(t) && HalfOk(s) && Quiet(s)
    requires t == s.(lines := t.lines, sync := t.sync, reqs := t.reqs, cur := t.cur, media := t.media) && |t.lines| == |s.lines|
    requires forall l :: 0 <= l < |s.lines| ==> (t.lines[l].state == Gc ==> s.lines[l].state == Gc)
    requires forall k :: k in s.half && s.half[k].Collector? && s.half[k].line < |s.lines| ==>
      s.lines[s.half[k].line].scanned <= t.lines[s.half[k].line].scanned
    ensures HalfOk(t) && Quiet(t)
  {
    forall k | k in s.half ensures WriterOk(s.half[k], t.lines, s.gc, |s.trans|) {
      assert WriterOk(s.half[k], s.lines, s.gc, |s.trans|);
    }
    HalfFrame(s, t);
    QuietFrame(s, t);
  }

  /** A step on the lines, none of which GC takes, lets go or looks at. */
  lemma LineTended(s: State, t: State)
    requires Sized(s) && Sized(t) && HalfOk(s) && Tended(s) && SameGc(s, t)
    requires t == s.(lines := t.lines, sync := t.sync, reqs := t.reqs, cur := t.cur, media := t.media)
    ensures Tended(t)
  {
    UsersStay(s);
    TendedFrame(s, t);
  }

  lemma MapPadKeeps(s: State)
    requires Inv(s) && CanAlloc(s)
    ensures Inv(MapPadStep(s))
  {
    MapPadCore(s);
    LineWriters(s, MapPadStep(s));
    LineTended(s, MapPadStep(s));
  }

  // ---------------------------------------------------------------- the device

  lemma ProgramMaps(S: nat, ring: seq<Entry>, trans: seq<Ppa>, lines: seq<Line>, media: map<(nat, nat), Data>, c: nat)
    requires MapOk(S, ring, trans, lines, media) && SlotsOk(S, ring, |trans|, lines, media)
    requires Owned(S, ring, trans, lines) && c < |ring| && ring[c].flag == Submitted && ring[c].ppa.Media?
    ensures
      var ring' := ring[c := ring[c].(done := true)];
      var media' := media[(ring[c].ppa.line, ring[c].ppa.sec) := ring[c].data];
      && MapOk(S, ring', trans, lines, media') && SlotsOk(S, ring', |trans|, lines, media')
      && Owned(S, ring', trans, lines)
  {
  }

  lemma ProgramGc(S: nat, ring: seq<Entry>, trans: seq<Ppa>, lines: seq<Line>, media: map<(nat, nat), Data>,
                  gc: map<(nat, nat), GcItem>, c: nat)
    requires MapOk(S, ring, trans, lines, media) && SlotsOk(S, ring, |trans|, lines, media)
    requires GcOk(trans, lines, media, gc) && c < |ring| && ring[c].flag == Submitted && ring[c].ppa.Media?
    ensures GcOk(trans, lines, media[(ring[c].ppa.line, ring[c].ppa.sec) := ring[c].data], gc)
  {
  }

  lemma ProgramFlags(ring: seq<Entry>, ring': seq<Entry>, unfilled: set<nat>, l2p: nat, sync: nat, subm: nat, mem: nat, k: nat)
    requires ring != [] && Flags(ring, unfilled, l2p, sync, subm, mem)
    requires l2p <= sync <= k < subm <= mem < l2p + |ring|
    requires ring' == ring[Wrap(k, |ring|) := Slot(ring, k).(done := true)]
    ensures Flags(ring', unfilled, l2p, sync, subm, mem)
  {
    UpdateSlot(ring, ring', l2p, k, Slot(ring, k).(done := true));
  }

  lemma ProgramRing(s: State, k: nat)
    requires RingOk(s) && s.sync <= k < s.disp && Slot(s.ring, k).ppa.Media?
    ensures var t := ProgramStep(s, k); RingOk(t) && forall j :: s.l2p <= j < s.subm ==> Slot(t.ring, j).ppa == Slot(s.ring, j).ppa
  {
    var ring' := ProgramStep(s, k).ring;
    ProgramFlags(s.ring, ring', s.unfilled, s.l2p, s.sync, s.subm, s.mem, k);
    UpdateSlot(s.ring, ring', s.l2p, k, Slot(s.ring, k).(done := true));
    BackDoneFrame(s.ring, ring', s.reqs, s.sync, s.disp);
  }

  lemma DispatchedSlot(s: State, k: nat)
    requires RingOk(s) && s.sync <= k < s.disp
    ensures Slot(s.ring, k).flag == Submitted
  {
  }

  lemma ProgramCore(s: State, k: nat)
    requires Core(s) && s.sync <= k < s.disp && Slot(s.ring, k).ppa.Media?
    ensures Core(ProgramStep(s, k))
  {
    hide Flags, Tiled, BackDone, MapOk, SlotsOk, LinesOk, Counts, Owned, GcOk;
    var c := Wrap(k, |s.ring|);
    DispatchedSlot(s, k);
    ProgramRing(s, k);
    CountsRing(s.ring, ProgramStep(s, k).ring, s.lines, s.l2p, s.sync, s.subm);
    ProgramMaps(s.secPerLine, s.ring, s.trans, s.lines, s.media, c);
    ProgramGc(s.secPerLine, s.ring, s.trans, s.lines, s.media, s.gc, c);
  }

  lemma ProgramWriters(s: State, k: nat)
    requires Pointers(s) && HalfOk(s) && Quiet(s) && Tended(s) && s.sync <= k < s.disp && Slot(s.ring, k).ppa.Media?
    ensures HalfOk(ProgramStep(s, k)) && Quiet(ProgramStep(s, k)) && Tended(ProgramStep(s, k))
  {
    var t, e := ProgramStep(s, k), Slot(s.ring, k).(done := true);
    SlotHalf(s, t, k, e);
    UpdateSlot(s.ring, t.ring, s.l2p, k, e);
    QuietFrame(s, t);
    UsersStay(s);
    TendedFrame(s, t);
  }

  lemma ProgramKeeps(s: State, k: nat)
    requires Inv(s) && s.sync <= k < s.disp && Slot(s.ring, k).ppa.Media?
    ensures Inv(ProgramStep(s, k))
  {
    ProgramCore(s, k);
    ProgramWriters(s, k);
  }
}

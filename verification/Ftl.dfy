/**
 pblk as a step system.

 One state holds the write ring, the logical-to-physical map, the lines of
 flash, the device contents and what the garbage collector has in hand.  Every
 step touches at most one ring entry, one logical address or one line, so a
 lock-protected region of the driver is a short sequence of steps, and runs
 interleave more finely than the driver can.

 Ring positions (`mem`, `subm`, ...) are unwrapped: they only grow, and position
 `k` names slot `k` modulo the ring size.  The class `Pblk` keeps the masked positions of the
 driver and is proved to follow this system.
 */
module Ftl {
  import opened Basics

  /** The contents of one sector. */
  type Data = int

  /** An entry of `trans_map`: empty, a cacheline of the write ring, or a sector of a line. */
  datatype Ppa = Empty | Cached(slot: nat) | Media(line: nat, sec: nat)

  datatype Flag = Writable | Written | Submitted

  /** A ring entry with its write context; `done` once the device has programmed it. */
  datatype Entry = Entry(flag: Flag, lba: nat, ppa: Ppa, data: Data, done: bool)

  datatype LineState = Free | Open | Closed | Gc

  /**
   A line.  `secs` lists its data sectors in allocation order and `next` counts those
   handed out (`left_msecs` is `|secs| - next`).  `invalid` is the invalid bitmap as the
   set of its set bits; `lbas` is the lba list of the end metadata.  `home`, `pads`,
   `held` and `scanned` record which slot a sector was mapped from, how many sectors
   were padding, whether the line still has its first reference, and what GC has looked at.
   */
  datatype Line = Line(
    state: LineState, secs: seq<nat>, next: nat, invalid: set<nat>,
    vsc: int, leftSsecs: int, refs: int, lbas: map<nat, Option<nat>>,
    home: map<nat, nat>, pads: nat, held: bool, scanned: set<nat>)

  /** A write request handed to the device; `back` once its completion has arrived. */
  datatype Req = Req(sentry: nat, nr: nat, back: bool)

  /** A sector GC has read from its victim and not yet moved. */
  datatype GcItem = GcItem(lba: nat, data: Data)

  /** Whoever has filled a slot and is yet to update the map: a user with its address and data, or GC. */
  datatype Writer = User(lba: nat, data: Data) | Collector(line: nat, sec: nat)

  /** `unfilled` are the positions reserved and not filled, `half` those filled and not yet mapped. */
  datatype State = State(
    secPerLine: nat, mem: nat, subm: nat, disp: nat, sync: nat, l2p: nat,
    ring: seq<Entry>, unfilled: set<nat>, half: map<nat, Writer>, reqs: seq<Req>,
    trans: seq<Ppa>, lines: seq<Line>, cur: nat,
    media: map<(nat, nat), Data>, gc: map<(nat, nat), GcItem>)

  predicate Sized(s: State) {
    s.ring != [] && s.cur < |s.lines|
  }

  /** The slot of unwrapped position `k` in a ring of `n`: `k` modulo `n`. */
  function Wrap(k: nat, n: nat): (c: nat)
    requires n > 0
    ensures c < n
  {
    if k < n then k else Wrap(k - n, n)
  }

  /** The entry of `ring` at unwrapped position `k`. */
  function Slot(ring: seq<Entry>, k: nat): Entry
    requires ring != []
  {
    ring[Wrap(k, |ring|)]
  }

  // ---------------------------------------------------------------- reading

  predicate Readable(s: State, a: nat) {
    a < |s.trans| &&
    match s.trans[a]
    case Empty => true
    case Cached(c) => c < |s.ring|
    case Media(l, p) => (l, p) in s.media
  }

  /** What a read of logical address `a` returns. */
  function Read(s: State, a: nat): Option<Data>
    requires Readable(s, a)
  {
    match s.trans[a]
    case Empty => None
    case Cached(c) => Some(s.ring[c].data)
    case Media(l, p) => Some(s.media[(l, p)])
  }

  // ---------------------------------------------------------------- map updates

  /** `pblk_page_invalidate` on one line: nothing for lines in GC or free, nothing twice. */
  function Invalidate(l: Line, p: nat): Line {
    if l.state == Gc || l.state == Free || p in l.invalid then l
    else l.(invalid := l.invalid + {p}, vsc := l.vsc - 1)
  }

  function InvalidateAt(s: State, q: Ppa): State
    requires q.Media? ==> q.line < |s.lines|
  {
    if q.Media? then s.(lines := s.lines[q.line := Invalidate(s.lines[q.line], q.sec)]) else s
  }

  predicate Mapped(s: State, a: nat) {
    a < |s.trans| && (s.trans[a].Media? ==> s.trans[a].line < |s.lines|)
  }

  /** Drop what `a` maps to and map it to `q`; the common part of discard and `pblk_update_map_cache`. */
  function Remap(s: State, a: nat, q: Ppa): State
    requires Mapped(s, a)
  {
    InvalidateAt(s, s.trans[a]).(trans := s.trans[a := q])
  }

  /** `pblk_rb_write_entry`: store data and context in slot `k % n`. */
  function WriteEntry(s: State, k: nat, a: nat, d: Data): State
    requires Sized(s)
  {
    s.(ring := s.ring[Wrap(k, |s.ring|) := Entry(Written, a, Empty, d, false)], unfilled := s.unfilled - {k})
  }

  /** A reference to line `l` is dropped; the last one frees it (`pblk_line_put`). */
  function PutRef(l: Line): Line {
    if l.refs == 1 then l.(refs := 0, state := Free) else l.(refs := l.refs - 1)
  }

  // ---------------------------------------------------------------- steps

  datatype Op =
    | Reserve(count: nat)                      // pblk_rb_may_write, after the L2P advance
    | Fill(pos: nat, lba: nat, data: Data)     // pblk_rb_write_entry in pblk_write_to_cache
    | Publish(pos: nat, lba: nat, data: Data)  // pblk_update_map_cache of that entry
    | Discard(lba: nat)                        // one round of pblk_invalidate_range
    | MapEntry                                 // one valid sector of pblk_map_page_data
    | MapPad                                   // one padded sector of pblk_map_page_data
    | Dispatch(count: nat)                     // pblk_submit_io of a write request
    | Program(pos: nat)                        // the device stores one sector
    | Ack(index: nat)                          // a completion arrives, in any order
    | SyncOne                                  // one entry of pblk_end_w_bio
    | L2pOne                                   // one round of __pblk_rb_update_l2p
    | Close(line: nat)                         // pblk_line_close
    | Wipe(line: nat, sec: nat)                // a sector of a block of a free line that is erased
    | Replace(line: nat, secs: seq<nat>)       // pblk_line_replace_data: the erased line is set up
    | GcStart(line: nat)                       // pblk_gc_run picks a victim
    | GcRead(line: nat, sec: nat)              // one sector of pblk_submit_read_gc
    | GcSkip(line: nat, sec: nat)              // a sector on its own there: looked up, counted, not handed on
    | GcFill(pos: nat, line: nat, sec: nat)    // pblk_rb_write_entry in pblk_write_gc_to_cache
    | GcPublish(pos: nat, line: nat, sec: nat) // pblk_update_map_gc of that entry
    | GcPut(line: nat)                         // the GC work drops its reference

  function FreshLine(secs: seq<nat>, secPerLine: nat): Line {
    Line(Open, secs, 0, (set p | 0 <= p < secPerLine && p !in secs), |secs|, |secs|, 1,
         map[], map[], 0, true, {})
  }

  predicate GoodSecs(secs: seq<nat>, secPerLine: nat) {
    && (forall i :: 0 <= i < |secs| ==> secs[i] < secPerLine)
    && (forall i, j :: 0 <= i < j < |secs| ==> secs[i] != secs[j])
  }

  predicate CanAlloc(s: State) {
    Sized(s) && s.lines[s.cur].next < |s.lines[s.cur].secs|
  }

  predicate SyncReady(s: State) {
    && Sized(s) && s.reqs != [] && s.reqs[0].back && s.reqs[0].nr > 0
    && Slot(s.ring, s.sync).ppa.Media? && Slot(s.ring, s.sync).ppa.line < |s.lines|
  }

  predicate L2pReady(s: State) {
    && Sized(s) && s.l2p < s.sync && Slot(s.ring, s.l2p).flag == Submitted
    && Slot(s.ring, s.l2p).lba < |s.trans|
    && Slot(s.ring, s.l2p).ppa.Media? && Slot(s.ring, s.l2p).ppa.line < |s.lines|
  }

  /** GC has looked at every valid sector of the victim and written out all it read. */
  predicate ScanDone(s: State, l: nat)
    requires l < |s.lines|
  {
    && (forall p :: 0 <= p < s.secPerLine && p !in s.lines[l].invalid ==> p in s.lines[l].scanned)
    && (forall key :: key in s.gc ==> key.0 != l)
  }

  /** The device holds nothing of line `l`. */
  predicate Erased(media: map<(nat, nat), Data>, l: nat) {
    forall key :: key in media ==> key.0 != l
  }

  /** Sector `p` of victim `l` is valid, not looked at yet, and the lba list names an address for it. */
  predicate CanScan(s: State, l: nat, p: nat) {
    && l < |s.lines| && s.lines[l].state == Gc && s.lines[l].held
    && p < s.secPerLine && p !in s.lines[l].invalid && p !in s.lines[l].scanned
    && p in s.lines[l].lbas && s.lines[l].lbas[p].Some? && Readable(s, s.lines[l].lbas[p].value)
  }

  predicate Enabled(s: State, op: Op) {
    Sized(s) &&
    match op
    case Reserve(count) => s.mem + count < s.l2p + |s.ring|
    case Fill(k, a, d) => k in s.unfilled && a < |s.trans|
    case Publish(k, a, d) => k in s.half && s.half[k] == User(a, d) && Mapped(s, a)
    case Discard(a) => Mapped(s, a)
    case MapEntry => s.subm < s.mem && Slot(s.ring, s.subm).flag == Written && CanAlloc(s)
    case MapPad => CanAlloc(s)
    case Dispatch(count) => 0 < count && s.disp + count <= s.subm
    case Program(k) => s.sync <= k < s.disp && Slot(s.ring, k).ppa.Media?
    case Ack(i) =>
      && i < |s.reqs| && !s.reqs[i].back
      && (forall k :: s.reqs[i].sentry <= k < s.reqs[i].sentry + s.reqs[i].nr ==> Slot(s.ring, k).done)
    case SyncOne => SyncReady(s)
    case L2pOne => L2pReady(s)
    case Close(l) => l < |s.lines| && s.lines[l].state == Open && s.lines[l].leftSsecs == 0
    case Wipe(l, p) => l < |s.lines| && s.lines[l].state == Free
    case Replace(l, secs) =>
      && !CanAlloc(s) && l < |s.lines| && s.lines[l].state == Free && Erased(s.media, l) && GoodSecs(secs, s.secPerLine)
    case GcStart(l) => l < |s.lines| && s.lines[l].state == Closed
    case GcRead(l, p) => CanScan(s, l, p)
    case GcSkip(l, p) => CanScan(s, l, p)
    case GcFill(k, l, p) => k in s.unfilled && (l, p) in s.gc && Collector(l, p) !in s.half.Values
    case GcPublish(k, l, p) =>
      && k in s.half && s.half[k] == Collector(l, p) && (l, p) in s.gc && s.gc[(l, p)].lba < |s.trans|
    case GcPut(l) =>
      && l < |s.lines| && s.lines[l].state == Gc && s.lines[l].held && ScanDone(s, l)
  }

  /** The positions `lo, ..., hi - 1`. */
  function Range(lo: nat, hi: nat): (r: set<nat>)
    ensures forall k: nat :: k in r <==> lo <= k < hi
    decreases hi - lo
  {
    if lo >= hi then {} else {lo} + Range(lo + 1, hi)
  }

  function ReserveStep(s: State, count: nat): State {
    s.(mem := s.mem + count, unfilled := s.unfilled + Range(s.mem, s.mem + count))
  }

  function FillStep(s: State, k: nat, a: nat, d: Data): State
    requires Sized(s)
  {
    WriteEntry(s, k, a, d).(half := s.half[k := User(a, d)])
  }

  function PublishStep(s: State, k: nat, a: nat): State
    requires Sized(s) && Mapped(s, a)
  {
    Remap(s, a, Cached(Wrap(k, |s.ring|))).(half := s.half - {k})
  }

  /** The line with its next data sector handed to slot `c` for lba `a`. */
  function HandOut(l: Line, a: nat, c: nat): Line
    requires l.next < |l.secs|
  {
    var p := l.secs[l.next];
    l.(next := l.next + 1, refs := l.refs + 1, lbas := l.lbas[p := Some(a)], home := l.home[p := c])
  }

  /** The line with its next data sector padded: `pblk_page_pad_invalidate`. */
  function PadOut(l: Line): Line
    requires l.next < |l.secs|
  {
    var p := l.secs[l.next];
    l.(next := l.next + 1, refs := l.refs + 1, pads := l.pads + 1, lbas := l.lbas[p := None],
       invalid := l.invalid + {p}, vsc := l.vsc - 1, leftSsecs := l.leftSsecs - 1)
  }

  function MapEntryStep(s: State): State
    requires CanAlloc(s)
  {
    var c := Wrap(s.subm, |s.ring|);
    var l := s.lines[s.cur];
    s.(subm := s.subm + 1,
       ring := s.ring[c := s.ring[c].(flag := Submitted, ppa := Media(s.cur, l.secs[l.next]))],
       lines := s.lines[s.cur := HandOut(l, s.ring[c].lba, c)])
  }

  function MapPadStep(s: State): State
    requires CanAlloc(s)
  {
    s.(lines := s.lines[s.cur := PadOut(s.lines[s.cur])])
  }

  function DispatchStep(s: State, count: nat): State {
    s.(disp := s.disp + count, reqs := s.reqs + [Req(s.disp, count, false)])
  }

  function ProgramStep(s: State, k: nat): State
    requires Sized(s) && Slot(s.ring, k).ppa.Media?
  {
    var e := Slot(s.ring, k);
    s.(media := s.media[(e.ppa.line, e.ppa.sec) := e.data], ring := s.ring[Wrap(k, |s.ring|) := e.(done := true)])
  }

  /** `pblk_sync_line`. */
  function SyncLine(l: Line): Line {
    l.(leftSsecs := l.leftSsecs - 1)
  }

  /** The request left after its first entry is synced is shorter, or gone. */
  function SyncReqs(reqs: seq<Req>): seq<Req>
    requires reqs != [] && reqs[0].nr > 0
  {
    var r := reqs[0];
    if r.nr == 1 then reqs[1..] else reqs[0 := r.(sentry := r.sentry + 1, nr := r.nr - 1)]
  }

  function SyncStep(s: State): State
    requires SyncReady(s)
  {
    var l := Slot(s.ring, s.sync).ppa.line;
    s.(sync := s.sync + 1, reqs := SyncReqs(s.reqs), lines := s.lines[l := SyncLine(s.lines[l])])
  }

  /** `pblk_update_map_dev`: install the media address unless the lba has moved on. */
  function UpdateMapDev(s: State, a: nat, q: Ppa, c: nat): State
    requires a < |s.trans| && q.Media? && q.line < |s.lines|
  {
    if s.trans[a] != Cached(c) then InvalidateAt(s, q) else s.(trans := s.trans[a := q])
  }

  /** The entry at `l2p` moves to the media address, its line reference goes and the slot is writable again. */
  function L2pStep(s: State): State
    requires L2pReady(s)
  {
    var c := Wrap(s.l2p, |s.ring|);
    var e := s.ring[c];
    var s1 := UpdateMapDev(s, e.lba, e.ppa, c);
    s1.(l2p := s.l2p + 1,
        lines := s1.lines[e.ppa.line := PutRef(s1.lines[e.ppa.line])],
        ring := s.ring[c := e.(flag := Writable, ppa := Empty)])
  }

  function ReplaceStep(s: State, l: nat, secs: seq<nat>): State
    requires l < |s.lines|
  {
    s.(cur := l, lines := s.lines[l := FreshLine(secs, s.secPerLine)])
  }

  function WipeStep(s: State, l: nat, p: nat): State {
    s.(media := s.media - {(l, p)})
  }

  function CloseLine(l: Line): Line { l.(state := Closed) }

  function CloseStep(s: State, l: nat): State
    requires l < |s.lines|
  {
    s.(lines := s.lines[l := CloseLine(s.lines[l])])
  }

  function StartLine(l: Line): Line { l.(state := Gc, scanned := {}) }

  function GcStartStep(s: State, l: nat): State
    requires l < |s.lines|
  {
    s.(lines := s.lines[l := StartLine(s.lines[l])])
  }

  function ScanLine(l: Line, p: nat): Line { l.(scanned := l.scanned + {p}) }

  function GcReadStep(s: State, l: nat, p: nat): State
    requires CanScan(s, l, p)
  {
    var a := s.lines[l].lbas[p].value;
    s.(lines := s.lines[l := ScanLine(s.lines[l], p)],
       gc := if s.trans[a].Media? && s.trans[a].line == l
             then s.gc[(l, p) := GcItem(a, s.media[(l, s.trans[a].sec)])] else s.gc)
  }

  function GcSkipStep(s: State, l: nat, p: nat): State
    requires l < |s.lines|
  {
    s.(lines := s.lines[l := ScanLine(s.lines[l], p)])
  }

  function GcFillStep(s: State, k: nat, l: nat, p: nat): State
    requires Sized(s) && (l, p) in s.gc
  {
    WriteEntry(s, k, s.gc[(l, p)].lba, s.gc[(l, p)].data).(half := s.half[k := Collector(l, p)])
  }

  /** `pblk_update_map_gc`: remap only what still lies in the victim. */
  function GcPublishStep(s: State, k: nat, l: nat, p: nat): State
    requires Sized(s) && (l, p) in s.gc && s.gc[(l, p)].lba < |s.trans|
  {
    var a := s.gc[(l, p)].lba;
    var s1 := s.(gc := s.gc - {(l, p)}, half := s.half - {k});
    if s.trans[a].Media? && s.trans[a].line == l
    then s1.(trans := s.trans[a := Cached(Wrap(k, |s.ring|))])
    else s1
  }

  function GcPutStep(s: State, l: nat): State
    requires l < |s.lines|
  {
    s.(lines := s.lines[l := PutRef(s.lines[l].(held := false))])
  }

  function Step(s: State, op: Op): State
    requires Enabled(s, op)
  {
    match op
    case Reserve(count) => ReserveStep(s, count)
    case Fill(k, a, d) => FillStep(s, k, a, d)
    case Publish(k, a, d) => PublishStep(s, k, a)
    case Discard(a) => Remap(s, a, Empty)
    case MapEntry => MapEntryStep(s)
    case MapPad => MapPadStep(s)
    case Dispatch(count) => DispatchStep(s, count)
    case Program(k) => ProgramStep(s, k)
    case Ack(i) => s.(reqs := s.reqs[i := s.reqs[i].(back := true)])
    case SyncOne => SyncStep(s)
    case L2pOne => L2pStep(s)
    case Close(l) => CloseStep(s, l)
    case Wipe(l, p) => WipeStep(s, l, p)
    case Replace(l, secs) => ReplaceStep(s, l, secs)
    case GcStart(l) => GcStartStep(s, l)
    case GcRead(l, p) => GcReadStep(s, l, p)
    case GcSkip(l, p) => GcSkipStep(s, l, p)
    case GcFill(k, l, p) => GcFillStep(s, k, l, p)
    case GcPublish(k, l, p) => GcPublishStep(s, k, l, p)
    case GcPut(l) => GcPutStep(s, l)
  }
}

/**
 What every reachable state of the step system satisfies.

 Each conjunct names the parts of the state it speaks about, so a step that leaves
 those parts alone keeps it without further argument.
 */
module FtlInv {
  import opened Basics
  import opened Ftl

  /** Pointer order: `l2p <= sync <= disp <= subm <= mem <= l2p + n - 1`. */
  predicate Pointers(s: State) {
    && Sized(s)
    && s.l2p <= s.sync <= s.disp <= s.subm <= s.mem < s.l2p + |s.ring|
    && (forall k :: k in s.unfilled ==> s.subm <= k < s.mem)
  }

  /** Every position's flag follows from where it lies between the pointers. */
  predicate Flags(ring: seq<Entry>, unfilled: set<nat>, l2p: nat, sync: nat, subm: nat, mem: nat)
    requires ring != []
  {
    && (forall k :: l2p <= k < subm ==> Slot(ring, k).flag == Submitted)
    && (forall k :: subm <= k < mem ==> Slot(ring, k).flag == if k in unfilled then Writable else Written)
    && (forall k :: mem <= k < l2p + |ring| ==> Slot(ring, k).flag == Writable)
    && (forall k :: l2p <= k < sync ==> Slot(ring, k).done)
  }

  function End(r: Req): nat { r.sentry + r.nr }

  /** The requests cover `[lo, hi)` without gap or overlap, in ring order. */
  predicate Tiled(reqs: seq<Req>, lo: nat, hi: nat) {
    if reqs == [] then lo == hi
    else reqs[0].sentry == lo && reqs[0].nr > 0 && Tiled(reqs[1..], End(reqs[0]), hi)
  }

  /** Requests whose completion has arrived are programmed. */
  predicate BackDone(ring: seq<Entry>, reqs: seq<Req>)
    requires ring != []
  {
    forall i, k :: 0 <= i < |reqs| && reqs[i].back && reqs[i].sentry <= k < End(reqs[i]) ==> Slot(ring, k).done
  }

  /** The ring by itself. */
  predicate RingOk(s: State) {
    && Pointers(s) && Flags(s.ring, s.unfilled, s.l2p, s.sync, s.subm, s.mem)
    && Tiled(s.reqs, s.sync, s.disp) && BackDone(s.ring, s.reqs)
  }

  /** Sector `p` of line `l` is valid and its end metadata names `a`. */
  predicate Holds(secPerLine: nat, lines: seq<Line>, l: nat, p: nat, a: nat) {
    && l < |lines| && lines[l].state != Free
    && p < secPerLine && p !in lines[l].invalid
    && p in lines[l].lbas && lines[l].lbas[p] == Some(a)
    && p in lines[l].home
  }

  /** Slot `c` is mapped to sector `p` of line `l` and awaits its L2P update. */
  predicate PendingAt(ring: seq<Entry>, c: nat, l: nat, p: nat) {
    c < |ring| && ring[c].flag == Submitted && ring[c].ppa == Media(l, p)
  }

  predicate Stored(media: map<(nat, nat), Data>, l: nat, p: nat, d: Data) {
    (l, p) in media && media[(l, p)] == d
  }

  /** A cacheline names a live slot with that lba; a media address a valid sector nobody else owns. */
  predicate MapOk(secPerLine: nat, ring: seq<Entry>, trans: seq<Ppa>, lines: seq<Line>, media: map<(nat, nat), Data>)
  {
    forall a :: 0 <= a < |trans| ==>
      && (trans[a].Cached? ==>
            trans[a].slot < |ring| && ring[trans[a].slot].flag != Writable && ring[trans[a].slot].lba == a)
      && (trans[a].Media? ==>
            && Holds(secPerLine, lines, trans[a].line, trans[a].sec, a)
            && (trans[a].line, trans[a].sec) in media
            && !PendingAt(ring, lines[trans[a].line].home[trans[a].sec], trans[a].line, trans[a].sec))
  }

  /** Every filled slot has an lba in range; every submitted one a valid sector of its own, programmed if done. */
  predicate SlotsOk(secPerLine: nat, ring: seq<Entry>, nrSecs: nat, lines: seq<Line>, media: map<(nat, nat), Data>)
  {
    forall c :: 0 <= c < |ring| ==>
      && (ring[c].flag != Writable ==> ring[c].lba < nrSecs)
      && (ring[c].flag == Written ==> !ring[c].done)
      && (ring[c].flag == Submitted ==>
            && ring[c].ppa.Media?
            && Holds(secPerLine, lines, ring[c].ppa.line, ring[c].ppa.sec, ring[c].lba)
            && lines[ring[c].ppa.line].home[ring[c].ppa.sec] == c
            && (ring[c].done ==> Stored(media, ring[c].ppa.line, ring[c].ppa.sec, ring[c].data)))
  }

  /** The bitmap, list and counters of one line agree. */
  predicate LineOk(l: Line, secPerLine: nat, nrSecs: nat) {
    && l.next <= |l.secs| && GoodSecs(l.secs, secPerLine)
    && (l.state != Open ==> l.next == |l.secs|)
    && (forall i :: l.next <= i < |l.secs| ==> l.secs[i] !in l.lbas && l.secs[i] !in l.invalid)
    && (forall p :: p in l.invalid ==> p < secPerLine)
    && (l.state != Free ==> l.vsc == secPerLine - |l.invalid|)
    && (l.state == Open || l.state == Closed ==> l.held)
    && (l.state != Open ==> l.leftSsecs == 0)
    && (forall p :: p in l.lbas && l.lbas[p].Some? ==> l.lbas[p].value < nrSecs)
    && (forall p :: 0 <= p < secPerLine && p !in l.invalid && l.state != Free ==>
          p in l.secs[l.next..] || (p in l.lbas && l.lbas[p].Some? && p in l.home))
  }

  predicate LinesOk(secPerLine: nat, nrSecs: nat, lines: seq<Line>) {
    forall l :: 0 <= l < |lines| ==> LineOk(lines[l], secPerLine, nrSecs)
  }

  /** The positions in `[lo, hi)` whose entry is mapped to line `l`. */
  function MappedTo(ring: seq<Entry>, lo: nat, hi: nat, l: nat): set<nat>
    requires ring != []
  {
    set k | k in Range(lo, hi) && Slot(ring, k).ppa.Media? && Slot(ring, k).ppa.line == l
  }

  /** `left_ssecs` counts data sectors not handed out or not synced; `ref` counts its holders. */
  predicate Counts(ring: seq<Entry>, lines: seq<Line>, l2p: nat, sync: nat, subm: nat)
    requires ring != []
  {
    forall l :: 0 <= l < |lines| && lines[l].state != Free ==>
      && lines[l].leftSsecs == |lines[l].secs| - lines[l].next + |MappedTo(ring, sync, subm, l)|
      && lines[l].refs == (if lines[l].held then 1 else 0) + lines[l].pads + |MappedTo(ring, l2p, subm, l)|
  }

  /** Every valid sector handed out is the media address of its lba or that of a pending slot. */
  predicate Owned(secPerLine: nat, ring: seq<Entry>, trans: seq<Ppa>, lines: seq<Line>)
  {
    forall l, p :: 0 <= l < |lines| && (lines[l].state == Open || lines[l].state == Closed) &&
                   p in lines[l].lbas && p < secPerLine && p !in lines[l].invalid ==>
      && lines[l].lbas[p].Some? && lines[l].lbas[p].value < |trans| && p in lines[l].home
      && (trans[lines[l].lbas[p].value] == Media(l, p) || PendingAt(ring, lines[l].home[p], l, p))
  }

  // ---------------------------------------------------------------- writes half way

  /** Address `a` maps into line `m`. */
  predicate LiesIn(trans: seq<Ppa>, a: nat, m: nat) {
    a < |trans| && trans[a].Media? && trans[a].line == m
  }

  /** Whoever filled a slot will still map its address there: a user always, GC while the address lies in the victim. */
  predicate Due(w: Writer, trans: seq<Ppa>, gc: map<(nat, nat), GcItem>) {
    w.User? || ((w.line, w.sec) in gc && LiesIn(trans, gc[(w.line, w.sec)].lba, w.line))
  }

  /** The slot holds what its writer put there. */
  predicate Holding(e: Entry, w: Writer, gc: map<(nat, nat), GcItem>) {
    match w
    case User(a, d) => e.lba == a && e.data == d
    case Collector(l, p) => (l, p) in gc && e.lba == gc[(l, p)].lba && e.data == gc[(l, p)].data
  }

  /** A writer names an address, or an item GC has in hand. */
  predicate WriterOk(w: Writer, lines: seq<Line>, gc: map<(nat, nat), GcItem>, nrSecs: nat) {
    match w
    case User(a, d) => a < nrSecs
    case Collector(l, p) => l < |lines| && p in lines[l].scanned && (l, p) in gc
  }

  /** A slot whose map update is due is in the ring and holds what its writer put there. */
  predicate HalfOk(s: State)
    requires Sized(s)
  {
    && (forall k :: k in s.half ==> k < s.mem && k !in s.unfilled && WriterOk(s.half[k], s.lines, s.gc, |s.trans|))
    && (forall k :: k in s.half && Due(s.half[k], s.trans, s.gc) ==> s.l2p <= k && Holding(Slot(s.ring, k), s.half[k], s.gc))
    && (forall j, k :: j in s.half && k in s.half && s.half[j].Collector? && s.half[j] == s.half[k] ==> j == k)
  }

  // ---------------------------------------------------------------- what leaving the ring installs

  /** The entry at position `k` is mapped to line `l`. */
  predicate MapsTo(ring: seq<Entry>, k: nat, l: nat)
    requires ring != []
  {
    Slot(ring, k).ppa.Media? && Slot(ring, k).ppa.line == l
  }

  /** Its address maps to the entry at `k`, or will. */
  predicate Live(s: State, k: nat)
    requires Sized(s)
  {
    || (Slot(s.ring, k).lba < |s.trans| && s.trans[Slot(s.ring, k).lba] == Cached(Wrap(k, |s.ring|)))
    || (k in s.half && Due(s.half[k], s.trans, s.gc))
  }

  /** A user write of `a` before position `k` is still to be mapped, and will be before the entry at `k` can leave. */
  predicate Overtaken(half: map<nat, Writer>, a: nat, k: nat) {
    exists j :: j in half && j < k && half[j].User? && half[j].lba == a
  }

  /** There are runs that install the media address of the entry at `k` as that of its logical address. */
  predicate Installs(s: State, k: nat)
    requires Sized(s)
  {
    (k in s.half && s.half[k].User?) || (Live(s, k) && !Overtaken(s.half, Slot(s.ring, k).lba, k))
  }

  /** No entry of the ring would be installed into line `l`. */
  predicate NoInstalls(s: State, l: nat)
    requires Sized(s)
  {
    forall k :: s.l2p <= k < s.subm && MapsTo(s.ring, k, l) ==> !Installs(s, k)
  }

  /** Nothing would be installed into a line in GC. */
  predicate Quiet(s: State)
    requires Sized(s)
  {
    forall l :: 0 <= l < |s.lines| && s.lines[l].state == Gc ==> NoInstalls(s, l)
  }

  // ---------------------------------------------------------------- garbage collection

  /** What GC read for an lba is what the lba holds as long as it still lies in the victim. */
  predicate ItemOk(trans: seq<Ppa>, media: map<(nat, nat), Data>, l: nat, i: GcItem) {
    && i.lba < |trans|
    && (LiesIn(trans, i.lba, l) ==> Stored(media, l, trans[i.lba].sec, i.data))
  }

  /** GC has items of lines it holds, of sectors it has looked at. */
  predicate GcOk(trans: seq<Ppa>, lines: seq<Line>, media: map<(nat, nat), Data>, gc: map<(nat, nat), GcItem>)
  {
    forall key :: key in gc ==>
      && key.0 < |lines| && lines[key.0].state == Gc && lines[key.0].held && key.1 in lines[key.0].scanned
      && ItemOk(trans, media, key.0, gc[key])
  }

  /** GC has read `a` from line `l` and is yet to move it. */
  predicate Copied(gc: map<(nat, nat), GcItem>, l: nat, a: nat) {
    exists key :: key in gc && key.0 == l && gc[key].lba == a
  }

  /** A user is about to map `a` to a slot, and will before the last entry mapped to line `l` can leave the ring. */
  predicate WrittenOver(s: State, l: nat, a: nat)
    requires Sized(s)
  {
    exists k :: s.l2p <= k < s.subm && MapsTo(s.ring, k, l) && Overtaken(s.half, a, k)
  }

  /** Address `a` maps into a line in GC. */
  predicate InGc(s: State, a: nat) {
    a < |s.trans| && s.trans[a].Media? && s.trans[a].line < |s.lines| && s.lines[s.trans[a].line].state == Gc
  }

  /** It is yet to be looked at or moved, or a user takes it away in time. */
  predicate TendedAt(s: State, a: nat)
    requires Sized(s) && InGc(s, a)
  {
    var l := s.trans[a].line;
    || (s.lines[l].held && (s.trans[a].sec in s.lines[l].scanned ==> Copied(s.gc, l, a)))
    || WrittenOver(s, l, a)
  }

  /** What is still mapped into a line in GC will leave it before the line is free. */
  predicate Tended(s: State)
    requires Sized(s)
  {
    forall a :: 0 <= a < |s.trans| && InGc(s, a) ==> TendedAt(s, a)
  }

  /** All but what concerns writes half way and what is left in lines in GC. */
  predicate Core(s: State) {
    && RingOk(s)
    && MapOk(s.secPerLine, s.ring, s.trans, s.lines, s.media)
    && SlotsOk(s.secPerLine, s.ring, |s.trans|, s.lines, s.media)
    && LinesOk(s.secPerLine, |s.trans|, s.lines)
    && Counts(s.ring, s.lines, s.l2p, s.sync, s.subm)
    && Owned(s.secPerLine, s.ring, s.trans, s.lines)
    && GcOk(s.trans, s.lines, s.media, s.gc)
  }

  predicate Inv(s: State) {
    Core(s) && HalfOk(s) && Quiet(s) && Tended(s)
  }
}

/** Sync, L2P advance, line turnover and garbage collection keep the invariant. */
module FtlGc {
  import opened Basics
  import opened Ftl
  import opened FtlInv
  import opened FtlSteps
  import opened FtlDevice

  /** Two lines that agree on everything the map and the ring refer to. */
  predicate SameSectors(l: Line, l': Line) {
    && l'.invalid == l.invalid && l'.lbas == l.lbas && l'.home == l.home
    && (l'.state == Free <==> l.state == Free)
    && (l'.state == Gc ==> l.state == Gc || l.state == Closed)
    && (l'.state == Open || l'.state == Closed ==> l.state == Open || l.state == Closed)
  }

  lemma LineFrame(S: nat, ring: seq<Entry>, trans: seq<Ppa>, lines: seq<Line>, media: map<(nat, nat), Data>, i: nat, l: Line)
    requires MapOk(S, ring, trans, lines, media) && SlotsOk(S, ring, |trans|, lines, media)
    requires Owned(S, ring, trans, lines) && i < |lines| && SameSectors(lines[i], l)
    ensures MapOk(S, ring, trans, lines[i := l], media) && SlotsOk(S, ring, |trans|, lines[i := l], media)
    ensures Owned(S, ring, trans, lines[i := l])
  {
  }

  lemma CoreSized(s: State)
    requires Core(s)
    ensures Sized(s)
  {
  }

  lemma CoreGc(s: State)
    requires Core(s)
    ensures GcOk(s.trans, s.lines, s.media, s.gc)
  {
  }

  // ---------------------------------------------------------------- sync

  lemma SyncFlags(ring: seq<Entry>, unfilled: set<nat>, l2p: nat, sync: nat, subm: nat, mem: nat)
    requires ring != [] && Flags(ring, unfilled, l2p, sync, subm, mem) && Slot(ring, sync).done
    ensures Flags(ring, unfilled, l2p, sync + 1, subm, mem)
  {
  }

  lemma SyncCounts(ring: seq<Entry>, lines: seq<Line>, l2p: nat, sync: nat, subm: nat, i: nat)
    requires ring != [] && Counts(ring, lines, l2p, sync, subm) && l2p <= sync < subm
    requires Slot(ring, sync).ppa.Media? && Slot(ring, sync).ppa.line == i && i < |lines| && lines[i].state != Free
    ensures lines[i].leftSsecs >= |lines[i].secs| - lines[i].next + 1
    ensures Counts(ring, lines[i := SyncLine(lines[i])], l2p, sync + 1, subm)
  {
    forall j | 0 <= j < |lines|
      ensures |MappedTo(ring, sync, subm, j)| == |MappedTo(ring, sync + 1, subm, j)| + if j == i then 1 else 0
    {
      MappedShrink(ring, ring, sync, subm, i, j);
    }
  }

  /** Dropping the lowest position loses one entry of its line and none of any other. */
  lemma MappedShrink(ring: seq<Entry>, ring': seq<Entry>, lo: nat, hi: nat, i: nat, j: nat)
    requires ring != [] && ring' != [] && lo < hi && Slot(ring, lo).ppa.Media? && Slot(ring, lo).ppa.line == i
    requires forall k {:trigger Slot(ring', k)} :: lo < k < hi ==> Slot(ring', k).ppa == Slot(ring, k).ppa
    ensures |MappedTo(ring, lo, hi, j)| == |MappedTo(ring', lo + 1, hi, j)| + if j == i then 1 else 0
  {
    var old', new' := MappedTo(ring, lo, hi, j), MappedTo(ring', lo + 1, hi, j);
    forall k | lo < k < hi ensures k in old' <==> k in new' {
      assert Slot(ring', k).ppa == Slot(ring, k).ppa;
    }
    if j == i { assert old' == new' + {lo}; } else { assert old' == new'; }
  }

  lemma SyncTiled(ring: seq<Entry>, reqs: seq<Req>, lo: nat, hi: nat)
    requires ring != [] && reqs != [] && Tiled(reqs, lo, hi) && BackDone(ring, reqs)
    ensures Tiled(SyncReqs(reqs), lo + 1, hi) && BackDone(ring, SyncReqs(reqs))
  {
    if reqs[0].nr > 1 { assert SyncReqs(reqs)[1..] == reqs[1..]; }
  }

  lemma SyncRing(s: State)
    requires RingOk(s) && SyncReady(s)
    ensures s.l2p <= s.sync < s.subm && Slot(s.ring, s.sync).done && Slot(s.ring, s.sync).flag == Submitted
    ensures RingOk(SyncStep(s))
  {
    TiledOrder(s.reqs, s.sync, s.disp);
    assert Slot(s.ring, s.sync).done;
    SyncTiled(s.ring, s.reqs, s.sync, s.disp);
    SyncFlags(s.ring, s.unfilled, s.l2p, s.sync, s.subm, s.mem);
  }

  lemma SyncStepCounts(s: State)
    requires Sized(s) && SyncReady(s) && Counts(s.ring, s.lines, s.l2p, s.sync, s.subm) && s.l2p <= s.sync < s.subm
    requires s.lines[Slot(s.ring, s.sync).ppa.line].state != Free
    ensures var t := SyncStep(s); Counts(t.ring, t.lines, t.l2p, t.sync, t.subm)
    ensures var l := s.lines[Slot(s.ring, s.sync).ppa.line]; l.leftSsecs >= |l.secs| - l.next + 1
  {
    SyncCounts(s.ring, s.lines, s.l2p, s.sync, s.subm, Slot(s.ring, s.sync).ppa.line);
  }

  lemma SyncMaps(s: State, l: nat)
    requires Core(s) && l < |s.lines| && s.lines[l].state == Open
    ensures var lines' := s.lines[l := SyncLine(s.lines[l])];
      && MapOk(s.secPerLine, s.ring, s.trans, lines', s.media) && SlotsOk(s.secPerLine, s.ring, |s.trans|, lines', s.media)
      && Owned(s.secPerLine, s.ring, s.trans, lines') && GcOk(s.trans, lines', s.media, s.gc)
      && LinesOk(s.secPerLine, |s.trans|, lines')
  {
    var l' := SyncLine(s.lines[l]);
    assert LineOk(s.lines[l], s.secPerLine, |s.trans|);
    LineFrame(s.secPerLine, s.ring, s.trans, s.lines, s.media, l, l');
    LinesUpdate(s.secPerLine, |s.trans|, s.lines, l, l');
    GcLine(s.trans, s.lines, s.media, s.gc, l, l');
  }

  lemma SyncCore(s: State)
    requires Core(s) && SyncReady(s)
    ensures Core(SyncStep(s))
  {
    var l := Slot(s.ring, s.sync).ppa.line;
    SyncRing(s);
    assert LineOk(s.lines[l], s.secPerLine, |s.trans|);
    SyncStepCounts(s);
    SyncMaps(s, l);
  }

  lemma SyncWriters(s: State)
    requires SyncReady(s) && HalfOk(s) && Quiet(s)
    ensures HalfOk(SyncStep(s)) && Quiet(SyncStep(s))
  {
    LineWriters(s, SyncStep(s));
  }

  lemma SyncKeeps(s: State)
    requires Inv(s) && SyncReady(s)
    ensures Inv(SyncStep(s))
  {
    hide Core, HalfOk, Quiet, Tended;
    SyncCore(s);
    SyncWriters(s);
    SyncLines(s);
    LineTended(s, SyncStep(s));
  }

  lemma SyncLines(s: State)
    requires SyncReady(s)
    ensures Sized(s) && Sized(SyncStep(s)) && SameGc(s, SyncStep(s))
  {
  }

  // ---------------------------------------------------------------- freeing a line

  /** No logical address maps into line `l`. */
  predicate NoneMapped(trans: seq<Ppa>, l: nat) {
    forall a :: 0 <= a < |trans| && trans[a].Media? ==> trans[a].line != l
  }

  /** No ring entry awaiting its L2P update is mapped to line `l`. */
  predicate NonePending(ring: seq<Entry>, l: nat) {
    forall c :: 0 <= c < |ring| && ring[c].flag == Submitted && ring[c].ppa.Media? ==> ring[c].ppa.line != l
  }

  /** A line nobody refers to may change in any way. */
  lemma UnusedLine(S: nat, ring: seq<Entry>, trans: seq<Ppa>, lines: seq<Line>, media: map<(nat, nat), Data>, i: nat, l: Line)
    requires MapOk(S, ring, trans, lines, media) && SlotsOk(S, ring, |trans|, lines, media)
    requires Owned(S, ring, trans, lines) && i < |lines| && NoneMapped(trans, i) && NonePending(ring, i)
    requires l.state == Free || l.state == Gc || l.lbas == map[]
    ensures MapOk(S, ring, trans, lines[i := l], media) && SlotsOk(S, ring, |trans|, lines[i := l], media)
    ensures Owned(S, ring, trans, lines[i := l])
  {
  }

  lemma UnusedGc(trans: seq<Ppa>, lines: seq<Line>, media: map<(nat, nat), Data>, gc: map<(nat, nat), GcItem>, i: nat, l: Line)
    requires GcOk(trans, lines, media, gc) && i < |lines|
    requires forall key :: key in gc ==> key.0 != i
    ensures GcOk(trans, lines[i := l], media, gc)
  {
  }

  /** Every slot is some position of the window. */
  lemma {:induction false} Unwrap(n: nat, lo: nat, c: nat) returns (k: nat)
    requires c < n
    ensures lo <= k < lo + n && Wrap(k, n) == c
  {
    if lo >= n {
      k := Unwrap(n, lo - n, c);
      k := k + n;
    } else if c >= lo {
      k := c;
    } else {
      k := c + n;
      assert Wrap(k, n) == Wrap(c, n);
    }
  }

  lemma NonePendingByCount(ring: seq<Entry>, unfilled: set<nat>, l2p: nat, sync: nat, subm: nat, mem: nat, l: nat)
    requires ring != [] && Flags(ring, unfilled, l2p, sync, subm, mem) && l2p <= subm <= mem < l2p + |ring|
    requires MappedTo(ring, l2p, subm, l) == {}
    ensures NonePending(ring, l)
  {
    forall c | 0 <= c < |ring| && ring[c].flag == Submitted && ring[c].ppa.Media? ensures ring[c].ppa.line != l {
      var k := Unwrap(|ring|, l2p, c);
      assert Slot(ring, k) == ring[c];
      assert k !in MappedTo(ring, l2p, subm, l);
    }
  }

  // ---------------------------------------------------------------- L2P advance

  lemma RetireMaps(S: nat, ring: seq<Entry>, trans: seq<Ppa>, lines: seq<Line>, media: map<(nat, nat), Data>, c: nat)
    requires MapOk(S, ring, trans, lines, media) && SlotsOk(S, ring, |trans|, lines, media) && Owned(S, ring, trans, lines)
    requires c < |ring| && ring[c].flag == Submitted && ring[c].done && trans[ring[c].lba] == Cached(c)
    ensures
      var e := ring[c];
      var ring' := ring[c := e.(flag := Writable, ppa := Empty)];
      var trans' := trans[e.lba := e.ppa];
      MapOk(S, ring', trans', lines, media) && SlotsOk(S, ring', |trans|, lines, media) && Owned(S, ring', trans', lines)
  {
  }

  lemma RetireStale(S: nat, ring: seq<Entry>, trans: seq<Ppa>, lines: seq<Line>, media: map<(nat, nat), Data>, c: nat)
    requires MapOk(S, ring, trans, lines, media) && SlotsOk(S, ring, |trans|, lines, media) && Owned(S, ring, trans, lines)
    requires c < |ring| && ring[c].flag == Submitted && trans[ring[c].lba] != Cached(c)
    ensures
      var e := ring[c];
      var ring' := ring[c := e.(flag := Writable, ppa := Empty)];
      var lines' := lines[e.ppa.line := Invalidate(lines[e.ppa.line], e.ppa.sec)];
      MapOk(S, ring', trans, lines', media) && SlotsOk(S, ring', |trans|, lines', media) && Owned(S, ring', trans, lines')
  {
  }

  /** The address is installed into a line not in GC. */
  lemma RetireGc(trans: seq<Ppa>, lines: seq<Line>, media: map<(nat, nat), Data>, gc: map<(nat, nat), GcItem>, a: nat, q: Ppa)
    requires GcOk(trans, lines, media, gc) && a < |trans| && q.Media? && q.line < |lines| && lines[q.line].state != Gc
    ensures GcOk(trans[a := q], lines, media, gc)
  {
  }

  /** An entry about to leave the ring is not installed into a line in GC. */
  lemma L2pAlive(s: State)
    requires Pointers(s) && L2pReady(s) && HalfOk(s) && Quiet(s)
    requires s.trans[Slot(s.ring, s.l2p).lba] == Cached(Wrap(s.l2p, |s.ring|))
    ensures s.lines[Slot(s.ring, s.l2p).ppa.line].state != Gc
  {
    assert Live(s, s.l2p) && MapsTo(s.ring, s.l2p, Slot(s.ring, s.l2p).ppa.line);
    forall j | j in s.half && s.half[j].User? ensures s.l2p <= j {
      assert Due(s.half[j], s.trans, s.gc);
    }
    assert Installs(s, s.l2p);
  }

  lemma L2pFlags(ring: seq<Entry>, ring': seq<Entry>, unfilled: set<nat>, l2p: nat, sync: nat, subm: nat, mem: nat, e: Entry)
    requires ring != [] && Flags(ring, unfilled, l2p, sync, subm, mem) && l2p < sync <= subm <= mem < l2p + |ring|
    requires e.flag == Writable && ring' == ring[Wrap(l2p, |ring|) := e]
    ensures Flags(ring', unfilled, l2p + 1, sync, subm, mem)
  {
    UpdateSlot(ring, ring', l2p, l2p, e);
    assert Wrap(l2p + |ring|, |ring|) == Wrap(l2p, |ring|);
    assert Slot(ring', l2p + |ring|) == e;
  }

  lemma L2pCounts(ring: seq<Entry>, ring': seq<Entry>, lines: seq<Line>, lines': seq<Line>, l2p: nat, l2p': nat, sync: nat, subm: nat, i: nat)
    requires ring != [] && ring' != [] && Counts(ring, lines, l2p, sync, subm) && l2p < sync <= subm && l2p' == l2p + 1
    requires forall k {:trigger Slot(ring', k)} :: l2p < k < subm ==> Slot(ring', k).ppa == Slot(ring, k).ppa
    requires MapsTo(ring, l2p, i) && i < |lines| && lines[i].state != Free && |lines'| == |lines| && lines' == lines[i := lines'[i]]
    requires var l := lines'[i]; l.state != Free ==>
      && l.leftSsecs == lines[i].leftSsecs && l.refs == lines[i].refs - 1
      && l.secs == lines[i].secs && l.next == lines[i].next && l.held == lines[i].held && l.pads == lines[i].pads
    ensures Counts(ring', lines', l2p', sync, subm)
    ensures lines[i].refs >= (if lines[i].held then 1 else 0) + 1
    ensures lines[i].refs == 1 ==> MappedTo(ring', l2p', subm, i) == {}
  {
    forall j | 0 <= j < |lines|
      ensures |MappedTo(ring, l2p, subm, j)| == |MappedTo(ring', l2p', subm, j)| + if j == i then 1 else 0
      ensures MappedTo(ring, sync, subm, j) == MappedTo(ring', sync, subm, j)
    {
      MappedShrink(ring, ring', l2p, subm, i, j);
      MappedFrame(ring, ring', sync, subm, j);
    }
  }

  /** The entry's address is installed, into a line not in GC, or has moved on and its sector becomes invalid. */
  predicate Retirable(s: State)
    requires L2pReady(s)
  {
    var e := Slot(s.ring, s.l2p);
    s.trans[e.lba] == Cached(Wrap(s.l2p, |s.ring|)) ==> s.lines[e.ppa.line].state != Gc
  }

  /** An entry whose lba has moved on leaves: its sector becomes invalid. */
  lemma L2pStale(s: State, c: nat, ring': seq<Entry>, lines': seq<Line>)
    requires Core(s) && L2pReady(s) && c == Wrap(s.l2p, |s.ring|) && s.trans[s.ring[c].lba] != Cached(c)
    requires lines' == s.lines[s.ring[c].ppa.line := Invalidate(s.lines[s.ring[c].ppa.line], s.ring[c].ppa.sec)]
    requires ring' == s.ring[c := s.ring[c].(flag := Writable, ppa := Empty)]
    ensures MapOk(s.secPerLine, ring', s.trans, lines', s.media) && SlotsOk(s.secPerLine, ring', |s.trans|, lines', s.media)
    ensures Owned(s.secPerLine, ring', s.trans, lines') && GcOk(s.trans, lines', s.media, s.gc)
    ensures LinesOk(s.secPerLine, |s.trans|, lines')
  {
    hide RingOk, MapOk, SlotsOk, LinesOk, Counts, Owned, GcOk, LineOk;
    var e := s.ring[c];
    var l := Invalidate(s.lines[e.ppa.line], e.ppa.sec);
    RetireStale(s.secPerLine, s.ring, s.trans, s.lines, s.media, c);
    SlotSector(s, c);
    InvalidateLine(s.lines[e.ppa.line], e.ppa.sec, s.secPerLine, |s.trans|);
    LinesUpdate(s.secPerLine, |s.trans|, s.lines, e.ppa.line, l);
    GcLine(s.trans, s.lines, s.media, s.gc, e.ppa.line, l);
  }

  /** The sector of a submitted slot was handed out and lies in its line. */
  lemma SlotSector(s: State, c: nat)
    requires Core(s) && c < |s.ring| && s.ring[c].flag == Submitted
    ensures s.ring[c].ppa.Media? && s.ring[c].ppa.line < |s.lines| && LineOk(s.lines[s.ring[c].ppa.line], s.secPerLine, |s.trans|)
    ensures s.ring[c].ppa.sec < s.secPerLine && s.ring[c].ppa.sec in s.lines[s.ring[c].ppa.line].lbas
  {
    hide RingOk, MapOk, Counts, Owned, GcOk, LineOk;
  }

  /** Map, ring and lines after the entry at `l2p` has left, before its line reference is dropped. */
  lemma L2pMid(s: State, c: nat, s1: State, ring': seq<Entry>)
    requires Core(s) && L2pReady(s) && Retirable(s) && c == Wrap(s.l2p, |s.ring|)
    requires s1 == UpdateMapDev(s, s.ring[c].lba, s.ring[c].ppa, c)
    requires ring' == s.ring[c := s.ring[c].(flag := Writable, ppa := Empty)]
    ensures MapOk(s.secPerLine, ring', s1.trans, s1.lines, s.media) && SlotsOk(s.secPerLine, ring', |s.trans|, s1.lines, s.media)
    ensures Owned(s.secPerLine, ring', s1.trans, s1.lines) && GcOk(s1.trans, s1.lines, s.media, s.gc)
    ensures LinesOk(s.secPerLine, |s.trans|, s1.lines)
  {
    if s.trans[s.ring[c].lba] == Cached(c) {
      assert s.ring[c] == Slot(s.ring, s.l2p);
      RetireMaps(s.secPerLine, s.ring, s.trans, s.lines, s.media, c);
      RetireGc(s.trans, s.lines, s.media, s.gc, s.ring[c].lba, s.ring[c].ppa);
    } else {
      L2pStale(s, c, ring', s1.lines);
    }
  }

  /** The last reference to a line is dropped only in GC, after GC has put it, and if nothing is mapped or pending there. */
  predicate LastRef(l: Line, ring: seq<Entry>, trans: seq<Ppa>, i: nat) {
    l.refs == 1 ==> l.state == Gc && !l.held && NonePending(ring, i) && NoneMapped(trans, i)
  }

  /** Dropping a reference keeps everything, provided the last one goes only from a line in GC that GC has put. */
  lemma PutRefMaps(S: nat, ring: seq<Entry>, trans: seq<Ppa>, lines: seq<Line>, media: map<(nat, nat), Data>,
                   gc: map<(nat, nat), GcItem>, i: nat)
    requires MapOk(S, ring, trans, lines, media) && SlotsOk(S, ring, |trans|, lines, media) && Owned(S, ring, trans, lines)
    requires GcOk(trans, lines, media, gc) && LinesOk(S, |trans|, lines) && i < |lines|
    requires LastRef(lines[i], ring, trans, i)
    ensures
      var lines' := lines[i := PutRef(lines[i])];
      && MapOk(S, ring, trans, lines', media) && SlotsOk(S, ring, |trans|, lines', media) && Owned(S, ring, trans, lines')
      && GcOk(trans, lines', media, gc) && LinesOk(S, |trans|, lines')
  {
    var l := PutRef(lines[i]);
    assert LineOk(lines[i], S, |trans|);
    LinesUpdate(S, |trans|, lines, i, l);
    if lines[i].refs == 1 {
      UnusedLine(S, ring, trans, lines, media, i, l);
      UnusedGc(trans, lines, media, gc, i, l);
    } else {
      LineFrame(S, ring, trans, lines, media, i, l);
      GcLine(trans, lines, media, gc, i, l);
    }
  }

  lemma L2pRing(s: State)
    requires RingOk(s) && L2pReady(s)
    ensures RingOk(L2pStep(s))
  {
    hide Flags, Tiled, BackDone;
    var t := L2pStep(s);
    var e := Slot(s.ring, s.l2p).(flag := Writable, ppa := Empty);
    L2pFlags(s.ring, t.ring, s.unfilled, s.l2p, s.sync, s.subm, s.mem, e);
    UpdateSlot(s.ring, t.ring, s.l2p, s.l2p, e);
    BackDoneFrame(s.ring, t.ring, s.reqs, s.sync, s.disp);
  }

  /** The line of the entry that leaves, afterwards. */
  function Retired(s: State): Line
    requires L2pReady(s)
  {
    var e := Slot(s.ring, s.l2p);
    var l := s.lines[e.ppa.line];
    PutRef(if s.trans[e.lba] == Cached(Wrap(s.l2p, |s.ring|)) then l else Invalidate(l, e.ppa.sec))
  }

  lemma RetiredLine(s: State)
    requires L2pReady(s)
    ensures L2pStep(s).lines == s.lines[Slot(s.ring, s.l2p).ppa.line := Retired(s)]
  {
  }

  lemma L2pLines(s: State)
    requires L2pReady(s)
    ensures var l := s.lines[Slot(s.ring, s.l2p).ppa.line]; var l' := Retired(s);
      && L2pStep(s).lines == s.lines[Slot(s.ring, s.l2p).ppa.line := l']
      && l'.scanned == l.scanned && (l'.state == Gc ==> l.state == Gc)
      && (l'.state != Free ==>
            && l'.leftSsecs == l.leftSsecs && l'.refs == l.refs - 1 && l'.secs == l.secs
            && l'.next == l.next && l'.held == l.held && l'.pads == l.pads)
  {
    RetiredLine(s);
  }

  lemma L2pSlots(s: State)
    requires Pointers(s) && L2pReady(s)
    ensures var ring' := L2pStep(s).ring;
      ring' != [] && forall k {:trigger Slot(ring', k)} :: s.l2p < k < s.subm ==> Slot(ring', k).ppa == Slot(s.ring, k).ppa
  {
    UpdateSlot(s.ring, L2pStep(s).ring, s.l2p, s.l2p, Slot(s.ring, s.l2p).(flag := Writable, ppa := Empty));
  }

  lemma L2pRefs(s: State)
    requires Pointers(s) && Counts(s.ring, s.lines, s.l2p, s.sync, s.subm) && L2pReady(s)
    requires s.lines[Slot(s.ring, s.l2p).ppa.line].state != Free
    ensures var t := L2pStep(s); var l := Slot(s.ring, s.l2p).ppa.line;
      && Counts(t.ring, t.lines, t.l2p, t.sync, t.subm)
      && s.lines[l].refs >= (if s.lines[l].held then 1 else 0) + 1
      && (s.lines[l].refs == 1 ==> MappedTo(t.ring, t.l2p, t.subm, l) == {})
  {
    var t := L2pStep(s);
    var l := Slot(s.ring, s.l2p).ppa.line;
    L2pSlots(s);
    L2pLines(s);
    L2pCounts(s.ring, t.ring, s.lines, t.lines, s.l2p, t.l2p, s.sync, s.subm, l);
  }

  /** Every entry between `l2p` and `sync` is ready to leave the ring. */
  lemma L2pEnabled(u: State)
    requires Pointers(u) && Flags(u.ring, u.unfilled, u.l2p, u.sync, u.subm, u.mem) && u.l2p < u.sync
    requires SlotsOk(u.secPerLine, u.ring, |u.trans|, u.lines, u.media)
    ensures L2pReady(u)
  {
    assert Slot(u.ring, u.l2p).flag == Submitted;
  }

  /** No writer of another entry comes to be due. */
  lemma L2pDue(s: State, w: Writer)
    requires L2pReady(s) && Retirable(s) && GcOk(s.trans, s.lines, s.media, s.gc) && Due(w, L2pStep(s).trans, s.gc)
    ensures Due(w, s.trans, s.gc)
  {
  }

  /** The entry that leaves was mapped by its writer, or GC has nothing left to map there. */
  lemma L2pHalf(s: State)
    requires Pointers(s) && L2pReady(s) && Retirable(s) && (s.l2p in s.half ==> !Due(s.half[s.l2p], s.trans, s.gc))
    requires HalfOk(s) && GcOk(s.trans, s.lines, s.media, s.gc)
    ensures HalfOk(L2pStep(s))
  {
    hide GcOk, Retirable, Due, Holding;
    var t, e := L2pStep(s), Slot(s.ring, s.l2p);
    UpdateSlot(s.ring, t.ring, s.l2p, s.l2p, e.(flag := Writable, ppa := Empty));
    L2pLines(s);
    forall k | k in t.half ensures WriterOk(t.half[k], t.lines, t.gc, |t.trans|) {
      assert WriterOk(s.half[k], s.lines, s.gc, |s.trans|);
    }
    forall k | k in t.half && Due(t.half[k], t.trans, t.gc) ensures t.l2p <= k && Holding(Slot(t.ring, k), t.half[k], t.gc) {
      L2pDue(s, s.half[k]);
      assert Holding(Slot(s.ring, k), s.half[k], s.gc);
    }
  }

  lemma L2pQuiet(s: State)
    requires Pointers(s) && L2pReady(s) && Retirable(s) && Quiet(s) && GcOk(s.trans, s.lines, s.media, s.gc)
    ensures Quiet(L2pStep(s))
  {
    var t, e := L2pStep(s), Slot(s.ring, s.l2p);
    UpdateSlot(s.ring, t.ring, s.l2p, s.l2p, e.(flag := Writable, ppa := Empty));
    L2pLines(s);
    forall k | t.l2p <= k < t.subm ensures Slot(t.ring, k) == Slot(s.ring, k) && (Installs(t, k) ==> Installs(s, k)) {
      if k in t.half && Due(t.half[k], t.trans, t.gc) { L2pDue(s, s.half[k]); }
    }
    QuietFrame(s, t);
  }

  lemma L2pLast(s: State)
    requires Core(s) && L2pReady(s) && Retirable(s) && HalfOk(s) && Tended(s)
    ensures var i := Slot(s.ring, s.l2p).ppa.line; LastRef(s.lines[i], L2pStep(s).ring, L2pStep(s).trans, i)
  {
    hide HalfOk, Tended, Retirable;
    var t, i := L2pStep(s), Slot(s.ring, s.l2p).ppa.line;
    L2pLive(s);
    L2pRefs(s);
    assert LineOk(s.lines[i], s.secPerLine, |s.trans|);
    if s.lines[i].refs == 1 {
      L2pRing(s);
      NonePendingByCount(t.ring, t.unfilled, t.l2p, t.sync, t.subm, t.mem, i);
      L2pUnmapped(s, i);
    }
  }

  /** Nothing maps into a line GC has put when the last entry mapped to it leaves. */
  lemma L2pUnmapped(s: State, i: nat)
    requires Pointers(s) && L2pReady(s) && Retirable(s) && HalfOk(s) && Tended(s) && i == Slot(s.ring, s.l2p).ppa.line
    requires s.lines[i].state == Gc && !s.lines[i].held && MappedTo(L2pStep(s).ring, s.l2p + 1, s.subm, i) == {}
    ensures NoneMapped(L2pStep(s).trans, i)
  {
    forall a | 0 <= a < |s.trans| && s.trans[a].Media? ensures s.trans[a].line != i {
      if s.trans[a].line == i {
        assert InGc(s, a) && WrittenOver(s, i, a);
        LastLeaves(s, i, a);
      }
    }
  }

  /** A user who writes an address over is ahead of some entry that is mapped to the line, and not the next to leave. */
  lemma LastLeaves(s: State, i: nat, a: nat)
    requires Pointers(s) && L2pReady(s) && HalfOk(s) && WrittenOver(s, i, a)
    ensures MappedTo(L2pStep(s).ring, s.l2p + 1, s.subm, i) != {}
  {
    hide L2pStep, HalfOk;
    UsersStay(s);
    L2pSlots(s);
    OverMapped(s, L2pStep(s).ring, i, a);
  }

  lemma OverMapped(s: State, ring': seq<Entry>, i: nat, a: nat)
    requires Sized(s) && WrittenOver(s, i, a) && (forall j :: j in s.half && s.half[j].User? ==> s.l2p <= j)
    requires ring' != [] && forall k {:trigger Slot(ring', k)} :: s.l2p < k < s.subm ==> Slot(ring', k).ppa == Slot(s.ring, k).ppa
    ensures MappedTo(ring', s.l2p + 1, s.subm, i) != {}
  {
    var k :| s.l2p <= k < s.subm && MapsTo(s.ring, k, i) && Overtaken(s.half, a, k);
    assert Slot(ring', k).ppa == Slot(s.ring, k).ppa;
    assert k in MappedTo(ring', s.l2p + 1, s.subm, i);
  }

  /** The step, part by part. */
  lemma L2pParts(s: State, c: nat, s1: State)
    requires L2pReady(s) && c == Wrap(s.l2p, |s.ring|) && s1 == UpdateMapDev(s, s.ring[c].lba, s.ring[c].ppa, c)
    ensures var t := L2pStep(s); var l := s.ring[c].ppa.line;
      && t.ring == s.ring[c := s.ring[c].(flag := Writable, ppa := Empty)] && t.trans == s1.trans && |t.trans| == |s.trans|
      && l < |s1.lines| && t.lines == s1.lines[l := PutRef(s1.lines[l])] && t.l2p == s.l2p + 1
      && t == s.(l2p := t.l2p, ring := t.ring, trans := t.trans, lines := t.lines)
  {
  }

  /** The lines in between, the entry's among them, with as many references as before. */
  lemma MidLine(s: State, c: nat, s1: State)
    requires L2pReady(s) && c == Wrap(s.l2p, |s.ring|) && s1 == UpdateMapDev(s, s.ring[c].lba, s.ring[c].ppa, c)
    ensures s.ring[c].ppa.line < |s1.lines|
    ensures var l, l' := s.lines[s.ring[c].ppa.line], s1.lines[s.ring[c].ppa.line]; l'.refs == l.refs && l'.state == l.state && l'.held == l.held
  {
  }

  lemma L2pMaps(s: State)
    requires Core(s) && L2pReady(s) && Retirable(s) && HalfOk(s) && Tended(s)
    ensures var t := L2pStep(s);
      && MapOk(t.secPerLine, t.ring, t.trans, t.lines, t.media) && SlotsOk(t.secPerLine, t.ring, |t.trans|, t.lines, t.media)
      && Owned(t.secPerLine, t.ring, t.trans, t.lines) && GcOk(t.trans, t.lines, t.media, t.gc) && LinesOk(t.secPerLine, |t.trans|, t.lines)
  {
    var c, t := Wrap(s.l2p, |s.ring|), L2pStep(s);
    var s1 := UpdateMapDev(s, s.ring[c].lba, s.ring[c].ppa, c);
    L2pParts(s, c, s1);
    MidLine(s, c, s1);
    L2pMid(s, c, s1, t.ring);
    L2pLast(s);
    PutRefMaps(s.secPerLine, t.ring, t.trans, s1.lines, s.media, s.gc, s.ring[c].ppa.line);
  }

  lemma L2pCore(s: State)
    requires Core(s) && L2pReady(s) && Retirable(s) && HalfOk(s) && Tended(s)
    ensures Core(L2pStep(s))
  {
    L2pLive(s);
    L2pRing(s);
    L2pRefs(s);
    L2pMaps(s);
  }

  lemma L2pKeeps(s: State)
    requires Inv(s) && L2pReady(s) && (s.l2p in s.half ==> !Due(s.half[s.l2p], s.trans, s.gc))
    ensures Inv(L2pStep(s))
  {
    if s.trans[Slot(s.ring, s.l2p).lba] == Cached(Wrap(s.l2p, |s.ring|)) { L2pAlive(s); }
    L2pCore(s);
    L2pHalf(s);
    L2pQuiet(s);
    L2pTended(s);
  }

  lemma L2pTended(s: State)
    requires Pointers(s) && L2pReady(s) && Retirable(s) && HalfOk(s) && Tended(s)
    requires s.l2p in s.half ==> !Due(s.half[s.l2p], s.trans, s.gc)
    ensures Tended(L2pStep(s))
  {
    var t := L2pStep(s);
    L2pLines(s);
    L2pSlots(s);
    UsersStay(s);
    TendedFrame(s, t);
  }

  /** The line of an entry that leaves is in use. */
  lemma L2pLive(s: State)
    requires SlotsOk(s.secPerLine, s.ring, |s.trans|, s.lines, s.media) && L2pReady(s)
    ensures s.lines[Slot(s.ring, s.l2p).ppa.line].state != Free
  {
  }

  // ---------------------------------------------------------------- closing and replacing lines

  lemma CloseCore(s: State, l: nat)
    requires Core(s) && l < |s.lines| && s.lines[l].state == Open && s.lines[l].leftSsecs == 0
    ensures Core(CloseStep(s, l))
  {
    var l' := CloseLine(s.lines[l]);
    assert LineOk(s.lines[l], s.secPerLine, |s.trans|);
    assert s.lines[l].next == |s.lines[l].secs|;
    LinesUpdate(s.secPerLine, |s.trans|, s.lines, l, l');
    LineFrame(s.secPerLine, s.ring, s.trans, s.lines, s.media, l, l');
    CountsFrame(s.ring, s.lines, s.l2p, s.sync, s.subm, l, l');
    UnstartedGc(s.trans, s.lines, s.media, s.gc, l, l');
  }

  lemma CloseKeeps(s: State, l: nat)
    requires Inv(s) && l < |s.lines| && s.lines[l].state == Open && s.lines[l].leftSsecs == 0
    ensures Inv(CloseStep(s, l))
  {
    CloseCore(s, l);
    LineWriters(s, CloseStep(s, l));
    LineTended(s, CloseStep(s, l));
  }

  /** Outside GC a line's state and reference are free to change as far as GC is concerned. */
  lemma UnstartedGc(trans: seq<Ppa>, lines: seq<Line>, media: map<(nat, nat), Data>, gc: map<(nat, nat), GcItem>, i: nat, l: Line)
    requires GcOk(trans, lines, media, gc) && i < |lines| && lines[i].state != Gc && l.state != Gc
    ensures GcOk(trans, lines[i := l], media, gc)
  {
  }

  lemma {:induction false} RangeSize(lo: nat, hi: nat)
    requires lo <= hi
    ensures |Range(lo, hi)| == hi - lo
    decreases hi - lo
  {
    if lo < hi { RangeSize(lo + 1, hi); }
  }

  lemma {:induction false} DistinctSize(secs: seq<nat>)
    requires Distinct(secs)
    ensures |Elems(secs)| == |secs|
  {
    if secs != [] {
      var rest, last := secs[..|secs| - 1], secs[|secs| - 1];
      DistinctSize(rest);
      assert last !in rest;
      assert Elems(secs) == Elems(rest) + {last};
    }
  }

  lemma FreshInvalid(secs: seq<nat>, S: nat)
    requires GoodSecs(secs, S)
    ensures |FreshLine(secs, S).invalid| == S - |secs|
  {
    var invalid := FreshLine(secs, S).invalid;
    RangeSize(0, S);
    DistinctSize(secs);
    assert invalid + Elems(secs) == Range(0, S);
    assert invalid !! Elems(secs);
    assert |invalid + Elems(secs)| == |invalid| + |Elems(secs)|;
  }

  lemma FreshLineOk(secs: seq<nat>, S: nat, nrSecs: nat)
    requires GoodSecs(secs, S)
    ensures LineOk(FreshLine(secs, S), S, nrSecs)
  {
    FreshInvalid(secs, S);
    assert secs[0..] == secs;
  }

  lemma WipedMaps(S: nat, ring: seq<Entry>, trans: seq<Ppa>, lines: seq<Line>, media: map<(nat, nat), Data>, i: nat, p: nat)
    requires MapOk(S, ring, trans, lines, media) && SlotsOk(S, ring, |trans|, lines, media)
    requires NoneMapped(trans, i) && NonePending(ring, i)
    ensures MapOk(S, ring, trans, lines, media - {(i, p)}) && SlotsOk(S, ring, |trans|, lines, media - {(i, p)})
  {
  }

  lemma WipedGc(trans: seq<Ppa>, lines: seq<Line>, media: map<(nat, nat), Data>, gc: map<(nat, nat), GcItem>, i: nat, p: nat)
    requires GcOk(trans, lines, media, gc) && i < |lines| && lines[i].state != Gc
    ensures GcOk(trans, lines, media - {(i, p)}, gc)
  {
  }

  /** A free line is neither mapped to nor pending. */
  lemma FreeUnused(S: nat, ring: seq<Entry>, trans: seq<Ppa>, lines: seq<Line>, media: map<(nat, nat), Data>, i: nat)
    requires MapOk(S, ring, trans, lines, media) && SlotsOk(S, ring, |trans|, lines, media)
    requires i < |lines| && lines[i].state == Free
    ensures NoneMapped(trans, i) && NonePending(ring, i)
  {
  }

  /** Erasing what a free line holds. */
  lemma WipeKeeps(s: State, l: nat, p: nat)
    requires Inv(s) && l < |s.lines| && s.lines[l].state == Free
    ensures Inv(WipeStep(s, l, p))
  {
    hide Core, HalfOk, Quiet, Tended;
    WipeCore(s, l, p);
    CoreSized(s);
    LineWriters(s, WipeStep(s, l, p));
    LineTended(s, WipeStep(s, l, p));
  }

  lemma WipeCore(s: State, l: nat, p: nat)
    requires Core(s) && l < |s.lines| && s.lines[l].state == Free
    ensures Core(WipeStep(s, l, p))
  {
    hide RingOk, MapOk, SlotsOk, LinesOk, Counts, Owned, GcOk;
    FreeUnused(s.secPerLine, s.ring, s.trans, s.lines, s.media, l);
    WipedMaps(s.secPerLine, s.ring, s.trans, s.lines, s.media, l, p);
    WipedGc(s.trans, s.lines, s.media, s.gc, l, p);
    CoreSized(s);
    RingFrame(s, WipeStep(s, l, p));
  }

  lemma ReplaceCounts(s: State, l: nat, secs: seq<nat>)
    requires Pointers(s) && Flags(s.ring, s.unfilled, s.l2p, s.sync, s.subm, s.mem)
    requires Counts(s.ring, s.lines, s.l2p, s.sync, s.subm) && l < |s.lines| && NonePending(s.ring, l)
    ensures var t := ReplaceStep(s, l, secs); Counts(t.ring, t.lines, t.l2p, t.sync, t.subm)
  {
    forall lo | s.l2p <= lo <= s.subm ensures MappedTo(s.ring, lo, s.subm, l) == {} {
      forall k | k in Range(lo, s.subm) ensures k !in MappedTo(s.ring, lo, s.subm, l) {
        assert Slot(s.ring, k).flag == Submitted;
      }
    }
  }

  lemma ReplaceMaps(s: State, l: nat, secs: seq<nat>)
    requires Core(s) && l < |s.lines| && s.lines[l].state == Free && GoodSecs(secs, s.secPerLine)
    ensures NonePending(s.ring, l)
    ensures var t := ReplaceStep(s, l, secs);
      && MapOk(t.secPerLine, t.ring, t.trans, t.lines, t.media) && SlotsOk(t.secPerLine, t.ring, |t.trans|, t.lines, t.media)
      && Owned(t.secPerLine, t.ring, t.trans, t.lines) && GcOk(t.trans, t.lines, t.media, t.gc)
  {
    var t := ReplaceStep(s, l, secs);
    FreeUnused(s.secPerLine, s.ring, s.trans, s.lines, s.media, l);
    UnusedLine(s.secPerLine, s.ring, s.trans, s.lines, s.media, l, t.lines[l]);
    UnstartedGc(s.trans, s.lines, s.media, s.gc, l, t.lines[l]);
  }

  lemma ReplaceCore(s: State, l: nat, secs: seq<nat>)
    requires Core(s) && l < |s.lines| && s.lines[l].state == Free && GoodSecs(secs, s.secPerLine)
    ensures Core(ReplaceStep(s, l, secs))
  {
    ReplaceMaps(s, l, secs);
    ReplaceCounts(s, l, secs);
    FreshLineOk(secs, s.secPerLine, |s.trans|);
    LinesUpdate(s.secPerLine, |s.trans|, s.lines, l, FreshLine(secs, s.secPerLine));
  }

  lemma ReplaceKeeps(s: State, l: nat, secs: seq<nat>)
    requires Inv(s) && l < |s.lines| && s.lines[l].state == Free && GoodSecs(secs, s.secPerLine)
    ensures Inv(ReplaceStep(s, l, secs))
  {
    ReplaceCore(s, l, secs);
    NoCollector(s, l);
    LineWriters(s, ReplaceStep(s, l, secs));
    LineTended(s, ReplaceStep(s, l, secs));
  }

  /** GC is writing sectors of lines in GC only. */
  lemma NoCollector(s: State, l: nat)
    requires Sized(s) && HalfOk(s) && GcOk(s.trans, s.lines, s.media, s.gc) && l < |s.lines| && s.lines[l].state != Gc
    ensures forall k :: k in s.half && s.half[k].Collector? ==> s.half[k].line != l
  {
    forall k | k in s.half && s.half[k].Collector? ensures s.half[k].line != l {
      assert WriterOk(s.half[k], s.lines, s.gc, |s.trans|);
    }
  }

  // ---------------------------------------------------------------- garbage collection

  lemma GcStartGc(trans: seq<Ppa>, lines: seq<Line>, media: map<(nat, nat), Data>, gc: map<(nat, nat), GcItem>, i: nat)
    requires GcOk(trans, lines, media, gc) && i < |lines| && lines[i].state == Closed && lines[i].held
    ensures GcOk(trans, lines[i := StartLine(lines[i])], media, gc)
  {
  }

  lemma GcStartCore(s: State, l: nat)
    requires Core(s) && l < |s.lines| && s.lines[l].state == Closed
    ensures Core(GcStartStep(s, l))
  {
    var l' := StartLine(s.lines[l]);
    assert LineOk(s.lines[l], s.secPerLine, |s.trans|);
    LinesUpdate(s.secPerLine, |s.trans|, s.lines, l, l');
    LineFrame(s.secPerLine, s.ring, s.trans, s.lines, s.media, l, l');
    CountsFrame(s.ring, s.lines, s.l2p, s.sync, s.subm, l, l');
    GcStartGc(s.trans, s.lines, s.media, s.gc, l);
  }

  lemma GcStartHalf(s: State, l: nat)
    requires Sized(s) && HalfOk(s) && GcOk(s.trans, s.lines, s.media, s.gc) && l < |s.lines| && s.lines[l].state == Closed
    ensures HalfOk(GcStartStep(s, l))
  {
    var t := GcStartStep(s, l);
    NoCollector(s, l);
    forall k | k in s.half ensures WriterOk(s.half[k], t.lines, s.gc, |s.trans|) {
      assert WriterOk(s.half[k], s.lines, s.gc, |s.trans|);
    }
    HalfFrame(s, t);
  }

  lemma GcStartQuiet(s: State, l: nat)
    requires Sized(s) && Quiet(s) && l < |s.lines| && NoInstalls(s, l)
    ensures Quiet(GcStartStep(s, l))
  {
    var t := GcStartStep(s, l);
    forall m, k | 0 <= m < |t.lines| && t.lines[m].state == Gc && t.l2p <= k < t.subm && MapsTo(t.ring, k, m) ensures !Installs(t, k) {
      assert NoInstalls(s, m);
    }
  }

  lemma GcStartKeeps(s: State, l: nat)
    requires Inv(s) && l < |s.lines| && s.lines[l].state == Closed && NoInstalls(s, l)
    ensures Inv(GcStartStep(s, l))
  {
    hide Core, HalfOk, Quiet, Tended;
    CoreSized(s);
    CoreGc(s);
    GcStartCore(s, l);
    GcStartHalf(s, l);
    GcStartQuiet(s, l);
    GcStartTended(s, l);
  }

  /** GC has everything in the line still to look at. */
  lemma GcStartTended(s: State, l: nat)
    requires Core(s) && Tended(s) && l < |s.lines| && s.lines[l].state == Closed
    ensures Sized(s) && Tended(GcStartStep(s, l))
  {
    var t := GcStartStep(s, l);
    assert LineOk(s.lines[l], s.secPerLine, |s.trans|);
    forall a | 0 <= a < |t.trans| && InGc(t, a) ensures TendedAt(t, a) {
      if t.trans[a].line != l {
        assert InGc(s, a) && TendedAt(s, a);
        SameOver(s, t, t.trans[a].line, a);
      }
    }
  }

  /** Whether an address is written over has nothing to do with the lines. */
  lemma SameOver(s: State, t: State, l: nat, a: nat)
    requires Sized(s) && Sized(t) && t == s.(lines := t.lines, gc := t.gc)
    ensures WrittenOver(t, l, a) <==> WrittenOver(s, l, a)
  {
  }

  lemma GcReadGc(S: nat, ring: seq<Entry>, trans: seq<Ppa>, lines: seq<Line>, media: map<(nat, nat), Data>,
                 gc: map<(nat, nat), GcItem>, i: nat, p: nat, a: nat, gc': map<(nat, nat), GcItem>)
    requires GcOk(trans, lines, media, gc) && MapOk(S, ring, trans, lines, media)
    requires i < |lines| && lines[i].state == Gc && lines[i].held && p in lines[i].lbas && lines[i].lbas[p] == Some(a)
    requires a < |trans| && (trans[a].Media? ==> (trans[a].line, trans[a].sec) in media)
    requires p !in lines[i].scanned
    requires gc' == if trans[a].Media? && trans[a].line == i then gc[(i, p) := GcItem(a, media[(i, trans[a].sec)])] else gc
    ensures GcOk(trans, lines[i := ScanLine(lines[i], p)], media, gc')
  {
  }

  /** What GC reads next is not what it is writing. */
  lemma ReadWriters(s: State, l: nat, p: nat)
    requires Sized(s) && CanScan(s, l, p) && HalfOk(s) && Quiet(s)
    ensures HalfOk(GcReadStep(s, l, p)) && Quiet(GcReadStep(s, l, p))
  {
    var t := GcReadStep(s, l, p);
    forall k | k in s.half ensures WriterOk(s.half[k], t.lines, t.gc, |t.trans|) && (Due(s.half[k], t.trans, t.gc) <==> Due(s.half[k], s.trans, s.gc)) {
      assert WriterOk(s.half[k], s.lines, s.gc, |s.trans|);
    }
    forall k | k in s.half && Due(s.half[k], s.trans, s.gc) ensures Holding(Slot(s.ring, k), s.half[k], t.gc) {
      assert Holding(Slot(s.ring, k), s.half[k], s.gc);
    }
    QuietFrame(s, t);
  }

  /** Lines, map and counts when a sector has been looked at. */
  lemma ScanMaps(s: State, l: nat, p: nat)
    requires Core(s) && CanScan(s, l, p)
    ensures var lines' := s.lines[l := ScanLine(s.lines[l], p)];
      && MapOk(s.secPerLine, s.ring, s.trans, lines', s.media) && SlotsOk(s.secPerLine, s.ring, |s.trans|, lines', s.media)
      && Owned(s.secPerLine, s.ring, s.trans, lines') && LinesOk(s.secPerLine, |s.trans|, lines')
      && Counts(s.ring, lines', s.l2p, s.sync, s.subm)
  {
    var l' := ScanLine(s.lines[l], p);
    assert LineOk(s.lines[l], s.secPerLine, |s.trans|);
    LinesUpdate(s.secPerLine, |s.trans|, s.lines, l, l');
    LineFrame(s.secPerLine, s.ring, s.trans, s.lines, s.media, l, l');
    CountsFrame(s.ring, s.lines, s.l2p, s.sync, s.subm, l, l');
  }

  lemma GcReadCore(s: State, l: nat, p: nat)
    requires Core(s) && CanScan(s, l, p)
    ensures Core(GcReadStep(s, l, p))
  {
    hide RingOk, MapOk, SlotsOk, LinesOk, Counts, Owned, GcOk;
    ScanMaps(s, l, p);
    ScanReads(s, l, p);
    CoreSized(s);
    RingFrame(s, GcReadStep(s, l, p));
  }

  lemma ScanReads(s: State, l: nat, p: nat)
    requires Core(s) && CanScan(s, l, p)
    ensures var t := GcReadStep(s, l, p); GcOk(t.trans, t.lines, t.media, t.gc)
  {
    hide RingOk, SlotsOk, LinesOk, Counts, Owned;
    GcReadGc(s.secPerLine, s.ring, s.trans, s.lines, s.media, s.gc, l, p, s.lines[l].lbas[p].value, GcReadStep(s, l, p).gc);
  }

  lemma GcReadKeeps(s: State, l: nat, p: nat)
    requires Inv(s) && Enabled(s, GcRead(l, p))
    ensures Inv(GcReadStep(s, l, p))
  {
    hide Core, HalfOk, Quiet, Tended;
    GcReadCore(s, l, p);
    ReadWriters(s, l, p);
    ReadTended(s, l, p);
  }

  /** What maps to a sector is the address its line names for it. */
  lemma NamedBy(s: State, a: nat)
    requires Core(s) && a < |s.trans| && s.trans[a].Media?
    ensures var l, p := s.trans[a].line, s.trans[a].sec; l < |s.lines| && p in s.lines[l].lbas && s.lines[l].lbas[p] == Some(a)
  {
  }

  /** Sector `p` of `l` has been looked at; what maps to it is tended, what maps elsewhere was before. */
  lemma ScanTended(s: State, t: State, l: nat, p: nat, a: nat)
    requires Core(s) && Sized(s) && Tended(s) && CanScan(s, l, p)
    requires t == s.(lines := s.lines[l := ScanLine(s.lines[l], p)], gc := t.gc)
    requires forall key :: key in s.gc ==> key in t.gc && t.gc[key].lba == s.gc[key].lba
    requires InGc(t, a) && (t.trans[a] == Media(l, p) ==> Copied(t.gc, l, a) || WrittenOver(s, l, a))
    ensures TendedAt(t, a)
  {
    hide Core;
    var m := t.trans[a].line;
    assert InGc(s, a) && TendedAt(s, a);
    SameOver(s, t, m, a);
    if Copied(s.gc, m, a) {
      var key :| key in s.gc && key.0 == m && s.gc[key].lba == a;
      assert key in t.gc;
    }
  }

  lemma ReadTended(s: State, l: nat, p: nat)
    requires Core(s) && Sized(s) && Tended(s) && CanScan(s, l, p) && HalfOk(s)
    ensures Tended(GcReadStep(s, l, p))
  {
    hide Core;
    var t := GcReadStep(s, l, p);
    NotYetCopied(s, l, p);
    forall a | 0 <= a < |t.trans| && InGc(t, a) ensures TendedAt(t, a) {
      NamedBy(s, a);
      if t.trans[a] == Media(l, p) { assert (l, p) in t.gc && t.gc[(l, p)].lba == a; }
      ScanTended(s, t, l, p, a);
    }
  }

  lemma NotYetCopied(s: State, l: nat, p: nat)
    requires Core(s) && CanScan(s, l, p)
    ensures (l, p) !in s.gc
  {
  }

  /** The address of the sector does not map to it, or GC has a copy of it in hand, or a user takes it away in time. */
  predicate Skippable(s: State, l: nat, p: nat)
    requires Sized(s) && CanScan(s, l, p)
  {
    var a := s.lines[l].lbas[p].value;
    s.trans[a] == Media(l, p) ==> Copied(s.gc, l, a) || WrittenOver(s, l, a)
  }

  lemma GcSkipCore(s: State, l: nat, p: nat)
    requires Core(s) && CanScan(s, l, p)
    ensures Sized(s) && Core(GcSkipStep(s, l, p))
  {
    hide RingOk, SlotsOk, LinesOk, Counts, Owned;
    CoreSized(s);
    ScanMaps(s, l, p);
    RingFrame(s, GcSkipStep(s, l, p));
  }

  lemma SkipTended(s: State, l: nat, p: nat)
    requires Core(s) && Sized(s) && Tended(s) && CanScan(s, l, p) && Skippable(s, l, p)
    ensures Tended(GcSkipStep(s, l, p))
  {
    hide Core;
    var t := GcSkipStep(s, l, p);
    forall a | 0 <= a < |t.trans| && InGc(t, a) ensures TendedAt(t, a) {
      NamedBy(s, a);
      ScanTended(s, t, l, p, a);
    }
  }

  /** A sector on its own is not handed on: no harm if its address has moved on or will in time. */
  lemma GcSkipKeeps(s: State, l: nat, p: nat)
    requires Inv(s) && CanScan(s, l, p) && Sized(s) && Skippable(s, l, p)
    ensures Inv(GcSkipStep(s, l, p))
  {
    hide Core, HalfOk, Quiet, Tended, Skippable;
    GcSkipCore(s, l, p);
    LineWriters(s, GcSkipStep(s, l, p));
    SkipTended(s, l, p);
  }

  /** When GC is done with its victim a user takes away what still maps into it. */
  lemma ScannedOver(s: State, l: nat, a: nat)
    requires Core(s) && Sized(s) && Tended(s) && l < |s.lines| && s.lines[l].state == Gc && ScanDone(s, l)
    requires LiesIn(s.trans, a, l)
    ensures WrittenOver(s, l, a)
  {
    NamedBy(s, a);
    assert InGc(s, a) && TendedAt(s, a);
  }

  /** The victim's first reference as one more to drop: GC no longer holds it. */
  lemma ReleaseKeeps(s: State, l: nat)
    requires Core(s) && l < |s.lines| && s.lines[l].state == Gc && s.lines[l].held && ScanDone(s, l)
    ensures var t := s.(lines := s.lines[l := s.lines[l].(held := false)]);
      && MapOk(t.secPerLine, t.ring, t.trans, t.lines, t.media) && SlotsOk(t.secPerLine, t.ring, |t.trans|, t.lines, t.media)
      && Owned(t.secPerLine, t.ring, t.trans, t.lines) && GcOk(t.trans, t.lines, t.media, t.gc)
      && LinesOk(t.secPerLine, |t.trans|, t.lines)
  {
    var l' := s.lines[l].(held := false);
    assert LineOk(s.lines[l], s.secPerLine, |s.trans|);
    LinesUpdate(s.secPerLine, |s.trans|, s.lines, l, l');
    LineFrame(s.secPerLine, s.ring, s.trans, s.lines, s.media, l, l');
    UnusedGc(s.trans, s.lines, s.media, s.gc, l, l');
  }

  lemma GcPutCounts(s: State, l: nat)
    requires Pointers(s) && Counts(s.ring, s.lines, s.l2p, s.sync, s.subm)
    requires l < |s.lines| && s.lines[l].state == Gc && s.lines[l].held
    ensures var t := GcPutStep(s, l); Counts(t.ring, t.lines, t.l2p, t.sync, t.subm)
    ensures s.lines[l].refs == 1 ==> MappedTo(s.ring, s.l2p, s.subm, l) == {}
  {
  }

  lemma OverPending(s: State, l: nat, a: nat)
    requires Sized(s) && WrittenOver(s, l, a)
    ensures MappedTo(s.ring, s.l2p, s.subm, l) != {}
  {
    var k :| s.l2p <= k < s.subm && MapsTo(s.ring, k, l) && Overtaken(s.half, a, k);
    assert k in MappedTo(s.ring, s.l2p, s.subm, l);
  }

  /** Nothing maps into a line that GC's is the last reference to, once GC is done with it. */
  lemma PutUnmapped(s: State, l: nat)
    requires Core(s) && Sized(s) && Tended(s) && l < |s.lines| && s.lines[l].state == Gc && ScanDone(s, l)
    requires MappedTo(s.ring, s.l2p, s.subm, l) == {}
    ensures NoneMapped(s.trans, l)
  {
    hide Core;
    forall a | 0 <= a < |s.trans| && s.trans[a].Media? ensures s.trans[a].line != l {
      if s.trans[a].line == l {
        ScannedOver(s, l, a);
        OverPending(s, l, a);
      }
    }
  }

  lemma PutTended(s: State, l: nat)
    requires Core(s) && Sized(s) && Tended(s) && l < |s.lines| && s.lines[l].state == Gc && s.lines[l].held && ScanDone(s, l)
    ensures Tended(GcPutStep(s, l))
  {
    hide Core;
    var t := GcPutStep(s, l);
    forall a | 0 <= a < |t.trans| && InGc(t, a) ensures TendedAt(t, a) {
      var m := t.trans[a].line;
      SameOver(s, t, m, a);
      assert InGc(s, a) && TendedAt(s, a);
      if m == l { ScannedOver(s, l, a); }
    }
  }

  lemma GcPutCore(s: State, l: nat)
    requires Core(s) && Sized(s) && Tended(s) && l < |s.lines| && s.lines[l].state == Gc && s.lines[l].held && ScanDone(s, l)
    ensures Core(GcPutStep(s, l))
  {
    hide Tended;
    var s1 := s.(lines := s.lines[l := s.lines[l].(held := false)]);
    ReleaseKeeps(s, l);
    GcPutCounts(s, l);
    if s.lines[l].refs == 1 {
      NonePendingByCount(s.ring, s.unfilled, s.l2p, s.sync, s.subm, s.mem, l);
      PutUnmapped(s, l);
    }
    PutRefMaps(s.secPerLine, s.ring, s.trans, s1.lines, s.media, s.gc, l);
    assert GcPutStep(s, l).lines == s1.lines[l := PutRef(s1.lines[l])];
  }

  lemma GcPutKeeps(s: State, l: nat)
    requires Inv(s) && l < |s.lines| && s.lines[l].state == Gc && s.lines[l].held && ScanDone(s, l)
    ensures Inv(GcPutStep(s, l))
  {
    hide Core, HalfOk, Quiet, Tended, ScanDone;
    CoreSized(s);
    GcPutCore(s, l);
    LineWriters(s, GcPutStep(s, l));
    PutTended(s, l);
  }
}

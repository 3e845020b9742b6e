/** Each step of the system keeps the invariant. */
module FtlSteps {
  import opened Ftl
  import opened FtlInv

  lemma {:induction false} WrapsDiffer(n: nat, j: nat, k: nat)
    requires j < k < j + n
    ensures Wrap(j, n) != Wrap(k, n)
  {
    if j >= n {
      WrapsDiffer(n, j - n, k - n);
    } else if k >= n {
      assert Wrap(k, n) == k - n;
    }
  }

  /** Within a window of the ring's size different positions are different slots. */
  lemma OtherSlots(ring: seq<Entry>, l2p: nat, k: nat)
    requires l2p <= k < l2p + |ring|
    ensures forall j :: l2p <= j < l2p + |ring| && j != k ==> Wrap(j, |ring|) != Wrap(k, |ring|)
  {
    forall j | l2p <= j < l2p + |ring| && j != k ensures Wrap(j, |ring|) != Wrap(k, |ring|) {
      if j < k { WrapsDiffer(|ring|, j, k); } else { WrapsDiffer(|ring|, k, j); }
    }
  }

  /** Writing position `k` changes that position and no other of the window. */
  lemma UpdateSlot(ring: seq<Entry>, ring': seq<Entry>, l2p: nat, k: nat, e: Entry)
    requires l2p <= k < l2p + |ring| && ring' == ring[Wrap(k, |ring|) := e]
    ensures Slot(ring', k) == e
    ensures forall j {:trigger Slot(ring', j)} :: l2p <= j < l2p + |ring| && j != k ==> Slot(ring', j) == Slot(ring, j)
  {
    OtherSlots(ring, l2p, k);
  }

  /** Writers are left alone by a step that keeps their slots and lets no address enter a victim. */
  lemma HalfFrame(s: State, t: State)
    requires Sized(s) && Sized(t) && HalfOk(s)
    requires t.half == s.half && t.gc == s.gc && |t.trans| == |s.trans| && t.l2p == s.l2p && s.mem <= t.mem
    requires forall k :: k in s.half ==> k !in t.unfilled && WriterOk(s.half[k], t.lines, s.gc, |s.trans|)
    requires forall k :: k in s.half && Due(s.half[k], t.trans, s.gc) ==> Due(s.half[k], s.trans, s.gc)
    requires forall k :: k in s.half && Due(s.half[k], s.trans, s.gc) ==> Slot(t.ring, k).lba == Slot(s.ring, k).lba && Slot(t.ring, k).data == Slot(s.ring, k).data
    ensures HalfOk(t)
  {
  }

  /** Nothing comes to be installed into a line in GC. */
  lemma QuietFrame(s: State, t: State)
    requires Sized(s) && Sized(t) && Quiet(s) && s.l2p <= t.l2p && t.subm == s.subm && |t.lines| == |s.lines|
    requires forall l :: 0 <= l < |s.lines| && t.lines[l].state == Gc ==> s.lines[l].state == Gc
    requires forall k :: t.l2p <= k < t.subm ==> Slot(t.ring, k).ppa == Slot(s.ring, k).ppa && (Installs(t, k) ==> Installs(s, k))
    ensures Quiet(t)
  {
    forall l, k | 0 <= l < |t.lines| && t.lines[l].state == Gc && t.l2p <= k < t.subm && MapsTo(t.ring, k, l) ensures !Installs(t, k) {
      assert NoInstalls(s, l) && MapsTo(s.ring, k, l);
    }
  }

  /** A user still writes `a` over what maps to line `l`. */
  lemma OverFrame(s: State, t: State, l: nat, a: nat)
    requires Sized(s) && Sized(t) && WrittenOver(s, l, a) && s.subm <= t.subm
    requires forall k :: t.l2p <= k < s.subm ==> Slot(t.ring, k).ppa == Slot(s.ring, k).ppa
    requires forall j :: j in s.half && s.half[j].User? && s.half[j].lba == a ==> t.l2p <= j && j in t.half && t.half[j] == s.half[j]
    ensures WrittenOver(t, l, a)
  {
    var k :| s.l2p <= k < s.subm && MapsTo(s.ring, k, l) && Overtaken(s.half, a, k);
    var j :| j in s.half && j < k && s.half[j].User? && s.half[j].lba == a;
    assert t.half[j] == s.half[j] && MapsTo(t.ring, k, l);
    assert Overtaken(t.half, a, k);
  }

  /** No line enters GC or is let go by it, or looked at further. */
  predicate SameGc(s: State, t: State) {
    && |t.lines| == |s.lines|
    && forall l :: 0 <= l < |s.lines| && t.lines[l].state == Gc ==>
         s.lines[l].state == Gc && t.lines[l].held == s.lines[l].held && t.lines[l].scanned == s.lines[l].scanned
  }

  /** Every entry that stays is mapped as before, and no user has an entry that does not stay. */
  predicate SameEntries(s: State, t: State)
    requires Sized(s) && Sized(t)
  {
    && s.subm <= t.subm && (forall k :: t.l2p <= k < s.subm ==> Slot(t.ring, k).ppa == Slot(s.ring, k).ppa)
    && (forall j :: j in s.half && s.half[j].User? ==> t.l2p <= j)
  }

  /** A step that maps nothing into a line in GC and takes no writer away from what is left there. */
  lemma TendedFrame(s: State, t: State)
    requires Sized(s) && Sized(t) && Tended(s) && SameGc(s, t) && SameEntries(s, t)
    requires forall a :: 0 <= a < |t.trans| && InGc(t, a) ==> a < |s.trans| && t.trans[a] == s.trans[a]
    requires forall j :: j in s.half && s.half[j].User? ==> (j in t.half && t.half[j] == s.half[j]) || !InGc(t, s.half[j].lba)
    requires forall key :: key in s.gc ==> (key in t.gc && t.gc[key].lba == s.gc[key].lba) || !LiesIn(t.trans, s.gc[key].lba, key.0)
    ensures Tended(t)
  {
    forall a | 0 <= a < |t.trans| && InGc(t, a) ensures TendedAt(t, a) {
      TendedOne(s, t, a);
    }
  }

  lemma TendedOne(s: State, t: State, a: nat)
    requires Sized(s) && Sized(t) && SameGc(s, t) && SameEntries(s, t) && InGc(t, a) && a < |s.trans| && t.trans[a] == s.trans[a]
    requires InGc(s, a) && TendedAt(s, a)
    requires forall j :: j in s.half && s.half[j].User? && s.half[j].lba == a ==> j in t.half && t.half[j] == s.half[j]
    requires forall key :: key in s.gc && key.0 == t.trans[a].line && s.gc[key].lba == a ==> key in t.gc && t.gc[key].lba == a
    ensures TendedAt(t, a)
  {
    var l := t.trans[a].line;
    if WrittenOver(s, l, a) {
      OverFrame(s, t, l, a);
    } else if Copied(s.gc, l, a) {
      var key :| key in s.gc && key.0 == l && s.gc[key].lba == a;
      assert key in t.gc;
    }
  }

  /** A step that leaves the ring alone. */
  lemma RingFrame(s: State, t: State)
    requires RingOk(s) && Sized(t) && t.ring == s.ring && t.unfilled == s.unfilled && t.reqs == s.reqs
    requires t.l2p == s.l2p && t.sync == s.sync && t.disp == s.disp && t.subm == s.subm && t.mem == s.mem
    ensures RingOk(t)
  {
  }

  /** A step that touches neither slots nor map nor lines keeps both. */
  lemma SameWriters(s: State, t: State)
    requires Sized(s) && HalfOk(s) && Quiet(s) && Tended(s) && s.mem <= t.mem
    requires t == s.(mem := t.mem, unfilled := t.unfilled, disp := t.disp, reqs := t.reqs)
    requires forall k :: k in t.unfilled ==> k in s.unfilled || k >= s.mem
    ensures HalfOk(t) && Quiet(t) && Tended(t)
  {
    HalfFrame(s, t);
    QuietFrame(s, t);
    UsersStay(s);
    TendedFrame(s, t);
  }

  /** What a user has filled has not left the ring. */
  lemma UsersStay(s: State)
    requires Sized(s) && HalfOk(s)
    ensures forall j :: j in s.half && s.half[j].User? ==> s.l2p <= j
  {
    forall j | j in s.half && s.half[j].User? ensures s.l2p <= j {
      assert Due(s.half[j], s.trans, s.gc);
    }
  }

  lemma ReserveKeeps(s: State, count: nat)
    requires Inv(s) && s.mem + count < s.l2p + |s.ring|
    ensures Inv(ReserveStep(s, count))
  {
    SameWriters(s, ReserveStep(s, count));
  }

  lemma {:induction false} TiledAppend(reqs: seq<Req>, lo: nat, hi: nat, r: Req)
    requires Tiled(reqs, lo, hi) && r.sentry == hi && r.nr > 0
    ensures Tiled(reqs + [r], lo, End(r))
  {
    if reqs != [] {
      TiledAppend(reqs[1..], End(reqs[0]), hi, r);
      assert (reqs + [r])[1..] == reqs[1..] + [r];
    } else {
      assert ([r])[1..] == [];
    }
  }

  lemma {:induction false} TiledAck(reqs: seq<Req>, lo: nat, hi: nat, i: nat)
    requires Tiled(reqs, lo, hi) && i < |reqs|
    ensures Tiled(reqs[i := reqs[i].(back := true)], lo, hi)
  {
    var r := reqs[i := reqs[i].(back := true)];
    if i > 0 {
      TiledAck(reqs[1..], End(reqs[0]), hi, i - 1);
      assert r[1..] == reqs[1..][i - 1 := reqs[i].(back := true)];
    } else {
      assert r[1..] == reqs[1..];
    }
  }

  lemma DispatchKeeps(s: State, count: nat)
    requires Inv(s) && 0 < count && s.disp + count <= s.subm
    ensures Inv(DispatchStep(s, count))
  {
    TiledAppend(s.reqs, s.sync, s.disp, Req(s.disp, count, false));
    SameWriters(s, DispatchStep(s, count));
  }

  lemma AckKeeps(s: State, i: nat)
    requires Inv(s) && i < |s.reqs| && (forall k :: s.reqs[i].sentry <= k < s.reqs[i].sentry + s.reqs[i].nr ==> Slot(s.ring, k).done)
    ensures Inv(s.(reqs := s.reqs[i := s.reqs[i].(back := true)]))
  {
    TiledAck(s.reqs, s.sync, s.disp, i);
    SameWriters(s, s.(reqs := s.reqs[i := s.reqs[i].(back := true)]));
  }

  // ---------------------------------------------------------------- discard

  lemma UnmapMaps(S: nat, ring: seq<Entry>, trans: seq<Ppa>, lines: seq<Line>, media: map<(nat, nat), Data>, a: nat)
    requires MapOk(S, ring, trans, lines, media) && SlotsOk(S, ring, |trans|, lines, media)
    requires a < |trans| && trans[a].Media?
    ensures var l := trans[a].line;
      var lines' := lines[l := Invalidate(lines[l], trans[a].sec)];
      MapOk(S, ring, trans[a := Empty], lines', media) && SlotsOk(S, ring, |trans|, lines', media)
  {
  }

  lemma InvalidateLine(l: Line, p: nat, S: nat, nrSecs: nat)
    requires LineOk(l, S, nrSecs) && p < S && p in l.lbas
    ensures LineOk(Invalidate(l, p), S, nrSecs)
  {
  }

  lemma UnmapOwned(S: nat, ring: seq<Entry>, trans: seq<Ppa>, lines: seq<Line>, media: map<(nat, nat), Data>, a: nat)
    requires Owned(S, ring, trans, lines) && MapOk(S, ring, trans, lines, media)
    requires a < |trans| && trans[a].Media?
    ensures var l := trans[a].line;
      Owned(S, ring, trans[a := Empty], lines[l := Invalidate(lines[l], trans[a].sec)])
  {
  }

  lemma UnmapGc(S: nat, ring: seq<Entry>, trans: seq<Ppa>, lines: seq<Line>, media: map<(nat, nat), Data>,
                gc: map<(nat, nat), GcItem>, a: nat, lines': seq<Line>)
    requires GcOk(trans, lines, media, gc) && MapOk(S, ring, trans, lines, media)
    requires a < |trans|
    requires lines' == if trans[a].Media? then lines[trans[a].line := Invalidate(lines[trans[a].line], trans[a].sec)] else lines
    ensures GcOk(trans[a := Empty], lines', media, gc)
  {
  }

  lemma LinesUpdate(S: nat, nrSecs: nat, lines: seq<Line>, i: nat, l: Line)
    requires LinesOk(S, nrSecs, lines) && i < |lines| && LineOk(l, S, nrSecs)
    ensures LinesOk(S, nrSecs, lines[i := l])
  {
  }

  /** A line whose counters do not change keeps the counts of all lines. */
  lemma CountsFrame(ring: seq<Entry>, lines: seq<Line>, l2p: nat, sync: nat, subm: nat, i: nat, l: Line)
    requires ring != [] && Counts(ring, lines, l2p, sync, subm) && i < |lines|
    requires l.state != Free ==>
      && lines[i].state != Free && l.leftSsecs == lines[i].leftSsecs && l.refs == lines[i].refs
      && |l.secs| - l.next == |lines[i].secs| - lines[i].next && l.held == lines[i].held && l.pads == lines[i].pads
    ensures Counts(ring, lines[i := l], l2p, sync, subm)
  {
  }

  lemma UnmapOther(S: nat, ring: seq<Entry>, trans: seq<Ppa>, lines: seq<Line>, media: map<(nat, nat), Data>, a: nat)
    requires MapOk(S, ring, trans, lines, media) && Owned(S, ring, trans, lines)
    requires a < |trans| && !trans[a].Media?
    ensures MapOk(S, ring, trans[a := Empty], lines, media) && Owned(S, ring, trans[a := Empty], lines)
  {
  }

  lemma UnmapCore(s: State, a: nat)
    requires Core(s) && Mapped(s, a)
    ensures Core(Remap(s, a, Empty))
  {
    var q := s.trans[a];
    UnmapGc(s.secPerLine, s.ring, s.trans, s.lines, s.media, s.gc, a, Remap(s, a, Empty).lines);
    if q.Media? {
      UnmapMaps(s.secPerLine, s.ring, s.trans, s.lines, s.media, a);
      UnmapOwned(s.secPerLine, s.ring, s.trans, s.lines, s.media, a);
      InvalidateLine(s.lines[q.line], q.sec, s.secPerLine, |s.trans|);
      CountsFrame(s.ring, s.lines, s.l2p, s.sync, s.subm, q.line, Invalidate(s.lines[q.line], q.sec));
    } else {
      UnmapOther(s.secPerLine, s.ring, s.trans, s.lines, s.media, a);
    }
  }

  /** What a remapping does to the lines: none changes its state or what GC has looked at. */
  lemma RemapLines(s: State, a: nat, q: Ppa)
    requires Mapped(s, a)
    ensures |Remap(s, a, q).lines| == |s.lines|
    ensures var t := Remap(s, a, q);
      forall l :: 0 <= l < |s.lines| ==> t.lines[l].state == s.lines[l].state && t.lines[l].scanned == s.lines[l].scanned
  {
  }

  lemma UnmapHalf(s: State, a: nat)
    requires Sized(s) && Mapped(s, a) && HalfOk(s)
    ensures HalfOk(Remap(s, a, Empty))
  {
    var t := Remap(s, a, Empty);
    RemapLines(s, a, Empty);
    forall k | k in s.half ensures WriterOk(s.half[k], t.lines, s.gc, |s.trans|) {
      assert WriterOk(s.half[k], s.lines, s.gc, |s.trans|);
    }
    HalfFrame(s, t);
  }

  lemma UnmapQuiet(s: State, a: nat)
    requires Sized(s) && Mapped(s, a) && Quiet(s)
    ensures Quiet(Remap(s, a, Empty))
  {
    var t := Remap(s, a, Empty);
    RemapLines(s, a, Empty);
    forall k | Installs(t, k) ensures Installs(s, k) { }
    QuietFrame(s, t);
  }

  /** What a remapping leaves in lines in GC was there before. */
  lemma RemapTended(s: State, a: nat, q: Ppa, half': map<nat, Writer>)
    requires Sized(s) && Mapped(s, a) && HalfOk(s) && Tended(s) && !q.Media?
    requires forall j :: j in s.half && s.half[j].User? && s.half[j].lba != a ==> j in half' && half'[j] == s.half[j]
    ensures Tended(Remap(s, a, q).(half := half'))
  {
    var t := Remap(s, a, q).(half := half');
    RemapHeld(s, a, q);
    UsersStay(s);
    TendedFrame(s, t);
  }

  lemma RemapHeld(s: State, a: nat, q: Ppa)
    requires Mapped(s, a)
    ensures SameGc(s, Remap(s, a, q))
  {
  }

  lemma UnmapKeeps(s: State, a: nat)
    requires Inv(s) && Mapped(s, a)
    ensures Inv(Remap(s, a, Empty))
  {
    UnmapCore(s, a);
    UnmapHalf(s, a);
    UnmapQuiet(s, a);
    RemapTended(s, a, Empty, s.half);
    assert Remap(s, a, Empty).(half := s.half) == Remap(s, a, Empty);
  }

  // ---------------------------------------------------------------- filling a slot

  lemma WriteMaps(S: nat, ring: seq<Entry>, trans: seq<Ppa>, lines: seq<Line>, media: map<(nat, nat), Data>, c: nat, e: Entry)
    requires MapOk(S, ring, trans, lines, media) && SlotsOk(S, ring, |trans|, lines, media)
    requires Owned(S, ring, trans, lines)
    requires c < |ring| && ring[c].flag == Writable && e.flag == Written && e.lba < |trans| && !e.done
    ensures MapOk(S, ring[c := e], trans, lines, media) && SlotsOk(S, ring[c := e], |trans|, lines, media)
    ensures Owned(S, ring[c := e], trans, lines)
  {
  }

  lemma WriteFlags(ring: seq<Entry>, unfilled: set<nat>, l2p: nat, sync: nat, subm: nat, mem: nat, k: nat, e: Entry)
    requires ring != [] && Flags(ring, unfilled, l2p, sync, subm, mem)
    requires l2p <= sync <= subm <= k < mem < l2p + |ring| && e.flag == Written && k in unfilled
    ensures Flags(ring[Wrap(k, |ring|) := e], unfilled - {k}, l2p, sync, subm, mem)
  {
    UpdateSlot(ring, ring[Wrap(k, |ring|) := e], l2p, k, e);
  }

  /** Changing slots beyond `hi` does not change what is mapped before it. */
  lemma MappedFrame(ring: seq<Entry>, ring': seq<Entry>, lo: nat, hi: nat, l: nat)
    requires ring != [] && ring' != []
    requires forall k :: lo <= k < hi ==> Slot(ring', k).ppa == Slot(ring, k).ppa
    ensures MappedTo(ring', lo, hi, l) == MappedTo(ring, lo, hi, l)
  {
  }

  lemma CountsRing(ring: seq<Entry>, ring': seq<Entry>, lines: seq<Line>, l2p: nat, sync: nat, subm: nat)
    requires ring != [] && ring' != [] && l2p <= sync && Counts(ring, lines, l2p, sync, subm)
    requires forall k :: l2p <= k < subm ==> Slot(ring', k).ppa == Slot(ring, k).ppa
    ensures Counts(ring', lines, l2p, sync, subm)
  {
    forall l | 0 <= l < |lines| && lines[l].state != Free
      ensures MappedTo(ring', sync, subm, l) == MappedTo(ring, sync, subm, l)
      ensures MappedTo(ring', l2p, subm, l) == MappedTo(ring, l2p, subm, l)
    {
      MappedFrame(ring, ring', sync, subm, l);
      MappedFrame(ring, ring', l2p, subm, l);
    }
  }

  lemma {:induction false} TiledBounds(reqs: seq<Req>, lo: nat, hi: nat, i: nat)
    requires Tiled(reqs, lo, hi) && i < |reqs|
    ensures lo <= reqs[i].sentry < End(reqs[i]) <= hi
    ensures i > 0 ==> lo < reqs[i].sentry
  {
    TiledOrder(reqs, lo, hi);
    if i > 0 { TiledBounds(reqs[1..], End(reqs[0]), hi, i - 1); } else if |reqs| > 1 { TiledOrder(reqs[1..], End(reqs[0]), hi); }
  }

  lemma {:induction false} TiledOrder(reqs: seq<Req>, lo: nat, hi: nat)
    requires Tiled(reqs, lo, hi)
    ensures lo <= hi && (reqs != [] ==> End(reqs[0]) <= hi)
  {
    if reqs != [] { TiledOrder(reqs[1..], End(reqs[0]), hi); }
  }

  lemma BackDoneFrame(ring: seq<Entry>, ring': seq<Entry>, reqs: seq<Req>, lo: nat, hi: nat)
    requires ring != [] && ring' != [] && BackDone(ring, reqs) && Tiled(reqs, lo, hi)
    requires forall k :: lo <= k < hi && Slot(ring, k).done ==> Slot(ring', k).done
    ensures BackDone(ring', reqs)
  {
    forall i, k | 0 <= i < |reqs| && reqs[i].back && reqs[i].sentry <= k < End(reqs[i]) ensures Slot(ring', k).done {
      TiledBounds(reqs, lo, hi, i);
    }
  }

  lemma WriteCore(s: State, k: nat, a: nat, d: Data)
    requires Core(s) && k in s.unfilled && a < |s.trans|
    ensures Core(WriteEntry(s, k, a, d))
  {
    var c, e := Wrap(k, |s.ring|), Entry(Written, a, Empty, d, false);
    var ring' := s.ring[c := e];
    assert Slot(s.ring, k).flag == Writable;
    WriteMaps(s.secPerLine, s.ring, s.trans, s.lines, s.media, c, e);
    WriteRing(s, k, e, ring');
  }

  lemma WriteRing(s: State, k: nat, e: Entry, ring': seq<Entry>)
    requires RingOk(s) && k in s.unfilled && e.flag == Written && ring' == s.ring[Wrap(k, |s.ring|) := e]
    ensures Flags(ring', s.unfilled - {k}, s.l2p, s.sync, s.subm, s.mem) && BackDone(ring', s.reqs)
    ensures forall l :: MappedTo(ring', s.l2p, s.subm, l) == MappedTo(s.ring, s.l2p, s.subm, l)
    ensures Counts(s.ring, s.lines, s.l2p, s.sync, s.subm) ==> Counts(ring', s.lines, s.l2p, s.sync, s.subm)
  {
    WriteFlags(s.ring, s.unfilled, s.l2p, s.sync, s.subm, s.mem, k, e);
    UpdateSlot(s.ring, ring', s.l2p, k, e);
    BackDoneFrame(s.ring, ring', s.reqs, s.sync, s.disp);
    if Counts(s.ring, s.lines, s.l2p, s.sync, s.subm) { CountsRing(s.ring, ring', s.lines, s.l2p, s.sync, s.subm); }
  }

  /** A slot is filled and its writer noted. */
  function Noted(s: State, k: nat, a: nat, d: Data, w: Writer): State
    requires Sized(s)
  {
    WriteEntry(s, k, a, d).(half := s.half[k := w])
  }

  lemma WriteHalf(s: State, k: nat, a: nat, d: Data, w: Writer)
    requires Pointers(s) && HalfOk(s) && k in s.unfilled && WriterOk(w, s.lines, s.gc, |s.trans|)
    requires Holding(Entry(Written, a, Empty, d, false), w, s.gc) && (w.Collector? ==> w !in s.half.Values)
    ensures HalfOk(Noted(s, k, a, d, w))
  {
    var t, e := Noted(s, k, a, d, w), Entry(Written, a, Empty, d, false);
    UpdateSlot(s.ring, t.ring, s.l2p, k, e);
    forall j | j in s.half ensures s.half[j] in s.half.Values { }
    forall j | j in t.half && Due(t.half[j], t.trans, t.gc) ensures t.l2p <= j && Holding(Slot(t.ring, j), t.half[j], t.gc) {
      if j != k { assert Holding(Slot(s.ring, j), s.half[j], s.gc); }
    }
  }

  lemma WriteQuiet(s: State, k: nat, a: nat, d: Data, w: Writer)
    requires Pointers(s) && Quiet(s) && k in s.unfilled
    ensures Quiet(Noted(s, k, a, d, w))
  {
    var t := Noted(s, k, a, d, w);
    UpdateSlot(s.ring, t.ring, s.l2p, k, Entry(Written, a, Empty, d, false));
    forall j | t.l2p <= j < t.subm ensures Slot(t.ring, j) == Slot(s.ring, j) && (Installs(t, j) ==> Installs(s, j)) {
      OvertakenGrows(s.half, t.half, Slot(s.ring, j).lba, j);
    }
    QuietFrame(s, t);
  }

  lemma OvertakenGrows(half: map<nat, Writer>, half': map<nat, Writer>, a: nat, k: nat)
    requires forall j :: j in half && j < k && half[j].User? && half[j].lba == a ==> j in half' && half'[j] == half[j]
    ensures Overtaken(half, a, k) ==> Overtaken(half', a, k)
  {
    if Overtaken(half, a, k) {
      var j :| j in half && j < k && half[j].User? && half[j].lba == a;
      assert half'[j] == half[j];
    }
  }

  lemma WriteKeeps(s: State, k: nat, a: nat, d: Data, w: Writer)
    requires Inv(s) && k in s.unfilled && a < |s.trans| && WriterOk(w, s.lines, s.gc, |s.trans|)
    requires Holding(Entry(Written, a, Empty, d, false), w, s.gc) && (w.Collector? ==> w !in s.half.Values)
    ensures Inv(Noted(s, k, a, d, w))
  {
    WriteCore(s, k, a, d);
    WriteHalf(s, k, a, d, w);
    WriteQuiet(s, k, a, d, w);
    WriteTended(s, k, a, d, w);
  }

  lemma WriteTended(s: State, k: nat, a: nat, d: Data, w: Writer)
    requires Pointers(s) && HalfOk(s) && Tended(s) && k in s.unfilled
    ensures Tended(Noted(s, k, a, d, w))
  {
    var t := Noted(s, k, a, d, w);
    UpdateSlot(s.ring, t.ring, s.l2p, k, Entry(Written, a, Empty, d, false));
    UsersStay(s);
    TendedFrame(s, t);
  }

  lemma FillKeeps(s: State, k: nat, a: nat, d: Data)
    requires Inv(s) && k in s.unfilled && a < |s.trans|
    ensures Inv(FillStep(s, k, a, d))
  {
    WriteKeeps(s, k, a, d, User(a, d));
  }

  lemma GcFillKeeps(s: State, k: nat, l: nat, p: nat)
    requires Inv(s) && Enabled(s, GcFill(k, l, p))
    ensures Inv(GcFillStep(s, k, l, p))
  {
    WriteKeeps(s, k, s.gc[(l, p)].lba, s.gc[(l, p)].data, Collector(l, p));
  }

  // ---------------------------------------------------------------- mapping a filled slot

  /** Mapping an empty lba to the slot that holds its data. */
  lemma CacheCore(s: State, a: nat, c: nat)
    requires Core(s) && a < |s.trans| && s.trans[a] == Empty
    requires c < |s.ring| && s.ring[c].flag != Writable && s.ring[c].lba == a
    ensures Core(s.(trans := s.trans[a := Cached(c)]))
  {
    CacheMaps(s.secPerLine, s.ring, s.trans, s.lines, s.media, a, c);
    CacheGc(s.trans, s.lines, s.media, s.gc, a, c);
  }

  lemma CacheMaps(S: nat, ring: seq<Entry>, trans: seq<Ppa>, lines: seq<Line>, media: map<(nat, nat), Data>, a: nat, c: nat)
    requires MapOk(S, ring, trans, lines, media) && Owned(S, ring, trans, lines) && a < |trans| && trans[a] == Empty
    requires c < |ring| && ring[c].flag != Writable && ring[c].lba == a
    ensures MapOk(S, ring, trans[a := Cached(c)], lines, media) && Owned(S, ring, trans[a := Cached(c)], lines)
  {
  }

  lemma CacheGc(trans: seq<Ppa>, lines: seq<Line>, media: map<(nat, nat), Data>, gc: map<(nat, nat), GcItem>, a: nat, c: nat)
    requires GcOk(trans, lines, media, gc) && a < |trans| && trans[a] == Empty
    ensures GcOk(trans[a := Cached(c)], lines, media, gc)
  {
  }

  /** `pblk_update_map_cache` for an lba whose data the slot holds. */
  lemma RemapCore(s: State, a: nat, c: nat)
    requires Core(s) && Mapped(s, a) && c < |s.ring| && s.ring[c].flag != Writable && s.ring[c].lba == a
    ensures Core(Remap(s, a, Cached(c)))
  {
    UnmapCore(s, a);
    var t := Remap(s, a, Empty);
    CacheCore(t, a, c);
    assert t.trans[a := Cached(c)] == s.trans[a := Cached(c)];
    assert t.(trans := t.trans[a := Cached(c)]) == Remap(s, a, Cached(c));
  }

  /** A slot whose map update is due is filled. */
  lemma DueFilled(s: State, k: nat)
    requires Pointers(s) && Flags(s.ring, s.unfilled, s.l2p, s.sync, s.subm, s.mem) && HalfOk(s)
    requires k in s.half && Due(s.half[k], s.trans, s.gc)
    ensures s.l2p <= k < s.mem && Slot(s.ring, k).flag != Writable && Holding(Slot(s.ring, k), s.half[k], s.gc)
  {
  }

  lemma PublishHalf(s: State, k: nat, a: nat)
    requires Sized(s) && HalfOk(s) && Mapped(s, a)
    ensures HalfOk(PublishStep(s, k, a))
  {
    var t := PublishStep(s, k, a);
    RemapLines(s, a, Cached(Wrap(k, |s.ring|)));
    forall j | j in t.half ensures WriterOk(t.half[j], t.lines, t.gc, |t.trans|) {
      assert WriterOk(s.half[j], s.lines, s.gc, |s.trans|);
    }
    forall j | j in t.half && Due(t.half[j], t.trans, t.gc) ensures t.l2p <= j && Holding(Slot(t.ring, j), t.half[j], t.gc) {
      assert Due(s.half[j], s.trans, s.gc);
    }
  }

  /** Positions in the ring that share a slot are the same. */
  lemma SameSlot(s: State, j: nat, k: nat)
    requires Pointers(s) && s.l2p <= j < s.mem && s.l2p <= k < s.mem && Wrap(j, |s.ring|) == Wrap(k, |s.ring|)
    ensures j == k
  {
    OtherSlots(s.ring, s.l2p, k);
  }

  /** Mapping `a` to the slot at `k` takes it away from every other entry. */
  lemma PublishLive(s: State, k: nat, a: nat, j: nat)
    requires Pointers(s) && HalfOk(s) && Mapped(s, a) && s.l2p <= k < s.mem && s.l2p <= j < s.mem && j != k
    requires Live(PublishStep(s, k, a), j) && !(j in s.half && s.half[j].User?)
    ensures Live(s, j) && Slot(s.ring, j).lba != a
  {
    var t := PublishStep(s, k, a);
    if j in t.half && Due(t.half[j], t.trans, t.gc) {
      assert Due(s.half[j], s.trans, s.gc);
      assert Holding(Slot(s.ring, j), s.half[j], s.gc);
    } else if Wrap(j, |s.ring|) == Wrap(k, |s.ring|) {
      SameSlot(s, j, k);
    }
  }

  lemma PublishInstalls(s: State, k: nat, a: nat, j: nat)
    requires Pointers(s) && HalfOk(s) && Mapped(s, a) && s.l2p <= k < s.mem && s.l2p <= j < s.mem
    requires k in s.half && s.half[k].User? && s.half[k].lba == a && Installs(PublishStep(s, k, a), j)
    ensures Installs(s, j)
  {
    var t := PublishStep(s, k, a);
    if j != k && !(j in t.half && t.half[j].User?) {
      PublishLive(s, k, a, j);
      OvertakenGrows(s.half, t.half, Slot(s.ring, j).lba, j);
    }
  }

  lemma PublishQuiet(s: State, k: nat, a: nat)
    requires Pointers(s) && HalfOk(s) && Quiet(s) && Mapped(s, a)
    requires k in s.half && s.half[k].User? && s.half[k].lba == a
    ensures Quiet(PublishStep(s, k, a))
  {
    var t := PublishStep(s, k, a);
    RemapLines(s, a, Cached(Wrap(k, |s.ring|)));
    assert Due(s.half[k], s.trans, s.gc);
    forall j | t.l2p <= j < t.subm && Installs(t, j) ensures Installs(s, j) {
      PublishInstalls(s, k, a, j);
    }
    QuietFrame(s, t);
  }

  lemma PublishCore(s: State, k: nat, a: nat)
    requires Core(s) && HalfOk(s) && Mapped(s, a) && k in s.half && s.half[k].User? && s.half[k].lba == a
    ensures Core(PublishStep(s, k, a))
  {
    DueFilled(s, k);
    RemapCore(s, a, Wrap(k, |s.ring|));
  }

  lemma CorePointers(s: State)
    requires Core(s)
    ensures Pointers(s)
  {
  }

  lemma PublishTended(s: State, k: nat, a: nat)
    requires Sized(s) && Mapped(s, a) && HalfOk(s) && Tended(s) && k in s.half && s.half[k].User? && s.half[k].lba == a
    ensures Tended(PublishStep(s, k, a))
  {
    RemapTended(s, a, Cached(Wrap(k, |s.ring|)), s.half - {k});
  }

  lemma PublishKeeps(s: State, k: nat, a: nat, d: Data)
    requires Inv(s) && Enabled(s, Publish(k, a, d))
    ensures Inv(PublishStep(s, k, a))
  {
    hide Core, HalfOk, Quiet, Tended;
    CorePointers(s);
    PublishCore(s, k, a);
    PublishHalf(s, k, a);
    PublishQuiet(s, k, a);
    PublishTended(s, k, a);
  }

  // ---------------------------------------------------------------- GC's map update

  /** An item of which nothing is left in the victim is dropped. */
  lemma DropItemGc(trans: seq<Ppa>, lines: seq<Line>, media: map<(nat, nat), Data>, gc: map<(nat, nat), GcItem>, key: (nat, nat))
    requires GcOk(trans, lines, media, gc) && key in gc && !LiesIn(trans, gc[key].lba, key.0)
    ensures GcOk(trans, lines, media, gc - {key})
  {
  }

  /** Moving an lba out of its victim is a remap, which leaves a line in GC alone. */
  lemma GcMoveCore(s: State, a: nat, c: nat)
    requires Core(s) && a < |s.trans| && s.trans[a].Media? && s.lines[s.trans[a].line].state == Gc
    requires c < |s.ring| && s.ring[c].flag != Writable && s.ring[c].lba == a
    ensures Core(s.(trans := s.trans[a := Cached(c)]))
  {
    RemapCore(s, a, c);
    assert s.lines[s.trans[a].line := s.lines[s.trans[a].line]] == s.lines;
    assert Remap(s, a, Cached(c)) == s.(trans := s.trans[a := Cached(c)]);
  }

  lemma GcPublishCore(s: State, k: nat, l: nat, p: nat)
    requires Core(s) && HalfOk(s) && Enabled(s, GcPublish(k, l, p))
    ensures Core(GcPublishStep(s, k, l, p))
  {
    var a, c := s.gc[(l, p)].lba, Wrap(k, |s.ring|);
    if LiesIn(s.trans, a, l) {
      DueFilled(s, k);
      GcMoveCore(s, a, c);
      DropItemGc(s.trans[a := Cached(c)], s.lines, s.media, s.gc, (l, p));
    } else {
      DropItemGc(s.trans, s.lines, s.media, s.gc, (l, p));
    }
  }

  /** No other writer is due afterwards that was not before. */
  lemma GcPublishDue(s: State, k: nat, l: nat, p: nat, j: nat)
    requires Sized(s) && HalfOk(s) && Enabled(s, GcPublish(k, l, p)) && j in s.half && j != k
    requires var t := GcPublishStep(s, k, l, p); Due(s.half[j], t.trans, t.gc)
    ensures Due(s.half[j], s.trans, s.gc) && (s.half[j].Collector? ==> (s.half[j].line, s.half[j].sec) != (l, p))
    ensures s.half[j].Collector? && LiesIn(s.trans, s.gc[(l, p)].lba, l) ==> s.gc[(s.half[j].line, s.half[j].sec)].lba != s.gc[(l, p)].lba
  {
  }

  lemma GcPublishHalf(s: State, k: nat, l: nat, p: nat)
    requires Sized(s) && HalfOk(s) && Enabled(s, GcPublish(k, l, p))
    ensures HalfOk(GcPublishStep(s, k, l, p))
  {
    var t := GcPublishStep(s, k, l, p);
    forall j | j in t.half ensures WriterOk(t.half[j], t.lines, t.gc, |t.trans|) {
      assert WriterOk(s.half[j], s.lines, s.gc, |s.trans|);
    }
    forall j | j in t.half && Due(t.half[j], t.trans, t.gc) ensures t.l2p <= j && Holding(Slot(t.ring, j), t.half[j], t.gc) {
      GcPublishDue(s, k, l, p, j);
      assert Holding(Slot(s.ring, j), s.half[j], s.gc);
    }
  }

  lemma GcPublishLive(s: State, k: nat, l: nat, p: nat, j: nat)
    requires Pointers(s) && HalfOk(s) && Enabled(s, GcPublish(k, l, p)) && s.l2p <= j < s.mem
    requires Live(GcPublishStep(s, k, l, p), j)
    ensures Live(s, j)
  {
    var t := GcPublishStep(s, k, l, p);
    if j in t.half && Due(t.half[j], t.trans, t.gc) {
      GcPublishDue(s, k, l, p, j);
    } else if LiesIn(s.trans, s.gc[(l, p)].lba, l) {
      assert Due(s.half[k], s.trans, s.gc);
      if Wrap(j, |s.ring|) == Wrap(k, |s.ring|) { SameSlot(s, j, k); }
    }
  }

  lemma GcPublishQuiet(s: State, k: nat, l: nat, p: nat)
    requires Pointers(s) && HalfOk(s) && Quiet(s) && Enabled(s, GcPublish(k, l, p))
    ensures Quiet(GcPublishStep(s, k, l, p))
  {
    var t := GcPublishStep(s, k, l, p);
    forall j | t.l2p <= j < t.subm && Installs(t, j) ensures Installs(s, j) {
      OvertakenGrows(s.half, t.half, Slot(s.ring, j).lba, j);
      if !(j in t.half && t.half[j].User?) { GcPublishLive(s, k, l, p, j); }
    }
    QuietFrame(s, t);
  }

  lemma GcPublishKeeps(s: State, k: nat, l: nat, p: nat)
    requires Inv(s) && Enabled(s, GcPublish(k, l, p))
    ensures Inv(GcPublishStep(s, k, l, p))
  {
    GcPublishCore(s, k, l, p);
    GcPublishHalf(s, k, l, p);
    GcPublishQuiet(s, k, l, p);
    GcPublishTended(s, k, l, p);
  }

  lemma GcPublishTended(s: State, k: nat, l: nat, p: nat)
    requires Sized(s) && HalfOk(s) && Tended(s) && Enabled(s, GcPublish(k, l, p))
    ensures Tended(GcPublishStep(s, k, l, p))
  {
    UsersStay(s);
    TendedFrame(s, GcPublishStep(s, k, l, p));
  }
}

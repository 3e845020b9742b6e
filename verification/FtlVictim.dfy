/**
 Why nothing may be waiting to be installed into a victim.

 The driver does not check this.  The lemmas here show that the check is exactly what is needed for every victim
 without padding, and that a padded one needs none.
 */
module FtlVictim {
  import opened Basics
  import opened Ftl
  import opened FtlInv
  import opened FtlSteps
  import opened FtlGc
  import opened FtlRun
  import opened FtlFacts
  import opened FtlOrder
  import opened FtlPadded

  predicate NoStart(r: Run) {
    r.Then? ==> !r.op.GcStart? && NoStart(r.prev)
  }

  /** A logical address maps into a free line, which is erased and reused next. */
  predicate Dangling(s: State) {
    exists a :: 0 <= a < |s.trans| && s.trans[a].Media? && s.trans[a].line < |s.lines| && s.lines[s.trans[a].line].state == Free
  }

  /** Line `l` is free and an address maps into it: the line is erased and reused next, and the address loses its data. */
  predicate FreedUnder(s: State, l: nat) {
    l < |s.lines| && s.lines[l].state == Free && exists a :: 0 <= a < |s.trans| && s.trans[a].Media? && s.trans[a].line == l
  }

  /** A run of safe steps that starts no GC. */
  predicate Leading(s: State, r: Run, t: State) {
    RunTo(s, r) == Some(t) && NoStart(r)
  }

  lemma Extend(s: State, r: Run, t: State, op: Op)
    requires Leading(s, r, t) && Enabled(t, op) && Safe(t, op) && !op.GcStart?
    ensures Leading(s, Then(r, op), Step(t, op))
  {
  }

  lemma ExtendL2p(s: State, run: Run, t: State) returns (r: Run)
    requires Leading(s, run, t) && L2pReady(t) && t.l2p !in t.half
    ensures Leading(s, r, L2pStep(t))
  {
    Extend(s, run, t, L2pOne);
    r := Then(run, L2pOne);
  }

  /** Line `l` is closed, so GC may take it, and has no padding. */
  predicate Victim(s: State, l: nat) {
    Inv(s) && l < |s.lines| && s.lines[l].state == Closed && s.lines[l].pads == 0
  }

  // ---------------------------------------------------------------- draining a victim

  /** `v` is `u` with line `l` in GC and without its first reference. */
  predicate Twin(u: State, v: State, l: nat) {
    && l < |u.lines| && |v.lines| == |u.lines| && v == u.(lines := u.lines[l := v.lines[l]])
    && u.lines[l].state == Closed && v.lines[l].state == Gc && v.lines[l].refs == u.lines[l].refs - 1
  }

  /** Both take an L2P step alike while the victim keeps a reference. */
  lemma TwinStep(u: State, v: State, l: nat)
    requires Twin(u, v, l) && L2pReady(u) && (Slot(u.ring, u.l2p).ppa.line == l ==> v.lines[l].refs > 1)
    ensures L2pReady(v) && Twin(L2pStep(u), L2pStep(v), l)
  {
    RetiredLine(u);
    RetiredLine(v);
    SameStep(u, v);
  }

  /** The parts of an L2P step other than the lines do not depend on them. */
  lemma SameStep(u: State, v: State)
    requires L2pReady(u) && L2pReady(v) && v == u.(lines := v.lines)
    ensures L2pStep(v) == L2pStep(u).(lines := L2pStep(v).lines)
  {
  }

  /** `a` maps to sector `p` of `l`, or to the slot that will install it there. */
  predicate Bound(s: State, a: nat, c: nat, l: nat, p: nat) {
    && a < |s.trans| && c < |s.ring|
    && (s.trans[a] == Media(l, p) || (s.trans[a] == Cached(c) && PendingAt(s.ring, c, l, p) && s.ring[c].lba == a))
  }

  lemma BoundStep(s: State, a: nat, c: nat, l: nat, p: nat)
    requires L2pReady(s) && Bound(s, a, c, l, p)
    ensures Bound(L2pStep(s), a, c, l, p)
  {
  }

  /** An L2P step takes its position, and no other, out of what is mapped to a line. */
  lemma MappedStep(s: State, l: nat)
    requires Pointers(s) && L2pReady(s)
    ensures var t := L2pStep(s); MappedTo(t.ring, t.l2p, t.subm, l) == MappedTo(s.ring, s.l2p, s.subm, l) - {s.l2p}
  {
    var t := L2pStep(s);
    UpdateSlot(s.ring, t.ring, s.l2p, s.l2p, Slot(s.ring, s.l2p).(flag := Writable, ppa := Empty));
  }

  /** How many references the twin's victim has: one for each entry mapped to it. */
  lemma TwinRefs(u: State, v: State, l: nat)
    requires Core(u) && Twin(u, v, l) && u.lines[l].pads == 0
    ensures v.lines[l].refs == |MappedTo(u.ring, u.l2p, u.subm, l)|
  {
    assert LineOk(u.lines[l], u.secPerLine, |u.trans|);
  }

  /** Position `last` is the last entry mapped to `l`, and synced. */
  predicate IsLast(s: State, l: nat, last: nat) {
    && s.ring != [] && s.l2p <= last < s.sync && last in MappedTo(s.ring, s.l2p, s.subm, l)
    && (forall k :: k in MappedTo(s.ring, s.l2p, s.subm, l) ==> k <= last)
  }

  /** The ring of the victim's twin may be drained up to `last`: every writer up to there is done. */
  predicate Draining(u: State, v: State, l: nat, last: nat, a: nat, c: nat, p: nat) {
    && Inv(u) && Twin(u, v, l) && u.lines[l].pads == 0 && Bound(u, a, c, l, p) && IsLast(u, l, last)
    && (forall k :: k in u.half ==> last < k)
  }

  /** `w` is free of its victim and `a` maps into it. */
  predicate Lost(w: State, l: nat, a: nat, p: nat) {
    l < |w.lines| && w.lines[l].state == Free && a < |w.trans| && w.trans[a] == Media(l, p)
  }

  /** The last entry mapped to the line is installed: `a` maps there. */
  lemma LastInstalls(u: State, l: nat, a: nat, c: nat, p: nat)
    requires Inv(u) && L2pReady(u) && u.l2p !in u.half && Bound(u, a, c, l, p) && MappedTo(u.ring, u.l2p, u.subm, l) == {u.l2p}
    ensures a < |L2pStep(u).trans| && L2pStep(u).trans[a] == Media(l, p)
  {
    var t := L2pStep(u);
    L2pRing(u);
    BoundStep(u, a, c, l, p);
    MappedStep(u, l);
    NonePendingByCount(t.ring, t.unfilled, t.l2p, t.sync, t.subm, t.mem, l);
  }

  /** The step that drops the last reference frees the twin's line and maps as the other does. */
  lemma LastFrees(u: State, v: State, l: nat)
    requires Twin(u, v, l) && L2pReady(u) && v.lines[l].refs == 1 && Slot(u.ring, u.l2p).ppa.line == l
    ensures L2pReady(v) && l < |L2pStep(v).lines| && L2pStep(v).lines[l].state == Free && L2pStep(v).trans == L2pStep(u).trans
  {
  }

  lemma LastDrain(u: State, v: State, l: nat, a: nat, c: nat, p: nat)
    requires Draining(u, v, l, u.l2p, a, c, p)
    ensures L2pReady(v) && Lost(L2pStep(v), l, a, p)
  {
    L2pEnabled(u);
    assert MappedTo(u.ring, u.l2p, u.subm, l) == {u.l2p};
    TwinRefs(u, v, l);
    LastInstalls(u, l, a, c, p);
    LastFrees(u, v, l);
  }

  lemma TwoInside(xs: set<nat>, x: nat, y: nat)
    requires x in xs && y in xs && x != y
    ensures |xs| > 1
  {
    assert |xs - {x}| == |xs| - 1 && y in xs - {x};
  }

  lemma DrainTwin(u: State, v: State, l: nat, last: nat)
    requires Core(u) && Twin(u, v, l) && u.lines[l].pads == 0 && L2pReady(u)
    requires u.l2p < last && last in MappedTo(u.ring, u.l2p, u.subm, l)
    ensures L2pReady(v) && Twin(L2pStep(u), L2pStep(v), l)
  {
    TwinRefs(u, v, l);
    var mapped := MappedTo(u.ring, u.l2p, u.subm, l);
    if Slot(u.ring, u.l2p).ppa.line == l {
      assert u.l2p in mapped;
      TwoInside(mapped, u.l2p, last);
    }
    TwinStep(u, v, l);
  }

  /** An L2P step before the last entry mapped to a line leaves it the last. */
  lemma LastStays(s: State, l: nat, last: nat)
    requires Pointers(s) && L2pReady(s) && l < |s.lines| && IsLast(s, l, last) && s.l2p < last
    requires s.lines[l].state == Closed && s.lines[l].pads == 0
    ensures IsLast(L2pStep(s), l, last) && L2pStep(s).lines[l].pads == 0
  {
    MappedStep(s, l);
  }

  lemma DrainOne(u: State, v: State, l: nat, last: nat, a: nat, c: nat, p: nat)
    requires Draining(u, v, l, last, a, c, p) && u.l2p < last
    ensures L2pReady(u) && L2pReady(v) && Draining(L2pStep(u), L2pStep(v), l, last, a, c, p)
  {
    L2pEnabled(u);
    DrainTwin(u, v, l, last);
    L2pKeeps(u);
    BoundStep(u, a, c, l, p);
    LastStays(u, l, last);
  }

  /** Draining the ring up to the last entry mapped to the victim frees it with `a` still mapped there. */
  lemma {:induction false} Drain(s: State, run: Run, u: State, v: State, l: nat, last: nat, a: nat, c: nat, p: nat)
    returns (r: Run, w: State)
    requires Leading(s, run, v) && Draining(u, v, l, last, a, c, p)
    ensures Leading(s, r, w) && Lost(w, l, a, p)
    decreases last - u.l2p
  {
    if u.l2p == last {
      LastDrain(u, v, l, a, c, p);
      r := ExtendL2p(s, run, v);
      w := L2pStep(v);
    } else {
      DrainOne(u, v, l, last, a, c, p);
      r := ExtendL2p(s, run, v);
      r, w := Drain(s, r, L2pStep(u), L2pStep(v), l, last, a, c, p);
    }
  }

  // ---------------------------------------------------------------- the victim beside the same instance without GC

  /** `v` is `u` with line `l` being collected. */
  predicate Beside(u: State, v: State, l: nat) {
    && l < |u.lines| && |v.lines| == |u.lines| && v == u.(lines := u.lines[l := v.lines[l]])
    && u.lines[l].state == Closed && v.lines[l].state == Gc && v.lines[l].held
    && v.lines[l].refs == u.lines[l].refs && u.lines[l].pads == 0
    && LineOk(v.lines[l], v.secPerLine, |v.trans|)
  }

  lemma StartBeside(s: State, l: nat)
    requires l < |s.lines| && s.lines[l].state == Closed && s.lines[l].pads == 0 && LineOk(s.lines[l], s.secPerLine, |s.trans|)
    ensures Beside(s, GcStartStep(s, l), l)
  {
  }

  /** Nothing but the map, the writers, GC's items and the bitmaps differ. */
  predicate SameRing(s: State, t: State) {
    t.ring == s.ring && t.l2p == s.l2p && t.sync == s.sync && t.subm == s.subm && t.mem == s.mem && |t.trans| == |s.trans|
  }

  /** Both map an address anew. */
  lemma RemapBeside(u: State, v: State, l: nat, a: nat, q: Ppa)
    requires Beside(u, v, l) && Mapped(u, a)
    ensures Mapped(v, a) && Beside(Remap(u, a, q), Remap(v, a, q), l)
  {
    var u', v' := Remap(u, a, q), Remap(v, a, q);
    assert v'.lines == u'.lines[l := v'.lines[l]];
    assert u'.lines[l].state == Closed && u'.lines[l].refs == u.lines[l].refs && u'.lines[l].pads == 0;
  }

  /** A user maps what it filled, in both. */
  lemma UserBeside(u: State, v: State, l: nat, k: nat, a: nat, d: Data)
    requires Enabled(u, Publish(k, a, d)) && Beside(u, v, l)
    ensures Enabled(v, Publish(k, a, d)) && Beside(PublishStep(u, k, a), PublishStep(v, k, a), l)
  {
    RemapBeside(u, v, l, a, Cached(Wrap(k, |u.ring|)));
  }

  /** GC maps what it filled, in both. */
  lemma CollectorBeside(u: State, v: State, l: nat, k: nat, m: nat, p: nat)
    requires Enabled(u, GcPublish(k, m, p)) && Beside(u, v, l)
    ensures Enabled(v, GcPublish(k, m, p)) && Beside(GcPublishStep(u, k, m, p), GcPublishStep(v, k, m, p), l)
  {
  }

  /** What mapping the filled slot at `k` does to the map. */
  predicate Published(u: State, k: nat, u': State)
    requires Sized(u) && k in u.half
  {
    && SameRing(u, u') && u'.half == u.half - {k}
    && u'.trans == if Due(u.half[k], u.trans, u.gc) && Slot(u.ring, k).lba < |u.trans|
                   then u.trans[Slot(u.ring, k).lba := Cached(Wrap(k, |u.ring|))] else u.trans
  }

  lemma UserPublished(u: State, k: nat)
    requires Inv(u) && k in u.half && u.half[k].User?
    ensures Enabled(u, Publish(k, u.half[k].lba, u.half[k].data)) && Published(u, k, PublishStep(u, k, u.half[k].lba))
  {
    GuardSuffices(u, Publish(k, u.half[k].lba, u.half[k].data));
    DueFilled(u, k);
  }

  lemma CollectorPublished(u: State, k: nat, m: nat, p: nat)
    requires Inv(u) && k in u.half && u.half[k] == Collector(m, p)
    ensures Enabled(u, GcPublish(k, m, p)) && Published(u, k, GcPublishStep(u, k, m, p))
  {
    GuardSuffices(u, GcPublish(k, m, p));
    if Due(u.half[k], u.trans, u.gc) { DueFilled(u, k); }
  }

  /** The writer of slot `k` maps it. */
  lemma PublishOne(s0: State, run: Run, u: State, v: State, l: nat, k: nat) returns (r: Run, u': State, v': State)
    requires Leading(s0, run, v) && Inv(u) && Beside(u, v, l) && k in u.half
    ensures Leading(s0, r, v') && Inv(u') && Beside(u', v', l) && Published(u, k, u')
  {
    hide Inv, Beside, Leading, Published;
    match u.half[k]
    case User(a, d) =>
      UserPublished(u, k);
      UserBeside(u, v, l, k, a, d);
      PublishKeeps(u, k, a, d);
      Extend(s0, run, v, Publish(k, a, d));
      r, u', v' := Then(run, Publish(k, a, d)), PublishStep(u, k, a), PublishStep(v, k, a);
    case Collector(m, p) =>
      CollectorPublished(u, k, m, p);
      CollectorBeside(u, v, l, k, m, p);
      GcPublishKeeps(u, k, m, p);
      Extend(s0, run, v, GcPublish(k, m, p));
      r, u', v' := Then(run, GcPublish(k, m, p)), GcPublishStep(u, k, m, p), GcPublishStep(v, k, m, p);
  }

  /** No user among the writers `todo` writes address `a`. */
  predicate Spares(half: map<nat, Writer>, todo: set<nat>, a: nat) {
    forall k :: k in todo && k in half && half[k].User? ==> half[k].lba != a
  }

  /** An address in the ring that a writer does not write stays where it is. */
  lemma PublishSpares(u: State, k: nat, u': State, a: nat, todo: set<nat>)
    requires Inv(u) && k in u.half && Published(u, k, u') && k in todo && Spares(u.half, todo, a)
    requires a < |u.trans| && u.trans[a].Cached?
    ensures u'.trans[a] == u.trans[a] && Spares(u'.half, todo - {k}, a)
  {
    if Due(u.half[k], u.trans, u.gc) { DueFilled(u, k); }
  }

  /** The writers `todo` map what they filled; an address they do not write stays in its slot. */
  lemma {:induction false} PublishAll(s0: State, run: Run, u: State, v: State, l: nat, todo: set<nat>, a: nat)
    returns (r: Run, u': State, v': State)
    requires Leading(s0, run, v) && Inv(u) && Beside(u, v, l) && todo <= u.half.Keys
    ensures Leading(s0, r, v') && Inv(u') && Beside(u', v', l) && SameRing(u, u') && u'.half == u.half - todo
    ensures a < |u.trans| && u.trans[a].Cached? && Spares(u.half, todo, a) ==> u'.trans[a] == u.trans[a]
    decreases todo
  {
    hide Inv, Beside, Leading;
    if todo == {} {
      r, u', v' := run, u, v;
      assert u.half - todo == u.half;
    } else {
      var k :| k in todo;
      var u1, v1;
      r, u1, v1 := PublishOne(s0, run, u, v, l, k);
      if a < |u.trans| && u.trans[a].Cached? && Spares(u.half, todo, a) { PublishSpares(u, k, u1, a, todo); }
      r, u', v' := PublishAll(s0, r, u1, v1, l, todo - {k}, a);
      assert u.half - todo == (u.half - {k}) - (todo - {k});
    }
  }

  // ---------------------------------------------------------------- emptying the victim

  lemma DiscardOne(s0: State, run: Run, u: State, v: State, l: nat, a: nat)
    requires Leading(s0, run, v) && Inv(u) && Beside(u, v, l) && a < |u.trans|
    ensures Mapped(u, a) && Mapped(v, a) && Inv(Remap(u, a, Empty)) && Beside(Remap(u, a, Empty), Remap(v, a, Empty), l)
    ensures Leading(s0, Then(run, Discard(a)), Remap(v, a, Empty))
  {
    DropGuard(u, a);
    hide Inv, Leading;
    RemapBeside(u, v, l, a, Empty);
    UnmapKeeps(u, a);
    Extend(s0, run, v, Discard(a));
  }

  /** Users discard the addresses `todo`. */
  lemma {:induction false} DiscardAll(s0: State, run: Run, u: State, v: State, l: nat, todo: set<nat>)
    returns (r: Run, u': State, v': State)
    requires Leading(s0, run, v) && Inv(u) && Beside(u, v, l) && forall a :: a in todo ==> a < |u.trans|
    ensures Leading(s0, r, v') && Inv(u') && Beside(u', v', l) && SameRing(u, u') && u'.half == u.half && u'.gc == u.gc
    ensures forall b :: 0 <= b < |u.trans| ==> u'.trans[b] == if b in todo then Empty else u.trans[b]
    decreases todo
  {
    hide Inv, Beside, Leading;
    if todo == {} {
      r, u', v' := run, u, v;
    } else {
      var a :| a in todo;
      DiscardOne(s0, run, u, v, l, a);
      r, u', v' := DiscardAll(s0, Then(run, Discard(a)), Remap(u, a, Empty), Remap(v, a, Empty), l, todo - {a});
    }
  }

  /** The sectors GC has still to look at. */
  function Todo(s: State, l: nat): set<nat>
    requires l < |s.lines|
  {
    ValidSecs(s.lines[l], s.secPerLine) - s.lines[l].scanned
  }

  /** GC looks at a sector of a victim nothing maps into, and finds nothing to move. */
  lemma ReadBeside(u: State, v: State, l: nat, p: nat)
    requires MapsOk(u) && Beside(u, v, l) && p in Todo(v, l) && NoneMapped(u.trans, l)
    ensures Enabled(v, GcRead(l, p)) && GcReadStep(v, l, p) == GcSkipStep(v, l, p)
    ensures Beside(u, GcSkipStep(v, l, p), l) && Todo(GcSkipStep(v, l, p), l) == Todo(v, l) - {p}
  {
    var v' := GcSkipStep(v, l, p);
    assert v'.lines == u.lines[l := v'.lines[l]];
  }

  /** GC looks at the whole victim. */
  lemma {:induction false} ScanAll(s0: State, run: Run, u: State, v: State, l: nat) returns (r: Run, v': State)
    requires Leading(s0, run, v) && MapsOk(u) && Beside(u, v, l) && NoneMapped(u.trans, l)
    ensures Leading(s0, r, v') && Beside(u, v', l) && Todo(v', l) == {}
    decreases Todo(v, l)
  {
    if Todo(v, l) == {} {
      r, v' := run, v;
    } else {
      var p :| p in Todo(v, l);
      ReadBeside(u, v, l, p);
      Extend(s0, run, v, GcRead(l, p));
      r, v' := ScanAll(s0, Then(run, GcRead(l, p)), u, GcSkipStep(v, l, p), l);
    }
  }

  /** GC has items of lines in GC only. */
  lemma NoItems(u: State, l: nat)
    requires Core(u) && l < |u.lines| && u.lines[l].state != Gc
    ensures Sized(u) && forall key :: key in u.gc ==> key.0 != l
  {
    hide RingOk, MapOk, SlotsOk, LinesOk, Counts, Owned;
    CoreSized(u);
  }

  /** The victim after GC has put it. */
  lemma PutTwin(u: State, v: State, l: nat)
    requires Core(u) && Beside(u, v, l) && Todo(v, l) == {} && u.lines[l].refs > 1
    ensures Enabled(v, GcPut(l)) && Twin(u, GcPutStep(v, l), l)
  {
    hide Core, LineOk;
    NoItems(u, l);
    forall q | 0 <= q < v.secPerLine && q !in v.lines[l].invalid ensures q in v.lines[l].scanned {
      assert q !in Todo(v, l);
    }
    assert GcPutStep(v, l).lines == u.lines[l := GcPutStep(v, l).lines[l]];
  }

  lemma {:induction false} MaxOf(xs: set<nat>) returns (m: nat)
    requires xs != {}
    ensures m in xs && forall x :: x in xs ==> x <= m
    decreases xs
  {
    m :| m in xs;
    if xs != {m} {
      var m' := MaxOf(xs - {m});
      assert forall x :: x in xs ==> x == m || x in xs - {m};
      if m' > m { m := m'; }
    }
  }

  /** Entries mapped to a closed line are synced, and each holds a reference. */
  lemma LastSynced(s: State, l: nat, last: nat)
    requires Core(s) && l < |s.lines| && s.lines[l].state == Closed && last in MappedTo(s.ring, s.l2p, s.subm, l)
    ensures last < s.sync && s.lines[l].refs > 1
  {
    assert LineOk(s.lines[l], s.secPerLine, |s.trans|);
    assert MappedTo(s.ring, s.sync, s.subm, l) == {};
    assert last !in MappedTo(s.ring, s.sync, s.subm, l);
    assert MappedTo(s.ring, s.l2p, s.subm, l) != {};
  }

  lemma LastMapped(s: State, l: nat, k: nat) returns (last: nat)
    requires Victim(s, l) && s.l2p <= k < s.subm && MapsTo(s.ring, k, l)
    ensures IsLast(s, l, last) && k <= last
  {
    assert k in MappedTo(s.ring, s.l2p, s.subm, l);
    last := MaxOf(MappedTo(s.ring, s.l2p, s.subm, l));
    LastSynced(s, l, last);
  }

  lemma PutOne(s0: State, run: Run, u: State, v: State, l: nat, last: nat)
    requires Leading(s0, run, v) && Inv(u) && Beside(u, v, l) && Todo(v, l) == {} && IsLast(u, l, last)
    ensures Leading(s0, Then(run, GcPut(l)), GcPutStep(v, l)) && Twin(u, GcPutStep(v, l), l) && u.lines[l].pads == 0
  {
    LastSynced(u, l, last);
    hide Core, Leading;
    PutTwin(u, v, l);
    Extend(s0, run, v, GcPut(l));
  }

  lemma Discarded(trans: seq<Ppa>, trans': seq<Ppa>, l: nat)
    requires |trans'| == |trans|
    requires forall b :: 0 <= b < |trans| ==> trans'[b] == if b in MappedLbas(trans, l) then Empty else trans[b]
    ensures NoneMapped(trans', l)
  {
  }

  /** The address of the entry at `k` maps to its slot. */
  predicate InSlot(u: State, k: nat) {
    u.ring != [] && Slot(u.ring, k).lba < |u.trans| && u.trans[Slot(u.ring, k).lba] == Cached(Wrap(k, |u.ring|))
  }

  /** GC, with the help of users who discard what else lies in the victim, puts it; the ring is ready to be drained. */
  lemma Empties(s0: State, run: Run, u: State, v: State, l: nat, last: nat, k: nat) returns (r: Run, u': State, v': State)
    requires Leading(s0, run, v) && Inv(u) && Beside(u, v, l) && IsLast(u, l, last) && (forall j :: j in u.half ==> last < j)
    requires MapsTo(u.ring, k, l) && Slot(u.ring, k).flag == Submitted && InSlot(u, k)
    ensures var e := Slot(u.ring, k); Leading(s0, r, v') && Draining(u', v', l, last, e.lba, Wrap(k, |u.ring|), e.ppa.sec)
  {
    hide Inv, Core, Beside, Leading, Twin;
    var v1;
    r, u', v1 := DiscardAll(s0, run, u, v, l, MappedLbas(u.trans, l));
    Discarded(u.trans, u'.trans, l);
    InvMaps(u');
    r, v1 := ScanAll(s0, r, u', v1, l);
    assert IsLast(u', l, last);
    PutOne(s0, r, u', v1, l, last);
    r, v' := Then(r, GcPut(l)), GcPutStep(v1, l);
  }

  lemma InvMaps(s: State)
    requires Inv(s)
    ensures MapsOk(s)
  {
  }

  // ---------------------------------------------------------------- the check is exact

  lemma OneLeft(half: map<nat, Writer>, k: nat)
    requires k in half
    ensures half - (half.Keys - {k}) == map[k := half[k]] && map[k := half[k]] - {k} == map[]
  {
  }

  lemma Begin(s: State, l: nat)
    requires Victim(s, l)
    ensures Inv(s) && Beside(s, GcStartStep(s, l), l) && Leading(GcStartStep(s, l), Start, GcStartStep(s, l))
  {
    assert LineOk(s.lines[l], s.secPerLine, |s.trans|);
    StartBeside(s, l);
  }

  /** A user has filled an entry mapped to `l` and is yet to map its address: all others do first, then this one. */
  lemma UserLast(s: State, l: nat, k: nat) returns (r: Run, u: State, v: State)
    requires Victim(s, l) && k in s.half && s.half[k].User?
    ensures Leading(GcStartStep(s, l), r, v) && Inv(u) && Beside(u, v, l) && SameRing(s, u) && u.half == map[] && InSlot(u, k)
  {
    DueFilled(s, k);
    Begin(s, l);
    hide Inv, Beside, Leading;
    r, u, v := PublishAll(GcStartStep(s, l), Start, s, GcStartStep(s, l), l, s.half.Keys - {k}, 0);
    OneLeft(s.half, k);
    var u0 := u;
    r, u, v := PublishOne(GcStartStep(s, l), r, u0, v, l, k);
    UserInSlot(s, u0, u, k);
  }

  lemma UserInSlot(s: State, u0: State, u: State, k: nat)
    requires Inv(u0) && Sized(s) && SameRing(s, u0) && k in u0.half && u0.half[k].User? && Published(u0, k, u)
    ensures InSlot(u, k)
  {
    DueFilled(u0, k);
  }

  /** The entry at `k` is live: its writer, if it is still to map it, does so before all others. */
  lemma LiveFirst(s: State, l: nat, k: nat) returns (r: Run, u: State, v: State)
    requires Victim(s, l) && Live(s, k)
    ensures Leading(GcStartStep(s, l), r, v) && Inv(u) && Beside(u, v, l) && SameRing(s, u) && InSlot(u, k)
    ensures u.half == s.half || u.half == s.half - {k}
  {
    Begin(s, l);
    if k in s.half && Due(s.half[k], s.trans, s.gc) {
      DueFilled(s, k);
      hide Inv, Beside, Leading;
      r, u, v := PublishOne(GcStartStep(s, l), Start, s, GcStartStep(s, l), l, k);
      DueInSlot(s, u, k);
    } else {
      r, u, v := Start, s, GcStartStep(s, l);
    }
  }

  lemma DueInSlot(s: State, u: State, k: nat)
    requires Inv(s) && k in s.half && Due(s.half[k], s.trans, s.gc) && Published(s, k, u)
    ensures InSlot(u, k)
  {
    DueFilled(s, k);
    if s.half[k].Collector? { assert WriterOk(s.half[k], s.lines, s.gc, |s.trans|); }
  }

  /** Then those up to `last`, none of which writes its address. */
  lemma LiveRest(s0: State, run: Run, u0: State, v0: State, l: nat, k: nat, last: nat) returns (r: Run, u: State, v: State)
    requires Leading(s0, run, v0) && Inv(u0) && Beside(u0, v0, l) && InSlot(u0, k)
    requires forall j :: j in u0.half && j <= last && u0.half[j].User? ==> u0.half[j].lba != Slot(u0.ring, k).lba
    ensures Leading(s0, r, v) && Inv(u) && Beside(u, v, l) && SameRing(u0, u) && InSlot(u, k) && (forall j :: j in u.half ==> last < j)
  {
    hide Inv, Beside, Leading;
    var todo := set j | j in u0.half && j <= last;
    assert Spares(u0.half, todo, Slot(u0.ring, k).lba);
    r, u, v := PublishAll(s0, run, u0, v0, l, todo, Slot(u0.ring, k).lba);
    forall j | j in u.half ensures last < j {
      assert j in u0.half && j !in todo;
    }
  }

  /** What is not mapped to the line and not after its last entry is before its first. */
  lemma BeforeRow(s: State, l: nat, k: nat, j: nat, last: nat)
    requires Ordered(s) && IsLast(s, l, last) && s.l2p <= k < s.subm && MapsTo(s.ring, k, l)
    requires s.l2p <= j <= last && !MapsTo(s.ring, j, l)
    ensures j < k
  {
    assert MapsTo(s.ring, last, l);
  }

  /** Up to the last entry mapped to `l`, if no user has one there to map, none writes the address of a live one. */
  lemma NoneWrites(s: State, l: nat, k: nat, last: nat, j: nat)
    requires Sized(s) && HalfOk(s) && Ordered(s) && IsLast(s, l, last) && s.l2p <= k < s.subm && MapsTo(s.ring, k, l) && Installs(s, k)
    requires forall i :: s.l2p <= i < s.subm && MapsTo(s.ring, i, l) ==> !(i in s.half && s.half[i].User?)
    requires j in s.half && j <= last && s.half[j].User?
    ensures s.half[j].lba != Slot(s.ring, k).lba
  {
    assert Due(s.half[j], s.trans, s.gc);
    BeforeRow(s, l, k, j, last);
  }

  /** Either way the entry at some `k` mapped to `l` comes to hold its address, and every writer up to the last has mapped. */
  lemma Prepare(s: State, l: nat, k0: nat, last: nat) returns (r: Run, u: State, v: State, k: nat)
    requires Victim(s, l) && Ordered(s) && IsLast(s, l, last) && s.l2p <= k0 < s.subm && MapsTo(s.ring, k0, l) && Installs(s, k0)
    ensures s.l2p <= k < s.subm && MapsTo(s.ring, k, l) && SameRing(s, u) && InSlot(u, k) && (forall j :: j in u.half ==> last < j)
    ensures Leading(GcStartStep(s, l), r, v) && Inv(u) && Beside(u, v, l)
  {
    k := k0;
    if user :| s.l2p <= user < s.subm && MapsTo(s.ring, user, l) && user in s.half && s.half[user].User? {
      k := user;
      r, u, v := UserLast(s, l, k);
    } else {
      forall j | j in s.half && j <= last && s.half[j].User? ensures s.half[j].lba != Slot(s.ring, k).lba {
        NoneWrites(s, l, k, last, j);
      }
      hide Inv, Beside, Leading, Ordered, Victim;
      r, u, v := LiveFirst(s, l, k);
      r, u, v := LiveRest(GcStartStep(s, l), r, u, v, l, k, last);
    }
  }

  /**
   Some entry mapped to the victim would be installed: GC starts, writers map what they filled, users discard what else
   lies in the victim, GC puts it and the ring is drained.  The line is then free and the entry's address maps into it.
   */
  lemma InstallLoses(s: State, l: nat, k0: nat) returns (r: Run, w: State)
    requires l < |s.lines| && Victim(s, l) && Ordered(s) && s.l2p <= k0 < s.subm && MapsTo(s.ring, k0, l) && Installs(s, k0)
    ensures Leading(GcStartStep(s, l), r, w) && FreedUnder(w, l)
  {
    hide Victim, Ordered, Inv, Beside, Leading, Draining;
    var last := LastMapped(s, l, k0);
    var u, v, k;
    r, u, v, k := Prepare(s, l, k0, last);
    SubmittedAt(u, k);
    r, u, v := Empties(GcStartStep(s, l), r, u, v, l, last, k);
    var e := Slot(s.ring, k);
    r, w := Drain(GcStartStep(s, l), r, u, v, l, last, e.lba, Wrap(k, |s.ring|), e.ppa.sec);
  }

  lemma SubmittedAt(s: State, k: nat)
    requires Inv(s) && s.l2p <= k < s.subm
    ensures Slot(s.ring, k).flag == Submitted
  {
  }

  /** After a safe start no safe run frees any line under an address. */
  lemma SafeStart(s: State, l: nat, r: Run)
    requires Inv(s) && l < |s.lines| && s.lines[l].state == Closed && NoInstalls(s, l) && RunTo(GcStartStep(s, l), r).Some?
    ensures !Dangling(RunTo(GcStartStep(s, l), r).value)
  {
    GcStartKeeps(s, l);
    hide Inv;
    RunRefines(GcStartStep(s, l), r);
    InvNotDangling(RunTo(GcStartStep(s, l), r).value);
  }

  lemma InvNotDangling(s: State)
    requires Inv(s)
    ensures !Dangling(s)
  {
  }

  /** After a start on a padded line no safe run frees that line. */
  lemma PaddedStart(s: State, l: nat, r: Run)
    requires Inv(s) && l < |s.lines| && s.lines[l].state == Closed && s.lines[l].pads > 0 && RunTo(GcStartStep(s, l), r).Some?
    ensures !FreedUnder(RunTo(GcStartStep(s, l), r).value, l)
  {
    StartPadded(s, l);
    hide Inv, Core, RingOk;
    SafeGoes(GcStartStep(s, l), r);
    NeverFreed(GcStartStep(s, l), r, l);
  }

  /** No run of otherwise safe steps after GC starts on `l` frees it under an address. */
  ghost predicate Harmless(s: State, l: nat)
    requires l < |s.lines|
  {
    forall r :: RunTo(GcStartStep(s, l), r).Some? ==> !FreedUnder(RunTo(GcStartStep(s, l), r).value, l)
  }

  /**
   The check is exact.  For every state and every closed line: GC may start on it, and no run of otherwise safe steps
   frees it under an address, if and only if no entry of the ring would be installed into it or it has padding, in which
   case it is never freed at all.
   */
  lemma CheckIsExact(s: State, l: nat)
    requires Inv(s) && Ordered(s) && l < |s.lines| && s.lines[l].state == Closed
    ensures Harmless(s, l) <==> NoInstalls(s, l) || s.lines[l].pads > 0
  {
    if NoInstalls(s, l) || s.lines[l].pads > 0 {
      forall r | RunTo(GcStartStep(s, l), r).Some? ensures !FreedUnder(RunTo(GcStartStep(s, l), r).value, l) {
        if s.lines[l].pads > 0 { PaddedStart(s, l, r); } else { SafeStart(s, l, r); }
      }
    } else {
      var k :| s.l2p <= k < s.subm && MapsTo(s.ring, k, l) && Installs(s, k);
      var r, w := InstallLoses(s, l, k);
      assert FreedUnder(w, l);
    }
  }

  /** The same of every state a fresh instance reaches: what runs ask of a GC start is just what it takes. */
  lemma StartExact(s: State, l: nat)
    requires Reachable(s) && Enabled(s, GcStart(l))
    ensures Harmless(s, l) <==> Safe(s, GcStart(l)) || s.lines[l].pads > 0
  {
    ReachOrdered(s);
    hide Inv, Reachable;
    CheckIsExact(s, l);
  }
}

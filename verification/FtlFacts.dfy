/** What the invariant says about the driver's counters and about garbage collection. */
module FtlFacts {
  import opened Basics
  import opened Ftl
  import opened FtlInv
  import opened FtlGc
  import opened FtlRun

  /** The logical addresses whose media address lies in line `l`. */
  function MappedLbas(trans: seq<Ppa>, l: nat): set<nat> {
    set a | 0 <= a < |trans| && trans[a].Media? && trans[a].line == l
  }

  /** The slots mapped to line `l` that await their L2P update. */
  function PendingSlots(ring: seq<Entry>, l: nat): set<nat> {
    set c | 0 <= c < |ring| && ring[c].flag == Submitted && ring[c].ppa.Media? && ring[c].ppa.line == l
  }

  /** The clear bits of the invalid bitmap. */
  function ValidSecs(l: Line, secPerLine: nat): set<nat> {
    set p | 0 <= p < secPerLine && p !in l.invalid
  }

  lemma VscCountsValid(l: Line, secPerLine: nat, nrSecs: nat)
    requires LineOk(l, secPerLine, nrSecs) && l.state != Free
    ensures l.vsc == |ValidSecs(l, secPerLine)|
  {
    RangeSize(0, secPerLine);
    var valid := ValidSecs(l, secPerLine);
    assert valid + l.invalid == Range(0, secPerLine);
    assert valid !! l.invalid;
    assert |valid + l.invalid| == |valid| + |l.invalid|;
  }

  /** An image under a one-to-one map has the size of its source. */
  lemma {:induction false} SameSize(xs: set<nat>, ys: set<nat>, f: map<nat, nat>)
    requires f.Keys == xs && ys == set x | x in xs :: f[x]
    requires forall x, x' :: x in xs && x' in xs && f[x] == f[x'] ==> x == x'
    ensures |xs| == |ys|
    decreases xs
  {
    if xs != {} {
      var x :| x in xs;
      var g := f - {x};
      var zs := set z | z in xs - {x} :: g[z];
      SameSize(xs - {x}, zs, g);
      assert ys == zs + {f[x]} by {
        forall y | y in ys ensures y in zs + {f[x]} {
          var z :| z in xs && f[z] == y;
          if z != x { assert g[z] in zs; }
        }
      }
    }
  }

  /** The sectors the mapped lbas of `l` lie in. */
  function MappedSecs(trans: seq<Ppa>, l: nat): set<nat> {
    set a | a in MappedLbas(trans, l) :: trans[a].sec
  }

  function PendingSecs(ring: seq<Entry>, l: nat): set<nat> {
    set c | c in PendingSlots(ring, l) :: ring[c].ppa.sec
  }

  lemma MappedSize(s: State, l: nat)
    requires MapOk(s.secPerLine, s.ring, s.trans, s.lines, s.media)
    ensures |MappedLbas(s.trans, l)| == |MappedSecs(s.trans, l)|
  {
    var f := map a | a in MappedLbas(s.trans, l) :: s.trans[a].sec;
    SameSize(MappedLbas(s.trans, l), MappedSecs(s.trans, l), f);
  }

  lemma PendingSize(s: State, l: nat)
    requires SlotsOk(s.secPerLine, s.ring, |s.trans|, s.lines, s.media)
    ensures |PendingSlots(s.ring, l)| == |PendingSecs(s.ring, l)|
  {
    var f := map c | c in PendingSlots(s.ring, l) :: s.ring[c].ppa.sec;
    SameSize(PendingSlots(s.ring, l), PendingSecs(s.ring, l), f);
  }

  lemma ValidPartition(s: State, l: nat)
    requires MapOk(s.secPerLine, s.ring, s.trans, s.lines, s.media) && Owned(s.secPerLine, s.ring, s.trans, s.lines)
    requires SlotsOk(s.secPerLine, s.ring, |s.trans|, s.lines, s.media) && LinesOk(s.secPerLine, |s.trans|, s.lines)
    requires l < |s.lines| && (s.lines[l].state == Open || s.lines[l].state == Closed)
    ensures var u := Elems(s.lines[l].secs[s.lines[l].next..]);
      && ValidSecs(s.lines[l], s.secPerLine) == u + MappedSecs(s.trans, l) + PendingSecs(s.ring, l)
      && u !! MappedSecs(s.trans, l) && u !! PendingSecs(s.ring, l)
      && MappedSecs(s.trans, l) !! PendingSecs(s.ring, l)
  {
    assert LineOk(s.lines[l], s.secPerLine, |s.trans|);
  }

  /**
   `vsc` of an open or closed line is exactly the number of its data sectors not yet handed out,
   plus the lbas whose media address lies in it, plus the ring entries mapped to it that still await
   their L2P update: no valid sector is unowned and none is owned twice.
   */
  lemma VscExact(s: State, l: nat)
    requires Inv(s) && l < |s.lines| && (s.lines[l].state == Open || s.lines[l].state == Closed)
    ensures s.lines[l].vsc == |s.lines[l].secs| - s.lines[l].next + |MappedLbas(s.trans, l)| + |PendingSlots(s.ring, l)|
  {
    var line := s.lines[l];
    assert LineOk(line, s.secPerLine, |s.trans|);
    VscCountsValid(line, s.secPerLine, |s.trans|);
    DistinctSize(line.secs[line.next..]);
    MappedSize(s, l);
    PendingSize(s, l);
    ValidPartition(s, l);
  }

  /** A sector about to be invalidated is valid: the double-invalidate warning cannot fire. */
  lemma NeverInvalidatedTwice(s: State, q: Ppa)
    requires Inv(s) && q.Media?
    requires (exists a :: 0 <= a < |s.trans| && s.trans[a] == q) || (exists c :: PendingAt(s.ring, c, q.line, q.sec))
    ensures q.line < |s.lines| && s.lines[q.line].state != Free
    ensures q.sec < s.secPerLine && q.sec !in s.lines[q.line].invalid
  {
  }

  lemma NoneOf(s: State, l: nat)
    requires PendingSlots(s.ring, l) == {} && MappedLbas(s.trans, l) == {}
    ensures NonePending(s.ring, l) && NoneMapped(s.trans, l)
  {
    forall a | 0 <= a < |s.trans| && s.trans[a].Media? ensures s.trans[a].line != l {
      assert a !in MappedLbas(s.trans, l);
    }
    forall c | 0 <= c < |s.ring| && s.ring[c].flag == Submitted && s.ring[c].ppa.Media? ensures s.ring[c].ppa.line != l {
      assert c !in PendingSlots(s.ring, l);
    }
  }

  /** A line without valid sectors has no pending entry at all, so it is always safe to collect. */
  lemma FullLineSafe(s: State, l: nat)
    requires Inv(s) && l < |s.lines| && s.lines[l].state == Closed && s.lines[l].vsc == 0
    ensures NonePending(s.ring, l) && NoneMapped(s.trans, l) && Safe(s, GcStart(l))
  {
    VscExact(s, l);
    assert LineOk(s.lines[l], s.secPerLine, |s.trans|);
    NoneOf(s, l);
    forall k | s.l2p <= k < s.subm ensures !MapsTo(s.ring, k, l) {
      assert Slot(s.ring, k).flag == Submitted;
    }
  }

  lemma RemapSpares(s: State, a: nat, q: Ppa, l: nat)
    requires Mapped(s, a) && l < |s.lines| && s.lines[l].state == Gc
    ensures Remap(s, a, q).lines[l] == s.lines[l]
  {
  }

  lemma L2pSpares(s: State, l: nat)
    requires L2pReady(s) && l < |s.lines| && s.lines[l].state == Gc
    ensures var m := L2pStep(s).lines[l]; m.vsc == s.lines[l].vsc && m.invalid == s.lines[l].invalid && (m.state == Gc || m.state == Free)
  {
  }

  /** A step of the writer or of GC itself, on a line with nothing left to hand out. */
  lemma OtherSpares(s: State, op: Op, l: nat)
    requires Enabled(s, op) && l < |s.lines| && s.lines[l].state == Gc && s.lines[l].next == |s.lines[l].secs|
    requires !op.Publish? && !op.Discard? && !op.L2pOne?
    ensures l < |Step(s, op).lines|
    ensures var m := Step(s, op).lines[l]; m.vsc == s.lines[l].vsc && m.invalid == s.lines[l].invalid && (m.state == Gc || m.state == Free)
  {
  }

  lemma FullInGc(s: State, l: nat)
    requires LinesOk(s.secPerLine, |s.trans|, s.lines) && l < |s.lines| && s.lines[l].state == Gc
    ensures s.lines[l].next == |s.lines[l].secs|
  {
    assert LineOk(s.lines[l], s.secPerLine, |s.trans|);
  }

  lemma GcStepSpares(s: State, op: Op, l: nat)
    requires LinesOk(s.secPerLine, |s.trans|, s.lines) && Enabled(s, op) && l < |s.lines| && s.lines[l].state == Gc
    ensures l < |Step(s, op).lines|
    ensures var m := Step(s, op).lines[l]; m.vsc == s.lines[l].vsc && m.invalid == s.lines[l].invalid && (m.state == Gc || m.state == Free)
  {
    hide LinesOk;
    FullInGc(s, l);
    match op
    case Publish(k, a, d) => RemapSpares(s, a, Cached(Wrap(k, |s.ring|)), l);
    case Discard(a) => RemapSpares(s, a, Empty, l);
    case L2pOne => L2pSpares(s, l);
    case _ => OtherSpares(s, op, l);
  }

  /** Line `l` is in GC in every state of the run. */
  predicate Collecting(s: State, r: Run, l: nat) {
    && RunTo(s, r).Some? && l < |RunTo(s, r).value.lines| && RunTo(s, r).value.lines[l].state == Gc
    && (r.Then? ==> Collecting(s, r.prev, l))
  }

  /** While a line is being collected its bitmap and valid count do not move, whatever the users write or discard. */
  lemma {:induction false} GcFreezesVsc(s: State, r: Run, l: nat)
    requires Inv(s) && Collecting(s, r, l)
    ensures var t := RunTo(s, r).value; l < |s.lines| && t.lines[l].vsc == s.lines[l].vsc && t.lines[l].invalid == s.lines[l].invalid
  {
    if r.Then? {
      GcFreezesVsc(s, r.prev, l);
      RunRefines(s, r.prev);
      GcStepSpares(RunTo(s, r.prev).value, r.op, l);
    }
  }

  /** No entry between `sync` and `subm` is mapped to line `l`. */
  predicate AllSynced(s: State, l: nat)
    requires s.ring != []
  {
    forall k :: s.sync <= k < s.subm ==> Slot(s.ring, k).ppa.Media? && Slot(s.ring, k).ppa.line != l
  }

  lemma NoneUnsynced(s: State, l: nat)
    requires Pointers(s) && Flags(s.ring, s.unfilled, s.l2p, s.sync, s.subm, s.mem)
    requires SlotsOk(s.secPerLine, s.ring, |s.trans|, s.lines, s.media)
    ensures MappedTo(s.ring, s.sync, s.subm, l) == {} <==> AllSynced(s, l)
  {
    var unsynced := MappedTo(s.ring, s.sync, s.subm, l);
    forall k | s.sync <= k < s.subm ensures Slot(s.ring, k).ppa.Media? && (Slot(s.ring, k).ppa.line == l <==> k in unsynced) {
      assert Slot(s.ring, k).flag == Submitted;
    }
  }

  /** The closing condition of an open line holds exactly when every data sector was handed out and synced or padded. */
  lemma ClosedWhenSynced(s: State, l: nat)
    requires Inv(s) && l < |s.lines| && s.lines[l].state == Open
    ensures s.lines[l].leftSsecs == 0 <==> s.lines[l].next == |s.lines[l].secs| && AllSynced(s, l)
  {
    assert LineOk(s.lines[l], s.secPerLine, |s.trans|);
    NoneUnsynced(s, l);
  }

  /** Only a sync or padding lowers `left_ssecs`, and only setting the line up anew raises it. */
  lemma LeftSsecsMoves(s: State, op: Op, l: nat)
    requires Enabled(s, op) && l < |s.lines| && !(op.Replace? && op.line == l)
    ensures l < |Step(s, op).lines|
    ensures var m := Step(s, op).lines[l].leftSsecs;
      m == s.lines[l].leftSsecs || (m == s.lines[l].leftSsecs - 1 &&
        ((op.SyncOne? && Slot(s.ring, s.sync).ppa.line == l) || (op.MapPad? && s.cur == l)))
  {
    match op
    case L2pOne => L2pLeftSsecs(s, l);
    case Publish(k, a, d) => assert Step(s, op).lines == Remap(s, a, Cached(Wrap(k, |s.ring|))).lines;
    case _ =>
  }

  lemma L2pLeftSsecs(s: State, l: nat)
    requires L2pReady(s) && l < |s.lines|
    ensures l < |L2pStep(s).lines| && L2pStep(s).lines[l].leftSsecs == s.lines[l].leftSsecs
  {
  }

  lemma LeftSsecsStep(s: State, op: Op, l: nat)
    requires Inv(s) && Enabled(s, op) && l < |s.lines| && !(op.Replace? && op.line == l)
    ensures l < |Step(s, op).lines|
    ensures var m := Step(s, op).lines[l].leftSsecs;
      m == s.lines[l].leftSsecs || (m == s.lines[l].leftSsecs - 1 && s.lines[l].leftSsecs > 0)
  {
    LeftSsecsMoves(s, op, l);
    if op.SyncOne? && Slot(s.ring, s.sync).ppa.line == l {
      SyncRing(s);
      assert LineOk(s.lines[l], s.secPerLine, |s.trans|);
      SyncStepCounts(s);
    } else if op.MapPad? && s.cur == l {
      assert LineOk(s.lines[l], s.secPerLine, |s.trans|);
    }
  }

  /** How often in the run `left_ssecs` of line `l` drops to zero, that is, its closing is queued. */
  function CloseQueued(s: State, r: Run, l: nat): nat
    requires RunTo(s, r).Some?
  {
    match r
    case Start => 0
    case Then(prev, op) =>
      var t, t' := RunTo(s, prev).value, RunTo(s, r).value;
      CloseQueued(s, prev, l) +
      if l < |t.lines| && l < |t'.lines| && t.lines[l].leftSsecs != 0 && t'.lines[l].leftSsecs == 0 then 1 else 0
  }

  predicate NotReplaced(r: Run, l: nat) {
    r.Then? ==> !(r.op.Replace? && r.op.line == l) && NotReplaced(r.prev, l)
  }

  /**
   In the life of a line, from one set-up to the next, closing is queued at most once, and exactly when the
   count has gone from some value to zero; with `ClosedWhenSynced`, once every data sector is synced or padded.
   */
  lemma {:induction false} ClosingQueuedOnce(s: State, r: Run, l: nat)
    requires Inv(s) && RunTo(s, r).Some? && l < |s.lines| && NotReplaced(r, l)
    ensures var t := RunTo(s, r).value; l < |t.lines| && 0 <= t.lines[l].leftSsecs <= s.lines[l].leftSsecs
    ensures CloseQueued(s, r, l) == if s.lines[l].leftSsecs > 0 && RunTo(s, r).value.lines[l].leftSsecs == 0 then 1 else 0
  {
    assert LineOk(s.lines[l], s.secPerLine, |s.trans|);
    if r.Then? {
      ClosingQueuedOnce(s, r.prev, l);
      RunRefines(s, r.prev);
      LeftSsecsStep(RunTo(s, r.prev).value, r.op, l);
    }
  }

  /**
   After any run of a fresh instance: the ring positions are in order and every slot's flag follows from its
   position, the requests with the device cover what is dispatched and not synced, every open or closed line
   counts its valid sectors, and nothing maps or will map into a free line.
   */
  lemma EveryRun(s: State, r: Run, l: nat)
    requires Init(s) && RunTo(s, r).Some? && l < |RunTo(s, r).value.lines|
    ensures var t := RunTo(s, r).value;
      && Pointers(t) && Flags(t.ring, t.unfilled, t.l2p, t.sync, t.subm, t.mem) && Tiled(t.reqs, t.sync, t.disp)
      && (t.lines[l].state == Open || t.lines[l].state == Closed ==>
            t.lines[l].vsc == |t.lines[l].secs| - t.lines[l].next + |MappedLbas(t.trans, l)| + |PendingSlots(t.ring, l)|)
      && (t.lines[l].state == Free ==> NoneMapped(t.trans, l) && NonePending(t.ring, l))
  {
    InitOk(s);
    RunRefines(s, r);
    var t := RunTo(s, r).value;
    if t.lines[l].state == Open || t.lines[l].state == Closed {
      VscExact(t, l);
    }
  }
}

/**
 The entries of the ring mapped to one line are next to each other, those of the line in use last.
 */
module FtlOrder {
  import opened Basics
  import opened Ftl
  import opened FtlInv
  import opened FtlSteps
  import opened FtlGc
  import opened FtlRun

  /** Between two entries mapped to a line every entry is. */
  ghost predicate InRow(ring: seq<Entry>, l2p: nat, subm: nat)
    requires ring != []
  {
    forall i, j, k, l {:trigger MapsTo(ring, i, l), MapsTo(ring, j, l), MapsTo(ring, k, l)} ::
      l2p <= i <= j <= k < subm && MapsTo(ring, i, l) && MapsTo(ring, k, l) ==> MapsTo(ring, j, l)
  }

  /** After an entry mapped to `l` every entry is. */
  predicate AtEnd(ring: seq<Entry>, l2p: nat, subm: nat, l: nat)
    requires ring != []
  {
    forall i, j {:trigger MapsTo(ring, i, l), MapsTo(ring, j, l)} ::
      l2p <= i <= j < subm && MapsTo(ring, i, l) ==> MapsTo(ring, j, l)
  }

  ghost predicate Ordered(s: State) {
    Sized(s) && InRow(s.ring, s.l2p, s.subm) && AtEnd(s.ring, s.l2p, s.subm, s.cur)
  }

  /** A step that maps nothing and keeps the line in use. */
  lemma OrderFrame(s: State, t: State)
    requires Ordered(s) && Sized(t) && s.l2p <= t.l2p && t.subm == s.subm && t.cur == s.cur
    requires forall k :: t.l2p <= k < t.subm ==> Slot(t.ring, k).ppa == Slot(s.ring, k).ppa
    ensures Ordered(t)
  {
    forall k, l | t.l2p <= k < t.subm ensures MapsTo(t.ring, k, l) == MapsTo(s.ring, k, l) { }
  }

  /** A slot is written that is not mapped, or keeps its sector. */
  lemma SlotOrder(s: State, t: State, k: nat, e: Entry)
    requires Pointers(s) && Sized(t) && Ordered(s) && s.l2p <= t.l2p && t.subm == s.subm && t.cur == s.cur
    requires s.l2p <= k < s.mem && t.ring == s.ring[Wrap(k, |s.ring|) := e]
    requires s.subm <= k || k < t.l2p || e.ppa == Slot(s.ring, k).ppa
    ensures Ordered(t)
  {
    UpdateSlot(s.ring, t.ring, s.l2p, k, e);
    OrderFrame(s, t);
  }

  lemma MapOrder(s: State)
    requires Core(s) && CanAlloc(s) && s.subm < s.mem && Ordered(s)
    ensures Ordered(MapEntryStep(s))
  {
    var t := MapEntryStep(s);
    UpdateSlot(s.ring, t.ring, s.l2p, s.subm, t.ring[Wrap(s.subm, |s.ring|)]);
    forall k, l | s.l2p <= k < s.subm ensures MapsTo(t.ring, k, l) == MapsTo(s.ring, k, l) { }
    assert forall l :: MapsTo(t.ring, s.subm, l) <==> l == s.cur;
  }

  lemma ReplaceOrder(s: State, m: nat, secs: seq<nat>)
    requires Core(s) && m < |s.lines| && s.lines[m].state == Free && Ordered(s)
    ensures Ordered(ReplaceStep(s, m, secs))
  {
    FreeUnused(s.secPerLine, s.ring, s.trans, s.lines, s.media, m);
    forall k | s.l2p <= k < s.subm ensures !MapsTo(s.ring, k, m) {
      assert Slot(s.ring, k).flag == Submitted;
    }
  }

  /** The steps that change no slot. */
  lemma SameOrder(s: State, op: Op)
    requires Enabled(s, op) && Ordered(s)
    requires !op.Fill? && !op.GcFill? && !op.Program? && !op.L2pOne? && !op.MapEntry? && !op.Replace?
    ensures Ordered(Step(s, op))
  {
    var t := Step(s, op);
    assert t.ring == s.ring && t.l2p == s.l2p && t.subm == s.subm && t.cur == s.cur;
  }

  lemma WriteOrder(s: State, k: nat, a: nat, d: Data, w: Writer)
    requires Core(s) && Ordered(s) && k in s.unfilled
    ensures Ordered(Noted(s, k, a, d, w))
  {
    SlotOrder(s, Noted(s, k, a, d, w), k, Entry(Written, a, Empty, d, false));
  }

  lemma ProgramOrder(s: State, k: nat)
    requires Core(s) && Ordered(s) && s.sync <= k < s.disp && Slot(s.ring, k).ppa.Media?
    ensures Ordered(ProgramStep(s, k))
  {
    SlotOrder(s, ProgramStep(s, k), k, Slot(s.ring, k).(done := true));
  }

  lemma L2pOrder(s: State)
    requires Core(s) && Ordered(s) && L2pReady(s)
    ensures Ordered(L2pStep(s))
  {
    SlotOrder(s, L2pStep(s), s.l2p, Slot(s.ring, s.l2p).(flag := Writable, ppa := Empty));
  }

  lemma StepOrder(s: State, op: Op)
    requires Core(s) && Enabled(s, op) && Ordered(s)
    ensures Ordered(Step(s, op))
  {
    hide Ordered, Core;
    match op
    case Fill(k, a, d) => WriteOrder(s, k, a, d, User(a, d));
    case GcFill(k, l, p) => WriteOrder(s, k, s.gc[(l, p)].lba, s.gc[(l, p)].data, Collector(l, p));
    case Program(k) => ProgramOrder(s, k);
    case L2pOne => L2pOrder(s);
    case MapEntry => MapOrder(s);
    case Replace(m, secs) => ReplaceOrder(s, m, secs);
    case _ => SameOrder(s, op);
  }

  /** Every run from a fresh instance keeps the order. */
  lemma {:induction false} RunOrder(s: State, r: Run)
    requires Init(s) && RunTo(s, r).Some?
    ensures var t := RunTo(s, r).value; Inv(t) && Ordered(t)
  {
    InitOk(s);
    if r.Then? {
      RunOrder(s, r.prev);
      StepKeeps(RunTo(s, r.prev).value, r.op);
      StepOrder(RunTo(s, r.prev).value, r.op);
    }
  }

  lemma ReachOrdered(s: State)
    requires Reachable(s)
    ensures Inv(s) && Ordered(s)
  {
    var s0, r :| Init(s0) && RunTo(s0, r) == Some(s);
    RunOrder(s0, r);
  }
}

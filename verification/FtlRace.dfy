/**
 Why an entry must be mapped before it leaves the ring.

 Filling a slot and mapping its address are two steps of the writing thread.  In between the entry can be
 submitted, stored and synced, and the driver does not check that it is mapped when it leaves the ring.
 */
module FtlRace {
  import opened Basics
  import opened Ftl
  import opened FtlInv
  import opened FtlGc
  import opened FtlReads
  import opened FtlRun
  import opened FtlPadded

  /** A logical address maps to a slot that is free to be filled by anybody. */
  predicate Stale(s: State) {
    exists a :: 0 <= a < |s.trans| && s.trans[a].Cached? && s.trans[a].slot < |s.ring| && s.ring[s.trans[a].slot].flag == Writable
  }

  lemma InvNotStale(s: State)
    requires Inv(s)
    ensures !Stale(s)
  {
  }

  /** The entry leaves the ring and only then its writer maps the address to the slot. */
  lemma TooEarly(s: State, a: nat, d: Data)
    requires L2pReady(s) && Mapped(s, a) && s.l2p in s.half && s.half[s.l2p] == User(a, d)
    ensures Enabled(L2pStep(s), Publish(s.l2p, a, d)) && Stale(PublishStep(L2pStep(s), s.l2p, a))
  {
    var t := L2pStep(s);
    var w := PublishStep(t, s.l2p, a);
    assert w.trans[a] == Cached(Wrap(s.l2p, |s.ring|));
  }

  /** The same of an entry GC filled, if its address still lies in the victim and not in the ring. */
  lemma GcTooEarly(s: State, l: nat, p: nat)
    requires L2pReady(s) && s.l2p in s.half && s.half[s.l2p] == Collector(l, p) && Due(s.half[s.l2p], s.trans, s.gc)
    ensures Enabled(L2pStep(s), GcPublish(s.l2p, l, p)) && Stale(GcPublishStep(L2pStep(s), s.l2p, l, p))
  {
    var t, a := L2pStep(s), s.gc[(l, p)].lba;
    assert t.trans[a] == s.trans[a];
    var w := GcPublishStep(t, s.l2p, l, p);
    assert w.trans[a] == Cached(Wrap(s.l2p, |s.ring|));
  }

  /** No run of otherwise safe steps after the entry at `l2p` has left leaves an address mapped to a free slot. */
  ghost predicate Retires(s: State)
    requires L2pReady(s)
  {
    forall r :: RunTo(L2pStep(s), r).Some? ==> !Stale(RunTo(L2pStep(s), r).value)
  }

  lemma SafeRetires(s: State, r: Run)
    requires Inv(s) && L2pReady(s) && Safe(s, L2pOne) && RunTo(L2pStep(s), r).Some?
    ensures !Stale(RunTo(L2pStep(s), r).value)
  {
    L2pKeeps(s);
    hide Inv;
    RunRefines(L2pStep(s), r);
    InvNotStale(RunTo(L2pStep(s), r).value);
  }

  lemma UserRetires(s: State, a: nat, d: Data)
    requires L2pReady(s) && Mapped(s, a) && s.l2p in s.half && s.half[s.l2p] == User(a, d)
    ensures !Retires(s)
  {
    TooEarly(s, a, d);
    hide Stale, Retires;
    RunOn(L2pStep(s), Start, L2pStep(s), Publish(s.l2p, a, d));
    NotRetires(s, Then(Start, Publish(s.l2p, a, d)));
  }

  lemma GcRetires(s: State, l: nat, p: nat)
    requires L2pReady(s) && s.l2p in s.half && s.half[s.l2p] == Collector(l, p) && Due(s.half[s.l2p], s.trans, s.gc)
    ensures !Retires(s)
  {
    GcTooEarly(s, l, p);
    hide Stale, Retires;
    RunOn(L2pStep(s), Start, L2pStep(s), GcPublish(s.l2p, l, p));
    NotRetires(s, Then(Start, GcPublish(s.l2p, l, p)));
  }

  lemma NotRetires(s: State, r: Run)
    requires L2pReady(s) && RunTo(L2pStep(s), r).Some? && Stale(RunTo(L2pStep(s), r).value)
    ensures !Retires(s)
  {
  }

  lemma DueRetires(s: State)
    requires Inv(s) && L2pReady(s) && !Safe(s, L2pOne)
    ensures !Retires(s)
  {
    match s.half[s.l2p]
    case User(a, d) =>
      assert WriterOk(s.half[s.l2p], s.lines, s.gc, |s.trans|);
      DropGuard(s, a);
      UserRetires(s, a, d);
    case Collector(l, p) => GcRetires(s, l, p);
  }

  /**
   The entry at `l2p` may leave the ring, and no run of otherwise safe steps then leaves an address mapped to a free slot,
   if and only if no writer has still to map it: it is mapped, or GC filled it and its address has left the victim.
   */
  lemma RetireExact(s: State)
    requires Inv(s) && L2pReady(s)
    ensures Retires(s) <==> s.l2p !in s.half || !Due(s.half[s.l2p], s.trans, s.gc)
  {
    if Safe(s, L2pOne) {
      forall r | RunTo(L2pStep(s), r).Some? ensures !Stale(RunTo(L2pStep(s), r).value) { SafeRetires(s, r); }
    } else {
      DueRetires(s);
    }
  }

  // ---------------------------------------------------------------- reads of a stale address

  /** Address `a` maps to slot `c`, and the slot does not pass the check of a read of `a`: the reader looks up again. */
  predicate Retrying(s: State, a: nat, c: nat) {
    a < |s.trans| && s.trans[a] == Cached(c) && c < |s.ring| && !CopyOk(s, a, c)
  }

  /** Whoever has filled a slot has one that is reserved and filled. */
  predicate Placed(s: State) {
    (forall k :: k in s.half ==> k < s.mem && k !in s.unfilled) && forall k :: k in s.unfilled ==> k < s.mem
  }

  /** Every copy of `a` that GC has in hand is in a slot already. */
  predicate AllFilled(s: State, a: nat) {
    forall key :: key in s.gc && s.gc[key].lba == a ==> Collector(key.0, key.1) in s.half.Values
  }

  predicate Stuck(s: State, a: nat, c: nat) {
    Retrying(s, a, c) && Placed(s) && AllFilled(s, a)
  }

  /** The step is no write or discard of `a`. */
  predicate Elsewhere(op: Op, a: nat) {
    op.Fill? || op.Publish? || op.Discard? ==> op.lba != a
  }

  predicate AllElsewhere(r: Run, a: nat) {
    r.Then? ==> Elsewhere(r.op, a) && AllElsewhere(r.prev, a)
  }

  lemma PlacedStep(s: State, op: Op)
    requires Placed(s) && Enabled(s, op)
    ensures Placed(Step(s, op))
  {
    hide Enabled, Step;
    if op.Reserve? || op.Fill? || op.GcFill? || op.Publish? || op.GcPublish? {
      PlacedWriters(s, op);
    } else {
      SameWriting(s, op);
    }
  }

  lemma PlacedWriters(s: State, op: Op)
    requires Placed(s) && Enabled(s, op) && (op.Reserve? || op.Fill? || op.GcFill? || op.Publish? || op.GcPublish?)
    ensures Placed(Step(s, op))
  {
  }

  /** Steps on slots. */
  lemma RetrySlot(s: State, op: Op, a: nat, c: nat)
    requires Retrying(s, a, c) && AllFilled(s, a) && Enabled(s, op) && Elsewhere(op, a)
    requires op.Fill? || op.GcFill? || op.MapEntry? || op.Program? || op.L2pOne?
    ensures Retrying(Step(s, op), a, c)
  {
  }

  lemma RetryMap(s: State, op: Op, a: nat, c: nat)
    requires Retrying(s, a, c) && Enabled(s, op) && Elsewhere(op, a)
    requires !op.Fill? && !op.GcFill? && !op.MapEntry? && !op.Program? && !op.L2pOne?
    ensures Retrying(Step(s, op), a, c)
  {
  }

  /** The writer of a copy stays until the copy is dropped. */
  lemma CollectorStays(s: State, op: Op, key: (nat, nat))
    requires Placed(s) && Enabled(s, op) && Collector(key.0, key.1) in s.half.Values && key in Step(s, op).gc && key in s.gc
    ensures Collector(key.0, key.1) in Step(s, op).half.Values
  {
    var k :| k in s.half && s.half[k] == Collector(key.0, key.1);
    assert k in Step(s, op).half && Step(s, op).half[k] == s.half[k];
  }

  /** GC takes no new copy of an address in the ring. */
  lemma NoNewCopy(s: State, op: Op, a: nat, key: (nat, nat))
    requires a < |s.trans| && s.trans[a].Cached? && Enabled(s, op) && key in Step(s, op).gc && Step(s, op).gc[key].lba == a
    ensures key in s.gc && s.gc[key].lba == a
  {
  }

  lemma FilledStep(s: State, op: Op, a: nat, c: nat)
    requires Stuck(s, a, c) && Enabled(s, op)
    ensures AllFilled(Step(s, op), a)
  {
    forall key | key in Step(s, op).gc && Step(s, op).gc[key].lba == a ensures Collector(key.0, key.1) in Step(s, op).half.Values {
      hide Enabled, Step;
      NoNewCopy(s, op, a, key);
      CollectorStays(s, op, key);
    }
  }

  lemma StuckStep(s: State, op: Op, a: nat, c: nat)
    requires Stuck(s, a, c) && Enabled(s, op) && Elsewhere(op, a)
    ensures Stuck(Step(s, op), a, c)
  {
    hide Enabled, Elsewhere, Step, Retrying, Placed, AllFilled;
    PlacedStep(s, op);
    FilledStep(s, op, a, c);
    if op.Fill? || op.GcFill? || op.MapEntry? || op.Program? || op.L2pOne? {
      RetrySlot(s, op, a, c);
    } else {
      RetryMap(s, op, a, c);
    }
  }

  /**
   A read of such an address finds nothing to copy and looks up the same slot again, in every run in which nobody writes
   or discards the address, whatever else the slot is filled with.
   */
  lemma {:induction false} StaleForever(s: State, r: Run, a: nat, c: nat)
    requires Stuck(s, a, c) && RunTo(s, r).Some? && AllElsewhere(r, a)
    ensures var t := RunTo(s, r).value; Stuck(t, a, c) && !CopyOk(t, a, c)
  {
    if r.Then? {
      hide Stuck, CopyOk;
      StaleForever(s, r.prev, a, c);
      StuckStep(RunTo(s, r.prev).value, r.op, a, c);
      NoCopy(RunTo(s, r).value, a, c);
    }
  }

  lemma NoCopy(s: State, a: nat, c: nat)
    requires Stuck(s, a, c)
    ensures !CopyOk(s, a, c)
  {
  }

  /** Address `a` maps to slot `c`, which is free; its next position is `k`. */
  predicate StaleAt(s: State, a: nat, c: nat, k: nat) {
    && Sized(s) && a < |s.trans| && s.trans[a] == Cached(c) && c < |s.ring| && s.ring[c].flag == Writable
    && Wrap(k, |s.ring|) == c
  }

  /** Position `k` is reserved, or can be. */
  predicate Reservable(s: State, k: nat) {
    k in s.unfilled || (s.mem <= k && k + 1 < s.l2p + |s.ring|)
  }

  /** GC has a copy of `a` in hand that is not in a slot yet. */
  predicate CopyLeft(s: State, l: nat, p: nat, a: nat) {
    (l, p) in s.gc && s.gc[(l, p)].lba == a && Collector(l, p) !in s.half.Values
  }

  /** A copy GC read before the write comes to lie in the very slot: reads of the address return it, and pass the check. */
  lemma OldCopyReturns(s: State, a: nat, c: nat, k: nat, l: nat, p: nat)
    requires StaleAt(s, a, c, k) && k in s.unfilled && CopyLeft(s, l, p, a)
    ensures Enabled(s, GcFill(k, l, p)) && Safe(s, GcFill(k, l, p))
    ensures var t := GcFillStep(s, k, l, p); CopyOk(t, a, c) && Readable(t, a) && Read(t, a) == Some(s.gc[(l, p)].data)
  {
  }

  /** Readers of `a` retry in every run of safe steps in which nobody writes or discards it. */
  ghost predicate RetriesForever(s: State, a: nat, c: nat) {
    forall r :: RunTo(s, r).Some? && AllElsewhere(r, a) ==> Retrying(RunTo(s, r).value, a, c)
  }

  lemma OldCopyStops(s: State, a: nat, c: nat, k: nat, l: nat, p: nat)
    requires StaleAt(s, a, c, k) && Reservable(s, k) && CopyLeft(s, l, p, a)
    ensures !RetriesForever(s, a, c)
  {
    var r, t := Start, s;
    if k !in s.unfilled {
      Reserving(s, a, c, k, l, p);
      RunOn(s, Start, s, Reserve(k + 1 - s.mem));
      r, t := Then(Start, Reserve(k + 1 - s.mem)), ReserveStep(s, k + 1 - s.mem);
      assert AllElsewhere(Start, a);
    }
    assert AllElsewhere(r, a);
    OldCopyReturns(t, a, c, k, l, p);
    hide RunTo;
    RunOn(s, r, t, GcFill(k, l, p));
    assert AllElsewhere(Then(r, GcFill(k, l, p)), a);
  }

  lemma Reserving(s: State, a: nat, c: nat, k: nat, l: nat, p: nat)
    requires StaleAt(s, a, c, k) && s.mem <= k && k + 1 < s.l2p + |s.ring| && CopyLeft(s, l, p, a)
    ensures Enabled(s, Reserve(k + 1 - s.mem)) && k in ReserveStep(s, k + 1 - s.mem).unfilled
    ensures StaleAt(ReserveStep(s, k + 1 - s.mem), a, c, k) && CopyLeft(ReserveStep(s, k + 1 - s.mem), l, p, a)
  {
  }

  /**
   Once the slot is or can be reserved again, readers of the stale address retry for ever, as long as nobody writes or discards it,
   if and only if every copy of it that GC has in hand is in a slot already.  Otherwise a reader may be given the old copy.
   */
  lemma RetryExact(s: State, a: nat, c: nat, k: nat)
    requires StaleAt(s, a, c, k) && Reservable(s, k) && Placed(s)
    ensures RetriesForever(s, a, c) <==> AllFilled(s, a)
  {
    if AllFilled(s, a) {
      forall r | RunTo(s, r).Some? && AllElsewhere(r, a) ensures Retrying(RunTo(s, r).value, a, c) {
        StaleForever(s, r, a, c);
      }
    } else {
      var key :| key in s.gc && s.gc[key].lba == a && Collector(key.0, key.1) !in s.half.Values;
      assert key == (key.0, key.1);
      OldCopyStops(s, a, c, k, key.0, key.1);
    }
  }

  /** Writers are placed in every state of every run of a fresh instance, safe or not. */
  lemma {:induction false} AlwaysPlaced(s: State, r: Run)
    requires Init(s) && Goes(s, r).Some?
    ensures Placed(Goes(s, r).value)
  {
    if r.Then? {
      AlwaysPlaced(s, r.prev);
      PlacedStep(Goes(s, r.prev).value, r.op);
    }
  }
}

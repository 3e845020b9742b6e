/**
 What can happen to a fresh instance: a few writes and what may go wrong with them.

 The lemmas hold of every fresh instance whose first line has one data sector.  A write is followed from the ring to the
 device; its map update is a step of its own that may come at any time.
 */
module FtlExamples {
  import opened Basics
  import opened Ftl
  import opened FtlInv
  import opened FtlRun
  import opened FtlOrder
  import opened FtlPadded
  import opened FtlVictim
  import opened FtlRace
  import opened FtlReads

  // ---------------------------------------------------------------- runs one after the other

  function Join(r: Run, more: Run): Run {
    match more
    case Start => r
    case Then(prev, op) => Then(Join(r, prev), op)
  }

  lemma {:induction false} JoinGoes(s: State, r: Run, t: State, more: Run)
    requires Goes(s, r) == Some(t)
    ensures Goes(s, Join(r, more)) == Goes(t, more)
  {
    if more.Then? { JoinGoes(s, r, t, more.prev); }
  }

  lemma {:induction false} JoinLeads(s: State, r: Run, t: State, more: Run, w: State)
    requires Leading(s, r, t) && Leading(t, more, w)
    ensures Leading(s, Join(r, more), w)
  {
    if more.Then? { JoinLeads(s, r, t, more.prev, RunTo(t, more.prev).value); }
  }

  /** The step maps or unmaps no address. */
  predicate Mapless(r: Run) {
    r.Then? ==> !r.op.Publish? && !r.op.Discard? && Mapless(r.prev)
  }

  lemma {:induction false} JoinLast(r: Run, more: Run, a: nat)
    requires Mapless(more)
    ensures LastValue(Join(r, more), a) == LastValue(r, a)
  {
    if more.Then? { JoinLast(r, more.prev, a); }
  }

  // ---------------------------------------------------------------- one write

  /** The ring is empty and nothing is with the device. */
  predicate Idle(s: State) {
    Sized(s) && |s.ring| >= 2 && s.mem == s.subm == s.disp == s.sync == s.l2p && s.unfilled == {} && s.reqs == []
  }

  function FillOps(k: nat, a: nat, d: Data): Run {
    Then(Then(Start, Reserve(1)), Fill(k, a, d))
  }

  /** A user has filled the next slot with `d` for `a`. */
  function AfterFill(s: State, a: nat, d: Data): State
    requires Sized(s)
  {
    s.(mem := s.mem + 1, ring := s.ring[Wrap(s.mem, |s.ring|) := Entry(Written, a, Empty, d, false)],
       half := s.half[s.mem := User(a, d)])
  }

  lemma OneRange(k: nat)
    ensures Range(k, k + 1) == {k}
  {
  }

  lemma Filling(s: State, a: nat, d: Data)
    requires Idle(s) && a < |s.trans|
    ensures Leading(s, FillOps(s.mem, a, d), AfterFill(s, a, d)) && Mapless(FillOps(s.mem, a, d))
  {
    OneRange(s.mem);
    var t := ReserveStep(s, 1);
    assert t.unfilled == {s.mem} && {s.mem} - {s.mem} == {};
    assert RunTo(s, Then(Start, Reserve(1))) == Some(t);
    assert FillStep(t, s.mem, a, d) == AfterFill(s, a, d);
  }

  /** One filled slot waits for the writer thread, and there is a sector for it. */
  predicate Waiting(s: State) {
    && CanAlloc(s) && |s.ring| >= 2 && s.mem == s.subm + 1 && s.subm == s.disp == s.sync == s.l2p && s.unfilled == {} && s.reqs == []
    && Slot(s.ring, s.subm).flag == Written
  }

  function StoreOps(k: nat): Run {
    Then(Then(Then(Then(Then(Start, MapEntry), Dispatch(1)), Program(k)), Ack(0)), SyncOne)
  }

  /** The sector handed out next. */
  function Sector(s: State): nat
    requires CanAlloc(s)
  {
    s.lines[s.cur].secs[s.lines[s.cur].next]
  }

  function Line1(s: State): Line
    requires CanAlloc(s)
  {
    HandOut(s.lines[s.cur], Slot(s.ring, s.subm).lba, Wrap(s.subm, |s.ring|))
  }

  /** It is mapped to the next sector, stored and synced. */
  function AfterStore(s: State): State
    requires CanAlloc(s)
  {
    var c := Wrap(s.subm, |s.ring|);
    s.(subm := s.subm + 1, disp := s.disp + 1, sync := s.sync + 1,
       ring := s.ring[c := Entry(Submitted, s.ring[c].lba, Media(s.cur, Sector(s)), s.ring[c].data, true)],
       lines := s.lines[s.cur := SyncLine(Line1(s))],
       media := s.media[(s.cur, Sector(s)) := s.ring[c].data])
  }

  lemma Dispatching(s: State)
    requires Waiting(s)
    ensures Enabled(s, MapEntry) && Enabled(MapEntryStep(s), Dispatch(1)) && Enabled(DispatchStep(MapEntryStep(s), 1), Program(s.subm))
    ensures ProgramStep(DispatchStep(MapEntryStep(s), 1), s.subm) ==
      AfterStore(s).(sync := s.sync, reqs := [Req(s.subm, 1, false)], lines := s.lines[s.cur := Line1(s)])
  {
  }

  lemma Acking(s: State, t: State)
    requires Waiting(s)
    requires t == AfterStore(s).(sync := s.sync, reqs := [Req(s.subm, 1, false)], lines := s.lines[s.cur := Line1(s)])
    ensures Enabled(t, Ack(0)) && Enabled(Step(t, Ack(0)), SyncOne) && SyncStep(Step(t, Ack(0))) == AfterStore(s)
  {
    var t1 := Step(t, Ack(0));
    assert t1.reqs == [Req(s.subm, 1, true)] && SyncReqs(t1.reqs) == [];
  }

  lemma Storing(s: State)
    requires Waiting(s)
    ensures Leading(s, StoreOps(s.subm), AfterStore(s)) && Mapless(StoreOps(s.subm))
  {
    Dispatching(s);
    hide Waiting, MapEntryStep, DispatchStep, ProgramStep, AfterStore, Leading;
    var t1 := MapEntryStep(s);
    var t2 := DispatchStep(t1, 1);
    var t := ProgramStep(t2, s.subm);
    Acking(s, t);
    LeadStart(s);
    Extend(s, Start, s, MapEntry);
    Extend(s, Then(Start, MapEntry), t1, Dispatch(1));
    var r := Then(Then(Start, MapEntry), Dispatch(1));
    Extend(s, r, t2, Program(s.subm));
    r := Then(r, Program(s.subm));
    Extend(s, r, t, Ack(0));
    Extend(s, Then(r, Ack(0)), Step(t, Ack(0)), SyncOne);
    assert Mapless(Start) && Mapless(r);
  }

  lemma LeadStart(s: State)
    ensures Leading(s, Start, s)
  {
  }

  lemma GoesOn(s: State, run: Run, t: State, op: Op)
    requires Goes(s, run) == Some(t) && Enabled(t, op)
    ensures Goes(s, Then(run, op)) == Some(Step(t, op))
  {
  }

  lemma GoesFill(s: State, run: Run, t: State, a: nat, d: Data, b: nat) returns (r: Run)
    requires Goes(s, run) == Some(t) && Idle(t) && a < |t.trans|
    ensures Goes(s, r) == Some(AfterFill(t, a, d)) && LastValue(r, b) == LastValue(run, b)
  {
    Filling(t, a, d);
    hide Idle, AfterFill, FillOps, Mapless;
    SafeGoes(t, FillOps(t.mem, a, d));
    JoinGoes(s, run, t, FillOps(t.mem, a, d));
    JoinLast(run, FillOps(t.mem, a, d), b);
    r := Join(run, FillOps(t.mem, a, d));
  }

  lemma GoesStore(s: State, run: Run, t: State, b: nat) returns (r: Run)
    requires Goes(s, run) == Some(t) && Waiting(t)
    ensures Goes(s, r) == Some(AfterStore(t)) && LastValue(r, b) == LastValue(run, b)
  {
    Storing(t);
    hide Waiting, AfterStore, StoreOps, Mapless;
    SafeGoes(t, StoreOps(t.subm));
    JoinGoes(s, run, t, StoreOps(t.subm));
    JoinLast(run, StoreOps(t.subm), b);
    r := Join(run, StoreOps(t.subm));
  }

  // ---------------------------------------------------------------- the map update comes too late

  /** A fresh instance with a single data sector in its first line. */
  predicate OneSector(s: State) {
    Init(s) && |s.ring| >= 2 && s.trans != [] && |s.lines[s.cur].secs| == 1
  }

  /** Every such instance can come to a state where an entry may leave the ring although its writer is yet to map it. */
  lemma RaceReachable(s: State, d: Data) returns (r: Run, t: State)
    requires OneSector(s)
    ensures Leading(s, r, t) && L2pReady(t) && t.half == map[0 := User(0, d)] && t.l2p == 0
    ensures Mapped(L2pStep(t), 0) && Stale(PublishStep(L2pStep(t), 0, 0))
  {
    var t1 := AfterFill(s, 0, d);
    Filling(s, 0, d);
    Storing(t1);
    r, t := Join(FillOps(0, 0, d), StoreOps(0)), AfterStore(t1);
    JoinLeads(s, FillOps(0, 0, d), t1, StoreOps(0), t);
    assert s.half[0 := User(0, d)] == map[0 := User(0, d)];
    TooEarly(t, 0, d);
  }

  // ---------------------------------------------------------------- a victim with a live entry

  /** Written to address 0 and mapped there. */
  function AfterWrite(s: State, d: Data): State
    requires Sized(s) && Mapped(s, 0)
  {
    PublishStep(AfterFill(s, 0, d), s.mem, 0)
  }

  /** ... and stored, and its line closed; the L2P update is still to come. */
  function AfterClose(s: State, d: Data): State
    requires Sized(s) && Mapped(s, 0) && CanAlloc(AfterWrite(s, d))
  {
    CloseStep(AfterStore(AfterWrite(s, d)), s.cur)
  }

  /** What there is to know of it. */
  predicate AtClose(s: State, p: nat, d: Data) {
    && Sized(s) && |s.ring| >= 2 && s.trans != [] && s.l2p == 0 && s.mem == s.subm == s.disp == s.sync == 1
    && s.unfilled == {} && s.reqs == [] && s.half == map[] && s.gc == map[] && p < s.secPerLine
    && s.ring[0] == Entry(Submitted, 0, Media(s.cur, p), d, true) && s.trans[0] == Cached(0)
    && s.lines[s.cur] == CloseLine(SyncLine(HandOut(FreshLine([p], s.secPerLine), 0, 0))) && Stored(s.media, s.cur, p, d)
  }

  lemma Writing(s: State, d: Data)
    requires OneSector(s)
    ensures Leading(s, Then(FillOps(0, 0, d), Publish(0, 0, d)), AfterWrite(s, d)) && Waiting(AfterWrite(s, d))
    ensures AfterWrite(s, d).half == map[] && AfterWrite(s, d).trans == s.trans[0 := Cached(0)] && AfterWrite(s, d).lines == s.lines
  {
    var t := AfterFill(s, 0, d);
    Filling(s, 0, d);
    Extend(s, FillOps(0, 0, d), t, Publish(0, 0, d));
    assert t.half - {0} == map[];
  }

  lemma ToClose(s: State, d: Data) returns (p: nat)
    requires OneSector(s) && Mapped(s, 0) && CanAlloc(AfterWrite(s, d)) && AfterWrite(s, d).half == map[]
    ensures Enabled(AfterStore(AfterWrite(s, d)), Close(s.cur)) && AtClose(AfterClose(s, d), p, d)
  {
    p := s.lines[s.cur].secs[0];
    assert s.lines[s.cur].secs == [p];
  }

  lemma Closing(s: State, d: Data) returns (r: Run, p: nat)
    requires OneSector(s)
    ensures Leading(s, r, AfterClose(s, d)) && AtClose(AfterClose(s, d), p, d)
  {
    Writing(s, d);
    p := ToClose(s, d);
    var t := AfterWrite(s, d);
    hide AtClose, AfterWrite, AfterStore, OneSector, Leading;
    Storing(t);
    r := Join(Then(FillOps(0, 0, d), Publish(0, 0, d)), StoreOps(t.subm));
    JoinLeads(s, Then(FillOps(0, 0, d), Publish(0, 0, d)), t, StoreOps(t.subm), AfterStore(t));
    Extend(s, r, AfterStore(t), Close(s.cur));
    r := Then(r, Close(s.cur));
  }

  lemma CloseInstalls(t: State, p: nat, d: Data)
    requires AtClose(t, p, d)
    ensures Enabled(t, GcStart(t.cur)) && t.lines[t.cur].pads == 0
    ensures t.l2p <= 0 < t.subm && MapsTo(t.ring, 0, t.cur) && Installs(t, 0)
  {
    assert Live(t, 0);
  }

  /** A run to a state where an entry would be installed into a closed line goes on to lose its address. */
  lemma LossAfter(s: State, run: Run, t: State, l: nat, k: nat) returns (r: Run, w: State)
    requires Goes(s, run) == Some(t) && Enabled(t, GcStart(l)) && Victim(t, l) && Ordered(t)
    requires t.l2p <= k < t.subm && MapsTo(t.ring, k, l) && Installs(t, k)
    ensures Goes(s, r) == Some(w) && FreedUnder(w, l)
  {
    hide Victim, Ordered, Installs, FreedUnder;
    GoesOn(s, run, t, GcStart(l));
    var more;
    more, w := InstallLoses(t, l, k);
    SafeGoes(GcStartStep(t, l), more);
    JoinGoes(s, Then(run, GcStart(l)), GcStartStep(t, l), more);
    r := Join(Then(run, GcStart(l)), more);
  }

  lemma FreshInit(s: State)
    requires OneSector(s)
    ensures Init(s)
  {
  }

  lemma LossReady(s: State, r: Run, t: State, p: nat, d: Data)
    requires OneSector(s) && Leading(s, r, t) && AtClose(t, p, d)
    ensures Goes(s, r) == Some(t) && Enabled(t, GcStart(t.cur)) && Victim(t, t.cur) && Ordered(t)
    ensures t.l2p <= 0 < t.subm && MapsTo(t.ring, 0, t.cur) && Installs(t, 0)
  {
    hide Ordered, Inv, Installs, AtClose, OneSector, Init;
    FreshInit(s);
    RunOrder(s, r);
    CloseInstalls(t, p, d);
    SafeGoes(s, r);
  }

  lemma FreedDangles(w: State, l: nat)
    requires FreedUnder(w, l)
    ensures Dangling(w)
  {
  }

  /** The driver as it is can lose a write: every such instance has a run that does. */
  lemma LossExample(s: State, d: Data) returns (r: Run, w: State)
    requires OneSector(s)
    ensures Goes(s, r) == Some(w) && Dangling(w)
  {
    hide Ordered, AtClose, Installs, Leading, Victim, FreedUnder, Dangling, AfterClose;
    var p;
    r, p := Closing(s, d);
    var t := AfterClose(s, d);
    LossReady(s, r, t, p, d);
    r, w := LossAfter(s, r, t, t.cur, 0);
    FreedDangles(w, t.cur);
  }

  // ---------------------------------------------------------------- a read whose sector is erased

  /** Installed: the address maps to the sector, which the device holds, and the ring is empty. */
  predicate AtInstall(s: State, p: nat, d: Data) {
    && Idle(s) && s.l2p == 1 && s.trans != [] && s.half == map[] && s.gc == map[] && p < s.secPerLine
    && s.trans[0] == Media(s.cur, p) && Stored(s.media, s.cur, p, d)
    && s.lines[s.cur] == PutRef(CloseLine(SyncLine(HandOut(FreshLine([p], s.secPerLine), 0, 0))))
  }

  lemma ToInstall(s: State, p: nat, d: Data)
    requires AtClose(s, p, d)
    ensures Enabled(s, L2pOne) && Safe(s, L2pOne) && AtInstall(L2pStep(s), p, d)
  {
  }

  /** The address is discarded while a read of it is at the device. */
  function Dropped(s: State): State
    requires Mapped(s, 0)
  {
    Remap(s, 0, Empty)
  }

  lemma ToDrop(s: State, p: nat, d: Data)
    requires AtInstall(s, p, d)
    ensures Enabled(s, Discard(0)) && Enabled(Dropped(s), GcStart(s.cur)) && Safe(Dropped(s), GcStart(s.cur))
    ensures var t := GcStartStep(Dropped(s), s.cur); Enabled(t, GcPut(s.cur))
    ensures var t := GcPutStep(GcStartStep(Dropped(s), s.cur), s.cur);
      Enabled(t, Wipe(s.cur, p)) && (s.cur, p) !in WipeStep(t, s.cur, p).media
  {
    var t := GcStartStep(Dropped(s), s.cur);
    assert forall q :: 0 <= q < s.secPerLine ==> q in t.lines[s.cur].invalid;
  }

  /** A ring of two slots, a second address, and beside the line in use a free and erased line `m` for three sectors. */
  predicate Spare(s: State, m: nat) {
    && Sized(s) && |s.ring| == 2 && |s.trans| >= 2 && s.trans[1] == Empty && s.secPerLine >= 3
    && m < |s.lines| && m != s.cur && s.lines[m].state == Free && Erased(s.media, m)
  }

  lemma SpareStays(s: State, m: nat, d: Data)
    requires OneSector(s) && Spare(s, m) && Mapped(s, 0) && CanAlloc(AfterWrite(s, d))
    ensures Spare(AfterClose(s, d), m)
  {
  }

  lemma SpareL2p(s: State, m: nat, p: nat, d: Data)
    requires AtClose(s, p, d) && Spare(s, m) && L2pReady(s)
    ensures Spare(L2pStep(s), m)
  {
  }

  /** Written and installed; a spare line stays. */
  lemma Installing(s: State, d: Data) returns (r: Run, t: State, p: nat)
    requires OneSector(s)
    ensures Leading(s, r, t) && AtInstall(t, p, d) && forall m :: Spare(s, m) ==> Spare(t, m)
  {
    r, p := Closing(s, d);
    hide AtClose, AtInstall, Leading, AfterClose, Spare;
    t := AfterClose(s, d);
    forall m | Spare(s, m) ensures Spare(t, m) { SpareStays(s, m, d); }
    ToInstall(t, p, d);
    Extend(s, r, t, L2pOne);
    forall m | Spare(t, m) ensures Spare(L2pStep(t), m) { SpareL2p(t, m, p, d); }
    r, t := Then(r, L2pOne), L2pStep(t);
  }

  /** Discard, GC and erasing of the line, one after the other. */
  lemma Erasing(s: State, p: nat, d: Data) returns (r: Run, w: State)
    requires AtInstall(s, p, d)
    ensures RunTo(s, r) == Some(w) && (s.cur, p) !in w.media
  {
    ToDrop(s, p, d);
    hide AtInstall;
    var l := s.cur;
    RunOn(s, Start, s, Discard(0));
    RunOn(s, Then(Start, Discard(0)), Dropped(s), GcStart(l));
    r, w := Then(Then(Start, Discard(0)), GcStart(l)), GcStartStep(Dropped(s), l);
    RunOn(s, r, w, GcPut(l));
    RunOn(s, Then(r, GcPut(l)), GcPutStep(w, l), Wipe(l, p));
    r, w := Then(Then(r, GcPut(l)), Wipe(l, p)), WipeStep(GcPutStep(w, l), l, p);
  }

  /**
   A read can lose its sector: every such instance comes to a state `t` where address 0 is looked up at the device, and
   goes on, by safe steps only, to erase what the read was sent for.
   */
  lemma ErasedUnderRead(s: State, d: Data) returns (r: Run, t: State, p: nat, more: Run, w: State)
    requires OneSector(s)
    ensures RunTo(s, r) == Some(t) && t.trans != [] && t.trans[0] == Media(t.cur, p) && Stored(t.media, t.cur, p, d)
    ensures RunTo(t, more) == Some(w) && (t.cur, p) !in w.media
  {
    r, t, p := Installing(s, d);
    more, w := Erasing(t, p, d);
  }

  // ---------------------------------------------------------------- old data comes back

  /** GC has read address 0 from line `l`, and line `m`, of three sectors, `used` of them handed out, is in use. */
  predicate AtOld(s: State, l: nat, p: nat, m: nat, used: nat, d: Data) {
    && Sized(s) && |s.ring| == 2 && |s.trans| >= 2 && s.unfilled == {} && s.reqs == [] && s.gc == map[(l, p) := GcItem(0, d)]
    && l < |s.lines| && l != m && s.cur == m && s.lines[m].secs == [0, 1, 2] && s.lines[m].next == used
  }

  lemma ToScan(s: State, p: nat, d: Data)
    requires AtInstall(s, p, d)
    ensures Enabled(s, GcStart(s.cur)) && Enabled(GcStartStep(s, s.cur), GcRead(s.cur, p))
    ensures var t := GcReadStep(GcStartStep(s, s.cur), s.cur, p);
      t == s.(lines := t.lines, gc := map[(s.cur, p) := GcItem(0, d)]) && |t.lines| == |s.lines| && t.lines == s.lines[s.cur := t.lines[s.cur]]
    ensures var l := GcReadStep(GcStartStep(s, s.cur), s.cur, p).lines[s.cur]; l.state == Gc && l.next == |l.secs|
  {
    var t := GcReadStep(GcStartStep(s, s.cur), s.cur, p);
    assert t.gc == map[(s.cur, p) := GcItem(0, d)];
  }

  lemma ToReplace(s: State, t: State, p: nat, m: nat, d: Data)
    requires Spare(s, m) && t == s.(lines := t.lines, gc := map[(s.cur, p) := GcItem(0, d)]) && s.unfilled == {} && s.reqs == []
    requires |t.lines| == |s.lines| && t.lines == s.lines[s.cur := t.lines[s.cur]] && t.lines[s.cur].next == |t.lines[s.cur].secs|
    ensures Enabled(t, Replace(m, [0, 1, 2])) && AtOld(ReplaceStep(t, m, [0, 1, 2]), s.cur, p, m, 0, d)
  {
  }

  /** GC has read address 0, which still maps to its sector. */
  predicate AtRead(s: State, l: nat, p: nat, m: nat, d: Data) {
    && AtOld(s, l, p, m, 0, d) && Idle(s) && s.l2p == 1 && s.half == map[] && s.trans[0] == Media(l, p) && s.trans[1] == Empty
    && s.lines[l].state == Gc
  }

  lemma ToRead(s: State, p: nat, m: nat, d: Data)
    requires AtInstall(s, p, d) && Spare(s, m)
    ensures Enabled(s, GcStart(s.cur)) && Enabled(GcStartStep(s, s.cur), GcRead(s.cur, p))
    ensures var t := GcReadStep(GcStartStep(s, s.cur), s.cur, p);
      Enabled(t, Replace(m, [0, 1, 2])) && AtRead(ReplaceStep(t, m, [0, 1, 2]), s.cur, p, m, d)
  {
    ToScan(s, p, d);
    hide GcReadStep, GcStartStep;
    ToReplace(s, GcReadStep(GcStartStep(s, s.cur), s.cur, p), p, m, d);
  }

  lemma Reading(s: State, m: nat, d: Data) returns (r: Run, t: State, l: nat, p: nat)
    requires OneSector(s) && Spare(s, m)
    ensures Goes(s, r) == Some(t) && AtRead(t, l, p, m, d)
  {
    hide AtInstall, Spare, OneSector, AtRead, GcReadStep, GcStartStep, Leading;
    r, t, p := Installing(s, d);
    ToRead(t, p, m, d);
    l := t.cur;
    LeadGoes(s, r, t);
    GoesOn(s, r, t, GcStart(l));
    GoesOn(s, Then(r, GcStart(l)), GcStartStep(t, l), GcRead(l, p));
    r, t := Then(Then(r, GcStart(l)), GcRead(l, p)), GcReadStep(GcStartStep(t, l), l, p);
    GoesOn(s, r, t, Replace(m, [0, 1, 2]));
    r, t := Then(r, Replace(m, [0, 1, 2])), ReplaceStep(t, m, [0, 1, 2]);
  }

  lemma LeadGoes(s: State, r: Run, t: State)
    requires Leading(s, r, t)
    ensures Goes(s, r) == Some(t)
  {
    SafeGoes(s, r);
  }

  /** Address 0 maps to slot 1, which is free; GC still has what it read. */
  predicate AtStale(s: State, l: nat, p: nat, m: nat, used: nat, d: Data) {
    AtOld(s, l, p, m, used, d) && Idle(s) && s.l2p == 1 + used && s.half == map[] && s.trans[0] == Cached(1) && s.ring[1].flag == Writable
  }

  /** The entry of another write of address 0 has left the ring, and its map update is still to come. */
  predicate AtLate(s: State, l: nat, p: nat, m: nat, d: Data, d1: Data) {
    && AtOld(s, l, p, m, 1, d) && Idle(s) && s.l2p == 2 && s.half == map[1 := User(0, d1)] && s.trans[0] == Media(l, p)
    && s.trans[1] == Empty && s.lines[l].state == Gc && s.ring[1].flag == Writable
  }

  /** Address 0 is written anew, and the entry leaves the ring before its map update. */
  lemma ToLate(s: State, l: nat, p: nat, m: nat, d: Data, d1: Data)
    requires AtRead(s, l, p, m, d)
    ensures var t := AfterFill(s, 0, d1); Waiting(t) && L2pReady(AfterStore(t)) && AtLate(L2pStep(AfterStore(t)), l, p, m, d, d1)
  {
    assert s.half[1 := User(0, d1)] == map[1 := User(0, d1)];
  }

  lemma ToStale(s: State, l: nat, p: nat, m: nat, d: Data, d1: Data)
    requires AtLate(s, l, p, m, d, d1)
    ensures Enabled(s, Publish(1, 0, d1)) && AtStale(PublishStep(s, 1, 0), l, p, m, 1, d) && PublishStep(s, 1, 0).trans[1] == Empty
  {
    assert s.half - {1} == map[];
  }

  lemma Racing(s: State, run: Run, t: State, l: nat, p: nat, m: nat, d: Data, d1: Data) returns (r: Run, w: State)
    requires Goes(s, run) == Some(t) && AtRead(t, l, p, m, d)
    ensures Goes(s, r) == Some(w) && AtStale(w, l, p, m, 1, d) && w.trans[1] == Empty && LastValue(r, 0) == Some(d1)
  {
    ToLate(t, l, p, m, d, d1);
    var t1 := AfterFill(t, 0, d1);
    ToStale(L2pStep(AfterStore(t1)), l, p, m, d, d1);
    hide AtStale;
    r := GoesFill(s, run, t, 0, d1, 0);
    r := GoesStore(s, r, t1, 0);
    GoesOn(s, r, AfterStore(t1), L2pOne);
    GoesOn(s, Then(r, L2pOne), L2pStep(AfterStore(t1)), Publish(1, 0, d1));
    r, w := Then(Then(r, L2pOne), Publish(1, 0, d1)), PublishStep(L2pStep(AfterStore(t1)), 1, 0);
  }

  /** Another address is written and passes through the other slot. */
  lemma ToRound(s: State, l: nat, p: nat, m: nat, d: Data, d2: Data)
    requires AtStale(s, l, p, m, 1, d) && s.trans[1] == Empty
    ensures var t := AfterFill(s, 1, d2); Enabled(t, Publish(2, 1, d2)) && Waiting(PublishStep(t, 2, 1))
    ensures var t := AfterStore(PublishStep(AfterFill(s, 1, d2), 2, 1)); L2pReady(t) && AtStale(L2pStep(t), l, p, m, 2, d)
  {
    var t := AfterFill(s, 1, d2);
    assert t.half - {2} == map[];
  }

  lemma Rounding(s: State, run: Run, t: State, l: nat, p: nat, m: nat, d: Data, d2: Data) returns (r: Run, w: State)
    requires Goes(s, run) == Some(t) && AtStale(t, l, p, m, 1, d) && t.trans[1] == Empty
    ensures Goes(s, r) == Some(w) && AtStale(w, l, p, m, 2, d) && LastValue(r, 0) == LastValue(run, 0)
  {
    ToRound(t, l, p, m, d, d2);
    var t1 := AfterFill(t, 1, d2);
    var t2 := PublishStep(t1, 2, 1);
    hide AtStale;
    r := GoesFill(s, run, t, 1, d2, 0);
    GoesOn(s, r, t1, Publish(2, 1, d2));
    r := GoesStore(s, Then(r, Publish(2, 1, d2)), t2, 0);
    GoesOn(s, r, AfterStore(t2), L2pOne);
    r, w := Then(r, L2pOne), L2pStep(AfterStore(t2));
  }

  /** GC's copy goes into the slot address 0 maps to, and from there to the device. */
  lemma ToBack(s: State, l: nat, p: nat, m: nat, d: Data)
    requires AtStale(s, l, p, m, 2, d)
    ensures Enabled(s, Reserve(1)) && Enabled(ReserveStep(s, 1), GcFill(3, l, p))
    ensures var t := GcFillStep(ReserveStep(s, 1), 3, l, p);
      CopyOk(t, 0, 1) && t.ring[1].data == d && t.trans != [] && t.trans[0] == Cached(1)
    ensures var t := GcFillStep(ReserveStep(s, 1), 3, l, p); Enabled(t, GcPublish(3, l, p)) && Waiting(GcPublishStep(t, 3, l, p))
    ensures var t := AfterStore(GcPublishStep(GcFillStep(ReserveStep(s, 1), 3, l, p), 3, l, p));
      L2pReady(t) && Readable(L2pStep(t), 0) && Read(L2pStep(t), 0) == Some(d) && L2pStep(t).trans[0] == Media(m, 2)
  {
    OneRange(3);
    var t := ReserveStep(s, 1);
    assert t.unfilled == {3} && t.unfilled - {3} == {};
  }

  lemma Copying(s: State, run: Run, t: State, l: nat, p: nat, m: nat, d: Data) returns (r: Run)
    requires Goes(s, run) == Some(t) && AtStale(t, l, p, m, 2, d)
    ensures Enabled(t, Reserve(1)) && Enabled(ReserveStep(t, 1), GcFill(3, l, p)) && LastValue(r, 0) == LastValue(run, 0)
    ensures Goes(s, r) == Some(GcFillStep(ReserveStep(t, 1), 3, l, p))
  {
    ToBack(t, l, p, m, d);
    hide AtStale, GcFillStep, ReserveStep;
    GoesOn(s, run, t, Reserve(1));
    GoesOn(s, Then(run, Reserve(1)), ReserveStep(t, 1), GcFill(3, l, p));
    r := Then(Then(run, Reserve(1)), GcFill(3, l, p));
  }

  /** The copy in the slot is stored and installed. */
  lemma Settling(s: State, run: Run, u: State, l: nat, p: nat) returns (r: Run)
    requires Goes(s, run) == Some(u) && Enabled(u, GcPublish(3, l, p)) && Waiting(GcPublishStep(u, 3, l, p))
    requires L2pReady(AfterStore(GcPublishStep(u, 3, l, p)))
    ensures Goes(s, r) == Some(L2pStep(AfterStore(GcPublishStep(u, 3, l, p)))) && LastValue(r, 0) == LastValue(run, 0)
  {
    hide GcPublishStep, AfterStore, L2pStep;
    var w := GcPublishStep(u, 3, l, p);
    GoesOn(s, run, u, GcPublish(3, l, p));
    r := GoesStore(s, Then(run, GcPublish(3, l, p)), w, 0);
    GoesOn(s, r, AfterStore(w), L2pOne);
    r := Then(r, L2pOne);
  }

  /**
   The worst the race can do: the last value written to address 0 is `d1`, but reads of it return `d` again, first from
   the ring, where they pass the check, and then from the device for good.
   */
  lemma OldDataBack(s: State, m: nat, d: Data, d1: Data) returns (r: Run, u: State, more: Run, w: State)
    requires OneSector(s) && Spare(s, m)
    ensures Goes(s, r) == Some(u) && LastValue(r, 0) == Some(d1) && CopyOk(u, 0, 1) && u.ring[1].data == d
    ensures u.trans != [] && u.trans[0] == Cached(1)
    ensures Goes(s, more) == Some(w) && LastValue(more, 0) == Some(d1) && Readable(w, 0) && w.trans[0].Media? && Read(w, 0) == Some(d)
  {
    hide AtRead, AtStale, AtOld, Spare, OneSector;
    var t, l, p;
    r, t, l, p := Reading(s, m, d);
    r, t := Racing(s, r, t, l, p, m, d, d1);
    r, t := Rounding(s, r, t, l, p, m, d, d1);
    ToBack(t, l, p, m, d);
    r := Copying(s, r, t, l, p, m, d);
    u := GcFillStep(ReserveStep(t, 1), 3, l, p);
    more := Settling(s, r, u, l, p);
    w := L2pStep(AfterStore(GcPublishStep(u, 3, l, p)));
  }
}

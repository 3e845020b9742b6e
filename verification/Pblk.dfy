/**
 The driver's instance: ring entries, `trans_map` and lines as arrays updated in place, ring positions
 masked to the ring size.  Each method is the step or the run of steps of `Ftl` it claims to be.

 `g` shadows what the driver does not keep: unwrapped positions, which reservations are still to be
 filled, which requests are with the device and what GC has in hand.  `hist` records every step since
 the instance was set up in state `fresh0`.  `media` is the device.
 */
module PblkInstance {
  import opened Basics
  import opened Ftl
  import opened FtlInv
  import opened FtlSteps
  import opened FtlGc
  import opened FtlRun
  import opened RingIndex

  datatype Shadow = Shadow(mem: nat, subm: nat, disp: nat, sync: nat, l2p: nat, unfilled: set<nat>, half: map<nat, Writer>,
                           reqs: seq<Req>, gc: map<(nat, nat), GcItem>)

  /** A write completion context: where the request starts in the ring and how many entries it has. */
  datatype Ctx = Ctx(sentry: nat, nrValid: nat)

  class Pblk {
    const secPerLine: nat
    const entries: array<Entry>
    const transMap: array<Ppa>
    const lines: array<Line>
    var mem: nat
    var subm: nat
    var sync: nat
    var l2pUpdate: nat
    var dataLine: nat
    var complList: seq<Ctx>
    var media: map<(nat, nat), Data>
    ghost var g: Shadow
    ghost const fresh0: State
    ghost var hist: Run

    /** The state of the step system this instance is in. */
    ghost function View(): State
      reads this, entries, transMap, lines
    {
      State(secPerLine, g.mem, g.subm, g.disp, g.sync, g.l2p, entries[..], g.unfilled, g.half, g.reqs,
            transMap[..], lines[..], dataLine, media, g.gc)
    }

    /** The masked positions are the unwrapped ones modulo the ring size. */
    ghost predicate Shaped()
      reads this
    {
      && RingSize(entries.Length) && entries.Length > 0 && dataLine < lines.Length
      && mem == Wrap(g.mem, entries.Length) && subm == Wrap(g.subm, entries.Length)
      && sync == Wrap(g.sync, entries.Length) && l2pUpdate == Wrap(g.l2p, entries.Length)
    }

    ghost predicate Valid()
      reads this, entries, transMap, lines
    {
      Shaped() && Ran() && Queued() && g.half == map[]
    }

    /** The history is a run that leads to the present state. */
    ghost predicate Ran()
      reads this, entries, transMap, lines
    {
      Leads(fresh0, hist, View())
    }

    /** `compl_list` holds exactly the completed requests not ended yet. */
    ghost predicate Listed()
      reads this
    {
      entries.Length > 0 && multiset(complList) == BackCtxs(g.reqs, entries.Length)
    }

    /** Between calls the request at `sync` is not among them. */
    ghost predicate Queued()
      reads this
    {
      Listed() && (g.reqs != [] ==> !g.reqs[0].back)
    }

    /** Initialisation: an empty ring and map, and line 0 set up with data sectors `secs` */
    constructor (secPerLine: nat, ringSize: nat, nrSecs: nat, nrLines: nat, secs: seq<nat>)
      requires RingSize(ringSize) && ringSize > 0 && nrLines > 0 && GoodSecs(secs, secPerLine)
      ensures Valid() && hist == Start && fresh(entries) && fresh(transMap) && fresh(lines)
      ensures entries.Length == ringSize && transMap.Length == nrSecs && lines.Length == nrLines && this.secPerLine == secPerLine
      ensures dataLine == 0 && media == map[] && lines[0] == FreshLine(secs, secPerLine) && forall l :: 0 < l < nrLines ==> lines[l].state == Free
    {
      this.secPerLine := secPerLine;
      entries := new Entry[ringSize](_ => Entry(Writable, 0, Empty, 0, false));
      transMap := new Ppa[nrSecs](_ => Empty);
      lines := new Line[nrLines](l => if l == 0 then FreshLine(secs, secPerLine) else FreeLine());
      mem, subm, sync, l2pUpdate, dataLine, complList, media := 0, 0, 0, 0, 0, [], map[];
      g, hist := Shadow(0, 0, 0, 0, 0, {}, map[], [], map[]), Start;
      fresh0 := FreshState(secPerLine, ringSize, nrSecs, nrLines, secs);
      new;
      assert forall l :: 0 < l < nrLines ==> lines[l] == FreeLine();
      assert View() == fresh0;
      FreshLeads(secPerLine, ringSize, nrSecs, nrLines, secs);
    }

    // -------------------------------------------------------------- map updates

    /** `pblk_page_invalidate` */
    method PageInvalidate(q: Ppa)
      requires Shaped() && q.Media? && q.line < lines.Length
      modifies lines
      ensures Shaped() && View() == InvalidateAt(old(View()), q)
    {
      var line := lines[q.line];
      if line.state == Gc || line.state == Free {
        assert lines[..][q.line := line] == lines[..];
        return;
      }
      if q.sec in line.invalid {
        assert lines[..][q.line := line] == lines[..];
        return;
      }
      lines[q.line] := line.(invalid := line.invalid + {q.sec}, vsc := line.vsc - 1);
      assert lines[..] == old(lines[..])[q.line := Invalidate(line, q.sec)];
    }

    /** `pblk_update_map_cache`, and with `q == Empty` one round of `pblk_invalidate_range` */
    method UpdateMapCache(lba: nat, q: Ppa)
      requires Shaped() && Mapped(View(), lba)
      modifies lines, transMap
      ensures Shaped() && View() == Remap(old(View()), lba, q)
    {
      if transMap[lba].Media? {
        PageInvalidate(transMap[lba]);
      }
      transMap[lba] := q;
      assert transMap[..] == old(transMap[..])[lba := q];
    }

    /** `pblk_update_map_dev` */
    method UpdateMapDev(lba: nat, q: Ppa, cacheline: nat)
      requires Shaped() && lba < transMap.Length && q.Media? && q.line < lines.Length
      modifies lines, transMap
      ensures Shaped() && View() == Ftl.UpdateMapDev(old(View()), lba, q, cacheline)
    {
      if transMap[lba] != Cached(cacheline) {
        PageInvalidate(q);
        return;
      }
      transMap[lba] := q;
      assert transMap[..] == old(transMap[..])[lba := q];
    }

    // -------------------------------------------------------------- L2P advance

    /** One round of `__pblk_rb_update_l2p` */
    method UpdateL2pEntry()
      requires Shaped() && L2pReady(View())
      modifies this`l2pUpdate, this`g, entries, lines, transMap
      ensures Shaped() && g == old(g).(l2p := old(g).l2p + 1) && View() == L2pStep(old(View()))
    {
      ghost var s := View();
      var pos := l2pUpdate;
      var e := entries[pos];
      UpdateMapDev(e.lba, e.ppa, pos);
      ghost var s1 := View();
      var line := lines[e.ppa.line];
      lines[e.ppa.line] := PutRef(line);
      assert lines[..] == s1.lines[e.ppa.line := PutRef(line)];
      entries[pos] := e.(flag := Writable, ppa := Empty);
      assert entries[..] == s.ring[pos := e.(flag := Writable, ppa := Empty)];
      l2pUpdate := Advance(pos, 1, entries.Length);
      AdvanceWraps(g.l2p, 1, entries.Length);
      g := g.(l2p := g.l2p + 1);
    }

    /** A round of the loop of `__pblk_rb_update_l2p`, as one more step of the history */
    method UpdateL2pRound()
      requires Valid() && g.l2p < g.sync
      modifies this`l2pUpdate, this`g, this`hist, entries, lines, transMap
      ensures Valid() && g == old(g).(l2p := old(g).l2p + 1) && hist == Then(old(hist), L2pOne)
      ensures Installing(old(transMap[..]), transMap[..], old(lines[..]), lines[..]) && StillFree(old(transMap[..]), transMap[..], old(lines[..]), lines[..])
    {
      ghost var s := View();
      ReachL2p(fresh0, hist, s);
      InstallOne(fresh0, hist, s);
      UpdateL2pEntry();
      NextStep(fresh0, hist, s, L2pOne);
      hist := Then(hist, L2pOne);
    }

    /** `__pblk_rb_update_l2p` */
    method UpdateL2p(toUpdate: nat)
      requires Valid() && g.l2p + toUpdate <= g.sync
      modifies this`l2pUpdate, this`g, this`hist, entries, lines, transMap
      ensures Valid() && g == old(g).(l2p := old(g).l2p + toUpdate) && hist == L2pRun(old(hist), toUpdate)
      ensures Installing(old(transMap[..]), transMap[..], old(lines[..]), lines[..])
    {
      for i := 0 to toUpdate
        invariant Installing(old(transMap[..]), transMap[..], old(lines[..]), lines[..])
        invariant Valid() && g == old(g).(l2p := old(g).l2p + i) && hist == L2pRun(old(hist), i)
      {
        ghost var trans, ls := transMap[..], lines[..];
        UpdateL2pRound();
        InstallMore(old(transMap[..]), trans, transMap[..], old(lines[..]), ls, lines[..]);
      }
    }

    // -------------------------------------------------------------- entering the ring

    /** `pblk_rb_update_l2p`: move entries out of the ring until `nrEntries` fit */
    method MakeRoom(nrEntries: nat)
      requires Valid() && g.mem + nrEntries < g.sync + entries.Length
      modifies this`l2pUpdate, this`g, this`hist, entries, lines, transMap
      ensures Valid() && g == old(g).(l2p := old(g).l2p + ToUpdate(old(View()), nrEntries))
      ensures g.mem + nrEntries < g.l2p + entries.Length && Installing(old(transMap[..]), transMap[..], old(lines[..]), lines[..])
      ensures g.l2p == old(g.l2p) || g.mem + nrEntries + 1 == g.l2p + entries.Length
      ensures hist == L2pRun(old(hist), ToUpdate(old(View()), nrEntries))
    {
      ReachPointers(fresh0, hist, View());
      SpaceIsRest(g.mem, g.l2p, entries.Length);
      var space := CircSpace(mem, l2pUpdate, entries.Length);
      if space > nrEntries {
        return;
      }
      UpdateL2p(nrEntries - space);
    }

    /** The end of `pblk_rb_may_write`: `mem` moves over the reserved entries */
    method Reserve(nrEntries: nat)
      requires Shaped()
      modifies this`mem, this`g
      ensures Shaped() && View() == ReserveStep(old(View()), nrEntries)
    {
      AdvanceWraps(g.mem, nrEntries, entries.Length);
      mem := Advance(mem, nrEntries, entries.Length);
      g := g.(mem := g.mem + nrEntries, unfilled := g.unfilled + Range(g.mem, g.mem + nrEntries));
    }

    method ReserveRound(nrEntries: nat)
      requires Valid() && g.mem + nrEntries < g.l2p + entries.Length
      modifies this`mem, this`g, this`hist
      ensures Valid() && g == old(g).(mem := old(g).mem + nrEntries, unfilled := g.unfilled)
      ensures g.unfilled == old(g.unfilled) + Range(old(g.mem), old(g.mem) + nrEntries)
      ensures hist == Then(old(hist), Op.Reserve(nrEntries))
    {
      ghost var s := View();
      Reserve(nrEntries);
      NextStep(fresh0, hist, s, Op.Reserve(nrEntries));
      hist := Then(hist, Op.Reserve(nrEntries));
    }

    /** `pblk_rb_may_write` with `__pblk_rb_may_write` */
    method MayWrite(nrEntries: nat) returns (ok: bool, pos: nat)
      requires Valid()
      modifies this`mem, this`l2pUpdate, this`g, this`hist, entries, lines, transMap
      ensures Valid() && pos == old(mem)
      ensures ok <==> old(g.mem) + nrEntries < old(g.sync) + entries.Length
      ensures !ok ==> View() == old(View()) && hist == old(hist)
      ensures ok ==> g.unfilled == old(g.unfilled) + Range(old(g.mem), old(g.mem) + nrEntries) && g.gc == old(g.gc)
      ensures ok ==> g == old(g).(mem := old(g).mem + nrEntries, l2p := g.l2p, unfilled := g.unfilled)
      ensures ok ==> hist == ReserveRun(old(hist), old(View()), nrEntries)
      ensures ok ==> g.l2p == old(g.l2p) || g.mem + 1 == g.l2p + entries.Length
      ensures Installing(old(transMap[..]), transMap[..], old(lines[..]), lines[..])
    {
      pos := mem;
      ReachPointers(fresh0, hist, View());
      SpaceIsRest(g.mem, g.sync, entries.Length);
      if CircSpace(mem, sync, entries.Length) < nrEntries {
        return false, pos;
      }
      MakeRoom(nrEntries);
      ReserveRound(nrEntries);
      ok := true;
    }

    // -------------------------------------------------------------- user writes, discards and reads

    /** `pblk_rb_write_entry`; the check it makes on the slot holds */
    method WriteEntry(data: Data, lba: nat, pos: nat, ghost k: nat)
      requires Shaped() && pos == Wrap(k, entries.Length) && entries[pos].flag == Writable
      modifies this`g, entries
      ensures Shaped() && g == old(g).(unfilled := old(g).unfilled - {k})
      ensures View() == Ftl.WriteEntry(old(View()), k, lba, data)
    {
      entries[pos] := Entry(Written, lba, Empty, data, false);
      assert entries[..] == old(entries[..])[pos := Entry(Written, lba, Empty, data, false)];
      g := g.(unfilled := g.unfilled - {k});
    }

    /** `pblk_rb_write_entry` of a user, as a step of the history */
    method StoreRound(data: Data, lba: nat, pos: nat, ghost k: nat)
      requires Valid() && pos == Wrap(k, entries.Length) && k in g.unfilled && lba < transMap.Length
      modifies this`g, this`hist, entries
      ensures Shaped() && Ran() && Queued() && hist == Then(old(hist), Fill(k, lba, data))
      ensures g == old(g).(unfilled := old(g).unfilled - {k}, half := map[k := User(lba, data)])
      ensures entries[..] == old(entries[..])[pos := Entry(Written, lba, Empty, data, false)]
    {
      ghost var s := View();
      FillReady(fresh0, hist, s, k);
      WriteEntry(data, lba, pos, k);
      g := g.(half := g.half[k := User(lba, data)]);
      NextStep(fresh0, hist, s, Fill(k, lba, data));
      hist := Then(hist, Fill(k, lba, data));
    }

    /** `pblk_update_map_cache` of that entry */
    method PublishRound(lba: nat, pos: nat, ghost data: Data, ghost k: nat)
      requires Shaped() && Ran() && Queued() && pos == Wrap(k, entries.Length) && g.half == map[k := User(lba, data)] && lba < transMap.Length
      modifies this`g, this`hist, lines, transMap
      ensures Valid() && g == old(g).(half := map[]) && hist == Then(old(hist), Publish(k, lba, data))
      ensures transMap[..] == old(transMap[..])[lba := Cached(pos)]
    {
      hide Leads, BackCtxs;
      ghost var s := View();
      ReachMapped(fresh0, hist, s, lba);
      UpdateMapCache(lba, Cached(pos));
      g := g.(half := g.half - {k});
      NextStep(fresh0, hist, s, Publish(k, lba, data));
      hist := Then(hist, Publish(k, lba, data));
    }

    /** A round of the loop of `pblk_write_to_cache` */
    method FillRound(data: Data, lba: nat, pos: nat, ghost k: nat)
      requires Valid() && pos == Wrap(k, entries.Length) && k in g.unfilled && lba < transMap.Length
      modifies this`g, this`hist, entries, lines, transMap
      ensures Valid() && g == old(g).(unfilled := old(g).unfilled - {k})
      ensures hist == Then(Then(old(hist), Fill(k, lba, data)), Publish(k, lba, data))
      ensures entries[..] == old(entries[..])[pos := Entry(Written, lba, Empty, data, false)] && transMap[..] == old(transMap[..])[lba := Cached(pos)]
    {
      StoreRound(data, lba, pos, k);
      PublishRound(lba, pos, data, k);
    }

    /** The loop of `pblk_write_to_cache` over the reserved entries */
    method FillEntries(lba: nat, data: seq<Data>, bpos: nat, ghost k0: nat)
      requires Valid() && lba + |data| <= transMap.Length && bpos == Wrap(k0, entries.Length) && |data| <= entries.Length
      requires forall k :: k0 <= k < k0 + |data| ==> k in g.unfilled
      modifies this`g, this`hist, entries, lines, transMap
      ensures Valid() && hist == FillRun(old(hist), k0, lba, data, |data|)
      ensures InCache(entries[..], old(transMap[..]), transMap[..], k0, lba, data, |data|)
    {
      hide Leads, BackCtxs, Wrap, InCache;
      CacheNone(entries[..], transMap[..], k0, lba, data);
      for i := 0 to |data|
        invariant InCache(entries[..], old(transMap[..]), transMap[..], k0, lba, data, i)
        invariant forall k :: k0 + i <= k < k0 + |data| ==> k in g.unfilled
        invariant Valid() && hist == FillRun(old(hist), k0, lba, data, i)
      {
        var pos := Advance(bpos, i, entries.Length);
        AdvanceWraps(k0, i, entries.Length);
        CacheMore(entries[..], old(transMap[..]), transMap[..], k0, lba, data, i);
        FillRound(data[i], lba + i, pos, k0 + i);
      }
    }

    /** `pblk_write_to_cache`; false when the ring has no room yet and the caller must come again */
    method WriteToCache(lba: nat, data: seq<Data>) returns (ok: bool)
      requires Valid() && lba + |data| <= transMap.Length
      modifies this`mem, this`l2pUpdate, this`g, this`hist, entries, lines, transMap
      ensures Valid()
      ensures ok <==> old(g.mem) + |data| < old(g.sync) + entries.Length
      ensures !ok ==> View() == old(View()) && hist == old(hist)
      ensures ok ==> hist == WriteRun(old(hist), old(View()), lba, data)
      ensures ok ==> forall i :: 0 <= i < |data| ==> CachedAt(entries[..], transMap[..], old(g.mem) + i, lba + i, data[i])
      ensures ok ==> forall a :: 0 <= a < transMap.Length && !(lba <= a < lba + |data|) ==>
        transMap[a] == old(transMap[a]) || (old(transMap[a]).Cached? && IntoUse(transMap[a], old(lines[..])))
    {
      hide Leads, BackCtxs, Wrap, FillRun, ReserveRun, CachedAt;
      ghost var s0 := View();
      ReachPointers(fresh0, hist, s0);
      var bpos;
      ok, bpos := MayWrite(|data|);
      if !ok {
        return;
      }
      FillEntries(lba, data, bpos, s0.mem);
    }

    /** A round of the loop of `pblk_invalidate_range` */
    method InvalidateRound(lba: nat)
      requires Valid() && lba < transMap.Length
      modifies this`hist, lines, transMap
      ensures Valid() && hist == Then(old(hist), Discard(lba)) && transMap[..] == old(transMap[..])[lba := Empty]
    {
      ghost var s := View();
      ReachMapped(fresh0, hist, s, lba);
      UpdateMapCache(lba, Empty);
      NextStep(fresh0, hist, s, Discard(lba));
      hist := Then(hist, Discard(lba));
    }

    /** `pblk_invalidate_range` */
    method InvalidateRange(slba: nat, nrSecs: nat)
      requires Valid() && slba + nrSecs <= transMap.Length
      modifies this`hist, lines, transMap
      ensures Valid() && hist == DiscardRun(old(hist), slba, nrSecs)
      ensures forall a :: 0 <= a < transMap.Length ==> transMap[a] == if slba <= a < slba + nrSecs then Empty else old(transMap[a])
    {
      for i := 0 to nrSecs
        invariant Valid() && hist == DiscardRun(old(hist), slba, i)
        invariant forall a :: 0 <= a < transMap.Length ==> transMap[a] == if slba <= a < slba + i then Empty else old(transMap[a])
      {
        ghost var was := transMap[..];
        InvalidateRound(slba + i);
        assert forall a :: 0 <= a < transMap.Length ==> transMap[a] == was[slba + i := Empty][a];
      }
    }

    // -------------------------------------------------------------- GC writes

    /** `pblk_update_map_gc`: what the user has rewritten or discarded meanwhile is not overwritten */
    method UpdateMapGc(lba: nat, ppa: Ppa, gcLine: nat)
      requires Shaped() && lba < transMap.Length
      modifies transMap
      ensures Shaped()
      ensures View() == if old(transMap[lba].Media? && transMap[lba].line == gcLine)
                        then old(View()).(trans := old(transMap[..])[lba := ppa]) else old(View())
    {
      if transMap[lba].Cached? || transMap[lba].Empty? || transMap[lba].line != gcLine {
        return;
      }
      transMap[lba] := ppa;
      assert transMap[..] == old(transMap[..])[lba := ppa];
    }

    /** `pblk_rb_write_entry` of GC, for what it read from sector `p` of its victim */
    method GcStoreRound(data: Data, lba: nat, pos: nat, gcLine: nat, ghost k: nat, ghost p: nat)
      requires Valid() && pos == Wrap(k, entries.Length) && k in g.unfilled
      requires (gcLine, p) in g.gc && g.gc[(gcLine, p)] == GcItem(lba, data)
      modifies this`g, this`hist, entries
      ensures Shaped() && Ran() && Queued() && hist == Then(old(hist), GcFill(k, gcLine, p)) && lba < transMap.Length
      ensures g == old(g).(unfilled := old(g).unfilled - {k}, half := map[k := Collector(gcLine, p)])
      ensures entries[..] == old(entries[..])[pos := Entry(Written, lba, Empty, data, false)]
    {
      hide Leads, BackCtxs;
      ghost var s := View();
      GcFillReady(fresh0, hist, s, k, gcLine, p);
      WriteEntry(data, lba, pos, k);
      g := g.(half := g.half[k := Collector(gcLine, p)]);
      NextStep(fresh0, hist, s, GcFill(k, gcLine, p));
      hist := Then(hist, GcFill(k, gcLine, p));
    }

    /** `pblk_update_map_gc` of that entry */
    method GcPublishRound(lba: nat, pos: nat, gcLine: nat, ghost k: nat, ghost p: nat)
      requires Shaped() && Ran() && Queued() && pos == Wrap(k, entries.Length) && lba < transMap.Length
      requires g.half == map[k := Collector(gcLine, p)] && (gcLine, p) in g.gc && g.gc[(gcLine, p)].lba == lba
      modifies this`g, this`hist, transMap
      ensures Valid() && g == old(g).(half := map[], gc := old(g).gc - {(gcLine, p)})
      ensures hist == Then(old(hist), GcPublish(k, gcLine, p))
      ensures transMap[..] == GcMap(old(transMap[..]), lba, pos, gcLine)
    {
      hide Leads, BackCtxs;
      ghost var s := View();
      UpdateMapGc(lba, Cached(pos), gcLine);
      g := g.(gc := g.gc - {(gcLine, p)}, half := g.half - {k});
      assert View() == GcPublishStep(s, k, gcLine, p);
      NextStep(fresh0, hist, s, GcPublish(k, gcLine, p));
      hist := Then(hist, GcPublish(k, gcLine, p));
    }

    /** A valid sector of `pblk_write_gc_to_cache` */
    method GcFillRound(data: Data, lba: nat, pos: nat, gcLine: nat, ghost k: nat, ghost p: nat)
      requires Valid() && pos == Wrap(k, entries.Length) && k in g.unfilled
      requires (gcLine, p) in g.gc && g.gc[(gcLine, p)] == GcItem(lba, data)
      modifies this`g, this`hist, entries, transMap
      ensures Valid() && hist == Then(Then(old(hist), GcFill(k, gcLine, p)), GcPublish(k, gcLine, p))
      ensures g == old(g).(unfilled := old(g).unfilled - {k}, gc := old(g).gc - {(gcLine, p)})
      ensures entries[..] == old(entries[..])[pos := Entry(Written, lba, Empty, data, false)]
      ensures lba < transMap.Length && transMap[..] == GcMap(old(transMap[..]), lba, pos, gcLine)
    {
      GcStoreRound(data, lba, pos, gcLine, k, p);
      GcPublishRound(lba, pos, gcLine, k, p);
    }

    /** The loop of `pblk_write_gc_to_cache`: entries without an lba are skipped and take no slot */
    method GcFillEntries(lbaList: seq<Option<nat>>, data: seq<Data>, gcLine: nat, bpos: nat, ghost k0: nat, ghost secs: seq<nat>)
      requires Valid() && bpos == Wrap(k0, entries.Length) && |data| == Valids(lbaList, |lbaList|)
      requires forall k :: k0 <= k < k0 + |data| ==> k in g.unfilled
      requires InHand(g.gc, lbaList, data, gcLine, secs, 0) && |data| <= entries.Length
      modifies this`g, this`hist, entries, transMap
      ensures Valid() && hist == GcFillRun(old(hist), k0, gcLine, secs, lbaList, |lbaList|)
      ensures GcCache(entries[..], k0, lbaList, data, |lbaList|) && GcMoved(old(transMap[..]), transMap[..], lbaList, |lbaList|, gcLine, k0, entries.Length)
    {
      hide Leads, BackCtxs, Wrap, GcCache, GcMoved, GcMap, InHand;
      var validEntries := 0;
      HandSize(g.gc, lbaList, data, gcLine, secs);
      NoneMoved(entries[..], transMap[..], lbaList, data, gcLine, k0);
      for i := 0 to |lbaList|
        invariant GcCache(entries[..], k0, lbaList, data, i) && GcMoved(old(transMap[..]), transMap[..], lbaList, i, gcLine, k0, entries.Length)
        invariant validEntries == Valids(lbaList, i)
        invariant forall k :: k0 + validEntries <= k < k0 + |data| ==> k in g.unfilled
        invariant InHand(g.gc, lbaList, data, gcLine, secs, i)
        invariant Valid() && hist == GcFillRun(old(hist), k0, gcLine, secs, lbaList, i)
      {
        if lbaList[i].Some? {
          ValidsGrow(lbaList, i + 1, |lbaList|);
          HandNext(g.gc, lbaList, data, gcLine, secs, i);
          var pos := Advance(bpos, validEntries, entries.Length);
          AdvanceWraps(k0, validEntries, entries.Length);
          ghost var ring, trans, gc := entries[..], transMap[..], g.gc;
          GcFillRound(data[validEntries], lbaList[i].value, pos, gcLine, k0 + validEntries, secs[i]);
          GcCacheMore(ring, entries[..], k0, lbaList, data, i);
          GcMovedMore(old(transMap[..]), trans, transMap[..], lbaList, i, gcLine, k0, entries.Length);
          HandRest(gc, g.gc, lbaList, data, gcLine, secs, i);
          validEntries := validEntries + 1;
        } else {
          GcSkipOne(entries[..], old(transMap[..]), transMap[..], lbaList, data, i, gcLine, k0);
          HandRest(g.gc, g.gc, lbaList, data, gcLine, secs, i);
        }
      }
    }

    /** `pblk_write_gc_to_cache` with the ring's part of `pblk_rb_may_write_gc`; false to come again */
    method WriteGcToCache(lbaList: seq<Option<nat>>, data: seq<Data>, gcLine: nat, ghost secs: seq<nat>) returns (ok: bool)
      requires Valid() && |data| == Valids(lbaList, |lbaList|) && InHand(g.gc, lbaList, data, gcLine, secs, 0)
      modifies this`mem, this`l2pUpdate, this`g, this`hist, entries, lines, transMap
      ensures Valid()
      ensures ok <==> old(g.mem) + |data| < old(g.sync) + entries.Length
      ensures !ok ==> View() == old(View()) && hist == old(hist)
      ensures ok ==> hist == GcFillRun(ReserveRun(old(hist), old(View()), |data|), old(g.mem), gcLine, secs, lbaList, |lbaList|)
      ensures ok ==> GcCache(entries[..], old(g.mem), lbaList, data, |lbaList|)
      ensures ok ==> forall a :: 0 <= a < transMap.Length ==>
        GcMovedAt(old(transMap[a]), transMap[a], a, lbaList, gcLine, old(g.mem), entries.Length)
    {
      ghost var k0, trans0, lines0 := g.mem, transMap[..], lines[..];
      ReachPointers(fresh0, hist, View());
      HandLine(fresh0, hist, View(), lbaList, data, gcLine, secs);
      var bpos;
      ok, bpos := MayWrite(|data|);
      if !ok {
        return;
      }
      ghost var trans, ls := transMap[..], lines[..];
      GcFillEntries(lbaList, data, gcLine, bpos, k0, secs);
      MovedAll(trans0, trans, transMap[..], lines0, ls, lbaList, gcLine, k0, entries.Length);
    }

    // -------------------------------------------------------------- draining the ring

    /** A valid sector of `pblk_map_page_data`, its entry marked as `pblk_rb_read_to_bio` does */
    method MapSector()
      requires Shaped() && CanAlloc(View())
      modifies this`subm, this`g, entries, lines
      ensures Shaped() && g == old(g).(subm := old(g).subm + 1) && View() == MapEntryStep(old(View()))
    {
      var line := lines[dataLine];
      var paddr := line.secs[line.next];
      var e := entries[subm];
      entries[subm] := e.(flag := Submitted, ppa := Media(dataLine, paddr));
      assert entries[..] == old(entries[..])[subm := e.(flag := Submitted, ppa := Media(dataLine, paddr))];
      lines[dataLine] := line.(next := line.next + 1, refs := line.refs + 1,
                               lbas := line.lbas[paddr := Some(e.lba)], home := line.home[paddr := subm]);
      assert lines[..] == old(lines[..])[dataLine := HandOut(line, e.lba, subm)];
      AdvanceWraps(g.subm, 1, entries.Length);
      subm := Advance(subm, 1, entries.Length);
      g := g.(subm := g.subm + 1);
    }

    /** A padded sector: `pblk_page_pad_invalidate` */
    method PadSector()
      requires Shaped() && CanAlloc(View())
      modifies lines
      ensures Shaped() && View() == MapPadStep(old(View()))
    {
      var line := lines[dataLine];
      var paddr := line.secs[line.next];
      lines[dataLine] := line.(next := line.next + 1, refs := line.refs + 1, pads := line.pads + 1,
                               lbas := line.lbas[paddr := None], invalid := line.invalid + {paddr},
                               vsc := line.vsc - 1, leftSsecs := line.leftSsecs - 1);
      assert lines[..] == old(lines[..])[dataLine := PadOut(line)];
    }

    method MapRound(ghost valid: nat, ghost count: nat)
      requires Valid() && ToMap(View(), valid, count) && 0 < valid && 0 < count
      modifies this`subm, this`g, this`hist, entries, lines
      ensures Valid() && ToMap(View(), valid - 1, count - 1) && hist == Then(old(hist), MapEntry) && Used(old(View()), View(), 1)
      ensures g == old(g).(subm := old(g).subm + 1) && CanAlloc(old(View())) && View() == MapEntryStep(old(View()))
    {
      ghost var s := View();
      MapReady(fresh0, hist, s, valid, count);
      MapSector();
      NextStep(fresh0, hist, s, MapEntry);
      hist := Then(hist, MapEntry);
    }

    method PadRound(ghost count: nat)
      requires Valid() && ToMap(View(), 0, count) && 0 < count
      modifies this`hist, lines
      ensures Valid() && ToMap(View(), 0, count - 1) && hist == Then(old(hist), MapPad) && Used(old(View()), View(), 1)
      ensures View() == MapPadStep(old(View()))
    {
      ghost var s := View();
      PadSector();
      NextStep(fresh0, hist, s, MapPad);
      hist := Then(hist, MapPad);
    }

    /** The loop of `pblk_map_page_data` */
    method MapChunk(nrSecs: nat, validSecs: nat)
      requires Valid() && validSecs <= nrSecs && ToMap(View(), validSecs, nrSecs)
      modifies this`subm, this`g, this`hist, entries, lines
      ensures Valid() && hist == ChunkRun(old(hist), validSecs, nrSecs) && Used(old(View()), View(), nrSecs)
      ensures g == old(g).(subm := old(g).subm + validSecs) && ChunkDone(old(View()), View(), validSecs, nrSecs)
    {
      hide Leads, BackCtxs, Wrap, ChunkDone, MapEntryStep, MapPadStep;
      ghost var s0 := View();
      ChunkStart(fresh0, hist, s0, validSecs, nrSecs);
      for i := 0 to nrSecs
        invariant ChunkDone(s0, View(), validSecs, i)
        invariant Valid() && hist == ChunkRun(old(hist), validSecs, i) && Used(old(View()), View(), i)
        invariant g == old(g).(subm := old(g).subm + if i < validSecs then i else validSecs)
        invariant ToMap(View(), if i < validSecs then validSecs - i else 0, nrSecs - i)
      {
        ghost var s := View();
        if i < validSecs {
          MapRound(validSecs - i, nrSecs - i);
          ChunkMap(s0, s, validSecs, i);
        } else {
          PadRound(nrSecs - i);
          ChunkPad(s0, s, validSecs, i);
        }
      }
    }

    /**
     `pblk_map_page_data` for a chunk of which `validSecs` entries are filled.  If it fills the line in use, the next one,
     if there is one, takes over with data sectors `secs`.
     */
    method MapPageData(nrSecs: nat, validSecs: nat, next: Option<nat>, secs: seq<nat>)
      requires Valid() && validSecs <= nrSecs && ToMap(View(), validSecs, nrSecs)
      requires next.Some? ==> next.value < lines.Length && next.value != dataLine && lines[next.value].state == Free && Erased(media, next.value)
      requires GoodSecs(secs, secPerLine)
      modifies this`subm, this`g, this`hist, this`dataLine, entries, lines
      ensures Valid() && CanAlloc(View()) == (old(Left(View())) > nrSecs || (next.Some? && secs != []))
      ensures hist == if old(Left(View())) > nrSecs || next.None? then ChunkRun(old(hist), validSecs, nrSecs)
                      else Then(ChunkRun(old(hist), validSecs, nrSecs), Replace(next.value, secs))
      ensures ChunkDone(old(View()), View(), validSecs, nrSecs)
    {
      hide Leads, BackCtxs, Wrap, ChunkDone;
      ghost var s0 := View();
      MapChunk(nrSecs, validSecs);
      if lines[dataLine].next == |lines[dataLine].secs| {
        if next.Some? {
          ChunkStays(s0, View(), validSecs, nrSecs, next.value, secs);
          ReplaceData(next.value, secs);
        }
      }
    }

    // -------------------------------------------------------------- the device

    /** `pblk_submit_io` of a write request: the next `count` mapped entries go to the device */
    method SubmitIo(count: nat, ghost sentry: nat) returns (ghost c: Ctx)
      requires Valid() && 0 < count && g.disp + count <= g.subm && sentry == g.disp
      modifies this`g, this`hist
      ensures Valid() && hist == Then(old(hist), Dispatch(count)) && c == Ctx(Wrap(sentry, entries.Length), count)
      ensures g == old(g).(disp := old(g).disp + count, reqs := old(g).reqs + [Req(sentry, count, false)])
    {
      ghost var s := View();
      c := Ctx(Wrap(sentry, entries.Length), count);
      BackAppend(g.reqs, Req(sentry, count, false), entries.Length);
      g := g.(disp := g.disp + count, reqs := g.reqs + [Req(sentry, count, false)]);
      NextStep(fresh0, hist, s, Dispatch(count));
      hist := Then(hist, Dispatch(count));
    }

    /** The device stores the sector of the entry at position `k`, in any order among those dispatched */
    method StoreSector(pos: nat, ghost k: nat)
      requires Valid() && g.sync <= k < g.disp && pos == Wrap(k, entries.Length)
      modifies this`media, this`hist, entries
      ensures Valid() && hist == Then(old(hist), Program(k))
    {
      ghost var s := View();
      ProgramReady(fresh0, hist, s, k);
      var e := entries[pos];
      media := media[(e.ppa.line, e.ppa.sec) := e.data];
      entries[pos] := e.(done := true);
      assert entries[..] == s.ring[pos := e.(done := true)];
      NextStep(fresh0, hist, s, Program(k));
      hist := Then(hist, Program(k));
    }

    // -------------------------------------------------------------- lines

    /** `pblk_line_close` once every data sector is synced or padded */
    method LineClose(l: nat)
      requires Valid() && l < lines.Length && lines[l].state == Open && lines[l].leftSsecs == 0
      modifies this`hist, lines
      ensures Valid() && hist == Then(old(hist), Close(l))
    {
      ghost var s := View();
      lines[l] := lines[l].(state := Closed);
      assert lines[..] == s.lines[l := CloseLine(s.lines[l])];
      NextStep(fresh0, hist, s, Close(l));
      hist := Then(hist, Close(l));
    }

    /** A sector of a free line is erased */
    method WipeSector(l: nat, p: nat)
      requires Valid() && l < lines.Length && lines[l].state == Free
      modifies this`media, this`hist
      ensures Valid() && hist == Then(old(hist), Wipe(l, p)) && media == old(media) - {(l, p)}
    {
      hide Leads, BackCtxs;
      ghost var s := View();
      media := media - {(l, p)};
      NextStep(fresh0, hist, s, Wipe(l, p));
      hist := Then(hist, Wipe(l, p));
    }

    /** The erasing of a free line: whatever it holds goes, in any order */
    method EraseLine(l: nat) returns (ghost secs: seq<nat>)
      requires Valid() && l < lines.Length && lines[l].state == Free
      modifies this`media, this`hist
      ensures Valid() && hist == WipeRun(old(hist), l, secs) && Erased(media, l)
      ensures Elsewhere(old(media), media, l)
    {
      hide Leads, BackCtxs;
      secs := [];
      var left := set key | key in media && key.0 == l;
      while left != {}
        invariant Valid() && hist == WipeRun(old(hist), l, secs) && forall key :: key in left <==> key in media && key.0 == l
        invariant Elsewhere(old(media), media, l)
        decreases |left|
      {
        var key :| key in left;
        WipeSector(l, key.1);
        left, secs := left - {key}, secs + [key.1];
      }
    }

    /** `pblk_line_replace_data`: a free line, erased, is set up with data sectors `secs` and takes over from a full one */
    method ReplaceData(l: nat, secs: seq<nat>)
      requires Valid() && !CanAlloc(View()) && l < lines.Length && lines[l].state == Free && Erased(media, l) && GoodSecs(secs, secPerLine)
      modifies this`dataLine, this`hist, lines
      ensures Valid() && hist == Then(old(hist), Replace(l, secs)) && dataLine == l && lines[l] == FreshLine(secs, secPerLine)
      ensures View() == ReplaceStep(old(View()), l, secs)
    {
      hide Leads, BackCtxs;
      ghost var s := View();
      lines[l] := FreshLine(secs, secPerLine);
      assert lines[..] == s.lines[l := FreshLine(secs, secPerLine)];
      dataLine := l;
      NextStep(fresh0, hist, s, Replace(l, secs));
      hist := Then(hist, Replace(l, secs));
    }

    // -------------------------------------------------------------- GC reads

    /** `pblk_gc_run` picks a closed line; a step of the history if nothing would be installed into it, which it does not check */
    method StartGc(l: nat)
      requires Valid() && l < lines.Length && lines[l].state == Closed
      modifies this`hist, lines
      ensures View() == GcStartStep(old(View()), l) && lines[l].state == Gc && lines[l].held && lines[l].scanned == {}
      ensures old(NoInstalls(View(), l)) ==> Valid() && hist == Then(old(hist), GcStart(l))
    {
      ghost var s := View();
      ReachHeld(fresh0, hist, s, l);
      lines[l] := lines[l].(state := Gc, scanned := {});
      assert lines[..] == s.lines[l := StartLine(s.lines[l])];
      if NoInstalls(s, l) { NextStep(fresh0, hist, s, GcStart(l)); }
      hist := Then(hist, GcStart(l));
    }

    /** A sector of `read_ppalist_rq_gc`: its lba is looked up, and if it still lies in the victim the device is read there */
    method GcReadRound(l: nat, p: nat) returns (lba: Option<nat>, data: Data)
      requires Valid() && l < lines.Length && lines[l].state == Gc && lines[l].held
      requires p < secPerLine && p !in lines[l].invalid && p !in lines[l].scanned
      modifies this`g, this`hist, lines
      ensures Valid() && hist == Then(old(hist), GcRead(l, p)) && lines[l] == ScanLine(old(lines[l]), p)
      ensures g == old(g).(gc := if lba.Some? then old(g).gc[(l, p) := GcItem(lba.value, data)] else old(g).gc)
      ensures LookedUp(old(lines[l].lbas), transMap[..], media, l, p, lba, data) && (lba.None? ==> data == 0)
    {
      hide Leads, BackCtxs;
      ghost var s := View();
      ReadReady(fresh0, hist, s, l, p);
      var a := lines[l].lbas[p].value;
      var ppa := transMap[a];
      lba, data := None, 0;
      if ppa.Media? && ppa.line == l {
        lba, data := Some(a), media[(l, ppa.sec)];
        g := g.(gc := g.gc[(l, p) := GcItem(a, data)]);
      }
      lines[l] := lines[l].(scanned := lines[l].scanned + {p});
      assert lines[..] == s.lines[l := ScanLine(s.lines[l], p)];
      NextStep(fresh0, hist, s, GcRead(l, p));
      hist := Then(hist, GcRead(l, p));
    }

    /** `read_ppalist_rq_gc`: the lbas, those that moved on empty, and the data of the others */
    method ReadListGc(l: nat, secs: seq<nat>) returns (lbaList: seq<Option<nat>>, data: seq<Data>)
      requires Valid() && l < lines.Length && lines[l].state == Gc && lines[l].held
      requires forall i, j :: 0 <= i < j < |secs| ==> secs[i] != secs[j]
      requires forall i :: 0 <= i < |secs| ==> secs[i] < secPerLine && secs[i] !in lines[l].invalid && secs[i] !in lines[l].scanned
      modifies this`g, this`hist, lines
      ensures Valid() && hist == GcReadRun(old(hist), l, secs, |secs|) && g == old(g).(gc := g.gc)
      ensures |lbaList| == |secs| && |data| == Valids(lbaList, |lbaList|) && InHand(g.gc, lbaList, data, l, secs, 0)
      ensures ListRead(old(lines[l].lbas), transMap[..], media, l, secs, lbaList, data)
    {
      hide Leads, BackCtxs, Wrap, LookedUp;
      lbaList, data := [], [];
      ghost var list := lines[l].lbas;
      for i := 0 to |secs|
        invariant lines[l].lbas == list && ListRead(list, transMap[..], media, l, secs[..i], lbaList, data)
        invariant Valid() && hist == GcReadRun(old(hist), l, secs, i) && g == old(g).(gc := g.gc)
        invariant lines[l].state == Gc && lines[l].held
        invariant forall j :: i <= j < |secs| ==> secs[j] < secPerLine && secs[j] !in lines[l].invalid && secs[j] !in lines[l].scanned
        invariant |lbaList| == i && |data| == Valids(lbaList, i) && InHand(g.gc, lbaList, data, l, secs[..i], 0)
      {
        ghost var gc, was, ds := g.gc, lbaList, data;
        var lba, d := GcReadRound(l, secs[i]);
        ListMore(list, transMap[..], media, l, secs, i, was, ds, lba, d);
        lbaList := lbaList + [lba];
        if lba.Some? {
          data := data + [d];
        }
        ReadMore(gc, g.gc, was, ds, l, secs, i, lba, d);
      }
      assert secs[..|secs|] == secs;
    }

    /** `read_rq_gc`: a sector on its own is looked up and nothing handed on, which is a step of the history if it has moved on */
    method ReadOneGc(l: nat, p: nat) returns (validSecs: nat)
      requires Valid() && l < lines.Length && ToScan(View(), l, p)
      modifies this`hist, lines
      ensures validSecs == 0 && View() == GcSkipStep(old(View()), l, p)
      ensures old(CanScan(View(), l, p)) && (old(Skippable(View(), l, p)) ==> Valid() && hist == Then(old(hist), GcSkip(l, p)))
    {
      hide Leads, BackCtxs;
      ghost var s := View();
      ReadReady(fresh0, hist, s, l, p);
      validSecs := 0;
      var ppa := transMap[lines[l].lbas[p].value];
      lines[l] := lines[l].(scanned := lines[l].scanned + {p});
      assert lines[..] == s.lines[l := ScanLine(s.lines[l], p)];
      if Skippable(s, l, p) { NextStep(fresh0, hist, s, GcSkip(l, p)); }
      hist := Then(hist, GcSkip(l, p));
      if ppa.Media? && ppa.line == l {
        return 0;
      }
    }

    /** GC drops its reference to a victim it is done with; nothing maps into a line so freed */
    method PutVictim(l: nat) returns (freed: bool)
      requires Valid() && l < lines.Length && lines[l].state == Gc && lines[l].held && ScanDone(View(), l)
      modifies this`hist, lines
      ensures Valid() && hist == Then(old(hist), GcPut(l)) && (freed <==> lines[l].state == Free)
      ensures freed ==> forall a :: 0 <= a < transMap.Length && transMap[a].Media? ==> transMap[a].line != l
    {
      hide Leads, BackCtxs;
      ghost var s := View();
      lines[l] := PutRef(lines[l].(held := false));
      assert lines[..] == s.lines[l := PutRef(s.lines[l].(held := false))];
      NextStep(fresh0, hist, s, GcPut(l));
      hist := Then(hist, GcPut(l));
      freed := lines[l].state == Free;
      if freed { FreeClean(fresh0, hist, View(), l); }
    }

    // -------------------------------------------------------------- completions

    /** An entry of `pblk_end_w_bio` with its share of `pblk_rb_sync_advance` */
    method SyncEntry()
      requires Shaped() && SyncReady(View())
      modifies this`sync, this`g, lines
      ensures Shaped() && g == old(g).(sync := old(g).sync + 1, reqs := SyncReqs(old(g).reqs)) && View() == SyncStep(old(View()))
    {
      var l := entries[sync].ppa.line;
      var line := lines[l];
      lines[l] := line.(leftSsecs := line.leftSsecs - 1);
      assert lines[..] == old(lines[..])[l := SyncLine(line)];
      AdvanceWraps(g.sync, 1, entries.Length);
      sync := Advance(sync, 1, entries.Length);
      g := g.(sync := g.sync + 1, reqs := SyncReqs(g.reqs));
    }

    method SyncRound()
      requires Shaped() && Ran() && g.reqs != [] && g.reqs[0].back
      modifies this`sync, this`g, this`hist, lines
      ensures Shaped() && Ran() && hist == Then(old(hist), SyncOne)
      ensures old(g).reqs[0].nr > 0 && g == old(g).(sync := old(g).sync + 1, reqs := SyncReqs(old(g).reqs))
    {
      ghost var s := View();
      SyncEnabled(fresh0, hist, s);
      SyncEntry();
      NextStep(fresh0, hist, s, SyncOne);
      hist := Then(hist, SyncOne);
    }

    /** `pblk_end_w_bio` of the request at `sync` */
    method EndWrite(nrValid: nat)
      requires Shaped() && Ran() && g.reqs != [] && g.reqs[0].back && g.reqs[0].nr == nrValid
      modifies this`sync, this`g, this`hist, lines
      ensures Shaped() && Ran() && hist == SyncRun(old(hist), nrValid)
      ensures g == old(g).(sync := old(g).sync + nrValid, reqs := old(g).reqs[1..])
    {
      ghost var rest := g.reqs[1..];
      ReachHead(fresh0, hist, View());
      for i := 0 to nrValid
        invariant Shaped() && Ran() && hist == SyncRun(old(hist), i)
        invariant g == old(g).(sync := old(g).sync + i, reqs := g.reqs) && Shrunk(g.reqs, rest, nrValid - i)
      {
        ShrinkHead(g.reqs, rest, nrValid - i);
        SyncRound();
      }
    }

    /** The scan of `compl_list` for a request that starts at `sync` */
    method FindQueued() returns (j: nat)
      ensures j <= |complList| && (j < |complList| ==> complList[j].sentry == sync)
      ensures j == |complList| ==> forall c :: c in complList ==> c.sentry != sync
    {
      j := 0;
      while j < |complList| && complList[j].sentry != sync
        invariant j <= |complList| && forall c :: c in complList[..j] ==> c.sentry != sync
      {
        j := j + 1;
      }
      if j == |complList| { assert complList[..j] == complList; }
    }

    /** One pass from `retry` in `pblk_complete_write`: end the queued request at `sync`, if there is one */
    method EndQueued() returns (more: bool)
      requires Shaped() && Ran() && Listed()
      modifies this`sync, this`g, this`hist, this`complList, lines
      ensures Shaped() && Ran() && Listed()
      ensures more <==> old(g).reqs != [] && old(g).reqs[0].back
      ensures !more ==> g == old(g) && View() == old(View()) && hist == old(hist)
      ensures more ==> |complList| < |old(complList)| && hist == SyncRun(old(hist), old(g).reqs[0].nr)
      ensures more ==> g == old(g).(sync := old(g).sync + old(g).reqs[0].nr, reqs := old(g).reqs[1..])
    {
      var j := FindQueued();
      if j < |complList| {
        var c := complList[j];
        QueuedHead(fresh0, hist, View(), complList, c);
        RemoveOne(complList, j);
        complList := complList[..j] + complList[j + 1..];
        EndWrite(c.nrValid);
        return true;
      }
      NotQueuedHead(fresh0, hist, View(), complList);
      return false;
    }

    /** Since history `h0` and shadow `g0`, whole requests of `ended` entries have been synced and nothing else done. */
    ghost predicate Progress(h0: Run, g0: Shadow, ended: nat)
      reads this
    {
      && hist == SyncRun(h0, ended) && Ended(g0.reqs, g.reqs, ended)
      && g == g0.(sync := g0.sync + ended, reqs := g.reqs)
    }

    method EndNext(ghost h0: Run, ghost g0: Shadow, ghost ended: nat) returns (more: bool, ghost ended': nat)
      requires Shaped() && Ran() && Listed() && Progress(h0, g0, ended)
      modifies this`sync, this`g, this`hist, this`complList, lines
      ensures Shaped() && Ran() && Listed() && Progress(h0, g0, ended')
      ensures if more then |complList| < |old(complList)| else Queued()
    {
      hide Leads, Wrap, SyncRun, BackLen, DropBack, BackCtxs;
      ghost var reqs := g.reqs;
      more := EndQueued();
      ended' := ended;
      if more {
        SyncRunSum(h0, ended, reqs[0].nr);
        EndedMore(g0.reqs, reqs, ended);
        ended' := ended + reqs[0].nr;
      }
    }

    /** The loop at `retry` in `pblk_complete_write` */
    method EndAllQueued()
      requires Shaped() && Ran() && Listed() && g.half == map[]
      modifies this`sync, this`g, this`hist, this`complList, lines
      ensures Valid() && hist == SyncRun(old(hist), BackLen(old(g).reqs))
      ensures g == old(g).(sync := old(g).sync + BackLen(old(g).reqs), reqs := DropBack(old(g).reqs))
    {
      hide Leads, Wrap;
      var more := true;
      ghost var ended: nat := 0;
      while more
        invariant Shaped() && Ran() && Listed() && Progress(old(hist), old(g), ended) && (more || Queued())
        decreases if more then |complList| + 1 else 0
      {
        more, ended := EndNext(old(hist), old(g), ended);
      }
    }

    /** The arrival of a completion is noted before anything else happens. */
    ghost method NoteArrival(c: Ctx, i: nat)
      requires Valid() && Enabled(View(), Ack(i)) && c == Ctx(Wrap(g.reqs[i].sentry, entries.Length), g.reqs[i].nr)
      modifies this`g, this`hist
      ensures Shaped() && Ran() && g == old(g).(reqs := Acked(old(g).reqs, i)) && hist == Then(old(hist), Ack(i))
      ensures BackCtxs(g.reqs, entries.Length) == multiset(complList) + multiset{c}
      ensures c.sentry == sync <==> i == 0
    {
      var s := View();
      SentryAtSync(fresh0, hist, s, i);
      AckedCtxs(g.reqs, i, entries.Length);
      g := g.(reqs := Acked(g.reqs, i));
      NextStep(fresh0, hist, s, Ack(i));
      hist := Then(hist, Ack(i));
    }

    /** The request at `sync` ends, and with it those queued behind it */
    method EndHead(nrValid: nat)
      requires Shaped() && Ran() && g.reqs != [] && g.reqs[0].back && g.reqs[0].nr == nrValid
      requires multiset(complList) == BackCtxs(g.reqs[1..], entries.Length) && g.half == map[]
      modifies this`sync, this`g, this`hist, this`complList, lines
      ensures Valid() && hist == SyncRun(old(hist), BackLen(old(g).reqs))
      ensures g == old(g).(sync := old(g).sync + BackLen(old(g).reqs), reqs := DropBack(old(g).reqs))
    {
      hide Leads, Wrap, SyncRun, BackLen, DropBack, BackCtxs;
      HeadBack(g.reqs);
      EndWrite(nrValid);
      SyncRunSum(old(hist), nrValid, BackLen(g.reqs));
      EndAllQueued();
    }

    /** `pblk_complete_write` of request `i` in dispatch order, all of whose sectors the device has stored */
    method CompleteWrite(c: Ctx, ghost i: nat)
      requires Valid() && Enabled(View(), Ack(i)) && c == Ctx(Wrap(g.reqs[i].sentry, entries.Length), g.reqs[i].nr)
      modifies this`sync, this`g, this`hist, this`complList, lines
      ensures Valid() && hist == SyncRun(Then(old(hist), Ack(i)), BackLen(Acked(old(g).reqs, i)))
      ensures g == old(g).(reqs := DropBack(Acked(old(g).reqs, i)), sync := old(g).sync + BackLen(Acked(old(g).reqs, i)))
      ensures FirstOut(Acked(old(g).reqs, i), g.reqs) && g.sync == if g.reqs == [] then g.disp else g.reqs[0].sentry
    {
      hide Leads, Wrap, BackCtxs, FirstOut;
      ghost var reqs := g.reqs;
      NoteArrival(c, i);
      HeadOrNot(reqs, i, entries.Length);
      if sync == c.sentry {
        EndHead(c.nrValid);
      } else {
        complList := complList + [c];
      }
      DropBackIs(Acked(reqs, i));
      SyncAt(fresh0, hist, View());
    }

    /** Once no request is with the device the list is empty and everything dispatched is synced. */
    lemma Drained()
      requires Valid() && forall i :: 0 <= i < |g.reqs| ==> g.reqs[i].back
      ensures g.reqs == [] && complList == [] && g.sync == g.disp
    {
      HistInv(fresh0, hist, View());
      assert multiset(complList) == multiset{};
    }

    // -------------------------------------------------------------- reading

    /** `pblk_read_rq`: the slot a cacheline names always passes the check of `pblk_rb_copy_to_bio` */
    method ReadRq(lba: nat) returns (r: Option<Data>)
      requires Valid() && lba < transMap.Length
      ensures Readable(View(), lba) && r == Read(View(), lba) == LastValue(hist, lba)
    {
      ReachMapped(fresh0, hist, View(), lba);
      ReachRead(fresh0, hist, View(), lba);
      var ppa := transMap[lba];
      match ppa
      case Empty => r := None;
      case Cached(slot) =>
        var e := entries[slot];
        assert e.lba == lba && e.flag != Writable;
        r := Some(e.data);
      case Media(line, sec) =>
        r := Some(media[(line, sec)]);
    }
  }

  // ---------------------------------------------------------------- histories

  function L2pRun(r: Run, count: nat): Run {
    if count == 0 then r else Then(L2pRun(r, count - 1), L2pOne)
  }

  /** Addresses of entries that left the ring map to the device, to lines not in GC; nothing else changed, and no line entered GC. */
  predicate Installing(trans: seq<Ppa>, trans': seq<Ppa>, lines: seq<Line>, lines': seq<Line>) {
    && |trans'| == |trans| && |lines'| == |lines|
    && (forall a :: 0 <= a < |trans| && trans'[a] != trans[a] ==> trans[a].Cached? && IntoUse(trans'[a], lines))
    && (forall l :: 0 <= l < |lines| && lines[l].state == Gc ==> lines'[l].state == Gc || lines'[l].state == Free)
  }

  predicate IntoUse(q: Ppa, lines: seq<Line>) {
    q.Media? && q.line < |lines| && lines[q.line].state != Gc
  }

  lemma InstallMore(trans: seq<Ppa>, trans1: seq<Ppa>, trans2: seq<Ppa>, lines: seq<Line>, lines1: seq<Line>, lines2: seq<Line>)
    requires Installing(trans, trans1, lines, lines1) && Installing(trans1, trans2, lines1, lines2) && StillFree(trans1, trans2, lines1, lines2)
    ensures Installing(trans, trans2, lines, lines2)
  {
  }

  /** A free line stays free and nothing is mapped into it. */
  predicate StillFree(trans: seq<Ppa>, trans': seq<Ppa>, lines: seq<Line>, lines': seq<Line>) {
    && |trans'| == |trans| && |lines'| == |lines|
    && (forall a :: 0 <= a < |trans| && trans'[a] != trans[a] && IntoUse(trans'[a], lines) ==> lines[trans'[a].line].state != Free)
    && (forall l :: 0 <= l < |lines| && lines[l].state == Free ==> lines'[l].state == Free)
  }

  lemma InstallOne(s0: State, r: Run, s: State)
    requires Leads(s0, r, s) && L2pReady(s)
    ensures Installing(s.trans, L2pStep(s).trans, s.lines, L2pStep(s).lines) && StillFree(s.trans, L2pStep(s).trans, s.lines, L2pStep(s).lines)
  {
    HistInv(s0, r, s);
    InvInstall(s);
  }

  lemma InvInstall(s: State)
    requires Inv(s) && L2pReady(s)
    ensures Installing(s.trans, L2pStep(s).trans, s.lines, L2pStep(s).lines) && StillFree(s.trans, L2pStep(s).trans, s.lines, L2pStep(s).lines)
  {
    hide L2pStep, Installing, StillFree;
    L2pLive(s);
    if s.trans[Slot(s.ring, s.l2p).lba] == Cached(Wrap(s.l2p, |s.ring|)) { L2pAlive(s); }
    InstallStep(s);
  }

  lemma InstallStep(s: State)
    requires L2pReady(s) && s.lines[Slot(s.ring, s.l2p).ppa.line].state != Free
    requires s.trans[Slot(s.ring, s.l2p).lba] == Cached(Wrap(s.l2p, |s.ring|)) ==> s.lines[Slot(s.ring, s.l2p).ppa.line].state != Gc
    ensures Installing(s.trans, L2pStep(s).trans, s.lines, L2pStep(s).lines) && StillFree(s.trans, L2pStep(s).trans, s.lines, L2pStep(s).lines)
  {
    RetiredLine(s);
  }

  /** How many entries must leave the ring before `count` more fit. */
  function ToUpdate(s: State, count: nat): nat {
    if s.mem + count < s.l2p + |s.ring| then 0 else s.mem + count + 1 - (s.l2p + |s.ring|)
  }

  /** The steps by which `count` entries are reserved. */
  function ReserveRun(r: Run, s: State, count: nat): Run {
    Then(L2pRun(r, ToUpdate(s, count)), Reserve(count))
  }

  /** Filling the first `count` entries of a write. */
  function FillRun(r: Run, k: nat, lba: nat, data: seq<Data>, count: nat): Run
    requires count <= |data|
  {
    if count == 0 then r
    else Then(Then(FillRun(r, k, lba, data, count - 1), Fill(k + count - 1, lba + count - 1, data[count - 1])),
              Publish(k + count - 1, lba + count - 1, data[count - 1]))
  }

  /** The steps of a user write. */
  function WriteRun(r: Run, s: State, lba: nat, data: seq<Data>): Run {
    FillRun(ReserveRun(r, s, |data|), s.mem, lba, data, |data|)
  }

  /** How many of the first `count` entries have an lba. */
  function Valids(lbas: seq<Option<nat>>, count: nat): nat
    requires count <= |lbas|
  {
    if count == 0 then 0 else Valids(lbas, count - 1) + if lbas[count - 1].Some? then 1 else 0
  }

  lemma {:induction false} ValidsGrow(lbas: seq<Option<nat>>, i: nat, j: nat)
    requires i <= j <= |lbas|
    ensures Valids(lbas, i) <= Valids(lbas, j)
    decreases j
  {
    if i < j { ValidsGrow(lbas, i, j - 1); }
  }

  /** GC holds what the list names from entry `from` on: entry `i` was read from sector `secs[i]` of the victim. */
  ghost predicate InHand(gc: map<(nat, nat), GcItem>, lbas: seq<Option<nat>>, data: seq<Data>, l: nat, secs: seq<nat>, from: nat) {
    && |secs| == |lbas| && (forall i, j :: 0 <= i < j < |secs| ==> secs[i] != secs[j])
    && forall i :: from <= i < |lbas| && lbas[i].Some? ==>
         Valids(lbas, i) < |data| && (l, secs[i]) in gc && gc[(l, secs[i])] == GcItem(lbas[i].value, data[Valids(lbas, i)])
  }

  /** The steps by which GC writes the first `count` entries of its list into the slots from `k` on. */
  function GcFillRun(r: Run, k: nat, l: nat, secs: seq<nat>, lbas: seq<Option<nat>>, count: nat): Run
    requires count <= |lbas| == |secs|
  {
    if count == 0 then r
    else if lbas[count - 1].None? then GcFillRun(r, k, l, secs, lbas, count - 1)
    else Then(Then(GcFillRun(r, k, l, secs, lbas, count - 1), GcFill(k + Valids(lbas, count - 1), l, secs[count - 1])),
              GcPublish(k + Valids(lbas, count - 1), l, secs[count - 1]))
  }

  /** Looking up and reading the first `count` of `secs`. */
  function GcReadRun(r: Run, l: nat, secs: seq<nat>, count: nat): Run
    requires count <= |secs|
  {
    if count == 0 then r else Then(GcReadRun(r, l, secs, count - 1), GcRead(l, secs[count - 1]))
  }

  /** The first counts do not depend on what follows. */
  lemma {:induction false} ValidsPrefix(lbas: seq<Option<nat>>, more: seq<Option<nat>>, i: nat)
    requires i <= |lbas| <= |more| && more[..|lbas|] == lbas
    ensures Valids(more, i) == Valids(lbas, i)
  {
    if i > 0 {
      ValidsPrefix(lbas, more, i - 1);
      assert more[..|lbas|][i - 1] == more[i - 1];
    }
  }

  /** One sector more is in GC's hands. */
  lemma ReadMore(gc: map<(nat, nat), GcItem>, gc': map<(nat, nat), GcItem>, lbas: seq<Option<nat>>, data: seq<Data>, l: nat,
                 secs: seq<nat>, i: nat, lba: Option<nat>, d: Data)
    requires i < |secs| && |lbas| == i && |data| == Valids(lbas, i) && InHand(gc, lbas, data, l, secs[..i], 0)
    requires forall x, y :: 0 <= x < y < |secs| ==> secs[x] != secs[y]
    requires gc' == if lba.Some? then gc[(l, secs[i]) := GcItem(lba.value, d)] else gc
    ensures var more, all := lbas + [lba], if lba.Some? then data + [d] else data;
      |all| == Valids(more, i + 1) && InHand(gc', more, all, l, secs[..i + 1], 0)
  {
    var more, all := lbas + [lba], if lba.Some? then data + [d] else data;
    ValidsPrefix(lbas, more, i);
    forall j | 0 <= j < |more| && more[j].Some?
      ensures Valids(more, j) < |all| && (l, secs[..i + 1][j]) in gc' && gc'[(l, secs[..i + 1][j])] == GcItem(more[j].value, all[Valids(more, j)])
    {
      if j < i {
        ValidsPrefix(lbas, more, j);
        assert secs[..i][j] == secs[j] && lbas[j] == more[j];
      }
    }
  }

  /** The count is that of a set. */
  lemma {:induction false} ValidsCount(lbas: seq<Option<nat>>, count: nat)
    requires count <= |lbas|
    ensures Valids(lbas, count) == |set i | 0 <= i < count && lbas[i].Some?|
  {
    if count > 0 {
      ValidsCount(lbas, count - 1);
      var before := set i | 0 <= i < count - 1 && lbas[i].Some?;
      assert (set i | 0 <= i < count && lbas[i].Some?) == before + if lbas[count - 1].Some? then {count - 1} else {};
    }
  }

  /**
   The look-up of sector `p` of line `l` gives the address the line's list names for it, if that still maps into the line,
   and then what the device holds where it maps to.
   */
  predicate LookedUp(list: map<nat, Option<nat>>, trans: seq<Ppa>, media: map<(nat, nat), Data>, l: nat, p: nat, lba: Option<nat>, d: Data) {
    && p in list && list[p].Some? && list[p].value < |trans|
    && lba == (if LiesIn(trans, list[p].value, l) then list[p] else None)
    && (lba.Some? ==> Stored(media, l, trans[list[p].value].sec, d))
  }

  /** The data that goes with entry `i`: as many are before it as entries with an lba. */
  function DataAt(lbas: seq<Option<nat>>, data: seq<Data>, i: nat): Data
    requires i < |lbas|
  {
    if lbas[i].Some? && Valids(lbas, i) < |data| then data[Valids(lbas, i)] else 0
  }

  /** Every sector is looked up, and what still lies in the line is read from where it lies, in order. */
  predicate ListRead(list: map<nat, Option<nat>>, trans: seq<Ppa>, media: map<(nat, nat), Data>, l: nat, secs: seq<nat>,
                     lbas: seq<Option<nat>>, data: seq<Data>) {
    && |lbas| == |secs| && |data| == Valids(lbas, |lbas|)
    && forall i :: 0 <= i < |secs| ==> LookedUp(list, trans, media, l, secs[i], lbas[i], DataAt(lbas, data, i))
  }

  lemma DataMore(lbas: seq<Option<nat>>, data: seq<Data>, lba: Option<nat>, d: Data, j: nat)
    requires |data| == Valids(lbas, |lbas|) && j <= |lbas| && (lba.None? ==> d == 0)
    ensures var more, all := lbas + [lba], if lba.Some? then data + [d] else data;
      && |all| == Valids(more, |more|)
      && DataAt(more, all, j) == if j < |lbas| then DataAt(lbas, data, j) else d
  {
    var more := lbas + [lba];
    ValidsPrefix(lbas, more, |lbas|);
    if j < |lbas| {
      ValidsPrefix(lbas, more, j);
      if lbas[j].Some? { ValidsBefore(lbas, j, |lbas|); }
    }
  }

  lemma ListMore(list: map<nat, Option<nat>>, trans: seq<Ppa>, media: map<(nat, nat), Data>, l: nat, secs: seq<nat>, i: nat, lbas: seq<Option<nat>>,
                 data: seq<Data>, lba: Option<nat>, d: Data)
    requires i < |secs| && ListRead(list, trans, media, l, secs[..i], lbas, data) && LookedUp(list, trans, media, l, secs[i], lba, d)
    requires lba.None? ==> d == 0
    ensures ListRead(list, trans, media, l, secs[..i + 1], lbas + [lba], if lba.Some? then data + [d] else data)
  {
    hide LookedUp, DataAt, Valids;
    var more, all := lbas + [lba], if lba.Some? then data + [d] else data;
    DataMore(lbas, data, lba, d, i);
    forall j | 0 <= j <= i ensures LookedUp(list, trans, media, l, secs[..i + 1][j], more[j], DataAt(more, all, j)) {
      DataMore(lbas, data, lba, d, j);
      if j < i { assert secs[..i][j] == secs[j] && lbas[j] == more[j]; }
    }
  }

  // ---------------------------------------------------------------- what writes leave in the ring and the map

  /** Position `k` holds `d` for `a`, just written, and `a` maps there. */
  predicate CachedAt(ring: seq<Entry>, trans: seq<Ppa>, k: nat, a: nat, d: Data) {
    && ring != [] && a < |trans| && Slot(ring, k) == Entry(Written, a, Empty, d, false) && trans[a] == Cached(Wrap(k, |ring|))
  }

  /** The first `n` sectors of a write are in the ring from position `k0` on, in order; other addresses map where they did. */
  predicate InCache(ring: seq<Entry>, trans0: seq<Ppa>, trans: seq<Ppa>, k0: nat, lba: nat, data: seq<Data>, n: nat) {
    && n <= |data| && |trans| == |trans0|
    && (forall i :: 0 <= i < n ==> CachedAt(ring, trans, k0 + i, lba + i, data[i]))
    && (forall a :: 0 <= a < |trans| && !(lba <= a < lba + n) ==> trans[a] == trans0[a])
  }

  lemma CacheNone(ring: seq<Entry>, trans: seq<Ppa>, k0: nat, lba: nat, data: seq<Data>)
    ensures InCache(ring, trans, trans, k0, lba, data, 0)
  {
  }

  lemma CacheMore(ring: seq<Entry>, trans0: seq<Ppa>, trans: seq<Ppa>, k0: nat, lba: nat, data: seq<Data>, i: nat)
    requires InCache(ring, trans0, trans, k0, lba, data, i) && i < |data| <= |ring| && lba + i < |trans|
    ensures var c := Wrap(k0 + i, |ring|);
      InCache(ring[c := Entry(Written, lba + i, Empty, data[i], false)], trans0, trans[lba + i := Cached(c)], k0, lba, data, i + 1)
  {
    var c := Wrap(k0 + i, |ring|);
    var ring' := ring[c := Entry(Written, lba + i, Empty, data[i], false)];
    UpdateSlot(ring, ring', k0, k0 + i, Entry(Written, lba + i, Empty, data[i], false));
    forall j | 0 <= j < i ensures CachedAt(ring', trans[lba + i := Cached(c)], k0 + j, lba + j, data[j]) {
      assert CachedAt(ring, trans, k0 + j, lba + j, data[j]) && Slot(ring', k0 + j) == Slot(ring, k0 + j);
    }
  }

  /** The map after GC has moved `a` to slot `c`, if it still lay in the victim. */
  function GcMap(trans: seq<Ppa>, a: nat, c: nat, l: nat): seq<Ppa>
    requires a < |trans|
  {
    if LiesIn(trans, a, l) then trans[a := Cached(c)] else trans
  }

  /** The first `n` entries of GC's list that have an lba are in the ring from position `k0` on, in order. */
  predicate GcCache(ring: seq<Entry>, k0: nat, lbas: seq<Option<nat>>, data: seq<Data>, n: nat) {
    && ring != [] && n <= |lbas|
    && forall i :: 0 <= i < n && lbas[i].Some? ==>
         && Valids(lbas, i) < |data|
         && Slot(ring, k0 + Valids(lbas, i)) == Entry(Written, lbas[i].value, Empty, data[Valids(lbas, i)], false)
  }

  /** The first of the first `n` entries that names `a`, or `n`. */
  function FirstNamed(lbas: seq<Option<nat>>, a: nat, n: nat): (i: nat)
    requires n <= |lbas|
    ensures i <= n && (i < n ==> lbas[i] == Some(a)) && forall j :: 0 <= j < i ==> lbas[j] != Some(a)
  {
    if n == 0 then 0
    else var i := FirstNamed(lbas, a, n - 1); if i == n - 1 && lbas[n - 1] != Some(a) then n else i
  }

  /** What lay in the victim and is named maps to the slot of the first entry that names it; the rest is as before. */
  predicate GcMoved(trans0: seq<Ppa>, trans: seq<Ppa>, lbas: seq<Option<nat>>, n: nat, l: nat, k0: nat, size: nat)
    requires n <= |lbas| && size > 0
  {
    && |trans| == |trans0|
    && forall a :: 0 <= a < |trans| ==>
         trans[a] == if LiesIn(trans0, a, l) && FirstNamed(lbas, a, n) < n
                     then Cached(Wrap(k0 + Valids(lbas, FirstNamed(lbas, a, n)), size)) else trans0[a]
  }

  lemma NoneMoved(ring: seq<Entry>, trans: seq<Ppa>, lbas: seq<Option<nat>>, data: seq<Data>, l: nat, k0: nat)
    requires ring != []
    ensures GcCache(ring, k0, lbas, data, 0) && GcMoved(trans, trans, lbas, 0, l, k0, |ring|)
  {
  }

  lemma GcSkipOne(ring: seq<Entry>, trans0: seq<Ppa>, trans: seq<Ppa>, lbas: seq<Option<nat>>, data: seq<Data>, i: nat, l: nat, k0: nat)
    requires i < |lbas| && lbas[i].None? && GcCache(ring, k0, lbas, data, i) && GcMoved(trans0, trans, lbas, i, l, k0, |ring|)
    ensures GcCache(ring, k0, lbas, data, i + 1) && GcMoved(trans0, trans, lbas, i + 1, l, k0, |ring|)
  {
  }

  lemma {:induction false} ValidsBefore(lbas: seq<Option<nat>>, i: nat, j: nat)
    requires i < j <= |lbas| && lbas[i].Some?
    ensures Valids(lbas, i) < Valids(lbas, j)
  {
    ValidsGrow(lbas, i + 1, j);
  }

  lemma GcCacheMore(ring: seq<Entry>, ring': seq<Entry>, k0: nat, lbas: seq<Option<nat>>, data: seq<Data>, i: nat)
    requires i < |lbas| && lbas[i].Some? && GcCache(ring, k0, lbas, data, i) && Valids(lbas, i) < |data| <= |ring|
    requires ring' == ring[Wrap(k0 + Valids(lbas, i), |ring|) := Entry(Written, lbas[i].value, Empty, data[Valids(lbas, i)], false)]
    ensures GcCache(ring', k0, lbas, data, i + 1)
  {
    hide Wrap;
    var k := k0 + Valids(lbas, i);
    UpdateSlot(ring, ring', k0, k, Entry(Written, lbas[i].value, Empty, data[Valids(lbas, i)], false));
    forall j | 0 <= j < i && lbas[j].Some? ensures Slot(ring', k0 + Valids(lbas, j)) == Slot(ring, k0 + Valids(lbas, j)) {
      ValidsBefore(lbas, j, i);
    }
  }

  lemma GcMovedMore(trans0: seq<Ppa>, trans: seq<Ppa>, trans': seq<Ppa>, lbas: seq<Option<nat>>, i: nat, l: nat, k0: nat, size: nat)
    requires i < |lbas| && lbas[i].Some? && size > 0 && lbas[i].value < |trans| && GcMoved(trans0, trans, lbas, i, l, k0, size)
    requires trans' == GcMap(trans, lbas[i].value, Wrap(k0 + Valids(lbas, i), size), l)
    ensures GcMoved(trans0, trans', lbas, i + 1, l, k0, size)
  {
    hide Wrap, Valids;
  }

  /** One address: what GC's list has done to it, or an entry's leaving the ring before. */
  predicate GcMovedAt(was: Ppa, now: Ppa, a: nat, lbas: seq<Option<nat>>, l: nat, k0: nat, size: nat)
    requires size > 0
  {
    if was.Media? && was.line == l && FirstNamed(lbas, a, |lbas|) < |lbas|
    then now == Cached(Wrap(k0 + Valids(lbas, FirstNamed(lbas, a, |lbas|)), size))
    else now == was || (was.Cached? && now.Media?)
  }

  lemma MovedAll(trans0: seq<Ppa>, trans: seq<Ppa>, trans': seq<Ppa>, lines0: seq<Line>, lines: seq<Line>, lbas: seq<Option<nat>>, l: nat, k0: nat, size: nat)
    requires size > 0 && Installing(trans0, trans, lines0, lines) && GcMoved(trans, trans', lbas, |lbas|, l, k0, size)
    requires (exists i :: 0 <= i < |lbas| && lbas[i].Some?) ==> l < |lines0| && lines0[l].state == Gc
    ensures |trans'| == |trans0| && forall a :: 0 <= a < |trans'| ==> GcMovedAt(trans0[a], trans'[a], a, lbas, l, k0, size)
  {
    hide Wrap, Valids;
  }

  lemma HandSize(gc: map<(nat, nat), GcItem>, lbas: seq<Option<nat>>, data: seq<Data>, l: nat, secs: seq<nat>)
    requires InHand(gc, lbas, data, l, secs, 0)
    ensures |secs| == |lbas|
  {
  }

  /** A list with an lba in it is of a line in GC. */
  lemma HandLine(s0: State, r: Run, s: State, lbas: seq<Option<nat>>, data: seq<Data>, l: nat, secs: seq<nat>)
    requires Leads(s0, r, s) && InHand(s.gc, lbas, data, l, secs, 0)
    ensures (exists i :: 0 <= i < |lbas| && lbas[i].Some?) ==> l < |s.lines| && s.lines[l].state == Gc
  {
    HistInv(s0, r, s);
    hide Leads;
    CoreGc(s);
  }

  lemma HandNext(gc: map<(nat, nat), GcItem>, lbas: seq<Option<nat>>, data: seq<Data>, l: nat, secs: seq<nat>, i: nat)
    requires InHand(gc, lbas, data, l, secs, i) && i < |lbas| && lbas[i].Some?
    ensures i < |secs| && Valids(lbas, i) < |data| && (l, secs[i]) in gc && gc[(l, secs[i])] == GcItem(lbas[i].value, data[Valids(lbas, i)])
  {
  }

  lemma HandRest(gc: map<(nat, nat), GcItem>, gc': map<(nat, nat), GcItem>, lbas: seq<Option<nat>>, data: seq<Data>, l: nat, secs: seq<nat>, i: nat)
    requires InHand(gc, lbas, data, l, secs, i) && i < |lbas| && i < |secs| && (gc' == gc || gc' == gc - {(l, secs[i])})
    ensures InHand(gc', lbas, data, l, secs, i + 1)
  {
  }

  /** Of a chunk the first `i` sectors are done: valid entries got the next sectors of the line in order, the rest is padding. */
  predicate ChunkDone(s: State, t: State, valid: nat, i: nat) {
    && Sized(s) && |t.ring| == |s.ring| && |t.lines| == |s.lines|
    && var l, l' := s.lines[s.cur], t.lines[s.cur];
      && l.next + i <= |l.secs| && l'.secs == l.secs && l'.next == l.next + i && l'.refs == l.refs + i && l'.pads == l.pads + Over(i, valid)
      && l'.invalid == l.invalid + PadSecs(l, valid, i) && l'.vsc == l.vsc - Over(i, valid) && l'.leftSsecs == l.leftSsecs - Over(i, valid)
      && (forall j :: 0 <= j < i ==> SectorDone(s, t, valid, j))
      && (forall k :: s.subm + Below(i, valid) <= k < s.mem ==> Slot(t.ring, k) == Slot(s.ring, k))
  }

  predicate SectorDone(s: State, t: State, valid: nat, j: nat)
    requires Sized(s) && |t.ring| == |s.ring| && |t.lines| == |s.lines| && s.lines[s.cur].next + j < |s.lines[s.cur].secs|
  {
    var p, l' := s.lines[s.cur].secs[s.lines[s.cur].next + j], t.lines[s.cur];
    if j < valid then
      && Slot(t.ring, s.subm + j) == Slot(s.ring, s.subm + j).(flag := Submitted, ppa := Media(s.cur, p))
      && p in l'.lbas && l'.lbas[p] == Some(Slot(s.ring, s.subm + j).lba)
    else p in l'.lbas && l'.lbas[p] == None
  }

  /** The sectors of a chunk that are padding. */
  function PadSecs(l: Line, valid: nat, i: nat): set<nat> {
    set j | l.next + valid <= j < l.next + i && j < |l.secs| :: l.secs[j]
  }

  function Below(i: nat, valid: nat): nat { if i < valid then i else valid }
  function Over(i: nat, valid: nat): nat { if i < valid then 0 else i - valid }

  /** Where a chunk may start. */
  predicate ChunkReady(s: State, valid: nat) {
    && Sized(s) && s.l2p <= s.subm && s.subm + valid <= s.mem < s.l2p + |s.ring| && GoodSecs(s.lines[s.cur].secs, s.secPerLine)
  }

  lemma ChunkStart(s0: State, r: Run, s: State, valid: nat, count: nat)
    requires Leads(s0, r, s) && ToMap(s, valid, count)
    ensures ChunkReady(s, valid) && ChunkDone(s, s, valid, 0)
  {
    HistInv(s0, r, s);
    assert LineOk(s.lines[s.cur], s.secPerLine, |s.trans|);
  }

  lemma ChunkMap(s: State, t: State, valid: nat, i: nat)
    requires ChunkReady(s, valid) && ChunkDone(s, t, valid, i) && i < valid && CanAlloc(t) && t.cur == s.cur && t.subm == s.subm + i
    ensures ChunkDone(s, MapEntryStep(t), valid, i + 1)
  {
    var t' := MapEntryStep(t);
    UpdateSlot(t.ring, t'.ring, s.l2p, t.subm, t'.ring[Wrap(t.subm, |t.ring|)]);
    assert Slot(t.ring, t.subm) == Slot(s.ring, t.subm);
    assert PadSecs(s.lines[s.cur], valid, i + 1) == PadSecs(s.lines[s.cur], valid, i) == {};
    assert SectorDone(s, t', valid, i);
    forall j | 0 <= j < i ensures SectorDone(s, t', valid, j) {
      assert SectorDone(s, t, valid, j) && Slot(t'.ring, s.subm + j) == Slot(t.ring, s.subm + j);
    }
  }

  lemma PadNext(l: Line, valid: nat, i: nat)
    requires valid <= i && l.next + i < |l.secs|
    ensures PadSecs(l, valid, i + 1) == PadSecs(l, valid, i) + {l.secs[l.next + i]}
  {
    var next := l.next + i;
    assert l.secs[next] in PadSecs(l, valid, i + 1);
  }

  lemma ChunkPad(s: State, t: State, valid: nat, i: nat)
    requires ChunkReady(s, valid) && ChunkDone(s, t, valid, i) && valid <= i && CanAlloc(t) && t.cur == s.cur
    ensures ChunkDone(s, MapPadStep(t), valid, i + 1)
  {
    var t', l := MapPadStep(t), s.lines[s.cur];
    PadNext(l, valid, i);
    forall j | 0 <= j < i ensures SectorDone(s, t', valid, j) {
      assert SectorDone(s, t, valid, j);
    }
  }

  lemma ChunkStays(s: State, t: State, valid: nat, i: nat, l: nat, secs: seq<nat>)
    requires ChunkDone(s, t, valid, i) && l < |t.lines| && l != s.cur
    ensures ChunkDone(s, ReplaceStep(t, l, secs), valid, i)
  {
    var t' := ReplaceStep(t, l, secs);
    forall j | 0 <= j < i ensures SectorDone(s, t', valid, j) {
      assert SectorDone(s, t, valid, j);
    }
  }

  // ---------------------------------------------------------------- what completions leave

  /** `rest` are the requests from the first one still with the device on. */
  ghost predicate FirstOut(reqs: seq<Req>, rest: seq<Req>) {
    exists m :: 0 <= m <= |reqs| && rest == reqs[m..] && (m < |reqs| ==> !reqs[m].back) && forall j :: 0 <= j < m ==> reqs[j].back
  }

  lemma {:induction false} DropBackIs(reqs: seq<Req>)
    ensures FirstOut(reqs, DropBack(reqs))
  {
    if reqs == [] || !reqs[0].back {
      assert reqs == reqs[0..];
    } else {
      DropBackIs(reqs[1..]);
      var rest := reqs[1..];
      var m :| 0 <= m <= |rest| && DropBack(rest) == rest[m..] && (m < |rest| ==> !rest[m].back) && forall j :: 0 <= j < m ==> rest[j].back;
      assert rest[m..] == reqs[m + 1..];
      forall j | 0 <= j < m + 1 ensures reqs[j].back { if j > 0 { assert rest[j - 1] == reqs[j]; } }
    }
  }

  lemma SyncAt(s0: State, r: Run, s: State)
    requires Leads(s0, r, s)
    ensures s.sync == if s.reqs == [] then s.disp else s.reqs[0].sentry
  {
    HistInv(s0, r, s);
  }

  /** Only of line `l` has the device lost anything. */
  predicate Elsewhere(media: map<(nat, nat), Data>, media': map<(nat, nat), Data>, l: nat) {
    && (forall key :: key in media && key.0 != l ==> key in media')
    && (forall key :: key in media' ==> key in media && media'[key] == media[key])
  }

  /** Erasing sectors of a line. */
  function WipeRun(r: Run, l: nat, secs: seq<nat>): Run {
    if secs == [] then r else Then(WipeRun(r, l, secs[..|secs| - 1]), Wipe(l, secs[|secs| - 1]))
  }

  function DiscardRun(r: Run, slba: nat, count: nat): Run {
    if count == 0 then r else Then(DiscardRun(r, slba, count - 1), Discard(slba + count - 1))
  }

  /** The first `count` sectors of a chunk: the valid ones, then padding. */
  function ChunkRun(r: Run, validSecs: nat, count: nat): Run {
    if count == 0 then r
    else Then(ChunkRun(r, validSecs, count - 1), if count - 1 < validSecs then MapEntry else MapPad)
  }

  function SyncRun(r: Run, count: nat): Run {
    if count == 0 then r else Then(SyncRun(r, count - 1), SyncOne)
  }

  lemma {:induction false} SyncRunSum(r: Run, a: nat, b: nat)
    ensures SyncRun(SyncRun(r, a), b) == SyncRun(r, a + b)
  {
    if b > 0 { SyncRunSum(r, a, b - 1); }
  }

  // What the histories mean to a reader of address `a`.

  lemma {:induction false} FillLast(r: Run, k: nat, lba: nat, data: seq<Data>, n: nat, a: nat)
    requires n <= |data|
    ensures LastValue(FillRun(r, k, lba, data, n), a) == if lba <= a < lba + n then Some(data[a - lba]) else LastValue(r, a)
  {
    if n > 0 { FillLast(r, k, lba, data, n - 1, a); }
  }

  lemma {:induction false} L2pLast(r: Run, n: nat, a: nat)
    ensures LastValue(L2pRun(r, n), a) == LastValue(r, a)
  {
    if n > 0 { L2pLast(r, n - 1, a); }
  }

  /** A user write leaves its data at its addresses and everything else alone. */
  lemma WriteLast(r: Run, s: State, lba: nat, data: seq<Data>, a: nat)
    ensures LastValue(WriteRun(r, s, lba, data), a) == if lba <= a < lba + |data| then Some(data[a - lba]) else LastValue(r, a)
  {
    L2pLast(r, ToUpdate(s, |data|), a);
    FillLast(ReserveRun(r, s, |data|), s.mem, lba, data, |data|, a);
  }

  /** A discard leaves nothing at its addresses and everything else alone. */
  lemma {:induction false} DiscardLast(r: Run, slba: nat, n: nat, a: nat)
    ensures LastValue(DiscardRun(r, slba, n), a) == if slba <= a < slba + n then None else LastValue(r, a)
  {
    if n > 0 { DiscardLast(r, slba, n - 1, a); }
  }

  /** GC changes nothing a reader sees. */
  lemma {:induction false} GcLast(r: Run, k: nat, l: nat, secs: seq<nat>, lbas: seq<Option<nat>>, n: nat, a: nat)
    requires n <= |lbas| == |secs|
    ensures LastValue(GcFillRun(r, k, l, secs, lbas, n), a) == LastValue(r, a)
  {
    if n > 0 { GcLast(r, k, l, secs, lbas, n - 1, a); }
  }

  /** Nor do mapping a chunk and completing requests. */
  lemma {:induction false} ChunkLast(r: Run, valid: nat, n: nat, a: nat)
    ensures LastValue(ChunkRun(r, valid, n), a) == LastValue(r, a)
  {
    if n > 0 { ChunkLast(r, valid, n - 1, a); }
  }

  lemma {:induction false} SyncLast(r: Run, n: nat, a: nat)
    ensures LastValue(SyncRun(r, n), a) == LastValue(r, a)
  {
    if n > 0 { SyncLast(r, n - 1, a); }
  }

  /** `r` leads from the fresh instance `s0` to `s`.  The trigger keeps runs folded until `Recall` is mentioned. */
  ghost predicate Leads(s0: State, r: Run, s: State) {
    forall h {:trigger Recall(h)} :: h == r ==> Init(s0) && RunTo(s0, h) == Some(s)
  }

  predicate Recall(r: Run) { true }

  lemma LeadsTo(s0: State, r: Run, s: State)
    ensures Leads(s0, r, s) <==> Init(s0) && RunTo(s0, r) == Some(s)
  {
    assert Recall(r);
  }

  /** A step taken from where the history leads extends it. */
  lemma NextStep(s0: State, r: Run, s: State, op: Op)
    requires Leads(s0, r, s) && Enabled(s, op) && Safe(s, op)
    ensures Leads(s0, Then(r, op), Step(s, op))
  {
    LeadsTo(s0, r, s);
    LeadsTo(s0, Then(r, op), Step(s, op));
  }

  function FreshState(secPerLine: nat, ringSize: nat, nrSecs: nat, nrLines: nat, secs: seq<nat>): State {
    State(secPerLine, 0, 0, 0, 0, 0, seq(ringSize, _ => Entry(Writable, 0, Empty, 0, false)), {}, map[], [],
          seq(nrSecs, _ => Empty), seq(nrLines, l => if l == 0 then FreshLine(secs, secPerLine) else FreeLine()),
          0, map[], map[])
  }

  lemma FreshLeads(secPerLine: nat, ringSize: nat, nrSecs: nat, nrLines: nat, secs: seq<nat>)
    requires ringSize > 0 && nrLines > 0 && GoodSecs(secs, secPerLine)
    ensures var s := FreshState(secPerLine, ringSize, nrSecs, nrLines, secs); Leads(s, Start, s)
  {
    var s := FreshState(secPerLine, ringSize, nrSecs, nrLines, secs);
    assert s.lines[0] == FreshLine(secs, secPerLine);
    LeadsTo(s, Start, s);
  }

  lemma HistInv(s0: State, r: Run, s: State)
    requires Leads(s0, r, s)
    ensures Inv(s)
  {
    LeadsTo(s0, r, s);
    InitOk(s0);
    RunRefines(s0, r);
  }

  /** Nothing maps into a free line. */
  lemma FreeClean(s0: State, r: Run, s: State, l: nat)
    requires Leads(s0, r, s) && l < |s.lines| && s.lines[l].state == Free
    ensures NoneMapped(s.trans, l)
  {
    HistInv(s0, r, s);
    FreeUnused(s.secPerLine, s.ring, s.trans, s.lines, s.media, l);
  }

  lemma ReachPointers(s0: State, r: Run, s: State)
    requires Leads(s0, r, s)
    ensures Pointers(s)
  {
    HistInv(s0, r, s);
  }

  lemma ReachL2p(s0: State, r: Run, s: State)
    requires Leads(s0, r, s) && s.l2p < s.sync
    ensures L2pReady(s)
  {
    HistInv(s0, r, s);
    L2pEnabled(s);
  }

  // ---------------------------------------------------------------- facts the methods use

  lemma FillReady(s0: State, r: Run, s: State, k: nat)
    requires Leads(s0, r, s) && k in s.unfilled
    ensures Sized(s) && Slot(s.ring, k).flag == Writable
  {
    HistInv(s0, r, s);
    assert s.subm <= k < s.mem;
  }

  lemma ReachMapped(s0: State, r: Run, s: State, lba: nat)
    requires Leads(s0, r, s) && lba < |s.trans|
    ensures Sized(s) && Mapped(s, lba) && Readable(s, lba)
    ensures s.trans[lba].Cached? ==> s.ring[s.trans[lba].slot].lba == lba && s.ring[s.trans[lba].slot].flag != Writable
  {
    HistInv(s0, r, s);
  }

  lemma GcFillReady(s0: State, r: Run, s: State, k: nat, l: nat, p: nat)
    requires Leads(s0, r, s) && k in s.unfilled && (l, p) in s.gc && s.half == map[]
    ensures Enabled(s, GcFill(k, l, p)) && Slot(s.ring, k).flag == Writable && s.gc[(l, p)].lba < |s.trans|
  {
    HistInv(s0, r, s);
    assert s.subm <= k < s.mem;
  }

  lemma ProgramReady(s0: State, r: Run, s: State, k: nat)
    requires Leads(s0, r, s) && s.sync <= k < s.disp
    ensures Enabled(s, Program(k))
  {
    HistInv(s0, r, s);
    assert Slot(s.ring, k).flag == Submitted;
  }

  lemma ReadReady(s0: State, r: Run, s: State, l: nat, p: nat)
    requires Leads(s0, r, s) && ToScan(s, l, p)
    ensures CanScan(s, l, p)
  {
    HistInv(s0, r, s);
    ScanGuard(s, l, p);
  }

  /** A closed line has its first reference. */
  lemma ReachHeld(s0: State, r: Run, s: State, l: nat)
    requires Leads(s0, r, s) && l < |s.lines| && s.lines[l].state == Closed
    ensures s.lines[l].held
  {
    HistInv(s0, r, s);
    assert LineOk(s.lines[l], s.secPerLine, |s.trans|);
  }

  lemma {:induction false} BackAppend(reqs: seq<Req>, q: Req, n: nat)
    requires n > 0 && !q.back
    ensures BackCtxs(reqs + [q], n) == BackCtxs(reqs, n)
  {
    if reqs == [] {
      assert reqs + [q] == [q] && ([q])[1..] == [];
    } else {
      BackAppend(reqs[1..], q, n);
      assert (reqs + [q])[0] == reqs[0] && (reqs + [q])[1..] == reqs[1..] + [q];
    }
  }

  lemma ReachRead(s0: State, r: Run, s: State, lba: nat)
    requires Leads(s0, r, s) && lba < |s.trans|
    ensures Readable(s, lba) && Read(s, lba) == LastValue(r, lba)
  {
    LeadsTo(s0, r, s);
    InitOk(s0);
    RunRefines(s0, r);
    PlainRunSize(FtlRun.View(s0), r);
    ReadsLastWrite(s0, r, lba);
  }

  /** The next `valid` entries are filled and the open line has `count` sectors left. */
  predicate ToMap(s: State, valid: nat, count: nat) {
    && Sized(s) && s.subm + valid <= s.mem && s.lines[s.cur].next + count <= |s.lines[s.cur].secs|
    && (forall k :: k in s.unfilled ==> s.subm + valid <= k)
  }

  /** How many sectors the line in use has left. */
  function Left(s: State): int
    requires Sized(s)
  {
    |s.lines[s.cur].secs| - s.lines[s.cur].next
  }

  /** Only the line in use changes, and by `count` sectors. */
  predicate Used(s: State, t: State, count: nat) {
    && Sized(s) && Sized(t) && t.cur == s.cur && |t.lines| == |s.lines| && Left(t) == Left(s) - count
    && forall l :: 0 <= l < |s.lines| && l != s.cur ==> t.lines[l] == s.lines[l]
  }

  lemma MapReady(s0: State, r: Run, s: State, valid: nat, count: nat)
    requires Leads(s0, r, s) && ToMap(s, valid, count) && 0 < valid && 0 < count
    ensures CanAlloc(s) && s.subm < s.mem && Slot(s.ring, s.subm).flag == Written
    ensures ToMap(MapEntryStep(s), valid - 1, count - 1)
  {
    HistInv(s0, r, s);
    assert s.subm !in s.unfilled;
  }

  /** The first request has `left` entries to go before only `rest` remain. */
  predicate Shrunk(reqs: seq<Req>, rest: seq<Req>, left: nat) {
    if left == 0 then reqs == rest
    else reqs != [] && reqs[0].back && reqs[0].nr == left && reqs[1..] == rest
  }

  lemma ShrinkHead(reqs: seq<Req>, rest: seq<Req>, left: nat)
    requires Shrunk(reqs, rest, left) && left > 0
    ensures Shrunk(SyncReqs(reqs), rest, left - 1)
  {
    if left > 1 { assert SyncReqs(reqs)[1..] == reqs[1..]; }
  }

  lemma ReachHead(s0: State, r: Run, s: State)
    requires Leads(s0, r, s) && s.reqs != []
    ensures s.reqs[0].nr > 0 && s.reqs[0].sentry == s.sync
  {
    HistInv(s0, r, s);
  }

  lemma SyncEnabled(s0: State, r: Run, s: State)
    requires Leads(s0, r, s) && s.reqs != [] && s.reqs[0].back
    ensures SyncReady(s)
  {
    HistInv(s0, r, s);
    TiledOrder(s.reqs, s.sync, s.disp);
    assert Slot(s.ring, s.sync).flag == Submitted;
  }

  function Acked(reqs: seq<Req>, i: nat): seq<Req>
    requires i < |reqs|
  {
    reqs[i := reqs[i].(back := true)]
  }

  /** How many entries lie before the first request still with the device. */
  function BackLen(reqs: seq<Req>): nat {
    if reqs == [] || !reqs[0].back then 0 else reqs[0].nr + BackLen(reqs[1..])
  }

  function DropBack(reqs: seq<Req>): seq<Req> {
    if reqs == [] || !reqs[0].back then reqs else DropBack(reqs[1..])
  }

  /** The contexts of the requests whose completion has arrived. */
  function BackCtxs(reqs: seq<Req>, n: nat): multiset<Ctx>
    requires n > 0
  {
    if reqs == [] then multiset{}
    else (if reqs[0].back then multiset{Ctx(Wrap(reqs[0].sentry, n), reqs[0].nr)} else multiset{}) + BackCtxs(reqs[1..], n)
  }

  lemma HeadBack(reqs: seq<Req>)
    requires reqs != [] && reqs[0].back
    ensures BackLen(reqs) == reqs[0].nr + BackLen(reqs[1..]) && DropBack(reqs) == DropBack(reqs[1..])
  {
  }

  lemma RemoveOne(cs: seq<Ctx>, j: nat)
    requires j < |cs|
    ensures multiset(cs[..j] + cs[j + 1..]) == multiset(cs) - multiset{cs[j]}
  {
    assert cs == cs[..j] + [cs[j]] + cs[j + 1..];
  }

  lemma {:induction false} AckedCtxs(reqs: seq<Req>, i: nat, n: nat)
    requires n > 0 && i < |reqs| && !reqs[i].back
    ensures BackCtxs(Acked(reqs, i), n) == BackCtxs(reqs, n) + multiset{Ctx(Wrap(reqs[i].sentry, n), reqs[i].nr)}
  {
    var acked := Acked(reqs, i);
    if i == 0 {
      assert acked[1..] == reqs[1..];
    } else {
      AckedCtxs(reqs[1..], i - 1, n);
      assert acked[1..] == Acked(reqs[1..], i - 1);
    }
  }

  /** Only the first request starts at `sync`, also when positions are masked. */
  lemma SentryAtSync(s0: State, r: Run, s: State, i: nat)
    requires Leads(s0, r, s) && i < |s.reqs|
    ensures s.ring != [] && (s.reqs[0].sentry == s.sync)
    ensures Wrap(s.reqs[i].sentry, |s.ring|) == Wrap(s.sync, |s.ring|) <==> i == 0
  {
    HistInv(s0, r, s);
    TiledBounds(s.reqs, s.sync, s.disp, i);
    if i > 0 { WrapsDiffer(|s.ring|, s.sync, s.reqs[i].sentry); }
  }

  lemma {:induction false} InBack(reqs: seq<Req>, n: nat, c: Ctx) returns (i: nat)
    requires n > 0 && c in BackCtxs(reqs, n)
    ensures i < |reqs| && reqs[i].back && c == Ctx(Wrap(reqs[i].sentry, n), reqs[i].nr)
  {
    if reqs[0].back && c == Ctx(Wrap(reqs[0].sentry, n), reqs[0].nr) {
      i := 0;
    } else {
      i := InBack(reqs[1..], n, c);
      i := i + 1;
    }
  }

  lemma QueuedHead(s0: State, r: Run, s: State, cs: seq<Ctx>, c: Ctx)
    requires Leads(s0, r, s) && s.ring != [] && multiset(cs) == BackCtxs(s.reqs, |s.ring|) && c in cs && c.sentry == Wrap(s.sync, |s.ring|)
    ensures s.reqs != [] && s.reqs[0].back && c == Ctx(Wrap(s.reqs[0].sentry, |s.ring|), s.reqs[0].nr)
    ensures BackCtxs(s.reqs[1..], |s.ring|) == multiset(cs) - multiset{c}
  {
    assert c in multiset(cs);
    var i := InBack(s.reqs, |s.ring|, c);
    SentryAtSync(s0, r, s, i);
  }

  lemma NotQueuedHead(s0: State, r: Run, s: State, cs: seq<Ctx>)
    requires Leads(s0, r, s) && s.ring != [] && multiset(cs) == BackCtxs(s.reqs, |s.ring|)
    requires forall c :: c in cs ==> c.sentry != Wrap(s.sync, |s.ring|)
    ensures s.reqs == [] || !s.reqs[0].back
  {
    if s.reqs != [] {
      SentryAtSync(s0, r, s, 0);
      var c := Ctx(Wrap(s.sync, |s.ring|), s.reqs[0].nr);
      assert c !in multiset(cs);
    }
  }

  /** With request `i` acknowledged: the first one ends and its context is not queued, any other ends nothing. */
  lemma HeadOrNot(reqs: seq<Req>, i: nat, n: nat)
    requires n > 0 && i < |reqs| && !reqs[0].back && !reqs[i].back
    ensures Acked(reqs, i)[0].back <==> i == 0
    ensures i == 0 ==> BackCtxs(Acked(reqs, 0)[1..], n) == BackCtxs(reqs, n) && Acked(reqs, 0)[0].nr == reqs[0].nr
    ensures BackLen(Acked(reqs, i)) == if i == 0 then reqs[0].nr + BackLen(Acked(reqs, 0)[1..]) else 0
    ensures DropBack(Acked(reqs, i)) == if i == 0 then DropBack(Acked(reqs, 0)[1..]) else Acked(reqs, i)
  {
    assert Acked(reqs, 0)[1..] == reqs[1..];
  }

  /** Ending whole requests from the front of `reqs0` has synced `ended` entries and left `reqs`. */
  predicate Ended(reqs0: seq<Req>, reqs: seq<Req>, ended: nat) {
    ended + BackLen(reqs) == BackLen(reqs0) && DropBack(reqs) == DropBack(reqs0)
  }

  lemma EndedMore(reqs0: seq<Req>, reqs: seq<Req>, ended: nat)
    requires Ended(reqs0, reqs, ended) && reqs != [] && reqs[0].back
    ensures Ended(reqs0, reqs[1..], ended + reqs[0].nr)
  {
  }
}

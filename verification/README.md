# Verified model of the pblk translation layer and its neighbours

This project models the flash translation layers of the host-based solid state drive stack and proves what they
promise their users. The main part is pblk (`Host-Base/drivers/lightnvm`), which hides flash behind a write ring,
a logical-to-physical map, lines of flash with bitmaps and counters, and a garbage collector (GC). Around it are
the address format, line layout, request sizing, erasing, the rate limiter, the interval allocator, the older
target rrpc, and the write cache of fscftl.

## How the model is built

* `Ftl`, `FtlInv`, `FtlSteps`, `FtlDevice`, `FtlGc`, `FtlRun`, `FtlFacts`, `FtlReads`, `FtlOrder`, `FtlPadded`,
  `FtlVictim`, `FtlRace`, `FtlScan` and `FtlExamples` describe pblk as a step system of twenty steps.
  A state holds ring, map, lines, device contents and what GC has in hand. Steps are finer than the driver's locked
  regions, so every interleaving of user writes, discards, the writer thread, device completions in any order, GC,
  erases and line changes is a run. A `Run` is a list of steps by its last one.
* Three steps of the driver can go wrong, and `Safe` is what they would have to check: starting GC on a line, an entry
  leaving the ring, and GC passing over a sector. A *safe run* (`RunTo`) takes only safe steps; `Goes` takes every
  step the driver takes. Each of the three conditions is proved to be exactly what is needed.
* `Pblk` (module `PblkInstance`) is the driver's instance as a class over arrays with masked ring positions. Every
  method appends to a history, and the history is proved to be a safe run of the step system that leads to the present
  state, so everything proved about safe runs holds of the class. The two methods that can take an unsafe step
  say when the step is one of the history.
* `Stripes`, `Bitmap`, `LineLayout`, `Codec`, `Requests`, `Erase`, `GcScan`, `RateLimiter` are the parts of pblk
  below and beside that. `Bitwise` and `RingIndex` prove masks and 32-bit wrap-around equal to arithmetic.
* `Areas`, `Rrpc`, `Fifo`, `WriteCache` and `ValidPages` are the other components, `Basics` what several modules share.

The main results:

* Every safe run from a fresh instance behaves like a plain map from addresses to data (`FtlRun.ReadsLastWrite`). In
  every state so reached the modelled BUG_ON and WARN_ON checks of the driver pass (`FtlRun.NeverStuck`).
* pblk's GC does not check whether a victim still has ring entries that will be installed into it.
  `FtlVictim.StartExact` shows that starting GC on a closed line is harmless if and only if there is no such entry or
  the line has padding, in every state a safe run reaches. A padded line is never freed at all, by any run
  (`FtlPadded.NeverFreed`). `FtlExamples.LossExample` is a run of a fresh instance that loses a write.
* A thread fills a slot and maps its address in two steps, and the driver does not check that the second is done when
  the entry leaves the ring. `FtlRace.RetireExact` gives the exact condition, for users and GC alike;
  `FtlExamples.RaceReachable` reaches its failure. Once the slot can be reserved again, readers of the address retry
  until it is written or discarded if and only if GC has no copy of it left to put into a slot (`FtlRace.RetryExact`).
  Otherwise the copy, older than the write, may come to lie in that slot: reads return it and it ends up on the device
  (`FtlExamples.OldDataBack`).
* A GC batch of one sector moves nothing although it counts as moved (`read_rq_gc` returns 0 where it means 1).
  `FtlScan.CollectExact` shows, for every closed line that a safe run reaches and GC may safely start on, that no run,
  safe but for the scan as coded, frees it under an address if and only if the line has padding or the scan hands on every sector that needs it: that holds its address,
  which no sector that is read names too and no user writes over before the line can be freed. `GcScan.HandsOnAll` shows
  that it does so if and only if none of these is alone in its batch.
* A read at the device returns what its address held at the lookup, in every state of a safe run, if and only if the
  run does not erase the sector (`FtlReads.ReadExact`). Nothing in the driver keeps the erase back:
  `FtlExamples.ErasedUnderRead` is a safe run in which it comes first.
* For every set of bad blocks, line set-up accounts for every sector, and end metadata is read from where it was
  written (`LineLayout.Line.Setup`, `LineLayout.Line.UseLine`).
* `pblk_map_rq` maps right exactly when the padding is less than a chunk or the valid sectors are whole chunks
  (`Requests.MapExact`); what `pblk_submit_write` submits always is (`Requests.SubmitMapsRight`).
* An erase picked by `pblk_map_erase_rq` is submitted only after the request is mapped. If a later chunk of the same
  request fills the line in use, its replacement waits for that erase, whatever completes meanwhile. `Erase.MapEraseRq`
  says exactly when, and `Erase.FreshDeadlock` gets there from a line just taken.

## Model

| member | source | states |
|---|---|---|
| `FtlRun.RunRefines` | Host-Base/drivers/lightnvm/pblk-core.c:1432-1508 | every safe run keeps the whole invariant and, read through the map, is the plain map that only user writes and discards change |
| `FtlRun.ReadsLastWrite` | Host-Base/drivers/lightnvm/pblk-read.c:237-272 | after any safe run of a fresh instance a read of any address gives the last value written there, or nothing if it was discarded since or never written |
| `FtlRun.StepReads` | Host-Base/drivers/lightnvm/pblk-core.c:1432-1508 | one safe step changes what one address reads only if it is a write or discard of that address; GC, draining, completion, L2P advance, erases and line changes are invisible |
| `FtlRun.StepKeeps` | Host-Base/drivers/lightnvm/pblk-core.c:1432-1508 | each of the twenty steps keeps the invariant; starting GC, leaving the ring and passing over a sector ask for what the driver does not check, and `FtlVictim.StartExact`, `FtlRace.RetireExact` and `FtlScan.ScanExact` show what happens otherwise |
| `FtlRun.GuardSuffices` | Host-Base/drivers/lightnvm/pblk-rb.c:200-228 | the driver's own condition for a step implies all that it takes for granted and all its checks: an entry leaving the ring is submitted, programmed, mapped and in range, a victim's valid sectors have readable lbas |
| `FtlRun.NeverStuck` | Host-Base/drivers/lightnvm/pblk-rb.c:280-305 | in every state a safe run reaches, a step whose driver condition holds passes the checks: the slot filled is writable and the one sent is not, a sector invalidated, padded or handed out is not so already, a line whose last reference is dropped is in GC, counts are not negative |
| `FtlRun.InitOk` | Host-Base/drivers/lightnvm/pblk-init.c:87-99 | a freshly set-up instance satisfies the invariant and reads as empty everywhere |
| `FtlSteps.FillKeeps` | Host-Base/drivers/lightnvm/pblk-rb.c:280-305 | filling a reserved slot keeps the invariant, its address still mapped as before |
| `FtlSteps.PublishKeeps` | Host-Base/drivers/lightnvm/pblk-core.c:1432-1453 | mapping the address to the slot, the old sector invalidated, keeps the invariant, even if the entry has been submitted, stored or synced meanwhile |
| `FtlSteps.GcFillKeeps` | Host-Base/drivers/lightnvm/pblk-cache.c:98-108 | GC filling a slot with what it read keeps the invariant |
| `FtlSteps.GcPublishKeeps` | Host-Base/drivers/lightnvm/pblk-core.c:1455-1479 | the map update of GC keeps the invariant whether the address still lies in the victim or has been rewritten or discarded meanwhile |
| `FtlDevice.MapEntryKeeps` | Host-Base/drivers/lightnvm/pblk-map.c:52-75 | handing a sector to a ring entry, with the lba list and the line reference, keeps the invariant |
| `FtlDevice.MapPadKeeps` | Host-Base/drivers/lightnvm/pblk-map.c:21-34 | padding a sector keeps the invariant |
| `FtlDevice.ProgramKeeps` | Host-Base/drivers/lightnvm/pblk-write.c:373-377 | the device storing a sector of any dispatched request keeps the invariant |
| `FtlGc.SyncKeeps` | Host-Base/drivers/lightnvm/pblk-write.c:20-69 | syncing the next entry of a completed request keeps the invariant |
| `FtlGc.L2pKeeps` | Host-Base/drivers/lightnvm/pblk-rb.c:200-228 | moving the entry at `l2p_update` from cacheline to media address, or dropping it if its address has moved on, keeps the invariant, unless a writer is still to map its address to the slot |
| `FtlGc.ReplaceKeeps` | Host-Base/drivers/lightnvm/pblk-core.c:1111-1208 | setting up an erased free line as the data line keeps the invariant |
| `FtlGc.WipeKeeps` | Host-Base/drivers/lightnvm/pblk-core.c:774-795 | erasing a sector of a free line, at any time, keeps the invariant |
| `FtlGc.CloseKeeps` | Host-Base/drivers/lightnvm/pblk-core.c:1289-1332 | closing a line keeps the invariant |
| `FtlGc.GcStartKeeps` | Host-Base/drivers/lightnvm/pblk-gc.c:199-251 | starting GC on a closed line no ring entry would still be installed into keeps the invariant |
| `FtlGc.GcReadKeeps` | Host-Base/drivers/lightnvm/pblk-read.c:369-394 | GC looking up and reading a valid sector keeps the invariant |
| `FtlGc.GcSkipKeeps` | Host-Base/drivers/lightnvm/pblk-read.c:396-425 | GC passing over a sector keeps the invariant if the address of the sector has left it, is in hand for another sector, or will be written over before the last entry mapped to the line can leave the ring |
| `FtlGc.GcPutKeeps` | Host-Base/drivers/lightnvm/pblk-gc.c:168-172 | GC dropping its reference once every valid sector is looked at and written out keeps the invariant, also when that frees the line; what then still maps into the line is written over before it can be freed |
| `FtlFacts.EveryRun` | Host-Base/drivers/lightnvm/pblk-rb.c:342-371 | after any safe run: `l2p <= sync <= disp <= subm <= mem < l2p + n`, every slot's flag follows from its position, requests with the device tile what is dispatched and unsynced, `vsc` is exact, and nothing maps or will map into a free line |
| `FtlFacts.VscExact` | Host-Base/drivers/lightnvm/pblk-core.c:74-118 | `vsc` of an open or closed line is the sectors not handed out plus the addresses mapped into it plus the ring entries awaiting their L2P update: no valid sector is unowned or owned twice |
| `FtlFacts.VscCountsValid` | Host-Base/drivers/lightnvm/pblk-core.c:74-118 | `vsc` is the number of clear bits of `invalid_bitmap` |
| `FtlFacts.NeverInvalidatedTwice` | Host-Base/drivers/lightnvm/pblk-core.c:101-107 | a sector about to be invalidated is valid |
| `FtlFacts.FullLineSafe` | Host-Base/drivers/lightnvm/pblk-gc.c:209-217 | a closed line with `vsc == 0` has no mapped address and no pending entry, so it is always safe to collect |
| `FtlFacts.GcFreezesVsc` | Host-Base/drivers/lightnvm/pblk-core.c:92-99 | while a line is in GC its bitmap and `vsc` do not move, over any safe run |
| `FtlFacts.ClosedWhenSynced` | Host-Base/drivers/lightnvm/pblk-write.c:20-30 | `left_ssecs` is zero exactly when every data sector is handed out and synced or padded |
| `FtlFacts.ClosingQueuedOnce` | Host-Base/drivers/lightnvm/pblk-write.c:20-30 | from one set-up of a line to the next, closing it is queued at most once, and exactly when the count has run down to zero |
| `FtlReads.ReadInFlight` | Host-Base/drivers/lightnvm/pblk-read.c:237-272 | what the device returns for an address looked up earlier is what the address held then, over any safe run of overwrites, discards, GC moves, the freeing and even the re-use of its line, until the sector is erased |
| `FtlReads.ReadExact` | Host-Base/drivers/lightnvm/pblk-read.c:237-272 | at every moment of a safe run the sector still holds what the address held at the lookup if and only if the run does not erase that sector |
| `FtlReads.GcReadInFlight` | Host-Base/drivers/lightnvm/pblk-read.c:369-394 | what GC looked up in its victim is still on the device, whatever else happens, as long as GC holds the line |
| `FtlReads.CopyInFlight` | Host-Base/drivers/lightnvm/pblk-rb.c:600-638 | a read that found its address in the ring copies what the address held at the lookup, and passes the check, as long as the entry has not left the ring |
| `FtlReads.SettledStep` | Host-Base/drivers/lightnvm/pblk-core.c:460-494 | a sector handed out and stored is neither handed out nor stored again, and keeps its contents, before it is erased |
| `FtlRace.RetireExact` | Host-Base/drivers/lightnvm/pblk-rb.c:200-228 | an entry may leave the ring if and only if no writer, user or GC, is still to map its address to it: exactly then no later safe run leaves an address mapped to a free slot |
| `FtlRace.TooEarly` | Host-Base/drivers/lightnvm/pblk-cache.c:49-58 | if a user's entry leaves first, the map update that follows names a free slot |
| `FtlRace.GcTooEarly` | Host-Base/drivers/lightnvm/pblk-cache.c:98-108 | so it does for an entry of GC whose address still lies in the victim |
| `FtlRace.StaleForever` | Host-Base/drivers/lightnvm/pblk-rb.c:600-638 | an address so mapped stays mapped to that slot and every copy for it fails, over any safe run that neither writes nor discards it, however often the slot is filled for others, if every copy of it that GC has in hand is in a slot already |
| `FtlRace.OldCopyReturns` | Host-Base/drivers/lightnvm/pblk-cache.c:98-108 | with such a copy left, GC may fill that very slot with it: a read of the address then passes the check and returns what the address held before the write |
| `FtlRace.RetryExact` | Host-Base/drivers/lightnvm/pblk-rb.c:600-638 | once the slot is or can be reserved again, readers retry in every safe run that neither writes nor discards the address if and only if GC has no copy of it left to put into a slot |
| `FtlRace.AlwaysPlaced` | Host-Base/drivers/lightnvm/pblk-cache.c:20-67 | in every state of every run of a fresh instance, safe or not, whoever has filled a slot and not mapped it has one that was reserved and is filled, which is all `FtlRace.RetryExact` asks of the state besides the stale address |
| `FtlExamples.RaceReachable` | Host-Base/drivers/lightnvm/pblk-cache.c:20-67 | a safe run of a fresh instance comes to a state where the entry of an unmapped write may leave the ring, after which its map update names a free slot |
| `FtlExamples.OldDataBack` | Host-Base/drivers/lightnvm/pblk-core.c:1481-1508 | in a run of a fresh instance whose last write of an address is `d1`, reads of it return the earlier `d`, first from the ring, where they pass the check, and in the end from the device |
| `FtlVictim.CheckIsExact` | Host-Base/drivers/lightnvm/pblk-gc.c:199-251 | for every closed line, in states with the order of `FtlOrder.RunOrder`: no safe run after GC starts on it frees it under a mapped address if and only if no ring entry will still be installed into it or it has padding; nothing is asked of the room in the ring or of writes half way |
| `FtlVictim.StartExact` | Host-Base/drivers/lightnvm/pblk-gc.c:199-251 | the same in every state a safe run of a fresh instance reaches: the check `Safe` makes is exact |
| `FtlVictim.InstallLoses` | Host-Base/drivers/lightnvm/pblk-read.c:379-387 | with such an entry and no padding there is a safe run, in which writers map what they filled and users discard what else lies in the victim, that ends with the victim free and an address mapped into it |
| `FtlVictim.SafeStart` | Host-Base/drivers/lightnvm/pblk-core.c:1210-1229 | without such an entry no safe run after the start leaves an address mapped into any free line |
| `FtlPadded.NeverFreed` | Host-Base/drivers/lightnvm/pblk-map.c:52-75 | a line in GC in which a sector was padded keeps that reference for ever: no run, safe or not, frees it |
| `FtlPadded.AlwaysClean` | Host-Base/drivers/lightnvm/pblk-rb.c:146-158 | in every state of every run, safe or not, a slot free to be filled names no sector |
| `FtlOrder.RunOrder` | Host-Base/drivers/lightnvm/pblk-map.c:36-84 | along any safe run ring entries are mapped to lines in blocks: those of one line lie together in the ring, and those of the line in use come last |
| `FtlExamples.LossExample` | Host-Base/drivers/lightnvm/pblk-core.c:1481-1508 | a run of a fresh instance in which the code as written loses a write: an address ends mapped into a free line |
| `FtlExamples.ErasedUnderRead` | Host-Base/drivers/lightnvm/pblk-core.c:1111-1208 | a safe run of a fresh instance looks an address up on the device and goes on to erase that sector before the read is served |
| `FtlScan.CodedSafe` | Host-Base/drivers/lightnvm/pblk-gc.c:140-168 | if no sector alone in its batch holds an address that nothing else saves, every run in which GC scans as coded is a safe run and keeps the invariant |
| `FtlScan.AloneLoses` | Host-Base/drivers/lightnvm/pblk-read.c:396-425 | with such a sector in a line without padding there is a run in which GC scans as coded, puts the line and leaves the address mapped into it, free |
| `FtlScan.ScanExact` | Host-Base/drivers/lightnvm/pblk-gc.c:140-168 | no run with the scan as coded frees the victim under an address if and only if it has padding or every sector alone in its batch that holds its address is saved: a sector that is read names the address too, or a user writes it over before the last entry mapped to the line can leave the ring |
| `FtlScan.HandsOnExact` | Host-Base/drivers/lightnvm/pblk-read.c:396-425 | the same, in the scan's own terms: if and only if the victim has padding or what the scan hands on is every sector that needs it |
| `FtlScan.CollectExact` | Host-Base/drivers/lightnvm/pblk-gc.c:140-168 | the same from a closed line that a safe run of a fresh instance reaches and GC may start on, scanned in the order of its bitmap |
| `PblkInstance.Pblk.constructor` | Host-Base/drivers/lightnvm/pblk-rb.c:48-129 | a new instance is valid with an empty history, nothing on the device, line 0 open with its data sectors and the other lines free |
| `PblkInstance.Pblk.PageInvalidate` | Host-Base/drivers/lightnvm/pblk-core.c:74-118 | the in-place update is the step system's: nothing for lines in GC or free, nothing twice |
| `PblkInstance.Pblk.UpdateMapCache` | Host-Base/drivers/lightnvm/pblk-core.c:1432-1453 | the old sector is invalidated and the address mapped anew |
| `PblkInstance.Pblk.UpdateMapDev` | Host-Base/drivers/lightnvm/pblk-core.c:1481-1508 | the media address is installed unless the address has moved on, in which case the sector is invalidated |
| `PblkInstance.Pblk.UpdateMapGc` | Host-Base/drivers/lightnvm/pblk-core.c:1455-1479 | only an address still in the victim is remapped |
| `PblkInstance.Pblk.UpdateL2p` | Host-Base/drivers/lightnvm/pblk-rb.c:200-228 | advancing over any number of entries up to `sync` is that many L2P steps of the history |
| `PblkInstance.Pblk.MakeRoom` | Host-Base/drivers/lightnvm/pblk-rb.c:230-251 | entries leave the ring only if the request does not fit, and then so many that it just fits, never past `sync`; addresses change only from a slot to the device |
| `PblkInstance.Pblk.MayWrite` | Host-Base/drivers/lightnvm/pblk-rb.c:342-371 | a reservation succeeds exactly when the unsynced entries leave room, and moves `l2p_update` only as far as needed; otherwise nothing changes |
| `PblkInstance.Pblk.WriteToCache` | Host-Base/drivers/lightnvm/pblk-cache.c:20-67 | a user write puts its sectors, in order, into the slots from `mem` on and maps each address to its slot, or does nothing if there is no room; in the history it is the reservation and one fill and one map update per sector; other addresses change only from a slot to the device |
| `PblkInstance.Pblk.InvalidateRange` | Host-Base/drivers/lightnvm/pblk-core.c:120-134 | a discard unmaps exactly its addresses, as one unmap per address in the history |
| `PblkInstance.Pblk.WriteGcToCache` | Host-Base/drivers/lightnvm/pblk-cache.c:73-119 | GC's list is written into the slots from `mem` on, in order, entries without an lba taking no slot; an address still in the victim maps to the slot of the first entry that names it, and no other is mapped to a slot of GC |
| `PblkInstance.Pblk.MapPageData` | Host-Base/drivers/lightnvm/pblk-map.c:36-84 | a chunk gives its valid entries, in order, the next sectors of the line, with address, lba list and references, and makes the rest of the sectors padding, which is empty in the lba list and invalid; if that fills the line, the next line takes over in the same call, and the call leaves room exactly if the line was not filled or a next one was there |
| `PblkInstance.Pblk.SubmitIo` | Host-Base/drivers/lightnvm/pblk-write.c:373-377 | a dispatched request is the next mapped entries in ring order |
| `PblkInstance.Pblk.StoreSector` | Host-Base/drivers/lightnvm/pblk-write.c:373-377 | the device may store any dispatched sector at any time; its entry is always mapped |
| `PblkInstance.Pblk.LineClose` | Host-Base/drivers/lightnvm/pblk-core.c:1289-1332 | closing is a step of the history |
| `PblkInstance.Pblk.ReplaceData` | Host-Base/drivers/lightnvm/pblk-core.c:1111-1208 | a free, erased line takes over from a full one and is set up; no address loses its data |
| `PblkInstance.Pblk.EraseLine` | Host-Base/drivers/lightnvm/pblk-core.c:774-795 | erasing a free line leaves nothing of it on the device and everything else as it was, as steps of the history |
| `PblkInstance.Pblk.StartGc` | Host-Base/drivers/lightnvm/pblk-gc.c:199-251 | any closed line goes to GC as the driver does it; the instance stays valid, with the step in its history, when no ring entry will be installed into the line |
| `PblkInstance.Pblk.ReadListGc` | Host-Base/drivers/lightnvm/pblk-read.c:369-394 | for distinct valid sectors of a victim, each entry of the list is the lba the line names for the sector if that still maps into the victim, and empty otherwise; the data are what the device holds where these lbas map to, in the order of the list |
| `PblkInstance.ValidsCount` | Host-Base/drivers/lightnvm/pblk-cache.c:95-113 | the place of an entry's data and slot counts the entries before it that have an lba |
| `PblkInstance.Pblk.ReadOneGc` | Host-Base/drivers/lightnvm/pblk-read.c:396-425 | a single sector is looked up and never handed on, live or not; the instance stays valid, with the step in its history, when its address has left it, is in hand for another sector, or is written over in time |
| `PblkInstance.Pblk.PutVictim` | Host-Base/drivers/lightnvm/pblk-gc.c:168-172 | GC drops its reference once it has looked at every valid sector and has nothing in hand, and no address maps into a line so freed |
| `PblkInstance.Pblk.EndWrite` | Host-Base/drivers/lightnvm/pblk-write.c:32-69 | ending the request at `sync` syncs exactly its entries, in ring order |
| `PblkInstance.Pblk.CompleteWrite` | Host-Base/drivers/lightnvm/pblk-write.c:79-109 | for a completion in any order, the requests left are those from the first one still with the device on, `sync` stands at its first entry, or at all that is dispatched, the queue holds exactly the completed rest, and the retry loop terminates |
| `PblkInstance.Pblk.Drained` | Host-Base/drivers/lightnvm/pblk-write.c:79-109 | once no request is with the device the queue is empty and everything dispatched is synced |
| `PblkInstance.Pblk.ReadRq` | Host-Base/drivers/lightnvm/pblk-read.c:237-272 | reading an address through the arrays returns the last value of that address in the history; a cacheline always names a live slot with that lba |
| `PblkInstance.WriteLast` | Host-Base/drivers/lightnvm/pblk-cache.c:20-67 | in the history a user write leaves its data at its addresses and everything else alone |
| `PblkInstance.DiscardLast` | Host-Base/drivers/lightnvm/pblk-core.c:120-134 | in the history a discard leaves nothing at its addresses and everything else alone |
| `PblkInstance.GcLast` | Host-Base/drivers/lightnvm/pblk-cache.c:73-119 | in the history GC writes change no address's last value |
| `RingIndex.AdvanceWraps` | Host-Base/drivers/lightnvm/pblk-rb.c:778-781 | advancing a masked 32-bit position is advancing the unwrapped one |
| `RingIndex.CountIsDistance` | Host-Base/drivers/lightnvm/pblk-rb.c:160-186 | the masked count is the distance of the unwrapped positions |
| `RingIndex.SpaceIsRest` | Host-Base/drivers/lightnvm/pblk-rb.c:160-174 | the masked space is what is left of a ring that keeps one slot free |
| `LineLayout.FillTemplate` | Host-Base/drivers/lightnvm/pblk-init.c:640-642 | the template marks exactly the sectors of block 0 |
| `LineLayout.ColumnShift` | Host-Base/drivers/lightnvm/pblk-core.c:878-891 | the template shifted by a block's stripes marks exactly the sectors of that block |
| `LineLayout.Line.MarkBadBlocks` | Host-Base/drivers/lightnvm/pblk-core.c:878-891 | after the pass exactly the sectors of bad blocks are marked, and the bad blocks among the last ones are counted |
| `LineLayout.Line.PlaceSmeta` | Host-Base/drivers/lightnvm/pblk-core.c:893-902 | start metadata takes the first good stripe, so all before the next stripe is taken |
| `LineLayout.Line.WalkBack` | Host-Base/drivers/lightnvm/pblk-core.c:914-923 | the backward walk ends, at a good stripe from which on there are exactly as many good stripes as end metadata needs, never reaching start metadata |
| `LineLayout.Line.Setup` | Host-Base/drivers/lightnvm/pblk-core.c:800-933 | for every set of bad blocks `sec_per_line - sec_in_line` is the number of set bits of `invalid_bitmap`, the three counters start at the good sectors between the metadata, and a line without a good block is refused |
| `LineLayout.Line.TakeStripe` | Host-Base/drivers/lightnvm/pblk-core.c:460-475 | an allocation returns the next good stripe and finds every bit of it clear |
| `LineLayout.Line.AllocPage` | Host-Base/drivers/lightnvm/pblk-core.c:477-494 | while `left_msecs` is positive a data allocation ends at or before `emeta_ssec`, and the count never goes negative |
| `LineLayout.Line.WriteEmeta` | Host-Base/drivers/lightnvm/pblk-core.c:540-566 | when a full line is closed end metadata is written to the good stripes from `emeta_ssec` on, in order |
| `LineLayout.Line.ReadEmeta` | Host-Base/drivers/lightnvm/pblk-core.c:567-582 | the reader visits, in order, the good stripes from `emeta_ssec` on |
| `LineLayout.Line.UseLine` | Host-Base/drivers/lightnvm/pblk-core.c:800-933 | for every line with a good block: the addresses end metadata is read from are those it was written to, all good sectors from `emeta_ssec` on in order, and the data sectors are, in order, exactly the valid ones, `sec_in_line` of them, in good blocks, before `emeta_ssec` and inside the lba list of `sec_per_line - emeta_sec` entries; a line without a good block is refused |
| `LineLayout.FreshLineIs` | Host-Base/drivers/lightnvm/pblk-core.c:800-933 | the line so set up is the fresh line of the step system, bitmap and sectors |
| `Codec.LineAddrRoundTrip` | Host-Base/drivers/lightnvm/pblk.h:838-852 | packing what was unpacked gives every in-line address back |
| `Codec.GenRoundTrip` | Host-Base/drivers/lightnvm/pblk.h:760-772 | unpacking what was packed gives every combination of fields back |
| `Codec.GenDigits` | Host-Base/drivers/lightnvm/pblk.h:838-852 | sector, plane, channel, LUN and page are, from the lowest up, the digits of the address, each of the size its format gives it |
| `Codec.PosIsStripe` | Host-Base/drivers/lightnvm/pblk.h:755-758 | the block of an address is its stripe number modulo the number of LUNs |
| `Codec.PpafExact` | Host-Base/drivers/lightnvm/pblk-init.c:135-174 | a format is chosen exactly for power-of-two channel and LUN counts, its fields count them, and the other lengths are the device's |
| `Requests.RequestSize` | Host-Base/drivers/lightnvm/pblk-core.c:443-458 | a request is whole chunks, at most `max`, empty exactly when there is less than a chunk and no flush, padded by less than a chunk |
| `Requests.MapRq` | Host-Base/drivers/lightnvm/pblk-map.c:86-100 | from any chunk on, the loop makes of a request what `MapExact` says of the chunks as coded |
| `Requests.MapExact` | Host-Base/drivers/lightnvm/pblk-map.c:86-100 | every valid entry is mapped once, in order, and exactly the rest padded, if and only if the padding is less than a chunk or the valid sectors are whole chunks |
| `Requests.MappedAt` | Host-Base/drivers/lightnvm/pblk-map.c:86-100 | sector for sector what is mapped, right or not: sector `j` gets ring entry `sentry + j` if it is among the valid ones or its place in the chunk is among those left over, and padding otherwise |
| `Requests.SubmitMapsRight` | Host-Base/drivers/lightnvm/pblk-write.c:346-356 | what the writer submits always maps right |
| `Erase.EraseLine.constructor` | Host-Base/drivers/lightnvm/pblk-core.c:951-954 | a line taken for preparation starts with its good blocks to erase and none picked or submitted |
| `Erase.EraseLine.Pick` | Host-Base/drivers/lightnvm/pblk-map.c:121-124 | an erase is picked only on a good block neither erased nor picked this cycle; `left_eblks` keeps counting the clear bits |
| `Erase.EraseLine.Complete` | Host-Base/drivers/lightnvm/pblk-core.c:39-57 | the completion of a submitted erase lowers `left_seblks`, which keeps counting clear bits and erases picked or submitted |
| `Erase.EraseLine.FinishErase` | Host-Base/drivers/lightnvm/pblk-core.c:774-795 | the blocks left are erased, each once; what is picked or submitted stays so |
| `Erase.EraseLine.WaitErased` | Host-Base/drivers/lightnvm/pblk-core.c:1137-1153 | for submitted erases completing in any order and number, the wait ends if and only if all of them complete and none is picked but unsubmitted; it then ends with every good block erased exactly once and the bitmap full, and otherwise `left_seblks` stays positive |
| `Erase.MapUntilPick` | Host-Base/drivers/lightnvm/pblk-map.c:102-121 | the loop stops at the first chunk in a block not yet erased, the blocks being those of the next good stripes, and picks that very block, unless the line in use became full before; then the wait is run |
| `Erase.AllocChunk` | Host-Base/drivers/lightnvm/pblk-map.c:36-84 | a chunk takes the first good stripe left in the line in use; its block is that stripe's, a good one, and the line is full exactly with its last good stripe |
| `Erase.LunsAt` | Host-Base/drivers/lightnvm/pblk-core.c:460-475 | the chunks left of a line lie, one for one, in the blocks of its good stripes |
| `Erase.MapAfterPick` | Host-Base/drivers/lightnvm/pblk-map.c:86-100 | with an erase picked but not submitted, the rest of the request is mapped if and only if the line in use does not become full on the way; otherwise the wait runs for whatever arrives and the picked erase is still out |
| `Erase.MapEraseRq` | Host-Base/drivers/lightnvm/pblk-map.c:102-146 | a request is mapped like any other and submits at most one erase: of the block of its first chunk whose block is not yet erased, or else of the lowest block left; if the line in use becomes full after the pick it never completes, whatever arrives, and otherwise it does once all submitted erases arrive, a replacement on the way finding the next line fully erased |
| `Erase.FreshDeadlock` | Host-Base/drivers/lightnvm/pblk-map.c:102-146 | a next line just taken and a request that fills the line in use, with two or more good stripes left, the first in a good block of the next line, end in that wait |
| `GcScan.MoveValidSecs` | Host-Base/drivers/lightnvm/pblk-gc.c:20-64 | without failures every sector counts as moved, and what is handed on is what each batch of at most `max` hands on |
| `GcScan.CollectLine` | Host-Base/drivers/lightnvm/pblk-gc.c:140-168 | the scan looks at every valid sector exactly once, in order, terminates and ends with `sec_left == 0` |
| `GcScan.ClearsAre` | Host-Base/drivers/lightnvm/pblk-gc.c:143-153 | what is looked at is exactly the clear bits, in increasing order |
| `GcScan.HandsOnAll` | Host-Base/drivers/lightnvm/pblk-read.c:396-425 | every live sector is handed on if and only if none is alone in its batch |
| `GcScan.HandedIs` | Host-Base/drivers/lightnvm/pblk-gc.c:20-64 | for sectors in increasing order, what is handed on is exactly the live ones, in order, but those alone in their batch |
| `GcScan.LiveAre` | Host-Base/drivers/lightnvm/pblk-read.c:379-387 | what is kept of a list is exactly its live sectors, in the order of the list |
| `GcScan.OneSectorLost` | Host-Base/drivers/lightnvm/pblk-read.c:413-422 | a victim with a single valid sector, live, hands on nothing; `FtlScan.AloneLoses` shows what becomes of it |
| `RateLimiter.Limiter.MayWriteUser` | Host-Base/drivers/lightnvm/pblk-rb.c:405-426 | users enter exactly within their budget and if the ring has room for the unsynced entries; the counters count the entries of each kind between `subm` and `mem` of the ring, and a refusal changes nothing |
| `RateLimiter.Limiter.MayWriteGc` | Host-Base/drivers/lightnvm/pblk-rb.c:431-451 | GC enters exactly within its budget, or without users active, and if the ring has room; the counters stay exact |
| `RateLimiter.Limiter.Take` | Host-Base/drivers/lightnvm/pblk-rb.c:523-586 | what the writer takes and maps, in ring order, leaves the counters equal to the entries of each kind between `subm` and `mem`, never negative |
| `RateLimiter.Limiter.UpdateRates` | Host-Base/drivers/lightnvm/pblk-rl.c:91-122 | at the high mark and above GC gets its reserve and users the rest; at or below the low mark GC gets everything; in between users get one 64-entry window for each full share of free blocks, and GC the rest but at least its reserve; GC stops exactly at the high mark |
| `RateLimiter.GcKeepsWindow` | Host-Base/drivers/lightnvm/pblk-rl.c:107-117 | when throttled, users leave GC at least one 64-entry window |
| `RateLimiter.MonotoneExact` | Host-Base/drivers/lightnvm/pblk-rl.c:91-122 | the user budget never shrinks as blocks become free if and only if GC's reserve is at most one window |
| `Areas.AreaList.Get` | Host-Base/drivers/lightnvm/core.c:725-768 | a get returns the lowest fitting start, fails exactly when nothing fits, and keeps the list sorted, disjoint and within the device |
| `Areas.AreaList.Put` | Host-Base/drivers/lightnvm/core.c:771-787 | a put removes exactly the area that starts there |
| `Areas.PutThenGet` | Host-Base/drivers/lightnvm/core.c:725-787 | the range put fits again |
| `Rrpc.Target.Drop` | Host-Base/drivers/lightnvm/rrpc.c:29-49 | dropping a mapped address marks its page, and no other, never marked before, and counts it; no block changes state |
| `Rrpc.Target.InvalidateRange` | Host-Base/drivers/lightnvm/rrpc.c:51-64 | a discard unmaps exactly its addresses and changes the state of no block |
| `Rrpc.Target.AllocAddr` | Host-Base/drivers/lightnvm/rrpc.c:589-603 | the next page of the block is handed out, once, and none exactly when the block is full; other blocks stay as they are |
| `Rrpc.Target.UpdateMap` | Host-Base/drivers/lightnvm/rrpc.c:566-587 | remapping drops the old page, takes the new one and changes the state of no block |
| `Rrpc.Target.GetBlk` | Host-Base/drivers/lightnvm/rrpc.c:183-211 | a free block starts over, nothing being mapped to it |
| `Rrpc.Target.BlockGc` | Host-Base/drivers/lightnvm/rrpc.c:402-435 | a block is freed exactly when its invalid count is the block size, and then no address maps to it and no page of it is about to be mapped; nothing else changes |
| `Rrpc.PageOwners` | Host-Base/drivers/lightnvm/rrpc.c:566-603 | every page handed out is invalid, about to be mapped, or mapped by exactly one address, and only one of these |
| `Fifo.Push` | Host-Base/drivers/fscftl/writecache/wcb-mngr.c:45-65 | a push appends to the queue the links represent and touches no other node |
| `Fifo.Pull` | Host-Base/drivers/fscftl/writecache/wcb-mngr.c:68-92 | a pull takes the head and clears its links, and takes nothing from an empty queue |
| `WriteCache.Cache.constructor` | Host-Base/drivers/fscftl/writecache/wcb-mngr.c:299-317 | all entities are in the empty FIFO, in order, but the first, which is partial |
| `WriteCache.Cache.Available` | Host-Base/drivers/fscftl/datapath/bio-wr.c:400-414 | available exactly when there is an empty entity or slots to spare in the partial one |
| `WriteCache.Cache.Alloc` | Host-Base/drivers/fscftl/datapath/bio-wr.c:444-516 | after `wcb_available`, a request no larger than an entity never runs out and gets slots nobody has, each once: the next ones of the partial entity in order and, when these run out, those of the head of the empty FIFO, which becomes partial; every entity stays in exactly one place |
| `WriteCache.Cache.Fill` | Host-Base/drivers/fscftl/datapath/bio-wr.c:582-646 | an entity enters the full FIFO exactly when its last slot is filled and all are assigned |
| `WriteCache.Cache.Submit` | Host-Base/drivers/fscftl/datapath/bio-wr.c:220-249 | the longest full entity goes to the device |
| `WriteCache.Cache.LineDone` | Host-Base/drivers/fscftl/datapath/bio-wr.c:85-147 | an entity returns to the empty FIFO exactly with its last line |
| `ValidPages.Counts.SetIncache` | Host-Base/drivers/fscftl/datapath/bio-wr.c:657-677 | exactly the entry of the address changes, every count stays the number of addresses in its block, and the decrement never underflows; addresses out of range are ignored |
| `ValidPages.Counts.SetWritePath` | Host-Base/drivers/fscftl/datapath/bio-wr.c:678-701 | a request's addresses are mapped in order and the counts stay exact |
| `ValidPages.LastWritten` | Host-Base/drivers/fscftl/datapath/bio-wr.c:678-701 | the last write of an address in a request is what its entry holds |
| `ValidPages.NotWritten` | Host-Base/drivers/fscftl/datapath/bio-wr.c:678-701 | an address the request does not name keeps its entry |
| `ValidPages.InBlockIs` | Host-Base/drivers/fscftl/datapath/bio-wr.c:657-677 | a count is the size of the set of addresses whose entry lies in the block |

## Left out

- FtlRun.RunRefines: about safe runs. The driver makes none of the three checks; what happens without each is in `FtlVictim`, `FtlRace` and `FtlScan`.
- FtlRun.ReadsLastWrite: about safe runs, likewise; losing a write is what the other runs can do.
- FtlRun.StepKeeps: for an unsafe step the invariant need not hold afterwards; the exact conditions are stated by `FtlVictim.StartExact`, `FtlRace.RetireExact` and `FtlScan.ScanExact`.
- FtlGc.L2pKeeps: for entries no writer is still to map, which `FtlRace.RetireExact` shows necessary.
- FtlGc.GcStartKeeps: for victims without entries to be installed, which `FtlVictim.CheckIsExact` shows necessary.
- FtlGc.GcSkipKeeps: for sectors whose address is not lost, which `FtlScan.ScanExact` shows necessary.
- FtlRace.RetryExact: says nothing of the slot that has left the ring last, which can be reserved again only after another entry has left.
- FtlGc.GcReadKeeps: the lookup of a victim's sector and the device read are one step; `FtlReads.GcReadInFlight` shows that a read served later returns the same.
- FtlGc.ReplaceKeeps: taking a free line and setting it up are one step, erasing it others; lines that turn out bad and the choice among free lines are not modelled.
- PblkInstance.Pblk.CompleteWrite: class methods run one at a time; interleavings are covered by the step system.
- PblkInstance.Pblk.MapPageData: the line in use has room for the chunk, and the next line has been erased; waiting for its erases is in `Erase`.
- PblkInstance.Pblk.ReplaceData: the line has been erased, and is not found bad.
- PblkInstance.Pblk.StartGc: what the class promises after an unsafe start is only the new state.
- PblkInstance.Pblk.ReadOneGc: what the class promises after passing over a live sector is only the new state.
- LineLayout.Line.Setup: start metadata takes one stripe, end metadata at most one row, the good blocks hold both, and the first start metadata write succeeds; retrying it is not modelled.
- LineLayout.Line.PlaceSmeta: one stripe, and the first write succeeds.
- LineLayout.Line.UseLine: the lines `LineLayout.Line.Setup` is about.
- Codec.GenRoundTrip: field values fit the bit fields of the device address, so nothing is truncated there.
- Erase.MapEraseRq: erases succeed (a failed one turns the block bad), and a line that takes over in the middle has room for the rest of the request.
- GcScan.CollectLine: allocations, the end metadata read and its checksum succeed; putting a line back after a failure is not modelled.
- RateLimiter.Limiter.UpdateRates: the high mark is at least the number of windows, since the driver shifts by the difference.
- Areas.AreaList.Get: lengths are positive.
- Rrpc.Target.BlockGc: the reverse map and the moving of valid pages are not modelled, nor that GC terminates.
- WriteCache.Cache.Alloc: every slot takes user data, and giving slots back when entities run out is not modelled.
- WriteCache.Cache.constructor: the first entity starts at slot 0, as on a drive without an interrupted LUN.
- ValidPages.Counts.SetIncache: the in-cache bit lies outside the block field and unwritten entries name no block.
- Write failure recovery, flush guarantees, emergency and crash recovery, and start-up from an existing device.
- Which GC list a line is on and in what order victims are taken.
- How often a read retries whose entry left the ring meanwhile.
- Bringing up rrpc, its block selection and its inflight locking.
- fscftl's address successor, its block pools beyond the FIFO links, and its boot block.
- The NVMe driver, fabrics, ioctl and sysfs plumbing, memory pools, timers and barriers, and the unfinished firmware sketches in FW-Base.

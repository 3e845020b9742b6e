/**
 fscftl's valid-page counts: one per block, kept as the map changes.

 An entry of the map is seen through its block field; the in-cache bit lies outside that field.  A map
 entry that has never been written has a block number no block has.
 */
module ValidPages {

  datatype Entry = Entry(blk: nat, offset: nat, inCache: bool)

  /** How many of the first `n` addresses lie in block `b`. */
  function InBlock(l2p: seq<Entry>, b: nat, n: nat): (c: nat)
    requires n <= |l2p|
    ensures c <= n
  {
    if n == 0 then 0 else InBlock(l2p, b, n - 1) + if l2p[n - 1].blk == b then 1 else 0
  }

  /** Rewriting address `a`, counted in `b` as `was`, counts it as it is now. */
  lemma {:induction false} Rewrite(l2p: seq<Entry>, a: nat, e: Entry, b: nat, n: nat)
    requires a < |l2p| && n <= |l2p|
    ensures InBlock(l2p[a := e], b, n) ==
      InBlock(l2p, b, n) + (if a < n && e.blk == b then 1 else 0) - if a < n && l2p[a].blk == b then 1 else 0
    decreases n
  {
    if n > 0 { Rewrite(l2p, a, e, b, n - 1); }
  }

  lemma {:induction false} NowhereYet(l2p: seq<Entry>, b: nat, n: nat)
    requires n <= |l2p| && forall a :: 0 <= a < n ==> l2p[a].blk != b
    ensures InBlock(l2p, b, n) == 0
    decreases n
  {
    if n > 0 { NowhereYet(l2p, b, n - 1); }
  }

  /** The map with `lba` in the cache at `ppa`. */
  function Put(l2p: seq<Entry>, lba: nat, ppa: Entry): seq<Entry> {
    if lba < |l2p| then l2p[lba := ppa.(inCache := true)] else l2p
  }

  class Counts {
    const l2ptbl: array<Entry>
    const vpctbl: array<nat>

    /** Each count is the number of addresses whose entry lies in the block. */
    ghost predicate Valid()
      reads l2ptbl, vpctbl
    {
      forall b :: 0 <= b < vpctbl.Length ==> vpctbl[b] == InBlock(l2ptbl[..], b, l2ptbl.Length)
    }

    /** Nothing written yet: no entry names a block */
    constructor (nrLbas: nat, nrBlocks: nat)
      ensures Valid() && l2ptbl.Length == nrLbas && vpctbl.Length == nrBlocks && fresh(l2ptbl) && fresh(vpctbl)
      ensures forall a :: 0 <= a < nrLbas ==> l2ptbl[a].blk >= nrBlocks
    {
      l2ptbl := new Entry[nrLbas](_ => Entry(nrBlocks, 0, false));
      vpctbl := new nat[nrBlocks](_ => 0);
      new;
      forall b | 0 <= b < nrBlocks ensures InBlock(l2ptbl[..], b, nrLbas) == 0 { NowhereYet(l2ptbl[..], b, nrLbas); }
    }

    /** `set_l2ptbl_incache`: the decrement never underflows; an address that is no user's is ignored */
    method SetIncache(lba: nat, ppa: Entry)
      requires Valid() && ppa.blk < vpctbl.Length
      modifies l2ptbl, vpctbl
      ensures Valid() && l2ptbl[..] == Put(old(l2ptbl[..]), lba, ppa)
      ensures forall a :: 0 <= a < l2ptbl.Length ==> l2ptbl[a] == if a == lba then ppa.(inCache := true) else old(l2ptbl[a])
    {
      if lba >= l2ptbl.Length {
        return;
      }
      var update := ppa.(inCache := true);
      var prev := l2ptbl[lba];
      ghost var was := l2ptbl[..];
      forall b | 0 <= b < vpctbl.Length
        ensures InBlock(was[lba := update], b, |was|) ==
          InBlock(was, b, |was|) + (if update.blk == b then 1 else 0) - if prev.blk == b then 1 else 0
      {
        Rewrite(was, lba, update, b, |was|);
      }
      if prev.blk < vpctbl.Length {
        CountedThere(was, lba, |was|);
        vpctbl[prev.blk] := vpctbl[prev.blk] - 1;
      }
      l2ptbl[lba] := update;
      vpctbl[update.blk] := vpctbl[update.blk] + 1;
      assert l2ptbl[..] == was[lba := update];
    }

    /** `set_l2ptbl_write_path`: the addresses of a request, in order */
    method SetWritePath(lbas: seq<nat>, ppas: seq<Entry>)
      requires Valid() && |lbas| == |ppas|
      requires forall i :: 0 <= i < |ppas| ==> ppas[i].blk < vpctbl.Length
      modifies l2ptbl, vpctbl
      ensures Valid() && l2ptbl[..] == Written(old(l2ptbl[..]), lbas, ppas, |lbas|)
    {
      for i := 0 to |lbas|
        invariant Valid() && l2ptbl[..] == Written(old(l2ptbl[..]), lbas, ppas, i)
      {
        SetIncache(lbas[i], ppas[i]);
      }
    }
  }

  /** The map after the first `n` writes. */
  function Written(l2p: seq<Entry>, lbas: seq<nat>, ppas: seq<Entry>, n: nat): (r: seq<Entry>)
    requires n <= |lbas| == |ppas|
    ensures |r| == |l2p|
  {
    if n == 0 then l2p else Put(Written(l2p, lbas, ppas, n - 1), lbas[n - 1], ppas[n - 1])
  }

  /** The last write of an address in a request is what its entry holds. */
  lemma {:induction false} LastWritten(l2p: seq<Entry>, lbas: seq<nat>, ppas: seq<Entry>, n: nat, i: nat)
    requires i < n <= |lbas| == |ppas| && lbas[i] < |l2p| && forall j :: i < j < n ==> lbas[j] != lbas[i]
    ensures Written(l2p, lbas, ppas, n)[lbas[i]] == ppas[i].(inCache := true)
    decreases n
  {
    if i < n - 1 { LastWritten(l2p, lbas, ppas, n - 1, i); }
  }

  /** An address the request does not name keeps its entry. */
  lemma {:induction false} NotWritten(l2p: seq<Entry>, lbas: seq<nat>, ppas: seq<Entry>, n: nat, a: nat)
    requires n <= |lbas| == |ppas| && a < |l2p| && forall j :: 0 <= j < n ==> lbas[j] != a
    ensures Written(l2p, lbas, ppas, n)[a] == l2p[a]
  {
    if n > 0 { NotWritten(l2p, lbas, ppas, n - 1, a); }
  }

  /** A count is the size of a set of addresses. */
  lemma {:induction false} InBlockIs(l2p: seq<Entry>, b: nat, n: nat)
    requires n <= |l2p|
    ensures InBlock(l2p, b, n) == |set a | 0 <= a < n && l2p[a].blk == b|
  {
    if n > 0 {
      InBlockIs(l2p, b, n - 1);
      var before := set a | 0 <= a < n - 1 && l2p[a].blk == b;
      assert (set a | 0 <= a < n && l2p[a].blk == b) == before + if l2p[n - 1].blk == b then {n - 1} else {};
    }
  }

  /** An address counts in its own block. */
  lemma {:induction false} CountedThere(l2p: seq<Entry>, a: nat, n: nat)
    requires a < n <= |l2p|
    ensures InBlock(l2p, l2p[a].blk, n) > 0
    decreases n
  {
    if a < n - 1 { CountedThere(l2p, a, n - 1); }
  }
}

/**
 rrpc: the forward map of the older target and the page accounting of its blocks.

 Only the forward map is modelled.  `pending` holds the pages handed out by `rrpc_alloc_addr` whose
 `rrpc_update_map` is still to come, so writers may interleave between the two.
 */
module Rrpc {
  import opened Basics

  datatype BlockState = Free | Target

  /** An entry of `trans_map`; discard clears the block and leaves the address. */
  datatype Addr = Addr(rblk: Option<nat>, addr: Option<nat>)

  /** A block; `invalid` is the set of set bits of `invalid_pages`. */
  datatype Block = Block(state: BlockState, nextPage: nat, invalid: set<nat>, nrInvalid: nat)

  predicate Maps(a: Addr, b: nat, p: nat) {
    a == Addr(Some(b), Some(p))
  }

  /** Block accounting: pages are invalid only once handed out, and are counted. */
  predicate BlockOk(blk: Block, secPerBlk: nat) {
    && blk.nextPage <= secPerBlk && blk.nrInvalid == |blk.invalid| && (forall p :: p in blk.invalid ==> p < blk.nextPage)
  }

  /** A mapped address has a block and a page of it that is handed out and not invalid, of a block in use. */
  predicate AddrOk(a: Addr, blocks: seq<Block>, pending: set<(nat, nat)>) {
    a.rblk.Some? ==>
      && a.addr.Some? && a.rblk.value < |blocks| && blocks[a.rblk.value].state == Target
      && a.addr.value < blocks[a.rblk.value].nextPage && a.addr.value !in blocks[a.rblk.value].invalid
      && (a.rblk.value, a.addr.value) !in pending
  }

  predicate PendingOk(blocks: seq<Block>, pending: set<(nat, nat)>) {
    forall k :: k in pending ==>
      k.0 < |blocks| && blocks[k.0].state == Target && k.1 < blocks[k.0].nextPage && k.1 !in blocks[k.0].invalid
  }

  /** No page is mapped twice. */
  predicate Distinct(trans: seq<Addr>) {
    forall x, y :: 0 <= x < |trans| && 0 <= y < |trans| && trans[x].rblk.Some? && trans[x] == trans[y] ==> x == y
  }

  /** Every page handed out by a block in use is invalid, mapped or about to be. */
  predicate Owned(trans: seq<Addr>, blocks: seq<Block>, pending: set<(nat, nat)>) {
    forall b, p :: 0 <= b < |blocks| && blocks[b].state == Target && 0 <= p < blocks[b].nextPage && p !in blocks[b].invalid ==>
      (b, p) in pending || exists x :: 0 <= x < |trans| && Maps(trans[x], b, p)
  }

  predicate Ok(secPerBlk: nat, trans: seq<Addr>, blocks: seq<Block>, pending: set<(nat, nat)>) {
    && (forall b :: 0 <= b < |blocks| ==> BlockOk(blocks[b], secPerBlk))
    && (forall x :: 0 <= x < |trans| ==> AddrOk(trans[x], blocks, pending))
    && PendingOk(blocks, pending) && Distinct(trans) && Owned(trans, blocks, pending)
  }

  /** The block with page `p` marked invalid. */
  function Invalidate(blk: Block, p: nat): Block {
    blk.(invalid := blk.invalid + {p}, nrInvalid := blk.nrInvalid + 1)
  }

  /** Where a mapped address is dropped: its page becomes invalid and the entry loses its block. */
  lemma DropKeeps(n: nat, trans: seq<Addr>, blocks: seq<Block>, pending: set<(nat, nat)>, x: nat, b: nat, p: nat)
    requires Ok(n, trans, blocks, pending) && x < |trans| && Maps(trans[x], b, p)
    ensures b < |blocks| && p !in blocks[b].invalid
    ensures Ok(n, trans[x := Addr(None, Some(p))], blocks[b := Invalidate(blocks[b], p)], pending)
  {
    var t, bs := trans[x := Addr(None, Some(p))], blocks[b := Invalidate(blocks[b], p)];
    assert BlockOk(blocks[b], n);
    forall y | 0 <= y < |t| ensures AddrOk(t[y], bs, pending) {
      assert AddrOk(trans[y], blocks, pending);
      if y != x && t[y].rblk == Some(b) { assert t[y] != trans[x]; }
    }
    forall c, q | 0 <= c < |bs| && bs[c].state == Target && 0 <= q < bs[c].nextPage && q !in bs[c].invalid
      ensures (c, q) in pending || exists y :: 0 <= y < |t| && Maps(t[y], c, q)
    {
      if (c, q) !in pending {
        var y :| 0 <= y < |trans| && Maps(trans[y], c, q);
        assert Maps(t[y], c, q);
      }
    }
  }

  /** An unmapped address takes a pending page. */
  lemma MapKeeps(n: nat, trans: seq<Addr>, blocks: seq<Block>, pending: set<(nat, nat)>, x: nat, b: nat, p: nat)
    requires Ok(n, trans, blocks, pending) && x < |trans| && trans[x].rblk.None? && (b, p) in pending
    ensures Ok(n, trans[x := Addr(Some(b), Some(p))], blocks, pending - {(b, p)})
  {
    var t, rest := trans[x := Addr(Some(b), Some(p))], pending - {(b, p)};
    forall y | 0 <= y < |t| ensures AddrOk(t[y], blocks, rest) { assert AddrOk(trans[y], blocks, pending); }
    forall y, z | 0 <= y < |t| && 0 <= z < |t| && t[y].rblk.Some? && t[y] == t[z] ensures y == z {
      assert AddrOk(trans[y], blocks, pending) && AddrOk(trans[z], blocks, pending);
    }
    forall c, q | 0 <= c < |blocks| && blocks[c].state == Target && 0 <= q < blocks[c].nextPage && q !in blocks[c].invalid
      ensures (c, q) in rest || exists y :: 0 <= y < |t| && Maps(t[y], c, q)
    {
      if (c, q) == (b, p) {
        assert Maps(t[x], c, q);
      } else if (c, q) !in pending {
        var y :| 0 <= y < |trans| && Maps(trans[y], c, q);
        assert Maps(t[y], c, q);
      }
    }
  }

  /** The next page of a block is handed out. */
  lemma AllocKeeps(n: nat, trans: seq<Addr>, blocks: seq<Block>, pending: set<(nat, nat)>, b: nat)
    requires Ok(n, trans, blocks, pending) && b < |blocks| && blocks[b].state == Target && blocks[b].nextPage < n
    ensures var p := blocks[b].nextPage;
      (b, p) !in pending && Ok(n, trans, blocks[b := blocks[b].(nextPage := p + 1)], pending + {(b, p)})
  {
    var p := blocks[b].nextPage;
    var bs, more := blocks[b := blocks[b].(nextPage := p + 1)], pending + {(b, p)};
    assert BlockOk(blocks[b], n);
    forall y | 0 <= y < |trans| ensures AddrOk(trans[y], bs, more) { assert AddrOk(trans[y], blocks, pending); }
    forall c, q | 0 <= c < |bs| && bs[c].state == Target && 0 <= q < bs[c].nextPage && q !in bs[c].invalid
      ensures (c, q) in more || exists y :: 0 <= y < |trans| && Maps(trans[y], c, q)
    {
      if (c, q) != (b, p) { assert 0 <= q < blocks[c].nextPage; }
    }
  }

  /** A block none of whose pages is mapped or pending changes hands. */
  lemma SwapKeeps(n: nat, trans: seq<Addr>, blocks: seq<Block>, pending: set<(nat, nat)>, b: nat, blk: Block)
    requires Ok(n, trans, blocks, pending) && b < |blocks| && BlockOk(blk, n)
    requires forall x :: 0 <= x < |trans| ==> trans[x].rblk != Some(b)
    requires forall k :: k in pending ==> k.0 != b
    requires blk.state == Free || blk.nextPage == 0
    ensures Ok(n, trans, blocks[b := blk], pending)
  {
    var bs := blocks[b := blk];
    forall y | 0 <= y < |trans| ensures AddrOk(trans[y], bs, pending) { assert AddrOk(trans[y], blocks, pending); }
    forall c, q | 0 <= c < |bs| && bs[c].state == Target && 0 <= q < bs[c].nextPage && q !in bs[c].invalid
      ensures (c, q) in pending || exists y :: 0 <= y < |trans| && Maps(trans[y], c, q)
    {
      assert c != b;
    }
  }

  /** Every block is in the state it was in and has handed out the pages it had. */
  predicate InUse(blocks: seq<Block>, blocks': seq<Block>) {
    |blocks'| == |blocks| && forall b :: 0 <= b < |blocks| ==> blocks'[b].state == blocks[b].state && blocks'[b].nextPage == blocks[b].nextPage
  }

  class Target {
    const secPerBlk: nat
    const transMap: array<Addr>
    const blocks: array<Block>
    ghost var pending: set<(nat, nat)>

    ghost predicate Valid()
      reads this, transMap, blocks
    {
      Ok(secPerBlk, transMap[..], blocks[..], pending)
    }

    /** An empty map over free blocks */
    constructor (secPerBlk: nat, nrSects: nat, nrBlocks: nat)
      ensures Valid() && pending == {} && transMap.Length == nrSects && blocks.Length == nrBlocks
      ensures fresh(transMap) && fresh(blocks) && this.secPerBlk == secPerBlk
      ensures forall b :: 0 <= b < nrBlocks ==> blocks[b].state == Free
    {
      this.secPerBlk := secPerBlk;
      transMap := new Addr[nrSects](_ => Addr(None, None));
      blocks := new Block[nrBlocks](_ => Block(Free, 0, {}, 0));
      pending := {};
    }

    /** `rrpc_page_invalidate` with the clearing of the entry that follows it in `rrpc_invalidate_range`; the bit is never set before */
    method Drop(laddr: nat)
      requires Valid() && laddr < transMap.Length
      modifies transMap, blocks
      ensures Valid() && transMap[..] == old(transMap[..])[laddr := old(transMap[laddr]).(rblk := None)]
      ensures forall b :: 0 <= b < blocks.Length ==>
        blocks[b].nrInvalid == old(blocks[b].nrInvalid) + if old(transMap[laddr].rblk) == Some(b) then 1 else 0
      ensures InUse(old(blocks[..]), blocks[..])
      ensures old(transMap[laddr].rblk.Some?) ==>
        var b := old(transMap[laddr].rblk.value); b < blocks.Length && blocks[b].invalid == old(blocks[..])[b].invalid + {old(transMap[laddr].addr.value)}
    {
      var a := transMap[laddr];
      if a.rblk.None? {
        assert transMap[..][laddr := a] == transMap[..];
        return;
      }
      assert AddrOk(transMap[..][laddr], blocks[..], pending);
      var b, p := a.rblk.value, a.addr.value;
      DropKeeps(secPerBlk, transMap[..], blocks[..], pending, laddr, b, p);
      blocks[b] := Invalidate(blocks[b], p);
      transMap[laddr] := a.(rblk := None);
      assert transMap[..] == old(transMap[..])[laddr := Addr(None, Some(p))];
      assert blocks[..] == old(blocks[..])[b := Invalidate(old(blocks[b]), p)];
    }

    /** `rrpc_invalidate_range` */
    method InvalidateRange(slba: nat, len: nat)
      requires Valid() && slba + len <= transMap.Length
      modifies transMap, blocks
      ensures Valid()
      ensures forall x :: 0 <= x < transMap.Length ==>
        transMap[x] == if slba <= x < slba + len then old(transMap[x]).(rblk := None) else old(transMap[x])
      ensures InUse(old(blocks[..]), blocks[..])
    {
      for i := slba to slba + len
        invariant Valid() && InUse(old(blocks[..]), blocks[..])
        invariant forall x :: 0 <= x < transMap.Length ==>
          transMap[x] == if slba <= x < i then old(transMap[x]).(rblk := None) else old(transMap[x])
      {
        ghost var was := transMap[..];
        Drop(i);
        assert forall x :: 0 <= x < transMap.Length ==> transMap[x] == was[i := was[i].(rblk := None)][x];
      }
    }

    /** `rrpc_alloc_addr` */
    method AllocAddr(b: nat) returns (addr: Option<nat>)
      requires Valid() && b < blocks.Length && blocks[b].state == BlockState.Target
      modifies this`pending, blocks
      ensures Valid() && (addr.None? <==> old(blocks[b].nextPage) == secPerBlk)
      ensures addr.None? ==> pending == old(pending) && blocks[..] == old(blocks[..])
      ensures addr.Some? ==> addr == Some(old(blocks[b].nextPage)) && pending == old(pending) + {(b, addr.value)} && (b, addr.value) !in old(pending)
      ensures addr.Some? ==> blocks[..] == old(blocks[..])[b := old(blocks[b]).(nextPage := addr.value + 1)]
    {
      assert BlockOk(blocks[..][b], secPerBlk);
      if blocks[b].nextPage == secPerBlk {
        return None;
      }
      AllocKeeps(secPerBlk, transMap[..], blocks[..], pending, b);
      var p := blocks[b].nextPage;
      blocks[b] := blocks[b].(nextPage := p + 1);
      assert blocks[..] == old(blocks[..])[b := old(blocks[b]).(nextPage := p + 1)];
      pending := pending + {(b, p)};
      return Some(p);
    }

    /** `rrpc_update_map` to a page handed out before */
    method UpdateMap(laddr: nat, b: nat, p: nat)
      requires Valid() && laddr < transMap.Length && (b, p) in pending
      modifies this`pending, transMap, blocks
      ensures Valid() && transMap[..] == old(transMap[..])[laddr := Addr(Some(b), Some(p))] && pending == old(pending) - {(b, p)}
      ensures InUse(old(blocks[..]), blocks[..])
    {
      Drop(laddr);
      MapKeeps(secPerBlk, transMap[..], blocks[..], pending, laddr, b, p);
      transMap[laddr] := Addr(Some(b), Some(p));
      assert transMap[..] == old(transMap[..])[laddr := Addr(Some(b), Some(p))];
      pending := pending - {(b, p)};
    }

    /** `rrpc_get_blk` of a free block */
    method GetBlk(b: nat)
      requires Valid() && b < blocks.Length && blocks[b].state == Free
      modifies blocks
      ensures Valid() && blocks[..] == old(blocks[..])[b := Block(BlockState.Target, 0, {}, 0)]
    {
      forall x | 0 <= x < transMap.Length ensures transMap[x].rblk != Some(b) { assert AddrOk(transMap[..][x], blocks[..], pending); }
      SwapKeeps(secPerBlk, transMap[..], blocks[..], pending, b, Block(BlockState.Target, 0, {}, 0));
      blocks[b] := Block(BlockState.Target, 0, {}, 0);
      assert blocks[..] == old(blocks[..])[b := Block(BlockState.Target, 0, {}, 0)];
    }

    /**
     * The end of `rrpc_move_valid_pages` and `rrpc_block_gc`: the block is erased and freed only when every page is
     * invalid, and then nothing maps to it.
     */
    method BlockGc(b: nat) returns (freed: bool)
      requires Valid() && b < blocks.Length && blocks[b].state == BlockState.Target
      modifies blocks
      ensures Valid() && (freed <==> old(blocks[b].nrInvalid) == secPerBlk)
      ensures freed ==> blocks[b].state == Free && forall x :: 0 <= x < transMap.Length ==> transMap[x].rblk != Some(b)
      ensures freed ==> forall k :: k in pending ==> k.0 != b
      ensures blocks[..] == if freed then old(blocks[..])[b := old(blocks[b]).(state := Free)] else old(blocks[..])
    {
      var full := true;
      for p := 0 to secPerBlk
        invariant full <==> forall q :: 0 <= q < p ==> q in blocks[b].invalid
      {
        if p !in blocks[b].invalid {
          full := false;
        }
      }
      FullBlock(blocks[..][b], secPerBlk);
      if !full {
        return false;
      }
      NobodyThere(secPerBlk, transMap[..], blocks[..], pending, b);
      SwapKeeps(secPerBlk, transMap[..], blocks[..], pending, b, blocks[b].(state := Free));
      blocks[b] := blocks[b].(state := Free);
      assert blocks[..] == old(blocks[..])[b := old(blocks[b]).(state := Free)];
      freed := true;
    }
  }

  lemma {:induction false} UpTo(s: set<nat>, n: nat)
    requires forall p :: p in s ==> p < n
    ensures |s| <= n && (|s| == n <==> forall p :: 0 <= p < n ==> p in s)
    decreases n
  {
    if n > 0 {
      UpTo(s - {n - 1}, n - 1);
      assert forall p :: 0 <= p < n - 1 ==> (p in s <==> p in s - {n - 1});
      assert n - 1 in s ==> |s| == |s - {n - 1}| + 1;
      assert n - 1 !in s ==> s == s - {n - 1};
    } else {
      assert s == {};
    }
  }

  /** The counter reaches the block size exactly when the bitmap is full. */
  lemma FullBlock(blk: Block, n: nat)
    requires BlockOk(blk, n)
    ensures blk.nrInvalid == n <==> forall p :: 0 <= p < n ==> p in blk.invalid
  {
    UpTo(blk.invalid, n);
  }

  lemma NobodyThere(n: nat, trans: seq<Addr>, blocks: seq<Block>, pending: set<(nat, nat)>, b: nat)
    requires Ok(n, trans, blocks, pending) && b < |blocks| && forall p :: 0 <= p < n ==> p in blocks[b].invalid
    ensures forall x :: 0 <= x < |trans| ==> trans[x].rblk != Some(b)
    ensures forall k :: k in pending ==> k.0 != b
  {
    assert BlockOk(blocks[b], n);
    forall x | 0 <= x < |trans| ensures trans[x].rblk != Some(b) { assert AddrOk(trans[x], blocks, pending); }
  }

  /** Every page handed out is exactly one of invalid, about to be mapped, or mapped by exactly one address. */
  lemma PageOwners(n: nat, trans: seq<Addr>, blocks: seq<Block>, pending: set<(nat, nat)>, b: nat, p: nat)
    requires Ok(n, trans, blocks, pending) && b < |blocks| && blocks[b].state == BlockState.Target && p < blocks[b].nextPage
    ensures p in blocks[b].invalid ==> (b, p) !in pending && forall x :: 0 <= x < |trans| ==> !Maps(trans[x], b, p)
    ensures (b, p) in pending ==> forall x :: 0 <= x < |trans| ==> !Maps(trans[x], b, p)
    ensures p !in blocks[b].invalid && (b, p) !in pending ==>
      exists x :: 0 <= x < |trans| && Maps(trans[x], b, p) && forall y :: 0 <= y < |trans| && Maps(trans[y], b, p) ==> y == x
  {
    forall x | 0 <= x < |trans| && (p in blocks[b].invalid || (b, p) in pending) ensures !Maps(trans[x], b, p) {
      assert AddrOk(trans[x], blocks, pending);
    }
    if p !in blocks[b].invalid && (b, p) !in pending {
      var x :| 0 <= x < |trans| && Maps(trans[x], b, p);
      forall y | 0 <= y < |trans| && Maps(trans[y], b, p) ensures y == x { assert trans[x] == trans[y]; }
    }
  }
}

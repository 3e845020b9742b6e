/**
 fscftl's index-linked FIFOs: nodes of an array linked both ways, with 0xffff for no node.
 */
module Fifo {
  import opened Basics

  const NIL := 0xffff

  datatype Node = Node(next: nat, prev: nat)

  datatype Fifo = Fifo(head: nat, tail: nat, size: nat)

  /** `fsc_fifo_init` */
  function Fresh(): Fifo { Fifo(NIL, NIL, 0) }

  /** The links of the node at place `i` of the queue: `prev` leads to the next place, `next` to the one before. */
  predicate LinkedAt(nodes: seq<Node>, q: seq<nat>, i: nat)
    requires i < |q|
  {
    && q[i] < |nodes|
    && nodes[q[i]].prev == (if i + 1 < |q| then q[i + 1] else NIL)
    && nodes[q[i]].next == (if i > 0 then q[i - 1] else NIL)
  }

  /** `f` and the links of `nodes` represent the queue `q`: `prev` leads from head to tail, `next` back. */
  predicate Linked(nodes: seq<Node>, f: Fifo, q: seq<nat>) {
    && |nodes| <= NIL && f.size == |q| && Distinct(q)
    && (if q == [] then f.head == f.tail == NIL else f.head == q[0] && f.tail == q[|q| - 1])
    && forall i :: 0 <= i < |q| ==> LinkedAt(nodes, q, i)
  }

  /** A queue whose nodes keep their links stays as it is. */
  lemma LinkedFrame(nodes: seq<Node>, nodes': seq<Node>, f: Fifo, q: seq<nat>)
    requires Linked(nodes, f, q) && |nodes'| == |nodes| && forall e :: e in q && e < |nodes| ==> nodes'[e] == nodes[e]
    ensures Linked(nodes', f, q)
  {
    forall i | 0 <= i < |q| ensures LinkedAt(nodes', q, i) {
      assert LinkedAt(nodes, q, i) && q[i] in q;
    }
  }

  /** The nodes after a push of `entry`. */
  predicate Pushed(nodes: seq<Node>, nodes': seq<Node>, q: seq<nat>, entry: nat) {
    && |nodes'| == |nodes| && entry < |nodes| && entry !in q
    && nodes'[entry] == Node(if q == [] then NIL else q[|q| - 1], NIL)
    && forall e :: 0 <= e < |nodes| && e != entry ==>
         nodes'[e] == if q != [] && e == q[|q| - 1] then nodes[e].(prev := entry) else nodes[e]
  }

  lemma PushedAt(nodes: seq<Node>, nodes': seq<Node>, f: Fifo, q: seq<nat>, r: seq<nat>, entry: nat, i: nat)
    requires Linked(nodes, f, q) && Pushed(nodes, nodes', q, entry) && r == q + [entry] && i < |r|
    ensures LinkedAt(nodes', r, i)
  {
    if i < |q| {
      assert r[i] == q[i] && q[i] in q && LinkedAt(nodes, q, i);
      if i + 1 < |q| { assert r[i + 1] == q[i + 1] && q[i] != q[|q| - 1]; }
    }
  }

  lemma PushLinks(nodes: seq<Node>, nodes': seq<Node>, f: Fifo, f': Fifo, q: seq<nat>, entry: nat)
    requires Linked(nodes, f, q) && Pushed(nodes, nodes', q, entry)
    requires f' == Fifo(if q == [] then entry else f.head, entry, f.size + 1)
    ensures Linked(nodes', f', q + [entry])
  {
    var r := q + [entry];
    forall i | 0 <= i < |r| ensures LinkedAt(nodes', r, i) { PushedAt(nodes, nodes', f, q, r, entry, i); }
    forall i, j | 0 <= i < j < |r| ensures r[i] != r[j] {
      assert r[i] in q && (j < |q| ==> r[j] == q[j]);
    }
  }

  /** `push_lun_entity_to_fifo` and `push_blk_to_pool` */
  method Push(nodes: array<Node>, f: Fifo, entry: nat, ghost q: seq<nat>) returns (f': Fifo)
    requires Linked(nodes[..], f, q) && entry < nodes.Length && entry !in q
    modifies nodes
    ensures Linked(nodes[..], f', q + [entry])
    ensures forall e :: 0 <= e < nodes.Length && e != entry && e !in q ==> nodes[e] == old(nodes[e])
  {
    ghost var was := nodes[..];
    var oldTail := f.tail;
    if q != [] { assert LinkedAt(was, q, |q| - 1) && oldTail in q; }
    hide Linked, LinkedAt;
    if oldTail == NIL {
      nodes[entry] := Node(NIL, NIL);
      f' := Fifo(entry, entry, f.size + 1);
    } else {
      nodes[entry] := Node(oldTail, NIL);
      nodes[oldTail] := nodes[oldTail].(prev := entry);
      f' := Fifo(f.head, entry, f.size + 1);
    }
    PushLinks(was, nodes[..], f, f', q, entry);
  }

  /** The nodes after a pull of the head. */
  predicate Pulled(nodes: seq<Node>, nodes': seq<Node>, q: seq<nat>)
    requires q != []
  {
    && |nodes'| == |nodes|
    && forall e :: 0 <= e < |nodes| && e != q[0] ==>
         nodes'[e] == if |q| > 1 && e == q[1] then nodes[e].(next := NIL) else nodes[e]
  }

  lemma PulledAt(nodes: seq<Node>, nodes': seq<Node>, f: Fifo, q: seq<nat>, r: seq<nat>, i: nat)
    requires Linked(nodes, f, q) && q != [] && Pulled(nodes, nodes', q) && r == q[1..] && i < |r|
    ensures LinkedAt(nodes', r, i)
  {
    assert r[i] == q[i + 1] && LinkedAt(nodes, q, i + 1) && q[0] != q[i + 1];
    if i + 1 < |r| { assert r[i + 1] == q[i + 2]; }
    if i > 0 { assert r[i - 1] == q[i] && q[1] != q[i + 1]; }
  }

  lemma PullLinks(nodes: seq<Node>, nodes': seq<Node>, f: Fifo, f': Fifo, q: seq<nat>)
    requires Linked(nodes, f, q) && q != [] && Pulled(nodes, nodes', q)
    requires f' == if |q| == 1 then Fifo(NIL, NIL, 0) else Fifo(q[1], f.tail, f.size - 1)
    ensures Linked(nodes', f', q[1..])
  {
    var r := q[1..];
    forall i | 0 <= i < |r| ensures LinkedAt(nodes', r, i) { PulledAt(nodes, nodes', f, q, r, i); }
    forall i, j | 0 <= i < j < |r| ensures r[i] != r[j] {
      assert r[i] == q[i + 1] && r[j] == q[j + 1];
    }
  }

  /** The head of a queue, and what follows it. */
  lemma Heads(nodes: seq<Node>, f: Fifo, q: seq<nat>)
    requires Linked(nodes, f, q)
    ensures f.head == NIL <==> q == []
    ensures q != [] ==> f.head == q[0] < |nodes| && f.size == |q| && (f.head == f.tail <==> |q| == 1)
    ensures |q| > 1 ==> nodes[q[0]].prev == q[1] < |nodes| && q[1] != q[0]
  {
    if q != [] { assert LinkedAt(nodes, q, 0); }
    if |q| > 1 { assert LinkedAt(nodes, q, 1) && q[0] != q[|q| - 1]; }
  }

  /** `pull_lun_entity_from_fifo` and `pull_blk_from_pool`; `NIL` from an empty queue */
  method Pull(nodes: array<Node>, f: Fifo, ghost q: seq<nat>) returns (entry: nat, f': Fifo)
    requires Linked(nodes[..], f, q)
    modifies nodes
    ensures (entry == NIL <==> q == []) && (q == [] ==> f' == f && nodes[..] == old(nodes[..]))
    ensures q != [] ==> entry == q[0] < nodes.Length && Linked(nodes[..], f', q[1..]) && nodes[entry] == Node(NIL, NIL)
    ensures forall e :: 0 <= e < nodes.Length && e !in q ==> nodes[e] == old(nodes[e])
  {
    hide Linked, LinkedAt;
    ghost var was := nodes[..];
    Heads(was, f, q);
    entry, f' := f.head, f;
    if entry == NIL {
      return;
    }
    if f.head == f.tail {
      f' := Fifo(NIL, NIL, f.size - 1);
    } else {
      var head := nodes[entry].prev;
      nodes[head] := nodes[head].(next := NIL);
      f' := Fifo(head, f.tail, f.size - 1);
    }
    nodes[entry] := Node(NIL, NIL);
    PullLinks(was, nodes[..], f, f', q);
  }
}

/**
 fscftl's write cache: LUN entities that move from the empty FIFO through filling to the full FIFO, to the
 device and back.

 Slots are assigned under a lock and filled later by whoever they were assigned to, so an entity can be
 filled by several requests at once.
 */
module WriteCache {
  import opened Fifo

  datatype Place = Empty | Partial | Filling | Full | Out

  /** A FIFO holds exactly the entities in one place. */
  predicate Holds(nodes: seq<Node>, f: Fifo, q: seq<nat>, place: seq<Place>, which: Place) {
    && Linked(nodes, f, q) && |place| == |nodes|
    && (forall e :: e in q ==> e < |place| && place[e] == which)
    && (forall e :: 0 <= e < |place| && place[e] == which ==> e in q)
  }

  /** Some line of an entity out at the device has not completed. */
  predicate Waiting(cqe: set<nat>, lines: nat) {
    (forall l :: l in cqe ==> l < lines) && exists l :: 0 <= l < lines && l !in cqe
  }

  /** How an entity stands: `todo` are its slots assigned and not yet filled. */
  predicate EntityOk(place: Place, pos: nat, fillCnt: nat, cqe: set<nat>, todo: set<nat>, secs: nat, lines: nat) {
    match place
    case Partial => pos < secs && fillCnt + |todo| == pos && forall s :: s in todo ==> s < pos
    case Filling => pos == secs && fillCnt + |todo| == secs && todo != {} && forall s :: s in todo ==> s < secs
    case Out => todo == {} && Waiting(cqe, lines)
    case _ => todo == {}
  }

  predicate EntitiesOk(secs: nat, lines: nat, pos: seq<nat>, fillCnt: seq<nat>, cqe: seq<set<nat>>, partial: nat,
                       place: seq<Place>, todo: seq<set<nat>>) {
    && |pos| == |fillCnt| == |cqe| == |place| == |todo|
    && partial < |place| && (forall e :: 0 <= e < |place| ==> (place[e] == Partial <==> e == partial))
    && (forall e :: 0 <= e < |place| ==> EntityOk(place[e], pos[e], fillCnt[e], cqe[e], todo[e], secs, lines))
  }

  /** An entity leaves the FIFO of `which` for a place that is neither FIFO's. */
  lemma PullPlaces(nodes': seq<Node>, f': Fifo, q: seq<nat>, r: seq<nat>, place: seq<Place>, which: Place, to: Place)
    requires q != [] && r == q[1..] && (forall i, j :: 0 <= i < j < |q| ==> q[i] != q[j])
    requires |place| == |nodes'| && to != which && Linked(nodes', f', r)
    requires (forall e :: e in q ==> e < |place| && place[e] == which) && (forall e :: 0 <= e < |place| && place[e] == which ==> e in q)
    ensures q[0] < |place| && Holds(nodes', f', r, place[q[0] := to], which)
  {
    assert q[0] in q;
    forall e | e in q && e != q[0] ensures e in r {
      var i :| 0 <= i < |q| && q[i] == e;
      assert r[i - 1] == e;
    }
    forall e | e in r ensures e in q && e != q[0] {
      var i :| 0 <= i < |r| && r[i] == e;
      assert q[i + 1] == e;
    }
  }

  /** An entity enters the FIFO of `which`. */
  lemma PushPlaces(nodes': seq<Node>, f': Fifo, q: seq<nat>, r: seq<nat>, place: seq<Place>, which: Place, entry: nat)
    requires r == q + [entry] && entry < |place| == |nodes'| && place[entry] != which && Linked(nodes', f', r)
    requires (forall e :: e in q ==> e < |place| && place[e] == which) && (forall e :: 0 <= e < |place| && place[e] == which ==> e in q)
    ensures Holds(nodes', f', r, place[entry := which], which)
  {
    assert forall e :: e in r <==> e in q || e == entry;
  }

  /** The FIFO of `which` does not notice what happens to entities elsewhere. */
  lemma OtherPlaces(nodes: seq<Node>, nodes': seq<Node>, f: Fifo, q: seq<nat>, place: seq<Place>, which: Place, entry: nat, to: Place)
    requires Holds(nodes, f, q, place, which) && |nodes'| == |nodes| && entry < |place| && place[entry] != which && to != which
    requires forall e :: e in q && e < |nodes| ==> nodes'[e] == nodes[e]
    ensures Holds(nodes', f, q, place[entry := to], which)
  {
    LinkedFrame(nodes, nodes', f, q);
  }

  /** The entities below `n`, in order. */
  function UpTo(n: nat): (s: seq<nat>)
    ensures |s| == n && forall i :: 0 <= i < n ==> s[i] == i
  {
    seq(n, i requires 0 <= i => i)
  }

  lemma UpToHas(n: nat)
    ensures forall e: nat :: e in UpTo(n) <==> e < n
    ensures forall i, j :: 0 <= i < j < |UpTo(n)| ==> UpTo(n)[i] != UpTo(n)[j]
  {
    forall e: nat | e < n ensures e in UpTo(n) { assert UpTo(n)[e] == e; }
  }

  lemma FreshOk(secs: nat, lines: nat, pos: seq<nat>, fillCnt: seq<nat>, cqe: seq<set<nat>>, place: seq<Place>, todo: seq<set<nat>>)
    requires secs > 0 && 0 < |pos| == |fillCnt| == |cqe| == |place| == |todo| && place[0] == Partial
    requires forall e :: 0 <= e < |pos| ==> pos[e] == 0 && fillCnt[e] == 0 && todo[e] == {} && (e > 0 ==> place[e] == Empty)
    ensures EntitiesOk(secs, lines, pos, fillCnt, cqe, 0, place, todo)
  {
  }

  lemma FreshLinked(nodes: seq<Node>)
    requires |nodes| <= NIL
    ensures Linked(nodes, Fresh(), [])
  {
  }

  class Cache {
    const secs: nat
    const lines: nat
    const nodes: array<Node>
    const pos: array<nat>
    const fillCnt: array<nat>
    const cqe: array<set<nat>>
    var emptyLun: Fifo
    var fullLun: Fifo
    var partial: nat
    ghost var emptyQ: seq<nat>
    ghost var fullQ: seq<nat>
    ghost var place: seq<Place>
    ghost var todo: seq<set<nat>>

    /** Every entity is in exactly one place: empty, partial (there is one), filling, full or out. */
    ghost predicate Valid()
      reads this, nodes, pos, fillCnt, cqe
    {
      && secs > 0 && lines > 0 && pos != fillCnt && nodes.Length == pos.Length
      && Holds(nodes[..], emptyLun, emptyQ, place, Empty) && Holds(nodes[..], fullLun, fullQ, place, Full)
      && EntitiesOk(secs, lines, pos[..], fillCnt[..], cqe[..], partial, place, todo)
    }

    /** `wcb_lun_mem_alloc` and `get_lun_entity` at a LUN boundary: all entities empty but the partial one */
    constructor (secs: nat, lines: nat, n: nat)
      requires secs > 0 && lines > 0 && 0 < n <= NIL
      ensures Valid() && partial == 0 && pos[0] == 0 && |place| == n && this.secs == secs && this.lines == lines
      ensures emptyQ == UpTo(n)[1..] && (forall e :: 0 < e < n ==> place[e] == Empty) && forall e :: 0 <= e < n ==> todo[e] == {}
      ensures fresh(nodes) && fresh(pos) && fresh(fillCnt) && fresh(cqe)
    {
      hide EntitiesOk, Holds, Linked, UpTo;
      this.secs, this.lines := secs, lines;
      nodes := new Node[n](_ => Node(NIL, NIL));
      pos := new nat[n](_ => 0);
      fillCnt := new nat[n](_ => 0);
      cqe := new set<nat>[n](_ => {});
      emptyLun, fullLun, partial := Fresh(), Fresh(), 0;
      emptyQ, fullQ, place, todo := [], [], seq(n, _ => Empty), seq(n, _ => {});
      new;
      FreshLinked(nodes[..]);
      PushAll();
      partial := PullFirst();
      FreshOk(secs, lines, pos[..], fillCnt[..], cqe[..], place, todo);
    }

    /** The loop of `wcb_lun_mem_alloc` over the entities */
    method PushAll()
      requires nodes.Length <= NIL && emptyLun == Fresh() && emptyQ == []
      modifies this`emptyLun, this`emptyQ, nodes
      ensures Linked(nodes[..], emptyLun, emptyQ) && emptyQ == UpTo(nodes.Length)
    {
      for i := 0 to nodes.Length
        invariant Linked(nodes[..], emptyLun, emptyQ) && emptyQ == UpTo(i)
      {
        emptyLun := Push(nodes, emptyLun, i, emptyQ);
        emptyQ := emptyQ + [i];
      }
    }

    method PullFirst() returns (e: nat)
      requires Linked(nodes[..], emptyLun, emptyQ) && emptyQ == UpTo(nodes.Length) && nodes.Length > 0
      requires fullLun == Fresh() && fullQ == [] && place == seq(nodes.Length, _ => Empty)
      modifies this`emptyLun, this`emptyQ, this`place, nodes
      ensures e == 0 && QueuesOk() && place == seq(nodes.Length, _ => Empty)[0 := Partial] && emptyQ == UpTo(nodes.Length)[1..]
    {
      ghost var q := emptyQ;
      e, emptyLun := Pull(nodes, emptyLun, emptyQ);
      emptyQ := emptyQ[1..];
      UpToHas(nodes.Length);
      PullPlaces(nodes[..], emptyLun, q, emptyQ, place, Empty, Partial);
      place := place[0 := Partial];
    }

    /** `wcb_available` */
    method Available(nrPpas: nat) returns (ok: bool)
      requires Valid()
      ensures ok <==> emptyQ != [] || nrPpas + nrPpas / 4 + 2 < secs - pos[partial]
    {
      assert EntityOk(place[partial], pos[..][partial], fillCnt[..][partial], cqe[..][partial], todo[partial], secs, lines);
      var left := secs - pos[partial];
      ok := !(nrPpas + (nrPpas / 4 + 2) >= left && emptyLun.size == 0);
    }

    /** The entity arrays after `get_next_lun_entity` made `entry` the partial one, the last slot of the old one just assigned */
    lemma NextOk(e: nat, entry: nat)
      requires EntitiesOk(secs, lines, pos[..], fillCnt[..], cqe[..], e, place, todo) && entry < |place| && place[entry] == Empty
      requires pos[e] + 1 == secs
      ensures secs - 1 !in todo[e]
      ensures EntitiesOk(secs, lines, pos[..][e := secs][entry := 0], fillCnt[..][entry := 0], cqe[..][entry := {}], entry,
                         place[e := Filling][entry := Partial], todo[e := todo[e] + {secs - 1}])
    {
      assert EntityOk(place[e], pos[..][e], fillCnt[..][e], cqe[..][e], todo[e], secs, lines);
      assert EntityOk(place[entry], pos[..][entry], fillCnt[..][entry], cqe[..][entry], todo[entry], secs, lines);
      assert |todo[e] + {secs - 1}| == |todo[e]| + 1;
    }

    ghost predicate QueuesOk()
      reads this, nodes
    {
      Holds(nodes[..], emptyLun, emptyQ, place, Empty) && Holds(nodes[..], fullLun, fullQ, place, Full)
    }

    /** Pull from the empty FIFO; the entity becomes partial and `e`, the partial one so far, is filling */
    method PullEmpty(ghost e: nat) returns (entry: nat)
      requires QueuesOk() && emptyQ != [] && e < |place| && place[e] == Partial
      modifies this`emptyLun, this`emptyQ, this`place, nodes
      ensures QueuesOk() && emptyQ == old(emptyQ)[1..] && entry == old(emptyQ)[0]
      ensures entry < |place| && old(place)[entry] == Empty && place == old(place)[e := Filling][entry := Partial]
    {
      ghost var was, q, at := nodes[..], emptyQ, place;
      assert q[0] in q;
      entry, emptyLun := Pull(nodes, emptyLun, emptyQ);
      PullPlaces(nodes[..], emptyLun, q, q[1..], at[e := Filling], Empty, Partial);
      OtherPlaces(was, nodes[..], fullLun, fullQ, at, Full, e, Filling);
      OtherPlaces(nodes[..], nodes[..], fullLun, fullQ, at[e := Filling], Full, entry, Partial);
      emptyQ := emptyQ[1..];
      place := place[e := Filling][entry := Partial];
    }

    /** `get_next_lun_entity` when the last slot of the partial entity, `e`, has been assigned */
    method NextEntity(ghost e: nat)
      requires Valid() && e == partial && emptyQ != [] && pos[e] + 1 == secs
      modifies this`emptyLun, this`partial, this`emptyQ, this`place, this`todo, nodes, pos, fillCnt, cqe
      ensures Valid() && emptyQ == old(emptyQ)[1..] && pos[partial] == 0 && partial == old(emptyQ)[0]
      ensures todo == old(todo)[e := old(todo)[e] + {secs - 1}] && secs - 1 !in old(todo)[e]
    {
      assert emptyQ[0] in emptyQ;
      NextOk(e, emptyQ[0]);
      ghost var ps, fs, cs := pos[..], fillCnt[..], cqe[..];
      pos[partial] := secs;
      var entry := PullEmpty(e);
      pos[entry] := 0;
      fillCnt[entry] := 0;
      cqe[entry] := {};
      assert pos[..] == ps[e := secs][entry := 0] && fillCnt[..] == fs[entry := 0] && cqe[..] == cs[entry := {}];
      partial := entry;
      todo := todo[e := todo[e] + {secs - 1}];
    }

    lemma AssignOk(e: nat)
      requires EntitiesOk(secs, lines, pos[..], fillCnt[..], cqe[..], e, place, todo) && pos[e] + 1 < secs
      ensures pos[e] !in todo[e]
      ensures EntitiesOk(secs, lines, pos[..][e := pos[e] + 1], fillCnt[..], cqe[..], e, place, todo[e := todo[e] + {pos[e]}])
    {
      assert EntityOk(place[e], pos[..][e], fillCnt[..][e], cqe[..][e], todo[e], secs, lines);
      assert |todo[e] + {pos[e]}| == |todo[e]| + 1;
    }

    /** A round of `alloc_wcb_core`: the next slot of the partial entity is assigned */
    method Assign() returns (e: nat, s: nat)
      requires Valid() && (pos[partial] + 1 == secs ==> emptyQ != [])
      modifies this`emptyLun, this`partial, this`emptyQ, this`place, this`todo, nodes, pos, fillCnt, cqe
      ensures Valid() && e == old(partial) && s == old(pos[partial]) && e < |todo| == |old(todo)|
      ensures s !in old(todo)[e] && todo == old(todo)[e := old(todo)[e] + {s}]
      ensures s + 1 < secs ==> partial == e && pos[partial] == s + 1 && emptyQ == old(emptyQ)
      ensures s + 1 == secs ==> pos[partial] == 0 && emptyQ == old(emptyQ)[1..] && partial == old(emptyQ)[0]
      ensures s + 1 <= secs
    {
      e, s := partial, pos[partial];
      assert EntityOk(place[e], pos[..][e], fillCnt[..][e], cqe[..][e], todo[e], secs, lines);
      if pos[partial] + 1 == secs {
        NextEntity(e);
      } else {
        AssignOk(e);
        ghost var ps, next: nat := pos[..], s + 1;
        pos[e] := s + 1;
        assert pos[..] == ps[e := next];
        todo := todo[e := todo[e] + {s}];
      }
    }

    /** `alloc_wcb_core` of a request no larger than an entity, after `wcb_available`: it never runs out, and every slot is assigned once */
    method Alloc(nrPpas: nat) returns (slots: seq<(nat, nat)>)
      requires Valid() && 0 < nrPpas <= secs && (emptyQ != [] || nrPpas + nrPpas / 4 + 2 < secs - pos[partial])
      modifies this`emptyLun, this`partial, this`emptyQ, this`place, this`todo, nodes, pos, fillCnt, cqe
      ensures Valid() && |slots| == nrPpas && Added(old(todo), todo, slots)
      ensures InRow(slots, old(partial), old(pos[partial]), secs, if old(emptyQ) == [] then 0 else old(emptyQ)[0])
      ensures if old(pos[partial]) + nrPpas < secs then partial == old(partial) && pos[partial] == old(pos[partial]) + nrPpas && emptyQ == old(emptyQ)
              else old(emptyQ) != [] && partial == old(emptyQ)[0] && pos[partial] == old(pos[partial]) + nrPpas - secs && emptyQ == old(emptyQ)[1..]
    {
      hide EntitiesOk, Holds, Added, InRow;
      PartialRoom();
      NoneAdded(todo);
      slots := [];
      ghost var left := secs - pos[partial];
      ghost var todo0, next := todo, if emptyQ == [] then 0 else emptyQ[0];
      RowStart(partial, pos[partial], secs, next);
      for i := 0 to nrPpas
        invariant Valid() && |slots| == i && partial < pos.Length
        invariant i < left ==> pos[partial] == secs - left + i && (nrPpas >= left ==> emptyQ != [])
        invariant i < left ==> partial == old(partial) && emptyQ == old(emptyQ)
        invariant i >= left ==> pos[partial] == i - left && old(emptyQ) != [] && partial == next && emptyQ == old(emptyQ)[1..]
        invariant InRow(slots, old(partial), old(pos[partial]), secs, next)
        invariant Added(todo0, todo, slots)
      {
        ghost var before, got := todo, slots;
        var e, s := Assign();
        slots := slots + [(e, s)];
        AddedMore(todo0, before, todo, got, e, s);
        RowMore(got, old(partial), old(pos[partial]), secs, next, e, s);
        PartialRoom();
      }
    }

    lemma PartialRoom()
      requires Valid()
      ensures partial < pos.Length && pos[partial] < secs && |todo| == pos.Length
    {
      assert EntityOk(place[partial], pos[..][partial], fillCnt[..][partial], cqe[..][partial], todo[partial], secs, lines);
    }

    lemma FillOk(e: nat, s: nat)
      requires EntitiesOk(secs, lines, pos[..], fillCnt[..], cqe[..], partial, place, todo) && e < |todo| && s in todo[e]
      ensures place[e] == Partial || place[e] == Filling
      ensures fillCnt[e] + 1 <= secs && (fillCnt[e] + 1 == secs <==> place[e] == Filling && todo[e] == {s})
      ensures fillCnt[e] + 1 < secs ==>
        EntitiesOk(secs, lines, pos[..], fillCnt[..][e := fillCnt[e] + 1], cqe[..], partial, place, todo[e := todo[e] - {s}])
      ensures fillCnt[e] + 1 == secs ==>
        EntitiesOk(secs, lines, pos[..], fillCnt[..][e := 0], cqe[..], partial, place[e := Full], todo[e := todo[e] - {s}])
    {
      assert EntityOk(place[e], pos[..][e], fillCnt[..][e], cqe[..][e], todo[e], secs, lines);
      assert |todo[e] - {s}| == |todo[e]| - 1;
      assert todo[e] - {s} == {} <==> todo[e] == {s};
    }

    /** A slot of `flush_data_to_wcb`: the entity enters the full FIFO exactly when this was its last slot and all are assigned */
    method Fill(e: nat, s: nat)
      requires Valid() && e < |todo| && s in todo[e]
      modifies this`fullLun, this`fullQ, this`place, this`todo, nodes, fillCnt
      ensures Valid() && todo == old(todo)[e := old(todo)[e] - {s}]
      ensures fullQ == old(fullQ) + (if old(place)[e] == Filling && old(todo)[e] == {s} then [e] else [])
      ensures partial == old(partial) && emptyQ == old(emptyQ)
    {
      FillOk(e, s);
      ghost var fs, next: nat := fillCnt[..], fillCnt[e] + 1;
      fillCnt[e] := fillCnt[e] + 1;
      todo := todo[e := todo[e] - {s}];
      if fillCnt[e] == secs {
        fillCnt[e] := 0;
        assert fillCnt[..] == fs[e := 0];
        PushFull(e);
      } else {
        assert fillCnt[..] == fs[e := next];
      }
    }

    method PushFull(e: nat)
      requires QueuesOk() && e < |place| && place[e] != Full && place[e] != Empty
      modifies this`fullLun, this`fullQ, this`place, nodes
      ensures QueuesOk() && fullQ == old(fullQ) + [e] && place == old(place)[e := Full]
    {
      ghost var was, q, at := nodes[..], fullQ, place;
      fullLun := Push(nodes, fullLun, e, fullQ);
      PushPlaces(nodes[..], fullLun, q, q + [e], at, Full, e);
      OtherPlaces(was, nodes[..], emptyLun, emptyQ, at, Empty, e, Full);
      fullQ, place := fullQ + [e], place[e := Full];
    }

    /** `submit_write_backend`: the longest full entity goes to the device */
    method Submit() returns (e: nat)
      requires Valid()
      modifies this`fullLun, this`fullQ, this`place, nodes, cqe
      ensures Valid() && todo == old(todo)
      ensures if old(fullQ) == [] then e == NIL && place == old(place) && fullQ == []
              else e == old(fullQ)[0] && e in old(fullQ) && fullQ == old(fullQ)[1..] && place == old(place)[e := Out]
    {
      ghost var was, q, at := nodes[..], fullQ, place;
      e, fullLun := Pull(nodes, fullLun, fullQ);
      if e != NIL {
        assert q != [];
        assert q[0] in q;
        PullPlaces(nodes[..], fullLun, q, q[1..], at, Full, Out);
        OtherPlaces(was, nodes[..], emptyLun, emptyQ, at, Empty, e, Out);
        ghost var cs := cqe[..];
        cqe[e] := {};
        assert cqe[..] == cs[e := {}];
        OutOk(e, cs);
        fullQ, place := fullQ[1..], place[e := Out];
      }
    }

    lemma OutOk(e: nat, cs: seq<set<nat>>)
      requires lines > 0 && EntitiesOk(secs, lines, pos[..], fillCnt[..], cs, partial, place, todo) && e < |place| && place[e] == Full
      ensures EntitiesOk(secs, lines, pos[..], fillCnt[..], cs[e := {}], partial, place[e := Out], todo)
    {
      assert EntityOk(place[e], pos[..][e], fillCnt[..][e], cs[e], todo[e], secs, lines);
      assert 0 !in cs[e := {}][e];
    }

    lemma BackOk(e: nat, cs: seq<set<nat>>, line: nat)
      requires EntitiesOk(secs, lines, pos[..], fillCnt[..], cs, partial, place, todo) && e < |place| && place[e] == Out && line < lines
      ensures var c := cs[e] + {line};
        if forall l :: 0 <= l < lines ==> l in c then EntitiesOk(secs, lines, pos[..], fillCnt[..], cs[e := c], partial, place[e := Empty], todo)
        else EntitiesOk(secs, lines, pos[..], fillCnt[..], cs[e := c], partial, place, todo)
    {
      assert EntityOk(place[e], pos[..][e], fillCnt[..][e], cs[e], todo[e], secs, lines);
    }

    /** `wrppa_lun_completion` of one line: the entity returns to the empty FIFO with its last line */
    method LineDone(e: nat, line: nat)
      requires Valid() && e < |place| && place[e] == Out && line < lines
      modifies this`emptyLun, this`emptyQ, this`place, nodes, cqe
      ensures Valid() && todo == old(todo) && cqe[..] == old(cqe[..])[e := old(cqe[e]) + {line}]
      ensures if forall l :: 0 <= l < lines ==> l in cqe[e] then emptyQ == old(emptyQ) + [e] && place == old(place)[e := Empty]
              else emptyQ == old(emptyQ) && place == old(place)
    {
      ghost var cs := cqe[..];
      BackOk(e, cs, line);
      cqe[e] := cqe[e] + {line};
      assert cqe[..] == cs[e := cs[e] + {line}];
      var all := true;
      for l := 0 to lines
        invariant all <==> forall k :: 0 <= k < l ==> k in cqe[e]
      {
        all := all && l in cqe[e];
      }
      if all {
        PushEmpty(e);
      }
    }

    method PushEmpty(e: nat)
      requires QueuesOk() && e < |place| && place[e] != Full && place[e] != Empty
      modifies this`emptyLun, this`emptyQ, this`place, nodes
      ensures QueuesOk() && emptyQ == old(emptyQ) + [e] && place == old(place)[e := Empty]
    {
      ghost var was, q, at := nodes[..], emptyQ, place;
      emptyLun := Push(nodes, emptyLun, e, emptyQ);
      PushPlaces(nodes[..], emptyLun, q, q + [e], at, Empty, e);
      OtherPlaces(was, nodes[..], fullLun, fullQ, at, Full, e, Empty);
      emptyQ, place := emptyQ + [e], place[e := Empty];
    }
  }

  /** The slots from `pos` of `e` on, in order, and on from the first of `next` when `e` has no more. */
  predicate InRow(slots: seq<(nat, nat)>, e: nat, pos: nat, secs: nat, next: nat) {
    forall i :: 0 <= i < |slots| ==> slots[i] == if pos + i < secs then (e, pos + i) else (next, pos + i - secs)
  }

  lemma RowStart(e: nat, pos: nat, secs: nat, next: nat)
    ensures InRow([], e, pos, secs, next)
  {
  }

  lemma RowMore(slots: seq<(nat, nat)>, e: nat, pos: nat, secs: nat, next: nat, e': nat, s: nat)
    requires InRow(slots, e, pos, secs, next)
    requires if pos + |slots| < secs then (e', s) == (e, pos + |slots|) else (e', s) == (next, pos + |slots| - secs)
    ensures InRow(slots + [(e', s)], e, pos, secs, next)
  {
  }

  lemma NoneAdded(todo: seq<set<nat>>)
    ensures Added(todo, todo, [])
  {
  }

  /** The slots got since `todo0`: each new, none twice, and they make up the difference. */
  ghost predicate Added(todo0: seq<set<nat>>, todo: seq<set<nat>>, slots: seq<(nat, nat)>) {
    && |todo| == |todo0|
    && (forall i, j :: 0 <= i < j < |slots| ==> slots[i] != slots[j])
    && (forall k :: k in slots ==> k.0 < |todo| && k.1 !in todo0[k.0])
    && (forall e, s :: 0 <= e < |todo| ==> (s in todo[e] <==> s in todo0[e] || (e, s) in slots))
  }

  lemma AddedMore(todo0: seq<set<nat>>, todo: seq<set<nat>>, todo': seq<set<nat>>, slots: seq<(nat, nat)>, e: nat, s: nat)
    requires Added(todo0, todo, slots) && e < |todo| && s !in todo[e] && todo' == todo[e := todo[e] + {s}]
    ensures Added(todo0, todo', slots + [(e, s)])
  {
    var more := slots + [(e, s)];
    assert forall k :: k in more <==> k in slots || k == (e, s);
    assert (e, s) !in slots;
  }
}

/**
 The interval allocator by which targets claim ranges of a device.
 */
module Areas {
  import opened Basics

  datatype Area = Area(begin: nat, end: nat)

  /** Sorted, non-empty, disjoint and within the device. */
  predicate Sorted(areas: seq<Area>, max: nat) {
    && (forall i :: 0 <= i < |areas| ==> areas[i].begin < areas[i].end <= max)
    && (forall i, j :: 0 <= i < j < |areas| ==> areas[i].end <= areas[j].begin)
  }

  /** `[b, b + len)` overlaps no area and lies within the device. */
  predicate Fits(areas: seq<Area>, max: nat, b: nat, len: nat) {
    b + len <= max && forall i :: 0 <= i < |areas| ==> b + len <= areas[i].begin || areas[i].end <= b
  }

  lemma InsertSorted(areas: seq<Area>, max: nat, i: nat, b: nat, len: nat)
    requires Sorted(areas, max) && i <= |areas| && len > 0 && b + len <= max
    requires (i > 0 ==> areas[i - 1].end <= b) && (i < |areas| ==> b + len <= areas[i].begin)
    ensures Sorted(areas[..i] + [Area(b, b + len)] + areas[i..], max) && Fits(areas, max, b, len)
  {
    var t := areas[..i] + [Area(b, b + len)] + areas[i..];
    forall j, k | 0 <= j < k < |t| ensures t[j].end <= t[k].begin {
      if j < i && k == i { assert areas[j].end <= areas[i - 1].end; }
      if j == i && i < |areas| { assert areas[i].begin <= t[k].begin; }
    }
  }

  /** Nothing below `begin` fits. */
  predicate NoneBelow(areas: seq<Area>, max: nat, begin: nat, len: nat) {
    forall b: nat :: b < begin ==> !Fits(areas, max, b, len)
  }

  lemma PassOver(areas: seq<Area>, max: nat, i: nat, begin: nat, len: nat)
    requires i < |areas| && begin + len > areas[i].begin && NoneBelow(areas, max, begin, len)
    ensures NoneBelow(areas, max, areas[i].end, len)
  {
  }

  /** The walk of `nvm_get_area` over the list */
  method Search(areas: seq<Area>, max: nat, len: nat) returns (begin: nat, i: nat)
    requires Sorted(areas, max)
    ensures i <= |areas| && NoneBelow(areas, max, begin, len)
    ensures (i > 0 ==> areas[i - 1].end <= begin) && (i < |areas| ==> begin + len <= areas[i].begin)
  {
    begin, i := 0, 0;
    while i < |areas| && begin + len > areas[i].begin
      invariant i <= |areas| && (i > 0 ==> areas[i - 1].end <= begin) && NoneBelow(areas, max, begin, len)
    {
      PassOver(areas, max, i, begin, len);
      begin, i := areas[i].end, i + 1;
    }
  }

  lemma Inserted(areas: seq<Area>, i: nat, a: Area)
    requires i <= |areas|
    ensures multiset(areas[..i] + [a] + areas[i..]) == multiset(areas) + multiset{a}
  {
    assert areas == areas[..i] + areas[i..];
  }

  lemma Removed(areas: seq<Area>, max: nat, i: nat)
    requires Sorted(areas, max) && i < |areas|
    ensures var t := areas[..i] + areas[i + 1..];
      && Sorted(t, max)
      && forall a :: a in t <==> a in areas && a.begin != areas[i].begin
  {
    var t := areas[..i] + areas[i + 1..];
    assert forall j :: 0 <= j < |t| ==> t[j] == areas[if j < i then j else j + 1];
    forall a | a in areas && a.begin != areas[i].begin ensures a in t {
      var k :| 0 <= k < |areas| && areas[k] == a;
      assert t[if k < i then k else k - 1] == a;
    }
  }

  class AreaList {
    const maxSectors: nat
    var areas: seq<Area>

    ghost predicate Valid()
      reads this
    {
      Sorted(areas, maxSectors)
    }

    constructor (maxSectors: nat)
      ensures Valid() && areas == [] && this.maxSectors == maxSectors
    {
      this.maxSectors := maxSectors;
      areas := [];
    }

    /** `nvm_get_area`: the lowest range of `len` sectors that fits; none exactly when there is no such range */
    method Get(len: nat) returns (r: Option<nat>)
      requires Valid() && len > 0
      modifies this`areas
      ensures Valid()
      ensures r.None? ==> areas == old(areas) && forall b: nat :: !Fits(old(areas), maxSectors, b, len)
      ensures r.Some? ==> Fits(old(areas), maxSectors, r.value, len) && NoneBelow(old(areas), maxSectors, r.value, len)
      ensures r.Some? ==> multiset(areas) == multiset(old(areas)) + multiset{Area(r.value, r.value + len)}
    {
      if len > maxSectors {
        return None;
      }
      var begin, i := Search(areas, maxSectors, len);
      if begin + len > maxSectors {
        return None;
      }
      InsertSorted(areas, maxSectors, i, begin, len);
      Inserted(areas, i, Area(begin, begin + len));
      areas := areas[..i] + [Area(begin, begin + len)] + areas[i..];
      return Some(begin);
    }

    /** `nvm_put_area`: gives back the area that starts at `begin`, if there is one */
    method Put(begin: nat)
      requires Valid()
      modifies this`areas
      ensures Valid() && forall a :: a in areas <==> a in old(areas) && a.begin != begin
      ensures (forall a :: a in old(areas) ==> a.begin != begin) ==> areas == old(areas)
    {
      var i := 0;
      while i < |areas| && areas[i].begin != begin
        invariant i <= |areas| && (forall j :: 0 <= j < i ==> areas[j].begin != begin) && areas == old(areas)
      {
        i := i + 1;
      }
      if i < |areas| {
        Removed(areas, maxSectors, i);
        areas := areas[..i] + areas[i + 1..];
      }
    }
  }

  /** What was put can be had again: its range fits, so getting its length returns a start no higher. */
  lemma PutThenGet(areas: seq<Area>, rest: seq<Area>, max: nat, a: Area)
    requires Sorted(areas, max) && a in areas && forall x :: x in rest <==> x in areas && x.begin != a.begin
    ensures Fits(rest, max, a.begin, a.end - a.begin)
  {
    var k :| 0 <= k < |areas| && areas[k] == a;
    forall i | 0 <= i < |rest| ensures a.end <= rest[i].begin || rest[i].end <= a.begin {
      assert rest[i] in rest;
      var j :| 0 <= j < |areas| && areas[j] == rest[i];
      assert j != k;
    }
  }
}

/** Sums over account ids, independent of the order in which the accounts are visited. */
module Sums {
  import opened Types

  function At(m: map<u64, int>, id: u64): int {
    if id in m then m[id] else 0
  }

  function Sum(m: map<u64, int>, ids: seq<u64>): int {
    if ids == [] then 0 else Sum(m, ids[..|ids| - 1]) + At(m, ids[|ids| - 1])
  }

  /** `order` visits every key once. */
  ghost predicate Visits(order: seq<u64>, keys: set<u64>) {
    Distinct(order) && forall id :: id in order <==> id in keys
  }

  lemma {:induction false} SumSame(m: map<u64, int>, n: map<u64, int>, ids: seq<u64>)
    requires forall id :: id in ids ==> At(m, id) == At(n, id)
    ensures Sum(m, ids) == Sum(n, ids)
  {
    if ids != [] {
      assert ids[|ids| - 1] in ids;
      SumSame(m, n, ids[..|ids| - 1]);
    }
  }

  /** Changing one entry moves the sum by the change, if the entry is summed at all. */
  lemma {:induction false} SumUpdate(m: map<u64, int>, ids: seq<u64>, id: u64, v: int)
    requires Distinct(ids)
    ensures Sum(m[id := v], ids) == Sum(m, ids) + if id in ids then v - At(m, id) else 0
  {
    if ids != [] {
      var front, last := ids[..|ids| - 1], ids[|ids| - 1];
      assert id in ids <==> id in front || id == last;
      if last == id {
        SumSame(m[id := v], m, front);
      } else {
        SumUpdate(m, front, id, v);
      }
    }
  }

  lemma {:induction false} SumConcat(m: map<u64, int>, a: seq<u64>, b: seq<u64>)
    ensures Sum(m, a + b) == Sum(m, a) + Sum(m, b)
  {
    if b == [] {
      assert a + b == a;
    } else {
      assert (a + b)[..|a + b| - 1] == a + b[..|b| - 1];
      SumConcat(m, a, b[..|b| - 1]);
    }
  }

  function Without(ids: seq<u64>, i: nat): seq<u64>
    requires i < |ids|
  {
    ids[..i] + ids[i + 1..]
  }

  lemma SumWithout(m: map<u64, int>, ids: seq<u64>, i: nat)
    requires i < |ids|
    ensures Sum(m, ids) == Sum(m, Without(ids, i)) + At(m, ids[i])
  {
    assert ids == (ids[..i] + [ids[i]]) + ids[i + 1..];
    SumConcat(m, ids[..i] + [ids[i]], ids[i + 1..]);
    assert (ids[..i] + [ids[i]])[..i] == ids[..i];
    SumConcat(m, ids[..i], ids[i + 1..]);
  }

  lemma WithoutMembers(ids: seq<u64>, i: nat)
    requires Distinct(ids) && i < |ids|
    ensures Distinct(Without(ids, i))
    ensures forall id :: id in Without(ids, i) <==> id in ids && id != ids[i]
  {
    forall id | id in ids && id != ids[i] ensures id in Without(ids, i) {
      var j :| 0 <= j < |ids| && ids[j] == id;
      assert Without(ids, i)[if j < i then j else j - 1] == id;
    }
  }

  /** A part of the visited accounts never sums to more than all of them, for values >= 0. */
  lemma {:induction false} SumPart(m: map<u64, int>, part: seq<u64>, all: seq<u64>)
    requires Distinct(part) && Distinct(all)
    requires forall id :: id in part ==> id in all
    requires forall id :: id in all ==> At(m, id) >= 0
    ensures Sum(m, part) <= Sum(m, all)
    decreases |part|
  {
    if part == [] {
      SumNonNegative(m, all);
    } else {
      var front, last := part[..|part| - 1], part[|part| - 1];
      assert last in part;
      var i :| 0 <= i < |all| && all[i] == last;
      SumWithout(m, all, i);
      WithoutMembers(all, i);
      forall id | id in front ensures id in Without(all, i) {
        var j :| 0 <= j < |front| && front[j] == id;
        assert part[j] == id;
      }
      SumPart(m, front, Without(all, i));
    }
  }

  lemma {:induction false} SumNonNegative(m: map<u64, int>, ids: seq<u64>)
    requires forall id :: id in ids ==> At(m, id) >= 0
    ensures Sum(m, ids) >= 0
  {
    if ids != [] {
      assert ids[|ids| - 1] in ids;
      SumNonNegative(m, ids[..|ids| - 1]);
    }
  }

  lemma {:induction false} SumZero(m: map<u64, int>, ids: seq<u64>)
    requires forall id :: id in ids ==> At(m, id) == 0
    ensures Sum(m, ids) == 0
  {
    if ids != [] {
      assert ids[|ids| - 1] in ids;
      SumZero(m, ids[..|ids| - 1]);
    }
  }

  /** Any two visiting orders give the same sum. */
  lemma {:induction false} SumAnyOrder(m: map<u64, int>, a: seq<u64>, b: seq<u64>)
    requires Distinct(a) && Distinct(b)
    requires forall i :: 0 <= i < |a| ==> a[i] in b
    requires forall i :: 0 <= i < |b| ==> b[i] in a
    ensures Sum(m, a) == Sum(m, b)
    decreases |a|
  {
    hide Without;
    if a != [] {
      var n := |a| - 1;
      assert a[n] in b;
      var i :| 0 <= i < |b| && b[i] == a[n];
      SumWithout(m, b, i);
      DropBoth(a, b, i);
      SumAnyOrder(m, a[..n], Without(b, i));
    }
  }

  lemma DropBoth(a: seq<u64>, b: seq<u64>, i: nat)
    requires Distinct(a) && Distinct(b) && a != [] && i < |b| && b[i] == a[|a| - 1]
    requires forall j :: 0 <= j < |a| ==> a[j] in b
    requires forall j :: 0 <= j < |b| ==> b[j] in a
    ensures var front, rest := a[..|a| - 1], Without(b, i);
            && Distinct(front) && Distinct(rest)
            && (forall j :: 0 <= j < |front| ==> front[j] in rest)
            && (forall j :: 0 <= j < |rest| ==> rest[j] in front)
  {
    var n := |a| - 1;
    WithoutMembers(b, i);
    WithoutMembers(a, n);
    assert Without(a, n) == a[..n];
    hide Without;
    forall j | 0 <= j < n ensures a[..n][j] in Without(b, i) {
      assert a[..n][j] == a[j];
    }
    forall j | 0 <= j < |Without(b, i)| ensures Without(b, i)[j] in a[..n] {
      assert Without(b, i)[j] in b;
    }
  }

  ghost function AnyOrder(keys: set<u64>): (order: seq<u64>)
    ensures Visits(order, keys)
  {
    if keys == {} then []
    else
      var id :| id in keys;
      AnyOrder(keys - {id}) + [id]
  }

  ghost function Total(m: map<u64, int>): int {
    Sum(m, AnyOrder(m.Keys))
  }

  lemma TotalIs(m: map<u64, int>, order: seq<u64>)
    requires Visits(order, m.Keys)
    ensures Sum(m, order) == Total(m)
  {
    SumAnyOrder(m, order, AnyOrder(m.Keys));
  }

  function Abs(x: int): nat {
    if x < 0 then -x else x
  }

  function Magnitudes(m: map<u64, int>): map<u64, int> {
    map id | id in m :: Abs(m[id])
  }

  /** No part of the accounts sums to more, in either direction, than the sum of magnitudes. */
  lemma PartBound(m: map<u64, int>, part: seq<u64>)
    requires Distinct(part)
    ensures Abs(Sum(m, part)) <= Total(Magnitudes(m))
  {
    var known := Known(m, part);
    SumKnown(m, part);
    SumAbs(m, known);
    var all := AnyOrder(Magnitudes(m).Keys);
    SumPart(Magnitudes(m), known, all);
  }

  function Known(m: map<u64, int>, ids: seq<u64>): (r: seq<u64>)
    ensures forall id :: id in r <==> id in ids && id in m
  {
    if ids == [] then []
    else
      var front, last := Known(m, ids[..|ids| - 1]), ids[|ids| - 1];
      assert ids == ids[..|ids| - 1] + [last];
      if last in m then front + [last] else front
  }

  lemma {:induction false} SumKnown(m: map<u64, int>, ids: seq<u64>)
    requires Distinct(ids)
    ensures Distinct(Known(m, ids)) && Sum(m, Known(m, ids)) == Sum(m, ids)
  {
    if ids != [] {
      SumKnown(m, ids[..|ids| - 1]);
      var front, last := Known(m, ids[..|ids| - 1]), ids[|ids| - 1];
      assert last !in front;
      assert (front + [last])[..|front|] == front;
    }
  }

  lemma {:induction false} SumAbs(m: map<u64, int>, ids: seq<u64>)
    requires forall id :: id in ids ==> id in m
    ensures Abs(Sum(m, ids)) <= Sum(Magnitudes(m), ids)
  {
    if ids != [] {
      assert ids[|ids| - 1] in ids;
      SumAbs(m, ids[..|ids| - 1]);
    }
  }
}

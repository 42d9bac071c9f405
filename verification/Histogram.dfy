/**
  The histogram metric: counts stored per upper bound `le`, written out as cumulative
  buckets at the visible bounds and one last bucket at +Inf. Bounds are reals or +Inf.
*/
module Histogram {
  import opened Units

  datatype Le = Finite(r: real) | PosInf

  predicate Leq(a: Le, b: Le) {
    b.PosInf? || (a.Finite? && a.r <= b.r)
  }

  function AddU64(a: nat, b: nat): nat {
    (a + b) % TWO64
  }

  predicate Sorted(s: seq<real>) {
    forall i, j :: 0 <= i < j < |s| ==> s[i] <= s[j]
  }

  // ---------------------------------------------------------------------------------------
  // Sorting
  // ---------------------------------------------------------------------------------------

  function Insert(x: real, s: seq<real>): seq<real> {
    if s == [] || x <= s[0] then [x] + s else [s[0]] + Insert(x, s[1..])
  }

  function Sort(s: seq<real>): seq<real> {
    if s == [] then [] else Insert(s[0], Sort(s[1..]))
  }

  lemma {:induction false} InsertKeeps(x: real, s: seq<real>)
    ensures multiset(Insert(x, s)) == multiset(s) + multiset{x}
    decreases |s|
  {
    if s != [] {
      assert s == [s[0]] + s[1..];
      if x > s[0] { InsertKeeps(x, s[1..]); }
    }
  }

  lemma {:induction false} InsertSorted(x: real, s: seq<real>)
    requires Sorted(s)
    ensures Sorted(Insert(x, s))
    decreases |s|
  {
    if s != [] && x > s[0] {
      var tail := Insert(x, s[1..]);
      InsertSorted(x, s[1..]);
      InsertKeeps(x, s[1..]);
      forall j | 0 <= j < |tail| ensures s[0] <= tail[j] {
        assert tail[j] in multiset(tail);
        assert tail[j] == x || tail[j] in s[1..];
      }
    }
  }

  lemma {:induction false} SortSorts(s: seq<real>)
    ensures Sorted(Sort(s)) && multiset(Sort(s)) == multiset(s)
  {
    if s != [] {
      SortSorts(s[1..]);
      InsertSorted(s[0], Sort(s[1..]));
      InsertKeeps(s[0], Sort(s[1..]));
      assert s == [s[0]] + s[1..];
    }
  }

  ghost predicate Ascending(keys: seq<Le>) {
    forall i, j :: 0 <= i < j < |keys| ==> Leq(keys[i], keys[j]) && keys[i] != keys[j]
  }

  lemma {:induction false} LeastExists(s: set<Le>)
    requires s != {}
    ensures exists k :: k in s && forall x :: x in s ==> Leq(k, x)
    decreases |s|
  {
    var x :| x in s;
    if s != {x} {
      LeastExists(s - {x});
      var y :| y in s - {x} && forall z :: z in s - {x} ==> Leq(y, z);
      var k := if Leq(x, y) then x else y;
      assert forall z :: z in s ==> z == x || z in s - {x};
      assert k in s && forall z :: z in s ==> Leq(k, z);
    }
  }

  /** The stored bounds in ascending order. */
  method SortedKeys(s: set<Le>) returns (keys: seq<Le>)
    ensures Ascending(keys) && forall k :: k in keys <==> k in s
  {
    keys := [];
    var rest := s;
    while rest != {}
      invariant Ascending(keys) && rest <= s
      invariant forall k :: k in keys <==> k in s && k !in rest
      invariant forall k, x :: k in keys && x in rest ==> Leq(k, x)
      decreases |rest|
    {
      LeastExists(rest);
      var k :| k in rest && forall x :: x in rest ==> Leq(k, x);
      keys := keys + [k];
      rest := rest - {k};
    }
  }

  // ---------------------------------------------------------------------------------------
  // Writing
  // ---------------------------------------------------------------------------------------

  /** The sum of the counts stored for those of `keys` that are at most b. */
  function SumUpTo(stored: map<Le, nat>, keys: seq<Le>, b: Le): nat
    requires forall k :: k in keys ==> k in stored
  {
    if keys == [] then 0
    else
      var last := keys[|keys| - 1];
      SumUpTo(stored, keys[..|keys| - 1], b) + if Leq(last, b) then stored[last] else 0
  }

  lemma SumSnoc(stored: map<Le, nat>, keys: seq<Le>, k: Le, b: Le)
    requires k in stored && forall x :: x in keys ==> x in stored
    ensures SumUpTo(stored, keys + [k], b) == SumUpTo(stored, keys, b) + if Leq(k, b) then stored[k] else 0
  {
  }

  /** A bound that no key exceeds collects everything. */
  lemma {:induction false} SumAll(stored: map<Le, nat>, keys: seq<Le>, b: Le)
    requires forall k :: k in keys ==> k in stored
    requires forall k :: k in keys ==> Leq(k, b)
    ensures SumUpTo(stored, keys, b) == SumUpTo(stored, keys, PosInf)
  {
    if keys != [] { SumAll(stored, keys[..|keys| - 1], b); }
  }

  /** The floating-point sum of the samples, but for rounding. */
  datatype Total = Finitely(r: real) | Infinite | NotANumber

  /** Add le * n, where an infinite bound with nothing counted at it makes the product undefined. */
  function AddTerm(t: Total, le: Le, n: nat): Total {
    if t.NotANumber? then NotANumber
    else if le.PosInf? then if n == 0 then NotANumber else Infinite
    else if t.Infinite? then Infinite
    else Finitely(t.r + le.r * n as real)
  }

  /** Each finite bound times its count. */
  function Weighted(stored: map<Le, nat>, keys: seq<Le>): real
    requires forall k :: k in keys ==> k in stored
  {
    if keys == [] then 0.0
    else
      var last := keys[|keys| - 1];
      Weighted(stored, keys[..|keys| - 1]) + if last.Finite? then last.r * stored[last] as real else 0.0
  }

  /** The exact sum, unless a count, even a zero, is stored at infinity. */
  function SumOf(stored: map<Le, nat>, keys: seq<Le>): Total
    requires forall k :: k in keys ==> k in stored
  {
    if PosInf !in keys then Finitely(Weighted(stored, keys))
    else if stored[PosInf] == 0 then NotANumber else Infinite
  }

  lemma SumOneMore(stored: map<Le, nat>, keys: seq<Le>, k: Le)
    requires k in stored && (forall x :: x in keys ==> x in stored) && Ascending(keys + [k])
    ensures SumOf(stored, keys + [k]) == AddTerm(SumOf(stored, keys), k, stored[k])
  {
    assert PosInf !in keys by {
      forall i | 0 <= i < |keys| ensures keys[i] != PosInf {
        assert Leq((keys + [k])[i], (keys + [k])[|keys|]);
      }
    }
    assert (keys + [k])[|keys|] == k && (keys + [k])[..|keys|] == keys;
  }

  /** The upper bounds of the written buckets. */
  function Bound(bounds: seq<real>, i: nat): Le
    requires i <= |bounds|
  {
    if i < |bounds| then Finite(bounds[i]) else PosInf
  }

  /** The bucket where a key lands: the first whose bound is not below it. */
  predicate LandsIn(bounds: seq<real>, k: Le, m: nat) {
    m <= |bounds| && Leq(k, Bound(bounds, m)) && (m > 0 ==> !Leq(k, Bound(bounds, m - 1)))
  }

  /** The state of the loop after `keys`: buckets up to m are right, the others still zero. */
  ghost predicate WriteInv(stored: map<Le, nat>, bounds: seq<real>, keys: seq<Le>, counts: seq<nat>, m: nat, total: nat) {
    && (forall k :: k in keys ==> k in stored)
    && |counts| == |bounds| + 1 && m <= |bounds|
    && (forall k :: k in keys ==> Leq(k, Bound(bounds, m)))
    && (forall b :: 0 <= b <= m ==> counts[b] == SumUpTo(stored, keys, Bound(bounds, b)) % TWO64)
    && (forall b :: m < b <= |bounds| ==> counts[b] == 0)
    && total == SumUpTo(stored, keys, PosInf) % TWO64
  }

  lemma AdvanceInv(stored: map<Le, nat>, bounds: seq<real>, keys: seq<Le>, counts: seq<nat>, m: nat, total: nat)
    requires Sorted(bounds) && m < |bounds| && WriteInv(stored, bounds, keys, counts, m, total)
    ensures WriteInv(stored, bounds, keys, counts[m + 1 := AddU64(counts[m + 1], total)], m + 1, total)
  {
    SumAll(stored, keys, Bound(bounds, m + 1));
  }

  lemma AddModulo(a: nat, b: nat)
    ensures AddU64(a % TWO64, b) == (a + b) % TWO64
  {
  }

  lemma CountInv(stored: map<Le, nat>, bounds: seq<real>, keys: seq<Le>, counts: seq<nat>, m: nat, total: nat, k: Le)
    requires Sorted(bounds) && WriteInv(stored, bounds, keys, counts, m, total)
    requires k in stored && LandsIn(bounds, k, m)
    ensures WriteInv(stored, bounds, keys + [k], counts[m := AddU64(counts[m], stored[k])], m, AddU64(total, stored[k]))
  {
    var counts' := counts[m := AddU64(counts[m], stored[k])];
    forall b | 0 <= b <= m ensures counts'[b] == SumUpTo(stored, keys + [k], Bound(bounds, b)) % TWO64 {
      SumSnoc(stored, keys, k, Bound(bounds, b));
      AddModulo(SumUpTo(stored, keys, Bound(bounds, m)), stored[k]);
    }
    SumSnoc(stored, keys, k, PosInf);
    AddModulo(SumUpTo(stored, keys, PosInf), stored[k]);
  }

  /** Move on to the bucket where le lands, taking the count along. */
  method Advance(ghost stored: map<Le, nat>, bounds: seq<real>, ghost keys: seq<Le>, before: seq<nat>, m: nat, total: nat, le: Le)
      returns (counts: seq<nat>, landed: nat)
    requires Sorted(bounds) && WriteInv(stored, bounds, keys, before, m, total)
    requires m > 0 ==> !Leq(le, Bound(bounds, m - 1))
    ensures WriteInv(stored, bounds, keys, counts, landed, total) && LandsIn(bounds, le, landed)
  {
    counts, landed := before, m;
    while !Leq(le, Bound(bounds, landed))
      invariant WriteInv(stored, bounds, keys, counts, landed, total)
      invariant landed > 0 ==> !Leq(le, Bound(bounds, landed - 1))
      decreases |bounds| - landed
    {
      AdvanceInv(stored, bounds, keys, counts, landed, total);
      landed := landed + 1;
      counts := counts[landed := AddU64(counts[landed], total)];
    }
  }

  /** One round of the loop of Write: count what is stored at le. */
  method CountKey(stored: map<Le, nat>, bounds: seq<real>, ghost keys: seq<Le>, before: seq<nat>, m: nat, total: nat,
                  sum: Total, le: Le)
      returns (counts: seq<nat>, landed: nat, total': nat, sum': Total)
    requires Sorted(bounds) && WriteInv(stored, bounds, keys, before, m, total) && sum == SumOf(stored, keys)
    requires le in stored && Ascending(keys + [le])
    requires if keys == [] then m == 0 else LandsIn(bounds, keys[|keys| - 1], m)
    ensures WriteInv(stored, bounds, keys + [le], counts, landed, total') && LandsIn(bounds, le, landed)
    ensures sum' == SumOf(stored, keys + [le])
  {
    assert m > 0 ==> !Leq(le, Bound(bounds, m - 1)) by {
      if keys != [] { assert Leq((keys + [le])[|keys| - 1], (keys + [le])[|keys|]); }
    }
    counts, landed := Advance(stored, bounds, keys, before, m, total, le);
    CountInv(stored, bounds, keys, counts, landed, total, le);
    counts := counts[landed := AddU64(counts[landed], stored[le])];
    total' := AddU64(total, stored[le]);
    SumOneMore(stored, keys, le);
    sum' := AddTerm(sum, le, stored[le]);
  }

  class HistogramMetric {
    const bounds: seq<real>
    var stored: map<Le, nat>

    constructor (buckets: seq<real>)
      ensures Sorted(bounds) && multiset(bounds) == multiset(buckets) && stored == map[]
    {
      SortSorts(buckets);
      bounds, stored := Sort(buckets), map[];
    }

    method Set(le: Le, val: nat)
      modifies this`stored
      ensures stored == old(stored)[le := val]
    {
      stored := stored[le := val];
    }

    /**
      Write. Every bucket up to the one where the largest stored bound lands holds the sum of
      all counts stored at or below its bound; the later ones stay at zero, so their
      cumulative count is right exactly when there is nothing to count.
    */
    method Write() returns (counts: seq<nat>, sampleCount: nat, sampleSum: Total, keys: seq<Le>, landed: nat)
      requires Sorted(bounds)
      ensures Ascending(keys) && (forall k :: k in keys <==> k in stored)
      ensures |counts| == |bounds| + 1 && landed <= |bounds|
      ensures if keys == [] then landed == 0 else LandsIn(bounds, keys[|keys| - 1], landed)
      ensures sampleCount == SumUpTo(stored, keys, PosInf) % TWO64
      ensures sampleSum == SumOf(stored, keys)
      ensures forall b :: 0 <= b <= landed ==> counts[b] == SumUpTo(stored, keys, Bound(bounds, b)) % TWO64
      ensures forall b :: landed < b <= |bounds| ==> counts[b] == 0
      ensures forall b :: 0 <= b <= |bounds| ==>
        (counts[b] == SumUpTo(stored, keys, Bound(bounds, b)) % TWO64 <==> b <= landed || sampleCount == 0)
    {
      counts := seq(|bounds| + 1, i => 0);
      keys := SortedKeys(stored.Keys);
      sampleCount, sampleSum, landed := 0, Finitely(0.0), 0;
      for i := 0 to |keys|
        invariant WriteInv(stored, bounds, keys[..i], counts, landed, sampleCount)
        invariant sampleSum == SumOf(stored, keys[..i])
        invariant if i == 0 then landed == 0 else LandsIn(bounds, keys[i - 1], landed)
      {
        assert keys[..i + 1] == keys[..i] + [keys[i]];
        counts, landed, sampleCount, sampleSum :=
          CountKey(stored, bounds, keys[..i], counts, landed, sampleCount, sampleSum, keys[i]);
      }
      assert keys[..|keys|] == keys;
      LaterBuckets(stored, bounds, keys, counts, landed, sampleCount);
    }
  }

  lemma LaterBuckets(stored: map<Le, nat>, bounds: seq<real>, keys: seq<Le>, counts: seq<nat>, m: nat, total: nat)
    requires Sorted(bounds) && WriteInv(stored, bounds, keys, counts, m, total)
    ensures forall b :: 0 <= b <= |bounds| ==>
      (counts[b] == SumUpTo(stored, keys, Bound(bounds, b)) % TWO64 <==> b <= m || total == 0)
  {
    forall b | m < b <= |bounds|
      ensures counts[b] == SumUpTo(stored, keys, Bound(bounds, b)) % TWO64 <==> total == 0
    {
      SumAll(stored, keys, Bound(bounds, b));
    }
  }
}

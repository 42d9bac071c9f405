/**
  The weighted delaying queue under the controllers: items wait in binary heaps, one per
  weight, until they are due; a loop worker moves a due item to the ready queue; workers take
  items from the ready queue. Each controller uses two delay heaps, named `low` and `high`.

  A heap finds an item for removal through an index from item to heap entry. A second Push of
  an item that is still in the heap redirects the index, so the earlier entry stays in the
  heap but can no longer be found. The model keeps the two kinds of entries apart: `indexed`
  maps an item to the due time of its findable entry, `orphans` are the other entries.
*/
module DelayQueue {
  import opened Options

  datatype Heap<!T(==)> = Heap(indexed: map<T, int>, orphans: multiset<(int, T)>)

  function Push<T(==)>(h: Heap<T>, due: int, item: T): Heap<T> {
    Heap(h.indexed[item := due],
         if item in h.indexed then h.orphans + multiset{(h.indexed[item], item)} else h.orphans)
  }

  function Remove<T(==)>(h: Heap<T>, item: T): Heap<T> {
    h.(indexed := h.indexed - {item})
  }

  predicate HasEntry<T(==)>(h: Heap<T>, due: int, item: T) {
    (item in h.indexed && h.indexed[item] == due) || (due, item) in h.orphans
  }

  /** The entry that Peek may return: none is due earlier. */
  ghost predicate IsTop<T>(h: Heap<T>, due: int, item: T) {
    && HasEntry(h, due, item)
    && (forall x :: x in h.indexed ==> due <= h.indexed[x])
    && (forall e :: e in h.orphans ==> due <= e.0)
  }

  datatype Queue<!T(==)> = Queue(low: Heap<T>, high: Heap<T>, transit: Option<T>, ready: multiset<T>)

  datatype Which = Low | High

  function Get<T(==)>(q: Queue<T>, w: Which): Heap<T> {
    if w.Low? then q.low else q.high
  }

  function Set<T(==)>(q: Queue<T>, w: Which, h: Heap<T>): Queue<T> {
    if w.Low? then q.(low := h) else q.(high := h)
  }

  function EmptyQueue<T(==)>(): Queue<T> {
    Queue(Heap(map[], multiset{}), Heap(map[], multiset{}), None, multiset{})
  }

  function Add<T(==)>(q: Queue<T>, item: T): Queue<T> {
    q.(ready := q.ready + multiset{item})
  }

  /** AddWeightAfter: an item without a delay is ready at once. */
  function AddAfter<T(==)>(q: Queue<T>, w: Which, item: T, now: int, delay: int): Queue<T> {
    if delay <= 0 then Add(q, item) else Set(q, w, Push(Get(q, w), now + delay, item))
  }

  /** Cancel looks into the delay heaps only. */
  function Cancel<T(==)>(q: Queue<T>, item: T): Queue<T> {
    q.(low := Remove(q.low, item), high := Remove(q.high, item))
  }

  predicate Delayed<T(==)>(q: Queue<T>, item: T) {
    item in q.low.indexed || item in q.high.indexed
  }

  /**
    The loop worker peeks at an entry and, if it is due, removes its item by value. If the
    item is not indexed the removal fails and nothing leaves the heap.
  */
  function Deliver<T(==)>(q: Queue<T>, w: Which, due: int, item: T, now: int): Queue<T> {
    if q.transit.None? && due <= now && item in Get(q, w).indexed
    then Set(q, w, Remove(Get(q, w), item)).(transit := Some(item)) else q
  }

  function Hand<T(==)>(q: Queue<T>): Queue<T> {
    match q.transit
    case None => q
    case Some(item) => Add(q.(transit := None), item)
  }

  function Take<T(==)>(q: Queue<T>, item: T): Queue<T>
    requires item in q.ready
  {
    q.(ready := q.ready - multiset{item})
  }

  // ---------------------------------------------------------------------------------------
  // Counting the findable copies of an item
  // ---------------------------------------------------------------------------------------

  predicate NoOrphans<T(==)>(q: Queue<T>) {
    q.low.orphans == multiset{} && q.high.orphans == multiset{}
  }

  function Copies<T(==)>(q: Queue<T>, x: T): nat {
    (if x in q.low.indexed then 1 else 0) + (if x in q.high.indexed then 1 else 0)
    + (if q.transit == Some(x) then 1 else 0) + q.ready[x]
  }

  /** A delayed item is one more copy, provided the heap does not hold it already. */
  lemma AddAfterCopies<T>(q: Queue<T>, w: Which, item: T, now: int, delay: int, x: T)
    requires item !in Get(q, w).indexed
    ensures Copies(AddAfter(q, w, item, now, delay), x) == Copies(q, x) + if x == item then 1 else 0
  {
  }

  /** Even if the heap holds it already, the item is there afterwards, and no other item is touched. */
  lemma AddAfterKeeps<T>(q: Queue<T>, w: Which, item: T, now: int, delay: int, x: T)
    ensures Copies(AddAfter(q, w, item, now, delay), item) > 0
    ensures x != item ==> Copies(AddAfter(q, w, item, now, delay), x) == Copies(q, x)
  {
  }

  lemma CancelCopies<T>(q: Queue<T>, item: T, x: T)
    ensures Copies(Cancel(q, item), x)
         == if x == item then (if q.transit == Some(x) then 1 else 0) + q.ready[x] else Copies(q, x)
  {
  }

  lemma MoveCopies<T>(q: Queue<T>, w: Which, due: int, item: T, now: int, x: T)
    ensures Copies(Deliver(q, w, due, item, now), x) == Copies(q, x) == Copies(Hand(q), x)
  {
  }

  lemma TakeCopies<T>(q: Queue<T>, item: T, x: T)
    requires item in q.ready
    ensures Copies(Take(q, item), x) == Copies(q, x) - if x == item then 1 else 0
  {
  }

  // ---------------------------------------------------------------------------------------
  // Nothing comes before its time
  // ---------------------------------------------------------------------------------------

  ghost predicate EntriesFrom<T>(h: Heap<T>, x: T, t: int) {
    (x in h.indexed ==> t <= h.indexed[x]) && forall o :: o in h.orphans && o.1 == x ==> t <= o.0
  }

  /** The item is neither ready nor on its way, and no entry of it is due before t. */
  ghost predicate NotBefore<T>(q: Queue<T>, x: T, t: int) {
    q.transit != Some(x) && x !in q.ready && EntriesFrom(q.low, x, t) && EntriesFrom(q.high, x, t)
  }

  /** An entry that is not due stays. */
  lemma NotDueStays<T>(q: Queue<T>, w: Which, due: int, item: T, now: int)
    requires now < due
    ensures Deliver(q, w, due, item, now) == q
  {
  }

  lemma DeliverNotBefore<T>(q: Queue<T>, w: Which, due: int, item: T, now: int, x: T, t: int)
    requires NotBefore(q, x, t) && IsTop(Get(q, w), due, item) && now < t
    ensures NotBefore(Deliver(q, w, due, item, now), x, t)
  {
    if item == x {
      NotDueStays(q, w, due, item, now);
    }
  }

  /** Nothing else that happens to other items brings x forward. */
  lemma OthersNotBefore<T>(q: Queue<T>, w: Which, item: T, now: int, delay: int, x: T, t: int)
    requires NotBefore(q, x, t)
    ensures NotBefore(Cancel(q, item), x, t) && NotBefore(Hand(q), x, t)
    ensures item in q.ready ==> NotBefore(Take(q, item), x, t)
    ensures item != x ==> NotBefore(Add(q, item), x, t) && NotBefore(AddAfter(q, w, item, now, delay), x, t)
  {
  }

  /**
    An item that is nowhere in the queue is, after AddWeightAfter, due at the clock reading
    plus the delay in the heap of its weight and nowhere else, or ready if there is no delay.
  */
  lemma AddedAfter<T>(q: Queue<T>, w: Which, item: T, now: int, delay: int)
    requires Copies(q, item) == 0 && NoOrphans(q)
    ensures
      var q' := AddAfter(q, w, item, now, delay);
      if delay <= 0 then item in q'.ready && !Delayed(q', item)
      else
        && NotBefore(q', item, now + delay) && Ahead(Get(q', w), now + delay, item)
        && Get(q', w).indexed[item] == now + delay && item !in Get(q', if w.Low? then High else Low).indexed
  {
  }

  /** A second Push of an item is exactly what makes an orphan. */
  lemma PushOrphans<T>(h: Heap<T>, due: int, item: T)
    requires h.orphans == multiset{}
    ensures Push(h, due, item).orphans == multiset{} <==> item !in h.indexed
  {
  }

  // ---------------------------------------------------------------------------------------
  // Entries behind a lost one
  // ---------------------------------------------------------------------------------------

  /** A lost entry of n comes before every entry, findable or lost, of the other item m. */
  ghost predicate Behind<T>(h: Heap<T>, e: int, n: T, m: T) {
    && n != m && (e, n) in h.orphans
    && (m in h.indexed ==> e < h.indexed[m])
    && (forall o :: o in h.orphans && o.1 == m ==> e < o.0)
  }

  /** The earliest entry of m is due at d, and no lost entry comes before it. */
  ghost predicate Ahead<T>(h: Heap<T>, d: int, m: T) {
    && m in h.indexed && HasEntry(h, d, m) && d <= h.indexed[m]
    && (forall o :: o in h.orphans ==> d <= o.0)
  }

  /** As long as a lost entry is before those of m, Peek does not return one of m. */
  lemma BehindDeliversNot<T>(q: Queue<T>, w: Which, e: int, n: T, m: T, top: int, x: T, now: int)
    requires Behind(Get(q, w), e, n, m) && IsTop(Get(q, w), top, x)
    ensures x != m
    ensures Behind(Get(Deliver(q, w, top, x, now), w), e, n, m)
    ensures m in Get(q, w).indexed <==> m in Get(Deliver(q, w, top, x, now), w).indexed
  {
  }

  /** Removals, and pushes of other items at any due time, leave m behind the lost entry. */
  lemma BehindStays<T>(h: Heap<T>, e: int, n: T, m: T, x: T, due: int)
    requires Behind(h, e, n, m)
    ensures Behind(Remove(h, x), e, n, m)
    ensures x != m ==> Behind(Push(h, due, x), e, n, m)
  {
  }

  lemma {:induction false} EarliestOrphan<T>(o: multiset<(int, T)>) returns (e: (int, T))
    requires o != multiset{}
    ensures e in o && forall x :: x in o ==> e.0 <= x.0
    decreases |o|
  {
    var x :| x in o;
    e := x;
    var rest := o - multiset{x};
    if rest != multiset{} {
      var y := EarliestOrphan(rest);
      if y.0 < x.0 { e := y; }
    }
    assert forall y :: y in o ==> y == x || y in rest;
  }

  lemma {:induction false} EarliestIndexed<T>(m: map<T, int>) returns (x: T)
    requires m != map[]
    ensures x in m && forall y :: y in m ==> m[x] <= m[y]
    decreases |m|
  {
    var z :| z in m;
    x := z;
    var rest := m - {z};
    if rest != map[] {
      assert |rest| < |m| by { assert rest.Keys == m.Keys - {z}; }
      var y := EarliestIndexed(rest);
      if m[y] < m[z] { x := y; }
    }
    assert forall y :: y in m ==> y == z || y in rest;
  }

  /** A heap that is not empty has an entry for Peek to return. */
  lemma TopExists<T>(h: Heap<T>) returns (due: int, item: T)
    requires h.indexed != map[] || h.orphans != multiset{}
    ensures IsTop(h, due, item)
  {
    if h.indexed == map[] {
      var e := EarliestOrphan(h.orphans);
      due, item := e.0, e.1;
    } else {
      item := EarliestIndexed(h.indexed);
      due := h.indexed[item];
      if h.orphans != multiset{} {
        var e := EarliestOrphan(h.orphans);
        if e.0 < due { due, item := e.0, e.1; }
      }
    }
  }

  /** An item in the heap is either behind a lost entry of another item or ahead of all of them. */
  lemma BehindOrAhead<T(!new)>(h: Heap<T>, m: T)
    requires m in h.indexed
    ensures (exists e, n :: Behind(h, e, n, m)) <==> !(exists d :: Ahead(h, d, m))
  {
    if h.orphans == multiset{} {
      assert Ahead(h, h.indexed[m], m);
    } else {
      var e := EarliestOrphan(h.orphans);
      if h.indexed[m] <= e.0 {
        assert Ahead(h, h.indexed[m], m);
      } else if (e.0, m) in h.orphans {
        assert Ahead(h, e.0, m);
      } else {
        assert e == (e.0, e.1);
        assert Behind(h, e.0, e.1, m);
      }
    }
  }

  /** If m is ahead of the lost entries, either it can be peeked at or an earlier item can be delivered. */
  lemma NextAhead<T>(h: Heap<T>, d: int, m: T) returns (due: int, item: T)
    requires Ahead(h, d, m)
    ensures IsTop(h, due, item) && due <= d && item in h.indexed
    ensures item != m ==> Ahead(Remove(h, item), d, m)
  {
    var x := EarliestIndexed(h.indexed);
    if h.indexed[x] < d {
      due, item := h.indexed[x], x;
    } else {
      due, item := d, m;
    }
  }
}

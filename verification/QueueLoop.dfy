/**
  What the loop worker of the delaying queue can do by itself: it peeks at the heap that
  comes first, and at the other one if the first has nothing for it, and hands over the item
  of a due entry.
*/
module QueueLoop {
  import opened Options
  import opened DelayQueue

  /** The heap has nothing for the loop worker: no entry, none that is due, or a lost one on top. */
  ghost predicate Passes<T(!new)>(h: Heap<T>, now: int) {
    || (h.indexed == map[] && h.orphans == multiset{})
    || exists due: int, item: T :: IsTop(h, due, item) && (due > now || item !in h.indexed)
  }

  datatype Peek<+T> = Peek(w: Which, due: int, item: T)

  /** The loop worker may look at that entry. */
  ghost predicate CanPeek<T(!new)>(q: Queue<T>, first: Which, p: Peek<T>, now: int) {
    IsTop(Get(q, p.w), p.due, p.item) && (p.w != first ==> Passes(Get(q, first), now))
  }

  /** As long as the heap that comes first has a due item and no lost entries, only it is served. */
  lemma FirstComesFirst<T(!new)>(q: Queue<T>, first: Which, x: T, p: Peek<T>, now: int)
    requires Get(q, first).orphans == multiset{} && x in Get(q, first).indexed && Get(q, first).indexed[x] <= now
    requires CanPeek(q, first, p, now)
    ensures p.w == first
  {
    assert x in Get(q, first).indexed;
  }

  function Serve<T(==)>(q: Queue<T>, p: Peek<T>, now: int): Queue<T> {
    Hand(Deliver(q, p.w, p.due, p.item, now))
  }

  function ServeAll<T(==)>(q: Queue<T>, peeks: seq<Peek<T>>, now: int): Queue<T>
    decreases |peeks|
  {
    if peeks == [] then q else ServeAll(Serve(q, peeks[0], now), peeks[1..], now)
  }

  ghost predicate Serves<T(!new)>(q: Queue<T>, first: Which, peeks: seq<Peek<T>>, now: int)
    decreases |peeks|
  {
    peeks == [] || (CanPeek(q, first, peeks[0], now) && Serves(Serve(q, peeks[0], now), first, peeks[1..], now))
  }

  lemma ServesCons<T(!new)>(q: Queue<T>, first: Which, p: Peek<T>, rest: seq<Peek<T>>, now: int) returns (peeks: seq<Peek<T>>)
    requires CanPeek(q, first, p, now) && Serves(Serve(q, p, now), first, rest, now)
    ensures peeks == [p] + rest && Serves(q, first, peeks, now)
    ensures ServeAll(q, peeks, now) == ServeAll(Serve(q, p, now), rest, now)
  {
    peeks := [p] + rest;
    assert peeks[1..] == rest;
  }

  lemma {:induction false} ServesConcat<T(!new)>(q: Queue<T>, first: Which, a: seq<Peek<T>>, b: seq<Peek<T>>, now: int)
    requires Serves(q, first, a, now) && Serves(ServeAll(q, a, now), first, b, now)
    ensures Serves(q, first, a + b, now) && ServeAll(q, a + b, now) == ServeAll(ServeAll(q, a, now), b, now)
    decreases |a|
  {
    if a == [] {
      assert a + b == b;
    } else {
      assert (a + b)[0] == a[0] && (a + b)[1..] == a[1..] + b;
      ServesConcat(Serve(q, a[0], now), first, a[1..], b, now);
    }
  }

  lemma RemoveShrinks<T>(h: Heap<T>, item: T)
    requires item in h.indexed
    ensures |Remove(h, item).indexed| < |h.indexed|
  {
    assert Remove(h, item).indexed.Keys == h.indexed.Keys - {item};
  }

  /** A due and findable item leaves its heap and is ready; nothing else changes. */
  lemma ServedDue<T>(q: Queue<T>, p: Peek<T>, now: int)
    requires q.transit == None && p.due <= now && p.item in Get(q, p.w).indexed
    ensures Serve(q, p, now) == Add(Set(q, p.w, Remove(Get(q, p.w), p.item)), p.item)
  {
  }

  /** The first heap has nothing more for the loop worker after finitely many deliveries. */
  lemma {:induction false} EmptyFirst<T(!new)>(q: Queue<T>, first: Which, now: int) returns (peeks: seq<Peek<T>>)
    requires q.transit == None
    ensures Serves(q, first, peeks, now)
    ensures
      var q' := ServeAll(q, peeks, now);
      && Passes(Get(q', first), now) && q'.transit == None
      && forall w :: w != first ==> Get(q', w) == Get(q, w)
    decreases |Get(q, first).indexed|
  {
    peeks := [];
    if !Passes(Get(q, first), now) {
      var due, item := TopExists(Get(q, first));
      var p := Peek(first, due, item);
      ServedDue(q, p, now);
      RemoveShrinks(Get(q, first), item);
      peeks := EmptyFirst(Serve(q, p, now), first, now);
      peeks := ServesCons(q, first, p, peeks, now);
    }
  }

  /** A due item ahead of the lost entries is ready after finitely many deliveries. */
  lemma {:induction false} ServeUntil<T(!new)>(q: Queue<T>, first: Which, w: Which, d: int, m: T, now: int)
      returns (peeks: seq<Peek<T>>)
    requires q.transit == None && Ahead(Get(q, w), d, m) && d <= now
    requires w != first ==> Passes(Get(q, first), now)
    ensures Serves(q, first, peeks, now) && m in ServeAll(q, peeks, now).ready
    decreases |Get(q, w).indexed|
  {
    var due, item := NextAhead(Get(q, w), d, m);
    var p := Peek(w, due, item);
    ServedDue(q, p, now);
    peeks := [];
    if item != m {
      RemoveShrinks(Get(q, w), item);
      peeks := ServeUntil(Serve(q, p, now), first, w, d, m, now);
    }
    peeks := ServesCons(q, first, p, peeks, now);
  }

  /** The heap that comes first if need be, and then the heap of m. */
  lemma ServeDue<T(!new)>(q: Queue<T>, first: Which, w: Which, d: int, m: T, now: int) returns (peeks: seq<Peek<T>>)
    requires q.transit == None && Ahead(Get(q, w), d, m) && d <= now
    ensures Serves(q, first, peeks, now) && m in ServeAll(q, peeks, now).ready
  {
    if w != first {
      var before := EmptyFirst(q, first, now);
      peeks := ServeUntil(ServeAll(q, before, now), first, w, d, m, now);
      ServesConcat(q, first, before, peeks, now);
      peeks := before + peeks;
    } else {
      peeks := ServeUntil(q, first, w, d, m, now);
    }
  }
}

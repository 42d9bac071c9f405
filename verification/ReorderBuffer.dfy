/**
  The bounded reorder buffer of Record and Replay: items are pushed into a heap by duration,
  and as soon as the heap holds `threshold` items the earliest one is let out; at the end the
  heap is flushed. Record uses threshold 128, Replay 1024.
*/
module ReorderBuffer {
  import opened BinaryHeap

  const RECORD_THRESHOLD := 128
  const REPLAY_THRESHOLD := 1024

  /** What has been let out, and the heap. */
  datatype Buffer<+T> = Buffer(out: seq<Timed<T>>, heap: seq<Timed<T>>)

  /** Push one arrival, and let the earliest item out if the heap is full. */
  function Arrive<T>(b: Buffer<T>, x: Timed<T>, threshold: nat): Buffer<T> {
    var heap := Push(b.heap, x);
    if |heap| >= threshold then Buffer(b.out + [Pop(heap).0], Pop(heap).1) else Buffer(b.out, heap)
  }

  function ArriveAll<T>(input: seq<Timed<T>>, threshold: nat): Buffer<T>
    decreases |input|
  {
    if input == [] then Buffer([], [])
    else Arrive(ArriveAll(input[..|input| - 1], threshold), input[|input| - 1], threshold)
  }

  /** Flush: let out what is left in the heap. */
  function Drain<T>(heap: seq<Timed<T>>): seq<Timed<T>>
    decreases |heap|
  {
    if heap == [] then [] else [Pop(heap).0] + Drain(Pop(heap).1)
  }

  function Reordered<T>(input: seq<Timed<T>>, threshold: nat): seq<Timed<T>> {
    var b := ArriveAll(input, threshold);
    b.out + Drain(b.heap)
  }

  // ---------------------------------------------------------------------------------------
  // When the output is in order
  // ---------------------------------------------------------------------------------------

  /** How many items come later than d. */
  function Above<T>(s: seq<Timed<T>>, d: int): nat {
    if s == [] then 0 else Above(s[..|s| - 1], d) + if s[|s| - 1].duration > d then 1 else 0
  }

  ghost predicate Sorted<T>(s: seq<Timed<T>>) {
    forall i, j :: 0 <= i < j < |s| ==> s[i].duration <= s[j].duration
  }

  /** Everything in `a` comes no later than everything in `b`. */
  ghost predicate Precedes<T>(a: seq<Timed<T>>, b: seq<Timed<T>>) {
    forall x, y :: x in a && y in b ==> x.duration <= y.duration
  }

  /** No item arrives after `threshold` or more items that should come later than it. */
  ghost predicate Prompt<T>(s: seq<Timed<T>>, threshold: nat) {
    forall i :: 0 <= i < |s| ==> Above(s[..i], s[i].duration) < threshold
  }

  lemma AboveSnoc<T>(s: seq<Timed<T>>, x: Timed<T>, d: int)
    ensures Above(s + [x], d) == Above(s, d) + if x.duration > d then 1 else 0
  {
  }

  lemma {:induction false} AboveConcat<T>(a: seq<Timed<T>>, b: seq<Timed<T>>, d: int)
    ensures Above(a + b, d) == Above(a, d) + Above(b, d)
    decreases |b|
  {
    if b == [] {
      assert a + b == a;
    } else {
      assert (a + b)[..|a + b| - 1] == a + b[..|b| - 1];
      AboveConcat(a, b[..|b| - 1], d);
    }
  }

  lemma {:induction false} AboveBound<T>(s: seq<Timed<T>>, d: int, e: int)
    ensures Above(s, d) <= |s|
    ensures (forall x :: x in s ==> x.duration > d) ==> Above(s, d) == |s|
    ensures (forall x :: x in s ==> x.duration <= d) ==> Above(s, d) == 0
    ensures d <= e ==> Above(s, e) <= Above(s, d)
  {
    if s != [] { AboveBound(s[..|s| - 1], d, e); }
  }

  lemma AboveExtract<T>(s: seq<Timed<T>>, p: nat, d: int)
    requires p < |s|
    ensures multiset(s) == multiset(s[..p] + s[p + 1..]) + multiset{s[p]}
    ensures Above(s, d) == Above(s[..p] + s[p + 1..], d) + if s[p].duration > d then 1 else 0
  {
    assert s == (s[..p] + [s[p]]) + s[p + 1..];
    AboveConcat(s[..p] + [s[p]], s[p + 1..], d);
    AboveSnoc(s[..p], s[p], d);
    AboveConcat(s[..p], s[p + 1..], d);
  }

  lemma SameLength<T>(s: seq<Timed<T>>, t: seq<Timed<T>>)
    requires multiset(s) == multiset(t)
    ensures |s| == |t|
  {
    assert |multiset(s)| == |s| && |multiset(t)| == |t|;
  }

  lemma DropLast<T>(s: seq<Timed<T>>)
    requires s != []
    ensures multiset(s[..|s| - 1]) == multiset(s) - multiset{s[|s| - 1]}
  {
    assert s == s[..|s| - 1] + [s[|s| - 1]];
  }

  /** The count does not depend on the order. */
  lemma {:induction false} AbovePermutes<T>(s: seq<Timed<T>>, t: seq<Timed<T>>, d: int)
    requires multiset(s) == multiset(t)
    ensures Above(s, d) == Above(t, d)
    decreases |s|
  {
    SameLength(s, t);
    if s != [] {
      var x := s[|s| - 1];
      assert x in multiset(t);
      var p :| 0 <= p < |t| && t[p] == x;
      AboveExtract(t, p, d);
      DropLast(s);
      assert multiset(t) - multiset{x} == multiset(t[..p] + t[p + 1..]);
      AbovePermutes(s[..|s| - 1], t[..p] + t[p + 1..], d);
    }
  }

  lemma PromptSnoc<T>(s: seq<Timed<T>>, x: Timed<T>, threshold: nat)
    ensures Prompt(s + [x], threshold) <==> Prompt(s, threshold) && Above(s, x.duration) < threshold
  {
    var t := s + [x];
    assert forall i :: 0 <= i < |s| ==> t[..i] == s[..i] && t[i] == s[i];
    assert t[..|s|] == s && t[|s|] == x;
    if Prompt(t, threshold) {
      forall i | 0 <= i < |s| ensures Above(s[..i], s[i].duration) < threshold {
        assert Above(t[..i], t[i].duration) < threshold;
      }
    }
  }

  /** What was let out and what is still held is what has arrived. */
  ghost predicate Conserves<T>(input: seq<Timed<T>>, b: Buffer<T>) {
    multiset(b.out) + multiset(b.heap) == multiset(input)
  }

  lemma AboveConserved<T>(input: seq<Timed<T>>, b: Buffer<T>, d: int)
    requires Conserves(input, b)
    ensures Above(input, d) == Above(b.out, d) + Above(b.heap, d)
  {
    assert multiset(b.out + b.heap) == multiset(input);
    AbovePermutes(input, b.out + b.heap, d);
    AboveConcat(b.out, b.heap, d);
  }

  /** Everything let out so far had at least `threshold` arrivals not earlier than itself. */
  ghost predicate LetOutLate<T>(input: seq<Timed<T>>, out: seq<Timed<T>>, threshold: nat) {
    forall x :: x in out ==> Above(input, x.duration - 1) >= threshold
  }

  /** An arrival fits behind what was let out exactly when it comes promptly. */
  lemma ArrivalFits<T>(input: seq<Timed<T>>, b: Buffer<T>, x: Timed<T>, threshold: nat)
    requires Conserves(input, b) && |b.heap| < threshold && LetOutLate(input, b.out, threshold)
    ensures (forall y :: y in b.out ==> y.duration <= x.duration) <==> Above(input, x.duration) < threshold
  {
    AboveConserved(input, b, x.duration);
    AboveBound(b.heap, x.duration, x.duration);
    AboveBound(b.out, x.duration, x.duration);
    forall y | y in b.out && y.duration > x.duration ensures Above(input, x.duration) >= threshold {
      AboveBound(input, x.duration, y.duration - 1);
    }
  }

  /** In order so far, with nothing left in the heap that should have come out before. */
  ghost predicate InOrder<T>(out: seq<Timed<T>>, heap: seq<Timed<T>>) {
    Sorted(out) && Precedes(out, heap)
  }

  lemma OrderPush<T>(out: seq<Timed<T>>, heap: seq<Timed<T>>, x: Timed<T>, heap': seq<Timed<T>>)
    requires multiset(heap') == multiset(heap) + multiset{x}
    ensures Precedes(out, heap') <==> Precedes(out, heap) && forall y :: y in out ==> y.duration <= x.duration
  {
    SameMembers(heap', heap, x);
  }

  lemma SameMembers<T>(more: seq<Timed<T>>, s: seq<Timed<T>>, x: Timed<T>)
    requires multiset(more) == multiset(s) + multiset{x}
    ensures forall y :: y in s ==> y in more
    ensures x in more
    ensures forall y :: y in more ==> y in s || y == x
  {
    Within(s, more);
    assert x in multiset(more);
    forall y | y in more ensures y in s || y == x {
      assert y in multiset(more);
      assert y in multiset(s) || y == x;
    }
  }

  /** Letting the earliest item out neither mends nor spoils the order. */
  lemma OrderPop<T>(out: seq<Timed<T>>, heap: seq<Timed<T>>, x: Timed<T>, rest: seq<Timed<T>>)
    requires multiset(heap) == multiset(rest) + multiset{x}
    requires forall y :: y in rest ==> x.duration <= y.duration
    ensures InOrder(out, heap) <==> InOrder(out + [x], rest)
  {
    SameMembers(heap, rest, x);
    var out' := out + [x];
    if Sorted(out') {
      forall y | y in out ensures y.duration <= x.duration {
        var i :| 0 <= i < |out| && out[i] == y;
        assert out'[i].duration <= out'[|out|].duration;
      }
      forall i, j | 0 <= i < j < |out| ensures out[i].duration <= out[j].duration {
        assert out'[i].duration <= out'[j].duration;
      }
    }
  }

  /** The state of the buffer after the arrivals `input`. */
  ghost predicate BufferInv<T>(input: seq<Timed<T>>, b: Buffer<T>, threshold: nat) {
    && Conserves(input, b)
    && LetOutLate(input, b.out, threshold)
    && (Prompt(input, threshold) <==> InOrder(b.out, b.heap))
  }

  lemma StaysLate<T>(input: seq<Timed<T>>, out: seq<Timed<T>>, x: Timed<T>, threshold: nat)
    requires LetOutLate(input, out, threshold)
    ensures LetOutLate(input + [x], out, threshold)
  {
    forall y | y in out ensures Above(input + [x], y.duration - 1) >= threshold {
      AboveSnoc(input, x, y.duration - 1);
    }
  }

  lemma PushInv<T>(input: seq<Timed<T>>, b: Buffer<T>, x: Timed<T>, heap: seq<Timed<T>>, threshold: nat)
    requires BufferInv(input, b, threshold) && |b.heap| < threshold
    requires multiset(heap) == multiset(b.heap) + multiset{x}
    ensures BufferInv(input + [x], Buffer(b.out, heap), threshold)
  {
    PromptSnoc(input, x, threshold);
    ArrivalFits(input, b, x, threshold);
    OrderPush(b.out, b.heap, x, heap);
    StaysLate(input, b.out, x, threshold);
  }

  lemma PopInv<T>(input: seq<Timed<T>>, b: Buffer<T>, x: Timed<T>, rest: seq<Timed<T>>, threshold: nat)
    requires BufferInv(input, b, threshold) && |b.heap| >= threshold
    requires multiset(b.heap) == multiset(rest) + multiset{x}
    requires forall y :: y in b.heap ==> x.duration <= y.duration
    requires forall y :: y in rest ==> x.duration <= y.duration
    ensures BufferInv(input, Buffer(b.out + [x], rest), threshold)
  {
    OrderPop(b.out, b.heap, x, rest);
    AboveConserved(input, b, x.duration - 1);
    AboveBound(b.heap, x.duration - 1, x.duration - 1);
  }

  lemma ArriveInv<T>(input: seq<Timed<T>>, b: Buffer<T>, x: Timed<T>, threshold: nat)
    requires BufferInv(input, b, threshold) && Ordered(b.heap) && |b.heap| < threshold
    ensures
      var b' := Arrive(b, x, threshold);
      BufferInv(input + [x], b', threshold) && Ordered(b'.heap) && |b'.heap| < threshold
  {
    var heap := Push(b.heap, x);
    PushOrders(b.heap, x);
    PushInv(input, b, x, heap, threshold);
    if |heap| >= threshold {
      PopOrders(heap);
      PopInv(input + [x], Buffer(b.out, heap), Pop(heap).0, Pop(heap).1, threshold);
    }
  }

  lemma {:induction false} ArriveAllInv<T>(input: seq<Timed<T>>, threshold: nat)
    requires threshold > 0
    ensures
      var b := ArriveAll(input, threshold);
      BufferInv(input, b, threshold) && Ordered(b.heap) && |b.heap| < threshold
    decreases |input|
  {
    if input != [] {
      var before := input[..|input| - 1];
      ArriveAllInv(before, threshold);
      ArriveInv(before, ArriveAll(before, threshold), input[|input| - 1], threshold);
      assert input == before + [input[|input| - 1]];
    }
  }

  lemma {:induction false} DrainPermutes<T>(heap: seq<Timed<T>>)
    requires Ordered(heap)
    ensures multiset(Drain(heap)) == multiset(heap)
    decreases |heap|
  {
    if heap != [] {
      PopOrders(heap);
      DrainPermutes(Pop(heap).1);
    }
  }

  /** Flushing neither mends nor spoils the order either. */
  lemma {:induction false} DrainOrders<T>(out: seq<Timed<T>>, heap: seq<Timed<T>>)
    requires Ordered(heap)
    ensures Sorted(out + Drain(heap)) <==> InOrder(out, heap)
    decreases |heap|
  {
    if heap == [] {
      assert out + Drain(heap) == out;
    } else {
      var x, rest := Pop(heap).0, Pop(heap).1;
      PopOrders(heap);
      assert InOrder(out, heap) <==> InOrder(out + [x], rest) by {
        OrderPop(out, heap, x, rest);
      }
      DrainOrders(out + [x], rest);
      assert out + Drain(heap) == out + [x] + Drain(rest) by {
        assert Drain(heap) == [x] + Drain(rest);
      }
    }
  }

  /**
    The buffer lets out a permutation of its input, and that is in order exactly when no item
    arrived after `threshold` or more items that should come later than it.
  */
  lemma ReorderedExactly<T>(input: seq<Timed<T>>, threshold: nat)
    requires threshold > 0
    ensures multiset(Reordered(input, threshold)) == multiset(input)
    ensures Sorted(Reordered(input, threshold)) <==> Prompt(input, threshold)
  {
    var b := ArriveAll(input, threshold);
    ArriveAllInv(input, threshold);
    DrainPermutes(b.heap);
    DrainOrders(b.out, b.heap);
  }

  /** The loops of Record and of Replay; the heap never holds more than `threshold` items. */
  method Reorder<T>(input: seq<Timed<T>>, threshold: nat) returns (out: seq<Timed<T>>, peak: nat)
    requires threshold > 0
    ensures out == Reordered(input, threshold)
    ensures peak <= threshold
  {
    var heap: seq<Timed<T>> := [];
    out, peak := [], 0;
    for i := 0 to |input|
      invariant Buffer(out, heap) == ArriveAll(input[..i], threshold)
      invariant |heap| < threshold && peak <= threshold
    {
      assert input[..i + 1][..i] == input[..i] && input[..i + 1][i] == input[i];
      heap := Push(heap, input[i]);
      if peak < |heap| { peak := |heap|; }
      if |heap| >= threshold {
        var popped := Pop(heap);
        out, heap := out + [popped.0], popped.1;
      }
    }
    assert input[..|input|] == input;
    while heap != []
      invariant out + Drain(heap) == Reordered(input, threshold)
      decreases |heap|
    {
      var popped := Pop(heap);
      out, heap := out + [popped.0], popped.1;
    }
  }

  // ---------------------------------------------------------------------------------------
  // When the order is fully determined
  // ---------------------------------------------------------------------------------------

  /** Items that come at the same time are the same. */
  ghost predicate TiesAgree<T>(s: seq<Timed<T>>) {
    forall i, j :: 0 <= i < j < |s| && s[i].duration == s[j].duration ==> s[i] == s[j]
  }

  lemma SortedIsPrompt<T>(s: seq<Timed<T>>, threshold: nat)
    requires Sorted(s) && threshold > 0
    ensures Prompt(s, threshold)
  {
    forall i | 0 <= i < |s| ensures Above(s[..i], s[i].duration) < threshold {
      AboveBound(s[..i], s[i].duration, s[i].duration);
    }
  }

  lemma SameLast<T>(s: seq<Timed<T>>, t: seq<Timed<T>>)
    requires Sorted(s) && TiesAgree(s) && Sorted(t) && multiset(s) == multiset(t) && s != [] && t != []
    ensures s[|s| - 1] == t[|t| - 1]
  {
    var x, y := s[|s| - 1], t[|t| - 1];
    assert x in multiset(t) && y in multiset(s);
    var j :| 0 <= j < |t| && t[j] == x;
    var i :| 0 <= i < |s| && s[i] == y;
  }

  lemma {:induction false} SortedIsDetermined<T>(s: seq<Timed<T>>, t: seq<Timed<T>>)
    requires Sorted(s) && TiesAgree(s) && Sorted(t) && multiset(s) == multiset(t)
    ensures s == t
    decreases |s|
  {
    SameLength(s, t);
    if s != [] {
      var s', t' := s[..|s| - 1], t[..|t| - 1];
      SameLast(s, t);
      assert multiset(s') == multiset(t') by {
        DropLast(s);
        DropLast(t);
      }
      SortedIsDetermined(s', t');
      assert s == s' + [s[|s| - 1]] && t == t' + [t[|t| - 1]];
    }
  }

  lemma TieCanBeSwapped<T>(s: seq<Timed<T>>, i: nat, j: nat) returns (t: seq<Timed<T>>)
    requires Sorted(s) && i < j < |s| && s[i].duration == s[j].duration && s[i] != s[j]
    ensures Sorted(t) && multiset(t) == multiset(s) && t != s
  {
    t := Swap(s, i, j);
    SwapPermutes(s, i, j);
    assert t[i] != s[i];
    assert forall k :: 0 <= k < |s| ==> t[k].duration == s[k].duration;
  }

  /**
    However the heap breaks ties, a buffer that lets out a sorted permutation hands on its
    input unchanged exactly when the input is in order and items of equal duration are equal.
  */
  lemma OrderKeptExactly<T(!new)>(s: seq<Timed<T>>)
    ensures (forall t :: Sorted(t) && multiset(t) == multiset(s) ==> t == s) <==> Sorted(s) && TiesAgree(s)
  {
    if Sorted(s) && TiesAgree(s) {
      forall t | Sorted(t) && multiset(t) == multiset(s) ensures t == s {
        SortedIsDetermined(s, t);
      }
    } else if Sorted(s) {
      var i, j :| 0 <= i < j < |s| && s[i].duration == s[j].duration && s[i] != s[j];
      var t := TieCanBeSwapped(s, i, j);
    } else {
      var t := Reordered(s, |s| + 1);
      ReorderedExactly(s, |s| + 1);
      forall i | 0 <= i < |s| ensures Above(s[..i], s[i].duration) < |s| + 1 {
        AboveBound(s[..i], s[i].duration, s[i].duration);
      }
    }
  }

  // ---------------------------------------------------------------------------------------
  // What this heap does with ties
  // ---------------------------------------------------------------------------------------

  /** An input in order stays in the slice as it came, until the buffer is full. */
  lemma {:induction false} SortedArrives<T>(input: seq<Timed<T>>, threshold: nat)
    requires Sorted(input) && |input| < threshold
    ensures ArriveAll(input, threshold) == Buffer([], input)
    decreases |input|
  {
    if input != [] {
      var before, x := input[..|input| - 1], input[|input| - 1];
      SortedArrives(before, threshold);
      assert before + [x] == input;
      assert Push(before, x) == input;
    }
  }

  lemma SiftedDown<T>(h: seq<Timed<T>>, i: nat, n: nat, j: nat, h': seq<Timed<T>>)
    requires 2 * i + 1 < n <= |h| && Child(h, i, n) == j && h[j].duration < h[i].duration
    requires h' == Swap(h, i, j)
    ensures Down(h, i, n) == Down(h', j, n)
  {
  }

  lemma PopIs<T>(h: seq<Timed<T>>, swapped: seq<Timed<T>>, sifted: seq<Timed<T>>, x: Timed<T>, rest: seq<Timed<T>>)
    requires h != [] && Swap(h, 0, |h| - 1) == swapped && Down(swapped, 0, |h| - 1) == sifted
    requires sifted == rest + [x]
    ensures Pop(h) == (x, rest)
  {
  }

  lemma DrainIs<T>(heap: seq<Timed<T>>, x: Timed<T>, rest: seq<Timed<T>>, out: seq<Timed<T>>)
    requires heap != [] && Pop(heap) == (x, rest) && Drain(rest) == out
    ensures Drain(heap) == [x] + out
  {
  }

  lemma DrainTwo<T>(a: Timed<T>, b: Timed<T>)
    ensures Drain([a, b]) == [a, b]
  {
    PopIs([b], [b], [b], b, []);
    DrainIs([b], b, [], []);
    PopIs([a, b], [b, a], [b, a], a, [b]);
    DrainIs([a, b], a, [b], [b]);
  }

  lemma DrainThree<T>(x: Timed<T>, a: Timed<T>, b: Timed<T>)
    requires x.duration <= a.duration == b.duration
    ensures Drain([x, a, b]) == [x, b, a]
  {
    var swapped := [b, a, x];
    assert Down(swapped, 0, 2) == swapped;
    PopIs([x, a, b], swapped, swapped, x, [b, a]);
    DrainTwo(b, a);
    DrainIs([x, a, b], x, [b, a], [b, a]);
  }

  /** Of three items in order, the last two of equal duration, those two come out swapped. */
  lemma TieComesOutSwapped<T>(x: Timed<T>, a: Timed<T>, b: Timed<T>, threshold: nat)
    requires x.duration <= a.duration == b.duration && threshold > 3
    ensures Reordered([x, a, b], threshold) == [x, b, a]
  {
    SortedArrives([x, a, b], threshold);
    DrainThree(x, a, b);
  }

  lemma PopFour<T>(e2: Timed<T>, e4: Timed<T>, e5: Timed<T>, e6: Timed<T>)
    requires e2.duration == e4.duration < e5.duration == e6.duration
    ensures Pop([e4, e5, e2, e6]) == (e4, [e2, e5, e6])
  {
    var s, s1 := [e6, e5, e2, e4], [e2, e5, e6, e4];
    SiftedDown(s, 0, 3, 2, s1);
    PopIs([e4, e5, e2, e6], s, s1, e4, [e2, e5, e6]);
  }

  lemma PopFive<T>(e2: Timed<T>, e3: Timed<T>, e4: Timed<T>, e5: Timed<T>, e6: Timed<T>)
    requires e2.duration == e3.duration == e4.duration < e5.duration == e6.duration
    ensures Pop([e3, e4, e2, e6, e5]) == (e3, [e4, e5, e2, e6])
  {
    var s, s1 := [e5, e4, e2, e6, e3], [e4, e5, e2, e6, e3];
    SiftedDown(s, 0, 4, 1, s1);
    assert Down(s1, 1, 4) == s1;
    PopIs([e3, e4, e2, e6, e5], s, s1, e3, [e4, e5, e2, e6]);
  }

  lemma PopSix<T>(e1: Timed<T>, e2: Timed<T>, e3: Timed<T>, e4: Timed<T>, e5: Timed<T>, e6: Timed<T>)
    requires e1.duration == e2.duration == e3.duration == e4.duration < e5.duration == e6.duration
    ensures Pop([e1, e3, e2, e6, e4, e5]) == (e1, [e3, e4, e2, e6, e5])
  {
    var s, s1, s2 := [e5, e3, e2, e6, e4, e1], [e3, e5, e2, e6, e4, e1], [e3, e4, e2, e6, e5, e1];
    SiftedDown(s, 0, 5, 1, s1);
    SiftedDown(s1, 1, 5, 4, s2);
    PopIs([e1, e3, e2, e6, e4, e5], s, s2, e1, [e3, e4, e2, e6, e5]);
  }

  lemma PopSeven<T>(e0: Timed<T>, e1: Timed<T>, e2: Timed<T>, e3: Timed<T>, e4: Timed<T>, e5: Timed<T>, e6: Timed<T>)
    requires e1.duration == e2.duration == e3.duration == e4.duration < e5.duration == e6.duration
    ensures Pop([e0, e1, e2, e3, e4, e5, e6]) == (e0, [e1, e3, e2, e6, e4, e5])
  {
    var s, s1 := [e6, e1, e2, e3, e4, e5, e0], [e1, e6, e2, e3, e4, e5, e0];
    var s2 := [e1, e3, e2, e6, e4, e5, e0];
    SiftedDown(s, 0, 6, 1, s1);
    SiftedDown(s1, 1, 6, 3, s2);
    PopIs([e0, e1, e2, e3, e4, e5, e6], s, s2, e0, [e1, e3, e2, e6, e4, e5]);
  }

  /** Five items of one duration and two of a later one come out in an order that is no involution. */
  lemma SevenWithTies<T>(e0: Timed<T>, e1: Timed<T>, e2: Timed<T>, e3: Timed<T>, e4: Timed<T>, e5: Timed<T>,
                         e6: Timed<T>, threshold: nat)
    requires e0.duration == e1.duration == e2.duration == e3.duration == e4.duration
    requires e4.duration < e5.duration == e6.duration && threshold > 7
    ensures Reordered([e0, e1, e2, e3, e4, e5, e6], threshold) == [e0, e1, e3, e4, e2, e6, e5]
  {
    SortedArrives([e0, e1, e2, e3, e4, e5, e6], threshold);
    DrainThree(e2, e5, e6);
    PopFour(e2, e4, e5, e6);
    DrainIs([e4, e5, e2, e6], e4, [e2, e5, e6], [e2, e6, e5]);
    PopFive(e2, e3, e4, e5, e6);
    DrainIs([e3, e4, e2, e6, e5], e3, [e4, e5, e2, e6], [e4, e2, e6, e5]);
    PopSix(e1, e2, e3, e4, e5, e6);
    DrainIs([e1, e3, e2, e6, e4, e5], e1, [e3, e4, e2, e6, e5], [e3, e4, e2, e6, e5]);
    PopSeven(e0, e1, e2, e3, e4, e5, e6);
    DrainIs([e0, e1, e2, e3, e4, e5, e6], e0, [e1, e3, e2, e6, e4, e5], [e1, e3, e4, e2, e6, e5]);
  }
}

/**
  The binary heap under the reorder buffers, as container/heap keeps it in a slice: a new
  entry is sifted up from the end; the first entry is swapped to the end and taken off there
  after its successor has been sifted down. Only a strictly smaller duration moves an entry.
*/
module BinaryHeap {

  datatype Timed<+T> = Timed(duration: int, item: T)

  function Swap<T>(h: seq<Timed<T>>, i: nat, j: nat): (r: seq<Timed<T>>)
    requires i < |h| && j < |h|
    ensures |r| == |h|
  {
    h[i := h[j]][j := h[i]]
  }

  function Up<T>(h: seq<Timed<T>>, j: nat): (r: seq<Timed<T>>)
    requires j < |h|
    ensures |r| == |h|
    decreases j
  {
    if j == 0 then h
    else
      var i := (j - 1) / 2;
      if h[j].duration < h[i].duration then Up(Swap(h, i, j), i) else h
  }

  predicate IsChild(i: nat, k: nat) {
    0 < k && (k - 1) / 2 == i
  }

  /** The smaller child of i among the first n entries; of equal children the left one. */
  function Child<T>(h: seq<Timed<T>>, i: nat, n: nat): (j: nat)
    requires 2 * i + 1 < n <= |h|
    ensures i < j < n && IsChild(i, j)
    ensures forall k: nat :: k < n && IsChild(i, k) ==> h[j].duration <= h[k].duration
  {
    var left := 2 * i + 1;
    if left + 1 < n && h[left + 1].duration < h[left].duration then left + 1 else left
  }

  function Down<T>(h: seq<Timed<T>>, i: nat, n: nat): (r: seq<Timed<T>>)
    requires n <= |h|
    ensures |r| == |h|
    decreases |h| - i
  {
    if 2 * i + 1 >= n then h
    else
      var j := Child(h, i, n);
      if h[j].duration < h[i].duration then Down(Swap(h, i, j), j, n) else h
  }

  function Push<T>(h: seq<Timed<T>>, x: Timed<T>): (r: seq<Timed<T>>)
    ensures |r| == |h| + 1
  {
    Up(h + [x], |h|)
  }

  function Pop<T>(h: seq<Timed<T>>): (r: (Timed<T>, seq<Timed<T>>))
    requires h != []
    ensures |r.1| == |h| - 1
  {
    var n := |h| - 1;
    var s := Down(Swap(h, 0, n), 0, n);
    (s[n], s[..n])
  }

  // ---------------------------------------------------------------------------------------
  // The heap order
  // ---------------------------------------------------------------------------------------

  /** No entry comes before its parent. */
  ghost predicate Ordered<T>(h: seq<Timed<T>>) {
    forall i: nat, k: nat :: i < k < |h| && IsChild(i, k) ==> h[i].duration <= h[k].duration
  }

  /** Ordered, but for the entry j, which may come before its parent. */
  ghost predicate RisesAt<T>(h: seq<Timed<T>>, j: nat) {
    && (forall i: nat, k: nat :: i < k < |h| && IsChild(i, k) && k != j ==> h[i].duration <= h[k].duration)
    && (forall i: nat, k: nat :: i < k < |h| && IsChild(i, j) && IsChild(j, k) ==> h[i].duration <= h[k].duration)
  }

  /** Ordered among the first n entries, but for the entry i, which may come after its children. */
  ghost predicate SinksAt<T>(h: seq<Timed<T>>, i: nat, n: nat)
    requires n <= |h|
  {
    && (forall j: nat, k: nat :: j < k < n && IsChild(j, k) && j != i ==> h[j].duration <= h[k].duration)
    && (forall j: nat, k: nat :: j < k < n && IsChild(j, i) && IsChild(i, k) ==> h[j].duration <= h[k].duration)
  }

  lemma SwapPermutes<T>(h: seq<Timed<T>>, i: nat, j: nat)
    requires i < |h| && j < |h|
    ensures multiset(Swap(h, i, j)) == multiset(h)
  {
  }

  lemma {:induction false} UpPermutes<T>(h: seq<Timed<T>>, j: nat)
    requires j < |h|
    ensures multiset(Up(h, j)) == multiset(h)
    decreases j
  {
    if j > 0 {
      var i := (j - 1) / 2;
      if h[j].duration < h[i].duration {
        SwapPermutes(h, i, j);
        UpPermutes(Swap(h, i, j), i);
      }
    }
  }

  lemma SwapRises<T>(h: seq<Timed<T>>, i: nat, j: nat)
    requires i < j < |h| && IsChild(i, j) && RisesAt(h, j) && h[j].duration < h[i].duration
    ensures RisesAt(Swap(h, i, j), i)
  {
  }

  lemma {:induction false} UpOrders<T>(h: seq<Timed<T>>, j: nat)
    requires j < |h| && RisesAt(h, j)
    ensures Ordered(Up(h, j))
    decreases j
  {
    if j > 0 {
      var i := (j - 1) / 2;
      if h[j].duration < h[i].duration {
        SwapRises(h, i, j);
        UpOrders(Swap(h, i, j), i);
      }
    }
  }

  lemma {:induction false} DownPermutes<T>(h: seq<Timed<T>>, i: nat, n: nat)
    requires n <= |h|
    ensures multiset(Down(h, i, n)) == multiset(h)
    ensures forall k :: n <= k < |h| ==> Down(h, i, n)[k] == h[k]
    decreases |h| - i
  {
    if 2 * i + 1 < n {
      var j := Child(h, i, n);
      if h[j].duration < h[i].duration {
        SwapPermutes(h, i, j);
        DownPermutes(Swap(h, i, j), j, n);
      }
    }
  }

  lemma SwapSinks<T>(h: seq<Timed<T>>, i: nat, n: nat)
    requires 2 * i + 1 < n <= |h| && SinksAt(h, i, n) && h[Child(h, i, n)].duration < h[i].duration
    ensures SinksAt(Swap(h, i, Child(h, i, n)), Child(h, i, n), n)
  {
  }

  lemma {:induction false} DownOrders<T>(h: seq<Timed<T>>, i: nat, n: nat)
    requires n <= |h| && SinksAt(h, i, n)
    ensures Ordered(Down(h, i, n)[..n])
    decreases |h| - i
  {
    if 2 * i + 1 < n {
      var j := Child(h, i, n);
      if h[j].duration < h[i].duration {
        SwapSinks(h, i, n);
        DownOrders(Swap(h, i, j), j, n);
      }
    }
  }

  lemma {:induction false} RootIsLeast<T>(h: seq<Timed<T>>, k: nat)
    requires Ordered(h) && k < |h|
    ensures h[0].duration <= h[k].duration
  {
    if k > 0 {
      assert IsChild((k - 1) / 2, k);
      RootIsLeast(h, (k - 1) / 2);
    }
  }

  lemma PushOrders<T>(h: seq<Timed<T>>, x: Timed<T>)
    requires Ordered(h)
    ensures Ordered(Push(h, x)) && multiset(Push(h, x)) == multiset(h) + multiset{x}
  {
    UpPermutes(h + [x], |h|);
    UpOrders(h + [x], |h|);
  }

  lemma PopPermutes<T>(h: seq<Timed<T>>)
    requires h != []
    ensures Pop(h).0 == h[0] && multiset(h) == multiset(Pop(h).1) + multiset{h[0]}
  {
    var n := |h| - 1;
    SwapPermutes(h, 0, n);
    DownPermutes(Swap(h, 0, n), 0, n);
    var r := Down(Swap(h, 0, n), 0, n);
    assert r == r[..n] + [r[n]];
  }

  lemma PopKeepsOrder<T>(h: seq<Timed<T>>)
    requires Ordered(h) && h != []
    ensures Ordered(Pop(h).1)
  {
    DownOrders(Swap(h, 0, |h| - 1), 0, |h| - 1);
  }

  lemma RootPrecedes<T>(h: seq<Timed<T>>)
    requires Ordered(h) && h != []
    ensures forall y :: y in h ==> h[0].duration <= y.duration
  {
    forall k | 0 <= k < |h| ensures h[0].duration <= h[k].duration {
      RootIsLeast(h, k);
    }
  }

  /** Pop takes out an entry that none precedes and leaves the others in heap order. */
  lemma PopOrders<T>(h: seq<Timed<T>>)
    requires Ordered(h) && h != []
    ensures Ordered(Pop(h).1) && multiset(h) == multiset(Pop(h).1) + multiset{Pop(h).0}
    ensures forall y :: y in Pop(h).1 ==> Pop(h).0.duration <= y.duration
    ensures forall y :: y in h ==> Pop(h).0.duration <= y.duration
  {
    PopKeepsOrder(h);
    PopPermutes(h);
    RootPrecedes(h);
    Within(Pop(h).1, h);
  }

  lemma Within<T>(a: seq<Timed<T>>, b: seq<Timed<T>>)
    requires multiset(a) <= multiset(b)
    ensures forall y :: y in a ==> y in b
  {
    forall y | y in a ensures y in b {
      assert y in multiset(a);
      assert y in multiset(b);
    }
  }
}

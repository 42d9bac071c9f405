/** Byte-string keys in lexicographic order, as etcd sorts them, and ranges of keys. */
module Keys {
  import opened Options

  newtype Byte = x: int | 0 <= x < 256
  type Key = seq<Byte>

  predicate Less(a: Key, b: Key) {
    if b == [] then false
    else if a == [] then true
    else if a[0] != b[0] then a[0] < b[0]
    else Less(a[1..], b[1..])
  }

  predicate Leq(a: Key, b: Key) {
    a == b || Less(a, b)
  }

  lemma {:induction false} LessTotal(a: Key, b: Key)
    ensures a == b || Less(a, b) || Less(b, a)
    ensures !(Less(a, b) && Less(b, a)) && !Less(a, a)
    decreases |a|
  {
    if a != [] && b != [] {
      LessTotal(a[1..], b[1..]);
      if a[0] == b[0] && a[1..] == b[1..] {
        assert a == [a[0]] + a[1..] && b == [b[0]] + b[1..];
      }
    }
    if a != [] { LessTotal(a[1..], a[1..]); }
  }

  lemma {:induction false} LessTrans(a: Key, b: Key, c: Key)
    requires Less(a, b) && Less(b, c)
    ensures Less(a, c)
    decreases |a|
  {
    if a != [] && a[0] == b[0] && b[0] == c[0] {
      LessTrans(a[1..], b[1..], c[1..]);
    }
  }

  /** Appending a zero byte gives the immediate successor of a key. */
  lemma {:induction false} Successor(a: Key, b: Key)
    ensures Less(a, b) <==> Leq(a + [0], b)
    decreases |a|
  {
    if a == [] {
      if b != [] && b[0] == 0 {
        assert b == [0] + b[1..];
        assert Less([0], b) <==> Less([0][1..], b[1..]);
      }
    } else if b != [] {
      assert (a + [0])[1..] == a[1..] + [0];
      Successor(a[1..], b[1..]);
      assert a[0] == b[0] && a[1..] + [0] == b[1..] ==> a + [0] == b by {
        assert b == [b[0]] + b[1..];
      }
    }
  }

  // ---------------------------------------------------------------------------------------
  // Prefix ranges
  // ---------------------------------------------------------------------------------------

  /** The first key after all keys with prefix p; None if there is none. */
  function PrefixEnd(p: Key): Option<Key> {
    if p == [] then None
    else if p[|p| - 1] < 255 then Some(p[..|p| - 1] + [p[|p| - 1] + 1])
    else PrefixEnd(p[..|p| - 1])
  }

  predicate Before(k: Key, end: Option<Key>) {
    end.None? || Less(k, end.value)
  }

  lemma {:induction false} PrefixIsGeq(p: Key, k: Key)
    requires p <= k
    ensures Leq(p, k)
  {
    if p != [] {
      assert p[0] == k[0] && p[1..] <= k[1..];
      PrefixIsGeq(p[1..], k[1..]);
      assert p[1..] == k[1..] ==> p == k by {
        assert p == [p[0]] + p[1..] && k == [k[0]] + k[1..];
      }
    }
  }

  /** Taking a common first byte off shifts the prefix range by one position. */
  lemma {:induction false} PrefixEndCons(b: Byte, p: Key)
    requires p != []
    ensures PrefixEnd(p).Some? ==> PrefixEnd([b] + p) == Some([b] + PrefixEnd(p).value)
    ensures PrefixEnd(p).None? ==> PrefixEnd([b] + p) == PrefixEnd([b])
    decreases |p|
  {
    var n := |p| - 1;
    assert ([b] + p)[..|[b] + p| - 1] == [b] + p[..n];
    if p[n] < 255 {
      assert [b] + (p[..n] + [p[n] + 1]) == [b] + p[..n] + [p[n] + 1];
    } else if n > 0 {
      PrefixEndCons(b, p[..n]);
    } else {
      assert p[..n] == [];
      assert [b] + p[..n] == [b];
    }
  }

  lemma LessCons(b: Byte, x: Key, y: Key)
    ensures Less([b] + x, [b] + y) <==> Less(x, y)
    ensures Leq([b] + x, [b] + y) <==> Leq(x, y)
  {
  }

  /** The keys from p up to PrefixEnd(p) are exactly the keys with prefix p. */
  lemma {:induction false} PrefixRange(p: Key, k: Key)
    ensures p <= k <==> Leq(p, k) && Before(k, PrefixEnd(p))
    decreases |p|
  {
    if p == [] {
      assert Leq(p, k);
    } else if k == [] {
    } else {
      var b, q := p[0], p[1..];
      assert p == [b] + q && k == [k[0]] + k[1..];
      PrefixRange(q, k[1..]);
      assert p <= k <==> b == k[0] && q <= k[1..];
      if q == [] {
        PrefixSingle(b, k);
      } else {
        PrefixEndCons(b, q);
        if PrefixEnd(q).Some? && b == k[0] {
          LessCons(b, k[1..], PrefixEnd(q).value);
        }
        if b == k[0] { LessCons(b, q, k[1..]); }
        PrefixEndOfByte(b, k);
      }
    }
  }

  lemma PrefixEndOfByte(b: Byte, k: Key)
    requires k != []
    ensures PrefixEnd([b]) == if b < 255 then Some([b + 1]) else None
    ensures k[0] <= b ==> Before(k, PrefixEnd([b]))
    ensures b < k[0] ==> !Before(k, PrefixEnd([b]))
  {
    assert [b][..0] == [];
    assert PrefixEnd([]).None?;
    if b < 255 {
      var end := [b + 1];
      assert [] + end == end && end[1..] == [];
      assert !Less(k[1..], end[1..]);
    }
  }

  lemma PrefixSingle(b: Byte, k: Key)
    requires k != []
    ensures [b] <= k <==> Leq([b], k) && Before(k, PrefixEnd([b]))
  {
    PrefixEndOfByte(b, k);
    assert [b] <= k <==> b == k[0];
    assert [b][1..] == [];
    if b == k[0] { PrefixIsGeq([b], k); }
  }
}

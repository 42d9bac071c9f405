/**
  Reading a prefix from etcd in pages. The store keeps every revision, other clients write
  between the pages, and the paged read must still deliver what one read of the whole prefix
  at one revision would have delivered.
*/
module EtcdRead {
  import opened Options
  import opened Keys

  type Value = seq<Byte>
  type Store = map<Key, Value>

  datatype KV = KV(key: Key, value: Value)

  // ---------------------------------------------------------------------------------------
  // Sorted reads of one revision
  // ---------------------------------------------------------------------------------------

  predicate IsLeast(k: Key, ks: set<Key>) {
    k in ks && forall x :: x in ks ==> Leq(k, x)
  }

  lemma {:induction false} LeastExists(ks: set<Key>)
    requires ks != {}
    ensures exists k :: IsLeast(k, ks)
    decreases |ks|
  {
    var x :| x in ks;
    if ks == {x} {
      assert IsLeast(x, ks);
    } else {
      LeastExists(ks - {x});
      var y :| IsLeast(y, ks - {x});
      LessTotal(x, y);
      if Less(x, y) {
        forall z | z in ks ensures Leq(x, z) {
          if z != x && z != y {
            assert z in ks - {x};
            LessTrans(x, y, z);
          }
        }
        assert IsLeast(x, ks);
      } else {
        assert IsLeast(y, ks);
      }
    }
  }

  lemma LeastUnique(a: Key, b: Key, ks: set<Key>)
    requires IsLeast(a, ks) && IsLeast(b, ks)
    ensures a == b
  {
    LessTotal(a, b);
  }

  lemma LeastDetermined(ks: set<Key>)
    requires ks != {}
    ensures exists k :: IsLeast(k, ks)
    ensures forall a, b :: IsLeast(a, ks) && IsLeast(b, ks) ==> a == b
  {
    LeastExists(ks);
    forall a, b | IsLeast(a, ks) && IsLeast(b, ks) ensures a == b {
      LeastUnique(a, b, ks);
    }
  }

  function SortedKeys(ks: set<Key>): seq<Key>
    decreases |ks|
  {
    if ks == {} then [] else
      LeastDetermined(ks);
      var k :| IsLeast(k, ks);
      [k] + SortedKeys(ks - {k})
  }

  ghost predicate Ascending(l: seq<Key>) {
    forall i, j :: 0 <= i < j < |l| ==> Less(l[i], l[j])
  }

  ghost function Elements(l: seq<Key>): set<Key> {
    set k | k in l
  }

  lemma {:induction false} SortedKeysElements(ks: set<Key>)
    ensures Elements(SortedKeys(ks)) == ks
    decreases |ks|
  {
    if ks != {} {
      LeastDetermined(ks);
      var k :| IsLeast(k, ks);
      SortedKeysElements(ks - {k});
      var l := SortedKeys(ks - {k});
      assert Elements([k] + l) == {k} + Elements(l);
    }
  }

  lemma {:induction false} SortedKeysAscending(ks: set<Key>)
    ensures Ascending(SortedKeys(ks)) && Elements(SortedKeys(ks)) == ks
    decreases |ks|
  {
    SortedKeysElements(ks);
    if ks != {} {
      LeastDetermined(ks);
      var k :| IsLeast(k, ks);
      SortedKeysAscending(ks - {k});
      var l := SortedKeys(ks - {k});
      forall j | 0 <= j < |l| ensures Less(k, l[j]) {
        assert l[j] in Elements(l);
      }
    }
  }

  /** An ascending list is the one sorted list of its elements. */
  lemma {:induction false} AscendingUnique(l: seq<Key>)
    requires Ascending(l)
    ensures SortedKeys(Elements(l)) == l
    decreases |l|
  {
    if l != [] {
      var ks := Elements(l);
      assert l[0] in ks;
      assert IsLeast(l[0], ks);
      LeastExists(ks);
      LeastUnique(SortedKeys(ks)[0], l[0], ks);
      assert ks - {l[0]} == Elements(l[1..]) by {
        forall x | x in Elements(l[1..]) ensures x in ks && x != l[0] {
          var i :| 0 <= i < |l[1..]| && l[1..][i] == x;
          assert Less(l[0], l[i + 1]);
          LessTotal(x, x);
        }
        forall x | x in ks && x != l[0] ensures x in l[1..] {
          var i :| 0 <= i < |l| && l[i] == x;
          assert l[1..][i - 1] == x;
        }
      }
      AscendingUnique(l[1..]);
      assert l == [l[0]] + l[1..];
    }
  }

  predicate InRange(k: Key, from: Key, end: Option<Key>) {
    Leq(from, k) && Before(k, end)
  }

  function KeysIn(store: Store, from: Key, end: Option<Key>): seq<Key> {
    SortedKeys(set k | k in store && InRange(k, from, end))
  }

  function Rows(store: Store, ks: seq<Key>): (rows: seq<KV>)
    requires forall k :: k in ks ==> k in store
    ensures |rows| == |ks| && forall i :: 0 <= i < |ks| ==> rows[i] == KV(ks[i], store[ks[i]])
  {
    seq(|ks|, i requires 0 <= i < |ks| => KV(ks[i], store[ks[i]]))
  }

  /** All entries with from <= key < end in key order. */
  function Read(store: Store, from: Key, end: Option<Key>): seq<KV> {
    var ks := set k | k in store && InRange(k, from, end);
    SortedKeysAscending(ks);
    assert forall k :: k in KeysIn(store, from, end) ==> k in Elements(KeysIn(store, from, end));
    Rows(store, KeysIn(store, from, end))
  }

  /** What a single read of the prefix delivers: every entry with that prefix, in key order. */
  function PrefixRead(store: Store, prefix: Key): seq<KV> {
    var ks := set k | k in store && prefix <= k;
    SortedKeysAscending(ks);
    assert forall k :: k in SortedKeys(ks) ==> k in Elements(SortedKeys(ks));
    Rows(store, SortedKeys(ks))
  }

  /** Where the paged read starts: etcd has no empty key, and 0x00 is the least other key. */
  function StartKey(prefix: Key): Key {
    if prefix == [] then [0] else prefix
  }

  lemma StartIsPrefixRead(store: Store, prefix: Key)
    requires [] !in store
    ensures Read(store, StartKey(prefix), PrefixEnd(prefix)) == PrefixRead(store, prefix)
  {
    forall k | k in store
      ensures prefix <= k <==> InRange(k, StartKey(prefix), PrefixEnd(prefix))
    {
      if prefix == [] {
        Successor([], k);
        var zero: Key := [0];
        assert [] + zero == zero;
      } else {
        PrefixRange(prefix, k);
      }
    }
    assert (set k | k in store && prefix <= k)
        == (set k | k in store && InRange(k, StartKey(prefix), PrefixEnd(prefix)));
  }

  /** What a read of one key delivers. */
  function SingleRead(store: Store, key: Key): seq<KV> {
    if key in store then [KV(key, store[key])] else []
  }

  /** A range request without an end is for the one key only, which is the range up to its successor. */
  lemma SingleIsRead(store: Store, key: Key)
    ensures Read(store, key, Some(key + [0])) == SingleRead(store, key)
  {
    var ks := set k | k in store && InRange(k, key, Some(key + [0]));
    forall k | k in ks ensures k == key {
      Successor(key, k);
      LessTotal(key, k);
      LessTotal(k, key + [0]);
    }
    if key in store {
      Successor(key, key);
      LessTotal(key, key);
      LessTotal(key, key + [0]);
      assert ks == {key} == Elements([key]);
      AscendingUnique([key]);
    } else {
      assert ks == {};
    }
  }

  lemma AfterLast(store: Store, from: Key, end: Option<Key>, m: nat, k: Key)
    requires 0 < m <= |KeysIn(store, from, end)| && k in store
    ensures
      var l := KeysIn(store, from, end);
      k in l[m..] <==> InRange(k, l[m - 1] + [0], end)
  {
    var l := KeysIn(store, from, end);
    var ks := set x | x in store && InRange(x, from, end);
    SortedKeysAscending(ks);
    Successor(l[m - 1], k);
    assert l[m - 1] in l && l[m - 1] in ks;
    assert forall j :: 0 <= j < m - 1 ==> Less(l[j], l[m - 1]);
    if k in l[m..] {
      var i :| m <= i < |l| && l[i] == k;
      assert Less(l[m - 1], l[i]);
      assert k in l && k in ks;
    }
    if InRange(k, l[m - 1] + [0], end) {
      if from != l[m - 1] { LessTrans(from, l[m - 1], k); }
      assert k in ks && k in l;
      var i :| 0 <= i < |l| && l[i] == k;
      LessTotal(l[i], l[m - 1]);
    }
  }

  lemma RestOfKeys(store: Store, from: Key, end: Option<Key>, m: nat)
    requires 0 < m <= |KeysIn(store, from, end)|
    ensures
      var l := KeysIn(store, from, end);
      KeysIn(store, l[m - 1] + [0], end) == l[m..]
  {
    var ks := set k | k in store && InRange(k, from, end);
    var l := KeysIn(store, from, end);
    SortedKeysAscending(ks);
    var next := l[m - 1] + [0];
    var rest := set k | k in store && InRange(k, next, end);
    forall k ensures k in Elements(l[m..]) <==> k in rest {
      if k in l[m..] { assert k in Elements(l); }
      if k in store { AfterLast(store, from, end, m, k); }
    }
    assert Elements(l[m..]) == rest;
    AscendingUnique(l[m..]);
  }

  /** Going on after the last key of a page reads exactly what the page left over. */
  lemma RestOfRead(store: Store, from: Key, end: Option<Key>, m: nat)
    requires 0 < m <= |Read(store, from, end)|
    ensures Read(store, Read(store, from, end)[m - 1].key + [0], end) == Read(store, from, end)[m..]
  {
    RestOfKeys(store, from, end, m);
  }

  // ---------------------------------------------------------------------------------------
  // The server, with other clients writing
  // ---------------------------------------------------------------------------------------

  /** What happens before the server answers a request: others write, or it cannot answer. */
  datatype Round = Writes(stores: seq<Store>) | Unavailable

  datatype Answer = Page(kvs: seq<KV>, more: bool, revision: nat) | Failed

  /** The entries of the range, as many as the limit allows. */
  ghost predicate Answers(store: Store, from: Key, end: Option<Key>, limit: int, answer: Answer)
    requires answer.Page?
  {
    var all := Read(store, from, end);
    && answer.more == (0 < limit < |all|)
    && answer.kvs == if answer.more then all[..limit] else all
  }

  predicate AllServed(rounds: seq<Round>) {
    forall r :: 0 <= r < |rounds| ==> rounds[r].Writes?
  }

  /** No key is empty in any of these revisions. */
  ghost predicate NoEmptyKey(stores: seq<Store>) {
    forall r :: 0 <= r < |stores| ==> [] !in stores[r]
  }

  /** The contents at every revision, and what the other clients are going to do. */
  class Etcd {
    var revisions: seq<Store>
    var rounds: seq<Round>
    /** How many requests have not been answered. */
    ghost var refusals: nat

    ghost predicate Valid()
      reads this
    {
      && |revisions| >= 2
      && NoEmptyKey(revisions)
      && forall r :: 0 <= r < |rounds| && rounds[r].Writes? ==> NoEmptyKey(rounds[r].stores)
    }

    /** A range request; revision 0 asks for the newest, and a limit of 0 or less is none. */
    method Range(from: Key, end: Option<Key>, limit: int, revision: nat) returns (answer: Answer)
      requires Valid()
      modifies this
      ensures Valid() && old(revisions) <= revisions
      ensures answer.Failed? <==> (old(rounds) != [] && old(rounds)[0].Unavailable?) || revision >= |revisions|
      ensures refusals == old(refusals) + if answer.Failed? then 1 else 0
      ensures AllServed(old(rounds)) ==> AllServed(rounds)
      ensures answer.Page? ==>
        var at := if revision == 0 then |revisions| - 1 else revision;
        && answer.revision == |revisions| - 1 && at < |revisions|
        && Answers(revisions[at], from, end, limit, answer)
    {
      if rounds != [] {
        var round := rounds[0];
        rounds := rounds[1..];
        if round.Unavailable? {
          refusals := refusals + 1;
          return Failed;
        }
        revisions := revisions + round.stores;
      }
      var at := if revision == 0 then |revisions| - 1 else revision;
      if at >= |revisions| {
        refusals := refusals + 1;
        return Failed;
      }
      var all := Read(revisions[at], from, end);
      if 0 < limit < |all| {
        answer := Page(all[..limit], true, |revisions| - 1);
      } else {
        answer := Page(all, false, |revisions| - 1);
      }
    }
  }

  // ---------------------------------------------------------------------------------------
  // The client
  // ---------------------------------------------------------------------------------------

  datatype Outcome = Done(revision: nat) | ServerFailed | ResponseFailed

  /** Hand kvs to the response callback, which accepts `budget` calls in all and then fails. */
  method Respond(before: seq<KV>, kvs: seq<KV>, budget: nat) returns (delivered: seq<KV>, ok: bool)
    requires |before| <= budget
    ensures ok <==> |before| + |kvs| <= budget
    ensures ok ==> delivered == before + kvs
    ensures !ok ==> delivered == (before + kvs)[..budget + 1]
  {
    delivered, ok := before, true;
    for i := 0 to |kvs|
      invariant delivered == before + kvs[..i] && |delivered| <= budget
    {
      delivered := delivered + [kvs[i]];
      assert delivered == before + kvs[..i + 1];
      if |delivered| > budget {
        assert delivered == (before + kvs)[..budget + 1];
        return delivered, false;
      }
    }
    assert kvs[..|kvs|] == kvs;
  }

  /** After `delivered` come exactly the entries from `key` on. */
  ghost predicate Progress(store: Store, prefix: Key, delivered: seq<KV>, key: Key) {
    PrefixRead(store, prefix) == delivered + Read(store, key, PrefixEnd(prefix))
  }

  /** The answer to a request that continues a read of `prefix` at `key`, after `sent`. */
  ghost predicate Continues(store: Store, prefix: Key, sent: seq<KV>, key: Key, answer: Answer) {
    && answer.Page?
    && (!answer.more ==> sent + answer.kvs == PrefixRead(store, prefix))
    && (answer.more ==>
          && answer.kvs != []
          && var next := answer.kvs[|answer.kvs| - 1].key + [0];
          && Progress(store, prefix, sent + answer.kvs, next)
          && Remaining(store, prefix, next) < Remaining(store, prefix, key))
  }

  ghost function Remaining(store: Store, prefix: Key, key: Key): nat {
    |Read(store, key, PrefixEnd(prefix))|
  }

  lemma PageContinues(store: Store, prefix: Key, sent: seq<KV>, key: Key, limit: int, answer: Answer)
    requires Progress(store, prefix, sent, key) && answer.Page?
    requires Answers(store, key, PrefixEnd(prefix), limit, answer)
    ensures sent <= PrefixRead(store, prefix) && Continues(store, prefix, sent, key, answer)
  {
    var all := Read(store, key, PrefixEnd(prefix));
    if answer.more {
      RestOfRead(store, key, PrefixEnd(prefix), limit);
      assert sent + all == sent + all[..limit] + all[limit..];
    }
  }

  lemma StartProgress(store: Store, prefix: Key)
    requires [] !in store
    ensures Progress(store, prefix, [], StartKey(prefix))
  {
    StartIsPrefixRead(store, prefix);
  }

  /** One request of the page loop; the first answer settles the revision. */
  method FetchPage(etcd: Etcd, prefix: Key, key: Key, limit: int, asked: nat, ghost sent: seq<KV>)
      returns (answer: Answer, revision: nat)
    requires etcd.Valid()
    requires (key == StartKey(prefix) && sent == []) ||
             (0 < asked < |etcd.revisions| && Progress(etcd.revisions[asked], prefix, sent, key))
    modifies etcd
    ensures etcd.Valid() && old(etcd.revisions) <= etcd.revisions
    ensures asked != 0 ==> revision == asked
    ensures etcd.refusals == old(etcd.refusals) + if answer.Failed? then 1 else 0
    ensures AllServed(old(etcd.rounds)) ==> AllServed(etcd.rounds)
    ensures AllServed(old(etcd.rounds)) && asked < old(|etcd.revisions|) ==> answer.Page?
    ensures answer.Page? ==>
      && 0 < revision < |etcd.revisions| && (asked == 0 ==> old(|etcd.revisions|) - 1 <= revision)
      && sent <= PrefixRead(etcd.revisions[revision], prefix)
      && Continues(etcd.revisions[revision], prefix, sent, key, answer)
  {
    answer := etcd.Range(key, PrefixEnd(prefix), limit, asked);
    revision := asked;
    if answer.Page? {
      if revision == 0 {
        revision := answer.revision;
      }
      ghost var store := etcd.revisions[revision];
      if key == StartKey(prefix) && sent == [] {
        StartProgress(store, prefix);
      }
      PageContinues(store, prefix, sent, key, limit, answer);
    }
  }

  /**
    The goroutine that fetches the pages and sends them down the channel: `sent` is what has
    gone through the channel when it closes, `revision` the revision it has settled on.
  */
  method FetchPages(etcd: Etcd, prefix: Key, limit: int, asked: nat)
      returns (ok: bool, sent: seq<KV>, revision: nat)
    requires etcd.Valid()
    modifies etcd
    ensures etcd.Valid() && old(etcd.revisions) <= etcd.revisions
    ensures asked != 0 ==> revision == asked
    ensures etcd.refusals == old(etcd.refusals) + if ok then 0 else 1
    ensures AllServed(old(etcd.rounds)) && asked < old(|etcd.revisions|) ==> ok
    ensures ok || sent != [] ==>
      revision < |etcd.revisions| && (asked == 0 ==> old(|etcd.revisions|) - 1 <= revision)
    ensures ok ==> sent == PrefixRead(etcd.revisions[revision], prefix)
    ensures sent != [] ==> sent <= PrefixRead(etcd.revisions[revision], prefix)
  {
    var key := StartKey(prefix);
    var answer;
    sent := [];
    answer, revision := FetchPage(etcd, prefix, key, limit, asked, sent);
    if answer.Failed? {
      return false, sent, revision;
    }
    while answer.more
      invariant etcd.Valid() && old(etcd.revisions) <= etcd.revisions
      invariant 0 < revision < |etcd.revisions| && (asked == 0 ==> old(|etcd.revisions|) - 1 <= revision)
      invariant asked != 0 ==> revision == asked
      invariant etcd.refusals == old(etcd.refusals)
      invariant AllServed(old(etcd.rounds)) ==> AllServed(etcd.rounds)
      invariant Continues(etcd.revisions[revision], prefix, sent, key, answer)
      decreases Remaining(etcd.revisions[revision], prefix, key)
    {
      sent := sent + answer.kvs;
      key := answer.kvs[|answer.kvs| - 1].key + [0];
      answer, revision := FetchPage(etcd, prefix, key, limit, revision, sent);
      if answer.Failed? {
        return false, sent, revision;
      }
    }
    return true, sent + answer.kvs, revision;
  }

  /**
    The paged branch of Get. Whatever is written meanwhile, the response callback sees the
    entries of the prefix at one revision, in key order and each once: all of them if Get
    succeeds, and an initial part of them if the server or the callback fails. It fails only
    if the callback does or a request was not answered.
  */
  method GetPaged(etcd: Etcd, prefix: Key, limit: int, asked: nat, budget: nat)
      returns (outcome: Outcome, delivered: seq<KV>, ghost pinned: nat)
    requires etcd.Valid()
    modifies etcd
    ensures etcd.Valid() && old(etcd.revisions) <= etcd.revisions
    ensures outcome.Done? || delivered != [] ==> pinned < |etcd.revisions|
    ensures outcome.Done? ==>
      && outcome.revision == pinned
      && (if asked == 0 then old(|etcd.revisions|) - 1 <= pinned else pinned == asked)
      && delivered == PrefixRead(etcd.revisions[pinned], prefix)
    ensures outcome.ResponseFailed? ==>
      |delivered| == budget + 1 && delivered <= PrefixRead(etcd.revisions[pinned], prefix)
    ensures outcome.ServerFailed? && delivered != [] ==>
      delivered <= PrefixRead(etcd.revisions[pinned], prefix)
    ensures outcome == if |delivered| > budget then ResponseFailed
                       else if etcd.refusals > old(etcd.refusals) then ServerFailed else Done(pinned)
    ensures AllServed(old(etcd.rounds)) && asked < old(|etcd.revisions|) ==> etcd.refusals == old(etcd.refusals)
    ensures etcd.refusals == old(etcd.refusals) ==>
      && pinned < |etcd.revisions|
      && (outcome.Done? <==> |PrefixRead(etcd.revisions[pinned], prefix)| <= budget)
  {
    var fetched, sent, revision := FetchPages(etcd, prefix, limit, asked);
    pinned := revision;
    var accepted;
    delivered, accepted := Respond([], sent, budget);
    assert [] + sent == sent;
    if !accepted {
      outcome := ResponseFailed;
    } else if !fetched {
      outcome := ServerFailed;
    } else {
      outcome := Done(revision);
    }
  }

  /** What Get is to deliver: the entry of a named object, or all entries with the prefix. */
  function Wanted(store: Store, prefix: Key, single: bool): seq<KV> {
    if single then SingleRead(store, prefix) else PrefixRead(store, prefix)
  }

  lemma SingleAnswer(store: Store, key: Key, answer: Answer)
    requires answer.Page? && Answers(store, key, Some(key + [0]), 0, answer)
    ensures answer.kvs == SingleRead(store, key)
  {
    SingleIsRead(store, key);
  }

  lemma PrefixAnswer(store: Store, prefix: Key, answer: Answer)
    requires answer.Page? && Answers(store, StartKey(prefix), PrefixEnd(prefix), 0, answer) && [] !in store
    ensures answer.kvs == PrefixRead(store, prefix)
  {
    StartIsPrefixRead(store, prefix);
  }

  /** One request for everything that is wanted, at the newest revision. */
  method FetchAtOnce(etcd: Etcd, prefix: Key, single: bool) returns (answer: Answer)
    requires etcd.Valid() && (single ==> prefix != [])
    modifies etcd
    ensures etcd.Valid() && old(etcd.revisions) <= etcd.revisions
    ensures etcd.refusals == old(etcd.refusals) + if answer.Failed? then 1 else 0
    ensures AllServed(old(etcd.rounds)) ==> answer.Page?
    ensures answer.Page? ==>
      && answer.revision == |etcd.revisions| - 1
      && answer.kvs == Wanted(etcd.revisions[answer.revision], prefix, single)
  {
    if single {
      answer := etcd.Range(prefix, Some(prefix + [0]), 0, 0);
      if answer.Page? { SingleAnswer(etcd.revisions[answer.revision], prefix, answer); }
    } else {
      answer := etcd.Range(StartKey(prefix), PrefixEnd(prefix), 0, 0);
      if answer.Page? { PrefixAnswer(etcd.revisions[answer.revision], prefix, answer); }
    }
  }

  /** Hand a whole answer to the response callback. */
  method RespondAll(answer: Answer, budget: nat) returns (outcome: Outcome, delivered: seq<KV>)
    ensures answer.Failed? ==> outcome == ServerFailed && delivered == []
    ensures answer.Page? && |answer.kvs| <= budget ==> outcome == Done(answer.revision) && delivered == answer.kvs
    ensures answer.Page? && |answer.kvs| > budget ==>
      outcome == ResponseFailed && delivered == answer.kvs[..budget + 1]
  {
    if answer.Failed? {
      return ServerFailed, [];
    }
    var accepted;
    delivered, accepted := Respond([], answer.kvs, budget);
    assert [] + answer.kvs == answer.kvs;
    outcome := if accepted then Done(answer.revision) else ResponseFailed;
  }

  /** The unpaged branch of Get. */
  method GetAtOnce(etcd: Etcd, prefix: Key, single: bool, budget: nat)
      returns (outcome: Outcome, delivered: seq<KV>, ghost pinned: nat)
    requires etcd.Valid() && (single ==> prefix != [])
    modifies etcd
    ensures etcd.Valid() && old(etcd.revisions) <= etcd.revisions
    ensures pinned == |etcd.revisions| - 1
    ensures outcome.Done? ==>
      outcome.revision == pinned && delivered == Wanted(etcd.revisions[pinned], prefix, single)
    ensures outcome.ResponseFailed? ==>
      |delivered| == budget + 1 && delivered <= Wanted(etcd.revisions[pinned], prefix, single)
    ensures outcome.ServerFailed? ==> delivered == []
    ensures outcome == if |delivered| > budget then ResponseFailed
                       else if etcd.refusals > old(etcd.refusals) then ServerFailed else Done(pinned)
    ensures AllServed(old(etcd.rounds)) ==> etcd.refusals == old(etcd.refusals)
    ensures etcd.refusals == old(etcd.refusals) ==>
      (outcome.Done? <==> |Wanted(etcd.revisions[pinned], prefix, single)| <= budget)
  {
    var answer := FetchAtOnce(etcd, prefix, single);
    pinned := |etcd.revisions| - 1;
    outcome, delivered := RespondAll(answer, budget);
  }

  /**
    Get for a prefix or, if a name was given, for a single key. For a single key and without a
    page limit it makes one request for the newest revision and pays no attention to the
    revision asked for.
  */
  method Get(etcd: Etcd, prefix: Key, single: bool, limit: int, asked: nat, budget: nat)
      returns (outcome: Outcome, delivered: seq<KV>, ghost pinned: nat)
    requires etcd.Valid() && (single ==> prefix != [])
    modifies etcd
    ensures etcd.Valid() && old(etcd.revisions) <= etcd.revisions
    ensures outcome.Done? ==>
      && outcome.revision == pinned < |etcd.revisions|
      && delivered == Wanted(etcd.revisions[pinned], prefix, single)
      && (single || limit == 0 ==> pinned == |etcd.revisions| - 1)
      && (!single && limit != 0 && asked != 0 ==> pinned == asked)
      && (asked == 0 ==> old(|etcd.revisions|) - 1 <= pinned)
    ensures !outcome.Done? && delivered != [] ==>
      pinned < |etcd.revisions| && delivered <= Wanted(etcd.revisions[pinned], prefix, single)
    ensures outcome == if |delivered| > budget then ResponseFailed
                       else if etcd.refusals > old(etcd.refusals) then ServerFailed else Done(pinned)
    ensures AllServed(old(etcd.rounds)) && (single || limit == 0 || asked < old(|etcd.revisions|)) ==>
      etcd.refusals == old(etcd.refusals)
    ensures etcd.refusals == old(etcd.refusals) ==>
      && pinned < |etcd.revisions|
      && (outcome.Done? <==> |Wanted(etcd.revisions[pinned], prefix, single)| <= budget)
  {
    if single || limit == 0 {
      outcome, delivered, pinned := GetAtOnce(etcd, prefix, single, budget);
    } else {
      outcome, delivered, pinned := GetPaged(etcd, prefix, limit, asked, budget);
    }
  }
}

/**
  Recording a cluster and replaying it: the Saver writes a snapshot and then one record per
  watch event, made from the last content it has tracked under the object's namespace and
  name; the Loader puts the snapshot into an etcd store and applies the records one by one,
  using its own tracked contents as the originals of the patches.
*/
module RecordReplay {
  import opened Options

  datatype Ref = Ref(namespace: string, name: string)

  /** An object in etcd: its resource (group, version, resource) and its namespace and name. */
  datatype Key = Key(gvr: string, ref: Ref)

  /** The strategic merge patch library, with documents O and patches P. */
  datatype Patcher<!O, !P> = Patcher(diff: (O, O) -> P, apply: (O, P) -> O)

  /** Applying the patch from one document to another to the first yields the second. */
  ghost predicate Lawful<O(!new), P>(p: Patcher<O, P>) {
    forall o, m :: p.apply(o, p.diff(o, m)) == m
  }

  datatype Event<+O> = Put(key: Key, obj: O) | Del(key: Key)

  datatype Method<+O, +P> = Create(obj: O) | Patch(patch: P) | Delete

  datatype Record<+O, +P> = Record(key: Key, op: Method<O, P>)

  // ---------------------------------------------------------------------------------------
  // The three views of a history: the cluster, the saver and the loader
  // ---------------------------------------------------------------------------------------

  function Lookup<K, V>(m: map<K, V>, k: K): Option<V> {
    if k in m then Some(m[k]) else None
  }

  /** The recorded cluster. */
  function Happen<O>(store: map<Key, O>, ev: Event<O>): map<Key, O> {
    match ev
    case Put(key, obj) => store[key := obj]
    case Del(key) => store - {key}
  }

  function HappenAll<O>(store: map<Key, O>, evs: seq<Event<O>>): map<Key, O>
    decreases |evs|
  {
    if evs == [] then store else HappenAll(Happen(store, evs[0]), evs[1..])
  }

  /** The saver's track map, which knows objects by namespace and name only. */
  function Track<O>(track: map<Ref, O>, ev: Event<O>): map<Ref, O> {
    match ev
    case Put(key, obj) => track[key.ref := obj]
    case Del(key) => track - {key.ref}
  }

  function RecordOf<O, P>(p: Patcher<O, P>, track: map<Ref, O>, ev: Event<O>): Record<O, P> {
    match ev
    case Put(key, obj) =>
      Record(key, if key.ref in track then Patch(p.diff(track[key.ref], obj)) else Create(obj))
    case Del(key) => Record(key, Delete)
  }

  function RecordAll<O, P>(p: Patcher<O, P>, track: map<Ref, O>, evs: seq<Event<O>>): (rs: seq<Record<O, P>>)
    ensures |rs| == |evs| && forall i :: 0 <= i < |evs| ==> rs[i].key == evs[i].key
    decreases |evs|
  {
    if evs == [] then []
    else [RecordOf(p, track, evs[0])] + RecordAll(p, Track(track, evs[0]), evs[1..])
  }

  /** The loader: the etcd store it writes to and the contents it has tracked. */
  datatype Loaded<O> = Loaded(store: map<Key, O>, tracked: map<Key, O>)

  /** How etcd answers a write: done, not done, or done although the client is told otherwise. */
  datatype Reply = Accepted | Refused | ReplyLost

  function PutData<O>(l: Loaded<O>, key: Key, obj: O, reply: Reply): Loaded<O> {
    match reply
    case Accepted => Loaded(l.store[key := obj], l.tracked[key := obj])
    case Refused => l
    case ReplyLost => l.(store := l.store[key := obj])
  }

  function DelData<O>(l: Loaded<O>, key: Key, reply: Reply): Loaded<O> {
    match reply
    case Accepted => Loaded(l.store - {key}, l.tracked - {key})
    case Refused => l
    case ReplyLost => l.(store := l.store - {key})
  }

  /** The original of a patch is fetched into the tracked contents if it is not there. */
  function Fetched<O>(l: Loaded<O>, key: Key, readable: bool): Loaded<O> {
    if key !in l.tracked && key in l.store && readable
    then l.(tracked := l.tracked[key := l.store[key]]) else l
  }

  /** applyResourcePatch, with what etcd does about its requests. */
  function Apply<O, P>(p: Patcher<O, P>, l: Loaded<O>, r: Record<O, P>, readable: bool, reply: Reply): Loaded<O> {
    match r.op
    case Delete => DelData(l, r.key, reply)
    case Create(obj) => PutData(l, r.key, obj, reply)
    case Patch(patch) =>
      var l' := Fetched(l, r.key, readable);
      if r.key in l'.tracked then PutData(l', r.key, p.apply(l'.tracked[r.key], patch), reply) else l'
  }

  /** A replay in which etcd answers every request. */
  function ApplyAll<O, P>(p: Patcher<O, P>, l: Loaded<O>, rs: seq<Record<O, P>>): Loaded<O>
    decreases |rs|
  {
    if rs == [] then l else ApplyAll(p, Apply(p, l, rs[0], true, Accepted), rs[1..])
  }

  // ---------------------------------------------------------------------------------------
  // The loader's tracked contents are a coherent cache
  // ---------------------------------------------------------------------------------------

  /** Every tracked content is what etcd has stored for the object. */
  ghost predicate Coherent<O>(l: Loaded<O>) {
    forall k :: k in l.tracked ==> k in l.store && l.store[k] == l.tracked[k]
  }

  /** The write that a record asks for, if the loader gets so far. */
  function Written<O, P>(p: Patcher<O, P>, l: Loaded<O>, r: Record<O, P>, readable: bool): Option<Option<O>> {
    match r.op
    case Delete => Some(None)
    case Create(obj) => Some(Some(obj))
    case Patch(patch) =>
      if r.key in l.tracked then Some(Some(p.apply(l.tracked[r.key], patch)))
      else if r.key in l.store && readable then Some(Some(p.apply(l.store[r.key], patch)))
      else None
  }

  /** A lost reply hides a write that changes an object the loader has tracked. */
  ghost predicate HiddenChange<O, P>(p: Patcher<O, P>, l: Loaded<O>, r: Record<O, P>, readable: bool, reply: Reply) {
    && reply.ReplyLost?
    && Written(p, l, r, readable).Some?
    && (r.key in l.tracked || (r.op.Patch? && r.key in l.store))
    && Written(p, l, r, readable).value != Lookup(l.store, r.key)
  }

  /** Successes, refusals and fetches all keep the cache coherent; only a hidden change breaks it. */
  lemma CoherentExactly<O, P>(p: Patcher<O, P>, l: Loaded<O>, r: Record<O, P>, readable: bool, reply: Reply)
    requires Coherent(l)
    ensures Coherent(Apply(p, l, r, readable, reply)) <==> !HiddenChange(p, l, r, readable, reply)
  {
  }

  /** The loader gets no further than looking for the original of a patch. */
  predicate NoOriginal<O, P>(l: Loaded<O>, r: Record<O, P>, readable: bool) {
    r.op.Patch? && r.key !in l.tracked && (r.key !in l.store || !readable)
  }

  /**
    A refused request and a patch without an original leave the store alone. Otherwise the
    object is written, whether or not the reply arrives, and if it does the loader tracks
    what is stored. Other objects are never touched.
  */
  lemma WritesExactly<O, P>(p: Patcher<O, P>, l: Loaded<O>, r: Record<O, P>, readable: bool, reply: Reply)
    requires Coherent(l)
    ensures
      var l' := Apply(p, l, r, readable, reply);
      && (NoOriginal(l, r, readable) ==> l' == l)
      && (reply.Refused? ==> l'.store == l.store)
      && (!reply.Refused? && !NoOriginal(l, r, readable) ==>
            Lookup(l'.store, r.key) ==
              match r.op
              case Create(obj) => Some(obj)
              case Delete => None
              case Patch(patch) => Some(p.apply(l.store[r.key], patch)))
      && (reply.Accepted? && !NoOriginal(l, r, readable) ==> Lookup(l'.tracked, r.key) == Lookup(l'.store, r.key))
      && (forall k :: k != r.key ==>
            Lookup(l'.store, k) == Lookup(l.store, k) && Lookup(l'.tracked, k) == Lookup(l.tracked, k))
  {
  }

  /** A record to apply, and what etcd does about the loader's requests. */
  datatype Attempt<+O, +P> = Attempt(record: Record<O, P>, readable: bool, reply: Reply)

  function Attempted<O, P>(p: Patcher<O, P>, l: Loaded<O>, a: Attempt<O, P>): Loaded<O> {
    Apply(p, l, a.record, a.readable, a.reply)
  }

  /** The cache is coherent before and after every attempt. */
  ghost predicate CoherentThroughout<O, P>(p: Patcher<O, P>, l: Loaded<O>, attempts: seq<Attempt<O, P>>)
    decreases |attempts|
  {
    && Coherent(l)
    && (attempts != [] ==> CoherentThroughout(p, Attempted(p, l, attempts[0]), attempts[1..]))
  }

  ghost predicate NothingHidden<O, P>(p: Patcher<O, P>, l: Loaded<O>, attempts: seq<Attempt<O, P>>)
    decreases |attempts|
  {
    attempts != [] ==>
      && !HiddenChange(p, l, attempts[0].record, attempts[0].readable, attempts[0].reply)
      && NothingHidden(p, Attempted(p, l, attempts[0]), attempts[1..])
  }

  /** Over a whole replay, with failures of all kinds, the cache is coherent iff nothing was hidden. */
  lemma {:induction false} ReplayCoherentExactly<O, P>(p: Patcher<O, P>, l: Loaded<O>, attempts: seq<Attempt<O, P>>)
    requires Coherent(l)
    ensures CoherentThroughout(p, l, attempts) <==> NothingHidden(p, l, attempts)
    decreases |attempts|
  {
    if attempts != [] {
      var a, l' := attempts[0], Attempted(p, l, attempts[0]);
      CoherentExactly(p, l, a.record, a.readable, a.reply);
      if Coherent(l') { ReplayCoherentExactly(p, l', attempts[1..]); }
    }
  }

  // ---------------------------------------------------------------------------------------
  // Only the order of the records of one object matters
  // ---------------------------------------------------------------------------------------

  /** The records of one object. */
  function OnKey<O, P>(rs: seq<Record<O, P>>, k: Key): seq<Record<O, P>>
    decreases |rs|
  {
    if rs == [] then [] else (if rs[0].key == k then [rs[0]] else []) + OnKey(rs[1..], k)
  }

  ghost predicate SameAt<O>(l: Loaded<O>, m: Loaded<O>, k: Key) {
    Lookup(l.store, k) == Lookup(m.store, k) && Lookup(l.tracked, k) == Lookup(m.tracked, k)
  }

  lemma ApplyAt<O, P>(p: Patcher<O, P>, l: Loaded<O>, m: Loaded<O>, r: Record<O, P>, k: Key)
    requires SameAt(l, m, k)
    ensures r.key == k ==> SameAt(Apply(p, l, r, true, Accepted), Apply(p, m, r, true, Accepted), k)
    ensures r.key != k ==> SameAt(Apply(p, l, r, true, Accepted), m, k)
  {
  }

  lemma {:induction false} ApplyAllAt<O, P>(p: Patcher<O, P>, l: Loaded<O>, m: Loaded<O>, rs: seq<Record<O, P>>, k: Key)
    requires SameAt(l, m, k)
    ensures SameAt(ApplyAll(p, l, rs), ApplyAll(p, m, OnKey(rs, k)), k)
    decreases |rs|
  {
    if rs != [] {
      var r, rest := rs[0], OnKey(rs[1..], k);
      var l' := Apply(p, l, r, true, Accepted);
      ApplyAt(p, l, m, r, k);
      if r.key == k {
        ApplyAllAt(p, l', Apply(p, m, r, true, Accepted), rs[1..], k);
        assert OnKey(rs, k)[0] == r && OnKey(rs, k)[1..] == rest;
      } else {
        ApplyAllAt(p, l', m, rs[1..], k);
        assert OnKey(rs, k) == rest;
      }
    }
  }

  /** Two replays with the same records for each object, in the same order, end alike. */
  lemma SameReplay<O, P>(p: Patcher<O, P>, l: Loaded<O>, rs: seq<Record<O, P>>, ts: seq<Record<O, P>>)
    requires forall k :: OnKey(rs, k) == OnKey(ts, k)
    ensures ApplyAll(p, l, rs) == ApplyAll(p, l, ts)
  {
    var a, b := ApplyAll(p, l, rs), ApplyAll(p, l, ts);
    forall k ensures SameAt(a, b, k) {
      assert OnKey(rs, k) == OnKey(ts, k);
      ApplyAllAt(p, l, l, rs, k);
      ApplyAllAt(p, l, l, ts, k);
    }
    forall k ensures Lookup(a.store, k) == Lookup(b.store, k) { assert SameAt(a, b, k); }
    forall k ensures Lookup(a.tracked, k) == Lookup(b.tracked, k) { assert SameAt(a, b, k); }
    SameLookups(a.store, b.store);
    SameLookups(a.tracked, b.tracked);
  }

  // ---------------------------------------------------------------------------------------
  // Round trip
  // ---------------------------------------------------------------------------------------

  /** No two resources share a namespace and name. */
  ghost predicate OwnNames(keys: set<Key>) {
    forall a, b :: a in keys && b in keys && a.ref == b.ref ==> a == b
  }

  ghost function KeysOf<O>(evs: seq<Event<O>>): set<Key> {
    set ev | ev in evs :: ev.key
  }

  /** The saver tracks the cluster, object by object. */
  ghost predicate Tracks<O>(track: map<Ref, O>, store: map<Key, O>, keys: set<Key>) {
    forall k :: k in keys ==> Lookup(track, k.ref) == Lookup(store, k)
  }

  /** The loader's store: the objects touched so far as in the cluster, the others as before. */
  ghost predicate Mirrors<O>(l: Loaded<O>, base: map<Key, O>, touched: set<Key>, store: map<Key, O>) {
    && Coherent(l)
    && store.Keys <= touched
    && forall k :: Lookup(l.store, k) == if k in touched then Lookup(store, k) else Lookup(base, k)
  }

  lemma TracksStep<O>(track: map<Ref, O>, store: map<Key, O>, keys: set<Key>, ev: Event<O>)
    requires OwnNames(keys) && ev.key in keys && Tracks(track, store, keys)
    ensures Tracks(Track(track, ev), Happen(store, ev), keys)
  {
  }

  /** One record, made by the saver and applied by the loader, does to the store what the event did. */
  lemma ReplayStep<O(!new), P>(p: Patcher<O, P>, track: map<Ref, O>, store: map<Key, O>, l: Loaded<O>,
                               base: map<Key, O>, touched: set<Key>, keys: set<Key>, ev: Event<O>)
    requires Lawful(p) && OwnNames(keys) && ev.key in keys
    requires Tracks(track, store, keys) && Mirrors(l, base, touched, store)
    ensures Mirrors(Apply(p, l, RecordOf(p, track, ev), true, Accepted), base, touched + {ev.key}, Happen(store, ev))
  {
    var r := RecordOf(p, track, ev);
    CoherentExactly(p, l, r, true, Accepted);
    var l' := Apply(p, l, r, true, Accepted);
    assert Lookup(l.store, ev.key) == if ev.key in touched then Lookup(store, ev.key) else Lookup(base, ev.key);
    if ev.Put? && ev.key in store {
      assert p.apply(store[ev.key], p.diff(store[ev.key], ev.obj)) == ev.obj;
    }
    assert Lookup(l'.store, ev.key) == Lookup(Happen(store, ev), ev.key);
    forall k | k != ev.key ensures Lookup(l'.store, k) == Lookup(l.store, k) {
    }
  }

  lemma {:induction false} ReplayMirrors<O(!new), P>(p: Patcher<O, P>, track: map<Ref, O>, store: map<Key, O>, l: Loaded<O>,
                                                     base: map<Key, O>, touched: set<Key>, keys: set<Key>, evs: seq<Event<O>>)
    requires Lawful(p) && OwnNames(keys) && KeysOf(evs) <= keys
    requires Tracks(track, store, keys) && Mirrors(l, base, touched, store)
    ensures Mirrors(ApplyAll(p, l, RecordAll(p, track, evs)), base, touched + KeysOf(evs), HappenAll(store, evs))
    decreases |evs|
  {
    if evs == [] {
      assert touched + KeysOf(evs) == touched;
    } else {
      var ev, rest := evs[0], evs[1..];
      assert ev.key in KeysOf(evs);
      assert KeysOf(evs) == {ev.key} + KeysOf(rest);
      TracksStep(track, store, keys, ev);
      ReplayStep(p, track, store, l, base, touched, keys, ev);
      var l' := Apply(p, l, RecordOf(p, track, ev), true, Accepted);
      ReplayMirrors(p, Track(track, ev), Happen(store, ev), l', base, touched + {ev.key}, keys, rest);
      assert RecordAll(p, track, evs)[1..] == RecordAll(p, Track(track, ev), rest);
      assert touched + {ev.key} + KeysOf(rest) == touched + KeysOf(evs);
    }
  }

  // ---------------------------------------------------------------------------------------
  // Snapshot, watch and the event delivered twice
  // ---------------------------------------------------------------------------------------

  /** The saver's track map after a list of documents or events. */
  function TrackAll<O>(track: map<Ref, O>, evs: seq<Event<O>>): map<Ref, O>
    decreases |evs|
  {
    if evs == [] then track else TrackAll(Track(track, evs[0]), evs[1..])
  }

  /** Load: every document of the snapshot is put. */
  function LoadAll<O>(l: Loaded<O>, docs: seq<Event<O>>): Loaded<O>
    decreases |docs|
  {
    if docs == [] then l
    else LoadAll(if docs[0].Put? then PutData(l, docs[0].key, docs[0].obj, Accepted) else l, docs[1..])
  }

  /** The snapshot lists the contents of the store, one document per object. */
  ghost predicate Snapshot<O>(docs: seq<Event<O>>, store: map<Key, O>) {
    && (forall i :: 0 <= i < |docs| ==> docs[i].Put?)
    && HappenAll(map[], docs) == store
  }

  lemma {:induction false} LoadMirrors<O>(l: Loaded<O>, track: map<Ref, O>, store: map<Key, O>,
                                          base: map<Key, O>, touched: set<Key>, keys: set<Key>, docs: seq<Event<O>>)
    requires OwnNames(keys) && KeysOf(docs) <= keys
    requires forall i :: 0 <= i < |docs| ==> docs[i].Put?
    requires Tracks(track, store, keys) && Mirrors(l, base, touched, store)
    ensures Tracks(TrackAll(track, docs), HappenAll(store, docs), keys)
    ensures Mirrors(LoadAll(l, docs), base, touched + KeysOf(docs), HappenAll(store, docs))
    decreases |docs|
  {
    if docs == [] {
      assert touched + KeysOf(docs) == touched;
    } else {
      var doc, rest := docs[0], docs[1..];
      assert doc.key in KeysOf(docs);
      assert KeysOf(docs) == {doc.key} + KeysOf(rest);
      TracksStep(track, store, keys, doc);
      var l' := PutData(l, doc.key, doc.obj, Accepted);
      forall k ensures Lookup(l'.store, k) ==
        if k in touched + {doc.key} then Lookup(Happen(store, doc), k) else Lookup(base, k)
      {
        assert Lookup(l.store, k) == if k in touched then Lookup(store, k) else Lookup(base, k);
      }
      LoadMirrors(l', Track(track, doc), Happen(store, doc), base, touched + {doc.key}, keys, rest);
      assert touched + {doc.key} + KeysOf(rest) == touched + KeysOf(docs);
    }
  }

  /** What the last event on k in evs leaves there; None if there is none. */
  function LastEffect<O>(evs: seq<Event<O>>, k: Key): Option<Option<O>> {
    if evs == [] then None
    else
      var ev := evs[|evs| - 1];
      if ev.key == k then Some(if ev.Put? then Some(ev.obj) else None)
      else LastEffect(evs[..|evs| - 1], k)
  }

  lemma {:induction false} HappenAllConcat<O>(store: map<Key, O>, a: seq<Event<O>>, b: seq<Event<O>>)
    ensures HappenAll(store, a + b) == HappenAll(HappenAll(store, a), b)
    decreases |a|
  {
    if a == [] {
      assert a + b == b;
    } else {
      assert (a + b)[0] == a[0] && (a + b)[1..] == a[1..] + b;
      HappenAllConcat(Happen(store, a[0]), a[1..], b);
    }
  }

  lemma {:induction false} HappenAllAt<O>(store: map<Key, O>, evs: seq<Event<O>>, k: Key)
    ensures Lookup(HappenAll(store, evs), k) == LastEffect(evs, k).GetOr(Lookup(store, k))
    decreases |evs|
  {
    if evs != [] {
      var init, last := evs[..|evs| - 1], evs[|evs| - 1];
      assert evs == init + [last];
      HappenAllConcat(store, init, [last]);
      HappenAllAt(store, init, k);
      assert [last][1..] == [];
    }
  }

  lemma SameLookups<O>(a: map<Key, O>, b: map<Key, O>)
    requires forall k :: Lookup(a, k) == Lookup(b, k)
    ensures a == b
  {
    forall k ensures k in a <==> k in b { assert Lookup(a, k) == Lookup(b, k); }
    forall k | k in a ensures a[k] == b[k] { assert Lookup(a, k) == Lookup(b, k); }
  }

  /** Events that are delivered once more right away change nothing. */
  lemma Redelivery<O>(store: map<Key, O>, evs: seq<Event<O>>)
    ensures HappenAll(HappenAll(store, evs), evs) == HappenAll(store, evs)
  {
    forall k ensures Lookup(HappenAll(HappenAll(store, evs), evs), k) == Lookup(HappenAll(store, evs), k) {
      HappenAllAt(HappenAll(store, evs), evs, k);
      HappenAllAt(store, evs, k);
    }
    SameLookups(HappenAll(HappenAll(store, evs), evs), HappenAll(store, evs));
  }

  lemma {:induction false} OnlyTouched<O>(store: map<Key, O>, evs: seq<Event<O>>, k: Key)
    requires k in HappenAll(store, evs)
    ensures k in store || k in KeysOf(evs)
    decreases |evs|
  {
    if evs != [] {
      assert evs[0].key in KeysOf(evs);
      assert KeysOf(evs[1..]) <= KeysOf(evs);
      OnlyTouched(Happen(store, evs[0]), evs[1..], k);
    }
  }

  lemma {:induction false} PutsStay<O>(store: map<Key, O>, docs: seq<Event<O>>, k: Key)
    requires forall i :: 0 <= i < |docs| ==> docs[i].Put?
    requires k in store || k in KeysOf(docs)
    ensures k in HappenAll(store, docs)
    decreases |docs|
  {
    if docs != [] {
      if k in KeysOf(docs) && k != docs[0].key {
        var ev :| ev in docs && ev.key == k;
        assert ev in docs[1..];
      }
      PutsStay(Happen(store, docs[0]), docs[1..], k);
    }
  }

  /**
    The round trip. The cluster goes through `before`, then through `boundary`, the events of
    the revision at which the snapshot is taken, then through `after`. The watch starts at
    that revision, so the events of `boundary` are recorded although the snapshot has them.
    Loading the snapshot into a store and replaying the records gives exactly the final
    contents of the cluster for every object it ever had in the recording, and leaves every
    other object of the store alone.
  */
  lemma RoundTrip<O(!new), P>(p: Patcher<O, P>, before: seq<Event<O>>, boundary: seq<Event<O>>, after: seq<Event<O>>,
                              docs: seq<Event<O>>, base: map<Key, O>)
    requires Lawful(p) && OwnNames(KeysOf(before + boundary + after))
    requires Snapshot(docs, HappenAll(map[], before + boundary))
    ensures
      var records := RecordAll(p, TrackAll(map[], docs), boundary + after);
      var result := ApplyAll(p, LoadAll(Loaded(base, map[]), docs), records);
      && Mirrors(result, base, KeysOf(docs) + KeysOf(boundary + after), HappenAll(map[], before + boundary + after))
      && (base == map[] ==> result.store == HappenAll(map[], before + boundary + after))
  {
    var all := before + boundary + after;
    var keys := KeysOf(all);
    var store := HappenAll(map[], before + boundary);
    forall k | k in KeysOf(docs) ensures k in keys {
      PutsStay(map[], docs, k);
      OnlyTouched(map[], before + boundary, k);
      var ev :| ev in before + boundary && ev.key == k;
      assert ev in all;
    }
    forall k | k in KeysOf(boundary + after) ensures k in keys {
      var ev :| ev in boundary + after && ev.key == k;
      assert ev in all;
    }
    var start: Loaded<O> := Loaded(base, map[]);
    LoadMirrors(start, map[], map[], base, {}, keys, docs);
    assert {} + KeysOf(docs) == KeysOf(docs);
    ReplayMirrors(p, TrackAll(map[], docs), store, LoadAll(start, docs), base, KeysOf(docs), keys, boundary + after);
    HappenAllConcat(map[], before, boundary);
    HappenAllConcat(map[], before + boundary, after);
    HappenAllConcat(store, boundary, after);
    Redelivery(HappenAll(map[], before), boundary);
    var result := ApplyAll(p, LoadAll(start, docs), RecordAll(p, TrackAll(map[], docs), boundary + after));
    if base == map[] {
      forall k ensures Lookup(result.store, k) == Lookup(HappenAll(map[], all), k) {
      }
      SameLookups(result.store, HappenAll(map[], all));
    }
  }

  // ---------------------------------------------------------------------------------------
  // When two resources share a name
  // ---------------------------------------------------------------------------------------

  /** Recording a put and applying the record leaves the object in the store. */
  ghost predicate PutReplays<O, P>(p: Patcher<O, P>, track: map<Ref, O>, l: Loaded<O>, key: Key, obj: O) {
    Lookup(Apply(p, l, RecordOf(p, track, Put(key, obj)), true, Accepted).store, key) == Some(obj)
  }

  /** The name is not tracked, or what is tracked under it is this very object as it is stored. */
  ghost predicate TrackedRight<O>(track: map<Ref, O>, l: Loaded<O>, key: Key) {
    key.ref !in track || (key in l.store && l.store[key] == track[key.ref])
  }

  lemma TrackedRightReplays<O(!new), P>(p: Patcher<O, P>, track: map<Ref, O>, l: Loaded<O>, key: Key, obj: O)
    requires Coherent(l) && Lawful(p) && TrackedRight(track, l, key)
    ensures PutReplays(p, track, l, key, obj)
  {
  }

  /** A lawful patch library whose patches give `other` on every document they were not made for. */
  function Picky<O(==)>(other: O): Patcher<O, (O, O)> {
    Patcher((o, m) => (o, m), (o: O, d: (O, O)) => if o == d.0 then d.1 else other)
  }

  /**
    The law of patches is enough for the replay of a put exactly when the name is not tracked,
    or the object is there and is what is tracked under its name.
  */
  lemma PutReplaysExactly<O(!new)>(track: map<Ref, O>, l: Loaded<O>, key: Key, obj: O)
    requires Coherent(l)
    ensures (forall p: Patcher<O, (O, O)> :: Lawful(p) ==> PutReplays(p, track, l, key, obj))
            <==> TrackedRight(track, l, key)
  {
    if TrackedRight(track, l, key) {
      forall p: Patcher<O, (O, O)> | Lawful(p) ensures PutReplays(p, track, l, key, obj) {
        TrackedRightReplays(p, track, l, key, obj);
      }
    } else {
      var other := if key in l.store && l.store[key] != obj then l.store[key] else track[key.ref];
      assert Lawful(Picky(other)) && !PutReplays(Picky(other), track, l, key, obj);
    }
  }

  /**
    An object is lost if it is created while another resource is tracked under its name:
    its creation is recorded as a patch, and at replay there is nothing to patch.
  */
  lemma SharedNameLosesObject<O, P>(p: Patcher<O, P>, track: map<Ref, O>, l: Loaded<O>, key: Key, obj: O)
    requires key.ref in track && key !in l.store && Coherent(l)
    ensures RecordOf(p, track, Put(key, obj)).op.Patch?
    ensures Apply(p, l, RecordOf(p, track, Put(key, obj)), true, Accepted) == l
  {
  }

  // ---------------------------------------------------------------------------------------
  // The law of patches can be met
  // ---------------------------------------------------------------------------------------

  type Fields = map<string, string>

  /** A merge patch on flat documents: new values, and None for fields to be removed. */
  function FlatDiff(o: Fields, m: Fields): map<string, Option<string>> {
    map f | f in o.Keys + m.Keys && Lookup(o, f) != Lookup(m, f) :: Lookup(m, f)
  }

  function FlatApply(o: Fields, patch: map<string, Option<string>>): Fields {
    map f | f in o.Keys + patch.Keys && (f in patch ==> patch[f].Some?) ::
      if f in patch then patch[f].value else o[f]
  }

  lemma FlatPatchesAreLawful()
    ensures Lawful(Patcher(FlatDiff, FlatApply))
  {
    forall o: Fields, m: Fields ensures FlatApply(o, FlatDiff(o, m)) == m {
      var patch := FlatDiff(o, m);
      forall f ensures Lookup(FlatApply(o, patch), f) == Lookup(m, f) {
        if f in o.Keys + m.Keys && f !in patch { assert Lookup(o, f) == Lookup(m, f); }
      }
      forall f ensures f in FlatApply(o, patch) <==> f in m {
        assert Lookup(FlatApply(o, patch), f) == Lookup(m, f);
      }
      forall f | f in m ensures FlatApply(o, patch)[f] == m[f] {
        assert Lookup(FlatApply(o, patch), f) == Lookup(m, f);
      }
    }
  }
}

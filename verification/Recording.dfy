/**
  The Saver and the Loader as the objects that they are, with Record and Replay sending every
  record through a reorder buffer, and the whole way from a recorded cluster to a replayed one.
*/
module Recording {
  import opened Options
  import opened BinaryHeap
  import opened ReorderBuffer
  import opened RecordReplay

  function Items<T>(s: seq<Timed<T>>): (items: seq<T>)
    ensures |items| == |s| && forall i :: 0 <= i < |s| ==> items[i] == s[i].item
  {
    seq(|s|, i requires 0 <= i < |s| => s[i].item)
  }

  /** The durations are the times since the start. */
  ghost predicate MadeSince<T>(records: seq<Timed<T>>, clock: seq<int>, start: int) {
    |records| <= |clock| && forall k :: 0 <= k < |records| ==> records[k].duration == clock[k] - start
  }

  class Saver<O, P> {
    const patcher: Patcher<O, P>
    var track: map<Ref, O>
    var baseTime: Option<int>

    constructor (patcher: Patcher<O, P>)
      ensures this.patcher == patcher && track == map[] && baseTime == None
    {
      this.patcher := patcher;
      track, baseTime := map[], None;
    }

    /** Write one document of the snapshot and track it. */
    method Save(key: Key, obj: O) returns (doc: Event<O>)
      modifies this`track
      ensures doc == Put(key, obj) && track == Track(old(track), doc)
    {
      doc := Put(key, obj);
      track := track[key.ref := obj];
    }

    /** The whole snapshot. */
    method SaveAll(docs: seq<Event<O>>) returns (file: seq<Event<O>>)
      requires forall i :: 0 <= i < |docs| ==> docs[i].Put?
      modifies this`track
      ensures file == docs && track == TrackAll(old(track), docs)
    {
      file := [];
      assert docs[0..] == docs;
      for i := 0 to |docs|
        invariant file == docs[..i] && TrackAll(old(track), docs) == TrackAll(track, docs[i..])
      {
        assert docs[i..][0] == docs[i] && docs[i..][1..] == docs[i + 1..];
        var doc := Save(docs[i].key, docs[i].obj);
        assert docs[..i + 1] == docs[..i] + [doc];
        file := file + [doc];
      }
    }

    method SetDelete(key: Key) returns (op: Method<O, P>)
      modifies this`track
      ensures op == RecordOf(patcher, old(track), Del(key)).op
      ensures track == Track(old(track), Del(key))
    {
      track := track - {key.ref};
      op := Delete;
    }

    method SetContent(key: Key, obj: O) returns (op: Method<O, P>)
      modifies this`track
      ensures op == RecordOf(patcher, old(track), Put(key, obj)).op
      ensures track == Track(old(track), Put(key, obj))
    {
      if key.ref !in track {
        track := track[key.ref := obj];
        return Create(obj);
      }
      var original := track[key.ref];
      track := track[key.ref := obj];
      op := Patch(patcher.diff(original, obj));
    }

    /** The first event sets the base time and has duration 0. */
    method BuildResourcePatch(ev: Event<O>, now: int) returns (rp: Timed<Record<O, P>>)
      modifies this
      ensures rp.item == RecordOf(patcher, old(track), ev) && track == Track(old(track), ev)
      ensures rp.duration == now - old(baseTime).GetOr(now) && baseTime == Some(old(baseTime).GetOr(now))
    {
      var duration := 0;
      if baseTime.None? {
        baseTime := Some(now);
      } else {
        duration := now - baseTime.value;
      }
      var op;
      match ev {
        case Put(key, obj) => op := SetContent(key, obj);
        case Del(key) => op := SetDelete(key);
      }
      rp := Timed(duration, Record(ev.key, op));
    }

    /** The records of the events of a watch, which are read at the given clock times. */
    method BuildAll(events: seq<Event<O>>, clock: seq<int>) returns (records: seq<Timed<Record<O, P>>>)
      requires |clock| == |events|
      modifies this
      ensures Items(records) == RecordAll(patcher, old(track), events)
      ensures events != [] ==> forall k :: 0 <= k < |records| ==>
        records[k].duration == clock[k] - old(baseTime).GetOr(clock[0])
    {
      records := [];
      assert events[..0] == [];
      ghost var start := old(baseTime).GetOr(if clock == [] then 0 else clock[0]);
      for i := 0 to |events|
        invariant |records| == i && MadeSince(records, clock, start)
        invariant baseTime == if i == 0 then old(baseTime) else Some(start)
        invariant Items(records) == RecordAll(patcher, old(track), events[..i])
        invariant track == TrackAll(old(track), events[..i])
      {
        var rp := BuildResourcePatch(events[i], clock[i]);
        BuiltOneMore(patcher, old(track), events, i, records, rp);
        assert rp.duration == clock[i] - start;
        records := records + [rp];
      }
      assert events[..|events|] == events;
    }

    /**
      Record the events of a watch. `made` are the records in the order of the events; they
      are written as the reorder buffer lets them out.
    */
    method RecordEvents(events: seq<Event<O>>, clock: seq<int>)
        returns (written: seq<Timed<Record<O, P>>>, ghost made: seq<Timed<Record<O, P>>>)
      requires |clock| == |events|
      modifies this
      ensures Items(made) == RecordAll(patcher, old(track), events)
      ensures events != [] ==> forall k :: 0 <= k < |made| ==>
        made[k].duration == clock[k] - old(baseTime).GetOr(clock[0])
      ensures written == Reordered(made, RECORD_THRESHOLD)
      ensures (forall i, j :: 0 <= i < j < |clock| ==> clock[i] < clock[j]) ==> written == made
    {
      var records := BuildAll(events, clock);
      made := records;
      var peak;
      written, peak := Reorder(records, RECORD_THRESHOLD);
      if forall i, j :: 0 <= i < j < |clock| ==> clock[i] < clock[j] {
        OneOrderOnly(made, RECORD_THRESHOLD);
      }
    }
  }

  /** A reorder buffer leaves records as they are if they are in order and only equal ones tie. */
  lemma OneOrderOnly<T>(s: seq<Timed<T>>, threshold: nat)
    requires Sorted(s) && TiesAgree(s) && threshold > 0
    ensures Reordered(s, threshold) == s
  {
    SortedIsPrompt(s, threshold);
    ReorderedExactly(s, threshold);
    SortedIsDetermined(s, Reordered(s, threshold));
  }

  lemma {:induction false} RecordAllSnoc<O, P>(p: Patcher<O, P>, track: map<Ref, O>, evs: seq<Event<O>>, ev: Event<O>)
    ensures RecordAll(p, track, evs + [ev]) == RecordAll(p, track, evs) + [RecordOf(p, TrackAll(track, evs), ev)]
    ensures TrackAll(track, evs + [ev]) == Track(TrackAll(track, evs), ev)
    decreases |evs|
  {
    if evs == [] {
      assert evs + [ev] == [ev] && [ev][1..] == [];
    } else {
      assert (evs + [ev])[0] == evs[0] && (evs + [ev])[1..] == evs[1..] + [ev];
      RecordAllSnoc(p, Track(track, evs[0]), evs[1..], ev);
    }
  }

  lemma BuiltOneMore<O, P>(p: Patcher<O, P>, track: map<Ref, O>, evs: seq<Event<O>>, i: nat,
                           records: seq<Timed<Record<O, P>>>, rp: Timed<Record<O, P>>)
    requires i < |evs| && Items(records) == RecordAll(p, track, evs[..i])
    requires rp.item == RecordOf(p, TrackAll(track, evs[..i]), evs[i])
    ensures Items(records + [rp]) == RecordAll(p, track, evs[..i + 1])
    ensures TrackAll(track, evs[..i + 1]) == Track(TrackAll(track, evs[..i]), evs[i])
  {
    RecordAllSnoc(p, track, evs[..i], evs[i]);
    assert evs[..i + 1] == evs[..i] + [evs[i]];
    assert Items(records + [rp]) == Items(records) + [rp.item];
  }

  class Loader<O, P> {
    const patcher: Patcher<O, P>
    var store: map<Key, O>
    var tracksData: map<Key, O>

    constructor (patcher: Patcher<O, P>, store: map<Key, O>)
      ensures this.patcher == patcher && State() == Loaded(store, map[])
    {
      this.patcher := patcher;
      this.store, tracksData := store, map[];
    }

    function State(): Loaded<O>
      reads this
    {
      Loaded(store, tracksData)
    }

    method PutObject(key: Key, obj: O, reply: Reply)
      modifies this
      ensures State() == PutData(old(State()), key, obj, reply)
    {
      if !reply.Refused? {
        store := store[key := obj];
      }
      if reply.Accepted? {
        tracksData := tracksData[key := obj];
      }
    }

    method DelObject(key: Key, reply: Reply)
      modifies this
      ensures State() == DelData(old(State()), key, reply)
    {
      if !reply.Refused? {
        store := store - {key};
      }
      if reply.Accepted? {
        tracksData := tracksData - {key};
      }
    }

    method ApplyResourcePatch(r: Record<O, P>, readable: bool, reply: Reply)
      modifies this
      ensures State() == Apply(patcher, old(State()), r, readable, reply)
    {
      match r.op {
        case Delete => DelObject(r.key, reply);
        case Create(obj) => PutObject(r.key, obj, reply);
        case Patch(patch) =>
          if r.key !in tracksData {
            if r.key !in store || !readable {
              return;
            }
            tracksData := tracksData[r.key := store[r.key]];
          }
          PutObject(r.key, patcher.apply(tracksData[r.key], patch), reply);
      }
    }

    method Load(docs: seq<Event<O>>)
      modifies this
      ensures State() == LoadAll(old(State()), docs)
    {
      for i := 0 to |docs|
        invariant LoadAll(old(State()), docs) == LoadAll(State(), docs[i..])
      {
        assert docs[i..][0] == docs[i] && docs[i..][1..] == docs[i + 1..];
        if docs[i].Put? {
          PutObject(docs[i].key, docs[i].obj, Accepted);
        }
      }
    }

    /** Replay with all requests answered: the records are applied in the order the buffer lets them out. */
    method Replay(records: seq<Timed<Record<O, P>>>) returns (ghost ordered: seq<Timed<Record<O, P>>>)
      modifies this
      ensures ordered == Reordered(records, REPLAY_THRESHOLD)
      ensures State() == ApplyAll(patcher, old(State()), Items(ordered))
    {
      var queue, peak := Reorder(records, REPLAY_THRESHOLD);
      ordered := queue;
      ghost var items := Items(queue);
      assert items[0..] == items;
      for i := 0 to |queue|
        invariant ApplyAll(patcher, old(State()), items) == ApplyAll(patcher, State(), items[i..])
      {
        assert items[i..][0] == queue[i].item && items[i..][1..] == items[i + 1..];
        ApplyResourcePatch(queue[i].item, true, Accepted);
      }
    }
  }

  // ---------------------------------------------------------------------------------------
  // Ties between different objects do no harm
  // ---------------------------------------------------------------------------------------

  /** Of two records of one object, the one made later has the larger duration. */
  ghost predicate KeyAscending<O, P>(s: seq<Timed<Record<O, P>>>) {
    forall i, j :: 0 <= i < j < |s| && s[i].item.key == s[j].item.key ==> s[i].duration < s[j].duration
  }

  function ForKey<O, P>(s: seq<Timed<Record<O, P>>>, k: Key): seq<Timed<Record<O, P>>>
    decreases |s|
  {
    if s == [] then [] else (if s[0].item.key == k then [s[0]] else []) + ForKey(s[1..], k)
  }

  lemma {:induction false} ForKeyItems<O, P>(s: seq<Timed<Record<O, P>>>, k: Key)
    ensures OnKey(Items(s), k) == Items(ForKey(s, k))
    decreases |s|
  {
    if s != [] {
      ForKeyItems(s[1..], k);
      assert Items(s)[1..] == Items(s[1..]);
      assert ForKey(s, k) == (if s[0].item.key == k then [s[0]] else []) + ForKey(s[1..], k);
    }
  }

  lemma {:induction false} ForKeyConcat<O, P>(s: seq<Timed<Record<O, P>>>, t: seq<Timed<Record<O, P>>>, k: Key)
    ensures ForKey(s + t, k) == ForKey(s, k) + ForKey(t, k)
    decreases |s|
  {
    if s == [] {
      assert s + t == t;
    } else {
      assert (s + t)[0] == s[0] && (s + t)[1..] == s[1..] + t;
      ForKeyConcat(s[1..], t, k);
    }
  }

  lemma ForKeyExtract<O, P>(s: seq<Timed<Record<O, P>>>, p: nat, k: Key) returns (rest: seq<Timed<Record<O, P>>>)
    requires p < |s|
    ensures |rest| == |s| - 1 && multiset(s) == multiset(rest) + multiset{s[p]}
    ensures multiset(ForKey(s, k))
         == multiset(ForKey(rest, k)) + if s[p].item.key == k then multiset{s[p]} else multiset{}
  {
    rest := s[..p] + s[p + 1..];
    assert s == s[..p] + s[p..] && s[p..][0] == s[p] && s[p..][1..] == s[p + 1..];
    assert s[p..] == [s[p]] + s[p + 1..];
    ForKeyConcat(s[..p], s[p..], k);
    ForKeyConcat(s[..p], s[p + 1..], k);
  }

  lemma {:induction false} ForKeyMembers<O, P>(s: seq<Timed<Record<O, P>>>, k: Key)
    ensures forall x :: x in ForKey(s, k) ==> x in s && x.item.key == k
    decreases |s|
  {
    if s != [] { ForKeyMembers(s[1..], k); }
  }

  lemma {:induction false} ForKeySorted<O, P>(s: seq<Timed<Record<O, P>>>, k: Key)
    requires Sorted(s)
    ensures Sorted(ForKey(s, k))
    decreases |s|
  {
    if s != [] {
      ForKeySorted(s[1..], k);
      ForKeyMembers(s[1..], k);
    }
  }

  lemma {:induction false} ForKeyAscending<O, P>(s: seq<Timed<Record<O, P>>>, k: Key)
    requires KeyAscending(s)
    ensures forall i, j :: 0 <= i < j < |ForKey(s, k)| ==> ForKey(s, k)[i].duration < ForKey(s, k)[j].duration
    decreases |s|
  {
    if s != [] {
      ForKeyAscending(s[1..], k);
      ForKeyMembers(s[1..], k);
    }
  }

  lemma SumCancels<T>(a: multiset<T>, b: multiset<T>, x: T)
    requires a + multiset{x} == b + multiset{x}
    ensures a == b
  {
    assert a == a + multiset{x} - multiset{x};
    assert b == b + multiset{x} - multiset{x};
  }

  lemma {:induction false} ForKeyPermutes<O, P>(s: seq<Timed<Record<O, P>>>, t: seq<Timed<Record<O, P>>>, k: Key)
    requires multiset(s) == multiset(t)
    ensures multiset(ForKey(s, k)) == multiset(ForKey(t, k))
    decreases |s|
  {
    SameLength(s, t);
    if s != [] {
      assert s[0] in multiset(t);
      var p :| 0 <= p < |t| && t[p] == s[0];
      var s' := ForKeyExtract(s, 0, k);
      var t' := ForKeyExtract(t, p, k);
      SumCancels(multiset(s'), multiset(t'), s[0]);
      ForKeyPermutes(s', t', k);
    }
  }

  lemma SameForKey<O, P>(s: seq<Timed<Record<O, P>>>, t: seq<Timed<Record<O, P>>>, k: Key)
    requires KeyAscending(s) && Sorted(t) && multiset(s) == multiset(t)
    ensures ForKey(s, k) == ForKey(t, k)
  {
    ForKeyAscending(s, k);
    ForKeySorted(t, k);
    ForKeyPermutes(s, t, k);
    SortedIsDetermined(ForKey(s, k), ForKey(t, k));
  }

  /** Every sorted order of such records replays as the order in which they were made. */
  lemma SortedReplaysAlike<O, P>(p: Patcher<O, P>, l: Loaded<O>,
                                 s: seq<Timed<Record<O, P>>>, t: seq<Timed<Record<O, P>>>)
    requires KeyAscending(s) && Sorted(t) && multiset(s) == multiset(t)
    ensures ApplyAll(p, l, Items(t)) == ApplyAll(p, l, Items(s))
  {
    forall k ensures OnKey(Items(t), k) == OnKey(Items(s), k) {
      SameForKey(s, t, k);
      ForKeyItems(s, k);
      ForKeyItems(t, k);
    }
    SameReplay(p, l, Items(t), Items(s));
  }

  /** Records in order come out of both buffers in order. */
  lemma BothBuffersSort<T>(made: seq<Timed<T>>)
    requires Sorted(made)
    ensures
      var ordered := Reordered(Reordered(made, RECORD_THRESHOLD), REPLAY_THRESHOLD);
      Sorted(ordered) && multiset(ordered) == multiset(made)
  {
    var written := Reordered(made, RECORD_THRESHOLD);
    SortedIsPrompt(made, RECORD_THRESHOLD);
    ReorderedExactly(made, RECORD_THRESHOLD);
    SortedIsPrompt(written, REPLAY_THRESHOLD);
    ReorderedExactly(written, REPLAY_THRESHOLD);
  }

  /** The clock never goes back and has advanced between two events of the same object. */
  ghost predicate ClockAdvances<O>(evs: seq<Event<O>>, clock: seq<int>)
    requires |clock| == |evs|
  {
    && (forall i, j :: 0 <= i < j < |clock| ==> clock[i] <= clock[j])
    && (forall i, j :: 0 <= i < j < |clock| && evs[i].key == evs[j].key ==> clock[i] < clock[j])
  }

  /** Records made under such a clock and sent through both buffers replay as the events happened. */
  lemma BufferedReplaysAlike<O, P>(p: Patcher<O, P>, l: Loaded<O>, track: map<Ref, O>, evs: seq<Event<O>>,
                                   clock: seq<int>, start: int, made: seq<Timed<Record<O, P>>>)
    requires |clock| == |evs| && ClockAdvances(evs, clock)
    requires Items(made) == RecordAll(p, track, evs)
    requires forall k :: 0 <= k < |made| ==> made[k].duration == clock[k] - start
    ensures ApplyAll(p, l, Items(Reordered(Reordered(made, RECORD_THRESHOLD), REPLAY_THRESHOLD)))
         == ApplyAll(p, l, RecordAll(p, track, evs))
  {
    forall i | 0 <= i < |made| ensures made[i].item.key == evs[i].key {
      assert Items(made)[i] == made[i].item;
    }
    BothBuffersSort(made);
    SortedReplaysAlike(p, l, made, Reordered(Reordered(made, RECORD_THRESHOLD), REPLAY_THRESHOLD));
  }

  /** Save, Record, Load and Replay in a row rebuild the recorded cluster in an empty store. */
  method SaveRecordLoadReplay<O(!new), P>(patcher: Patcher<O, P>, docs: seq<Event<O>>, boundary: seq<Event<O>>,
                                          after: seq<Event<O>>, clock: seq<int>, ghost before: seq<Event<O>>)
      returns (replayed: map<Key, O>)
    requires Lawful(patcher) && OwnNames(KeysOf(before + boundary + after))
    requires Snapshot(docs, HappenAll(map[], before + boundary))
    requires |clock| == |boundary + after| && ClockAdvances(boundary + after, clock)
    ensures replayed == HappenAll(map[], before + boundary + after)
  {
    var saver := new Saver<O, P>(patcher);
    var file := saver.SaveAll(docs);
    var records, made := saver.RecordEvents(boundary + after, clock);
    var loader := new Loader<O, P>(patcher, map[]);
    loader.Load(file);
    ghost var loaded, start := loader.State(), if clock == [] then 0 else clock[0];
    var ordered := loader.Replay(records);
    BufferedReplaysAlike(patcher, loaded, TrackAll(map[], docs), boundary + after, clock, start, made);
    RoundTrip(patcher, before, boundary, after, docs, map[]);
    replayed := loader.store;
  }

  // ---------------------------------------------------------------------------------------
  // Ties between records of one object lose updates
  // ---------------------------------------------------------------------------------------

  /** An object is created and updated while five others are created. */
  function TiedEvents<O>(key: Key, a: O, b: O, others: seq<Key>, obj: O): seq<Event<O>>
    requires |others| == 5
  {
    [Put(others[0], obj), Put(others[1], obj), Put(key, a), Put(others[2], obj), Put(key, b),
     Put(others[3], obj), Put(others[4], obj)]
  }

  ghost predicate AllDiffer(key: Key, others: seq<Key>) {
    && (forall i :: 0 <= i < |others| ==> others[i].ref != key.ref)
    && (forall i, j :: 0 <= i < j < |others| ==> others[i].ref != others[j].ref)
  }

  /** What the events before number n leave tracked for the name of `key`. */
  lemma TiedTrack<O>(key: Key, a: O, b: O, others: seq<Key>, obj: O)
    requires |others| == 5 && AllDiffer(key, others)
    ensures
      var evs := TiedEvents(key, a, b, others, obj);
      Lookup(TrackAll(map[], evs[..2]), key.ref) == None && Lookup(TrackAll(map[], evs[..4]), key.ref) == Some(a)
  {
    var evs := TiedEvents(key, a, b, others, obj);
    var none: map<Ref, O> := map[];
    TrackSnoc(none, [], evs[0], key.ref);
    TrackSnoc(none, evs[..1], evs[1], key.ref);
    TrackSnoc(none, evs[..2], evs[2], key.ref);
    TrackSnoc(none, evs[..3], evs[3], key.ref);
    assert [] + [evs[0]] == evs[..1] && evs[..1] + [evs[1]] == evs[..2];
    assert evs[..2] + [evs[2]] == evs[..3] && evs[..3] + [evs[3]] == evs[..4];
  }

  lemma {:induction false} TrackSnoc<O>(track: map<Ref, O>, evs: seq<Event<O>>, ev: Event<O>, ref: Ref)
    requires ev.Put?
    ensures Lookup(TrackAll(track, evs + [ev]), ref)
         == if ev.key.ref == ref then Some(ev.obj) else Lookup(TrackAll(track, evs), ref)
    decreases |evs|
  {
    if evs == [] {
      assert evs + [ev] == [ev] && [ev][1..] == [];
    } else {
      assert (evs + [ev])[0] == evs[0] && (evs + [ev])[1..] == evs[1..] + [ev];
      TrackSnoc(Track(track, evs[0]), evs[1..], ev, ref);
    }
  }

  lemma {:induction false} RecordAllAt<O, P>(p: Patcher<O, P>, track: map<Ref, O>, evs: seq<Event<O>>, i: nat)
    requires i < |evs|
    ensures RecordAll(p, track, evs)[i] == RecordOf(p, TrackAll(track, evs[..i]), evs[i])
    decreases i
  {
    if i > 0 {
      assert evs[1..][..i - 1] == evs[..i][1..];
      RecordAllAt(p, Track(track, evs[0]), evs[1..], i - 1);
    }
  }

  /** The third record creates the object, the fifth updates it, and the others are of other objects. */
  lemma TiedRecords<O, P>(p: Patcher<O, P>, key: Key, a: O, b: O, others: seq<Key>, obj: O)
    requires |others| == 5 && AllDiffer(key, others)
    ensures
      var rs := RecordAll(p, map[], TiedEvents(key, a, b, others, obj));
      && rs[2] == Record(key, Create(a)) && rs[4] == Record(key, Patch(p.diff(a, b)))
      && forall i :: 0 <= i < 7 && i != 2 && i != 4 ==> rs[i].key != key
  {
    var evs := TiedEvents(key, a, b, others, obj);
    TiedTrack(key, a, b, others, obj);
    RecordAllAt(p, map[], evs, 2);
    RecordAllAt(p, map[], evs, 4);
  }

  lemma {:induction false} OnKeyConcat<O, P>(rs: seq<Record<O, P>>, ts: seq<Record<O, P>>, k: Key)
    ensures OnKey(rs + ts, k) == OnKey(rs, k) + OnKey(ts, k)
    decreases |rs|
  {
    if rs == [] {
      assert rs + ts == ts;
    } else {
      assert (rs + ts)[0] == rs[0] && (rs + ts)[1..] == rs[1..] + ts;
      OnKeyConcat(rs[1..], ts, k);
    }
  }

  lemma {:induction false} OnKeyNone<O, P>(rs: seq<Record<O, P>>, k: Key)
    requires forall i :: 0 <= i < |rs| ==> rs[i].key != k
    ensures OnKey(rs, k) == []
    decreases |rs|
  {
    if rs != [] { OnKeyNone(rs[1..], k); }
  }

  lemma OnKeyPair<O, P>(before: seq<Record<O, P>>, r: Record<O, P>, r': Record<O, P>, after: seq<Record<O, P>>, k: Key)
    requires (forall i :: 0 <= i < |before| ==> before[i].key != k) && (forall i :: 0 <= i < |after| ==> after[i].key != k)
    requires r.key == r'.key == k
    ensures OnKey(before + [r, r'] + after, k) == [r, r']
  {
    OnKeyConcat(before + [r, r'], after, k);
    OnKeyConcat(before, [r, r'], k);
    OnKeyNone(before, k);
    OnKeyNone(after, k);
    assert [r, r'][1..] == [r'] && [r'][1..] == [];
    assert OnKey([r'], k) == [r'];
  }

  /** A patch that comes before the creation it belongs to finds nothing to patch. */
  lemma PatchBeforeCreate<O, P>(p: Patcher<O, P>, key: Key, a: O, patch: P, rs: seq<Record<O, P>>)
    requires OnKey(rs, key) == [Record(key, Patch(patch)), Record(key, Create(a))]
    ensures Lookup(ApplyAll(p, Loaded(map[], map[]), rs).store, key) == Some(a)
  {
    var none: Loaded<O> := Loaded(map[], map[]);
    var pair := OnKey(rs, key);
    ApplyAllAt(p, none, none, rs, key);
    assert pair[1..] == [pair[1]] && [pair[1]][1..] == [];
    assert Apply(p, none, pair[0], true, Accepted) == none;
    assert ApplyAll(p, none, pair) == ApplyAll(p, none, [pair[1]]);
    assert ApplyAll(p, none, [pair[1]]) == Apply(p, none, pair[1], true, Accepted);
  }

  lemma TiedOrder<T>(made: seq<Timed<T>>, rs: seq<T>)
    requires |made| == 7 && Items(made) == rs
    requires forall i :: 0 <= i < 7 ==> made[i].duration == if i < 5 then 0 else 1
    ensures Items(Reordered(Reordered(made, RECORD_THRESHOLD), REPLAY_THRESHOLD))
         == [rs[0], rs[1], rs[4], rs[2], rs[3], rs[5], rs[6]]
  {
    assert made == [made[0], made[1], made[2], made[3], made[4], made[5], made[6]];
    SevenWithTies(made[0], made[1], made[2], made[3], made[4], made[5], made[6], RECORD_THRESHOLD);
    SevenWithTies(made[0], made[1], made[3], made[4], made[2], made[6], made[5], REPLAY_THRESHOLD);
  }

  lemma TiedHistory<O>(key: Key, a: O, b: O, others: seq<Key>, obj: O)
    requires |others| == 5 && AllDiffer(key, others)
    ensures Lookup(HappenAll(map[], TiedEvents(key, a, b, others, obj)), key) == Some(b)
  {
    var evs := TiedEvents(key, a, b, others, obj);
    HappenAllAt(map[], evs, key);
    assert evs[..6][..5] == evs[..5] && evs[..5][4] == Put(key, b);
    assert LastEffect(evs, key) == LastEffect(evs[..6], key) == LastEffect(evs[..5], key);
  }

  lemma TiedReplay<O, P>(p: Patcher<O, P>, key: Key, a: O, b: O, others: seq<Key>, obj: O,
                         made: seq<Timed<Record<O, P>>>)
    requires |others| == 5 && AllDiffer(key, others)
    requires Items(made) == RecordAll(p, map[], TiedEvents(key, a, b, others, obj))
    requires |made| == 7 && forall i :: 0 <= i < 7 ==> made[i].duration == if i < 5 then 0 else 1
    ensures
      var ordered := Reordered(Reordered(made, RECORD_THRESHOLD), REPLAY_THRESHOLD);
      Lookup(ApplyAll(p, Loaded(map[], map[]), Items(ordered)).store, key) == Some(a)
  {
    var rs := RecordAll(p, map[], TiedEvents(key, a, b, others, obj));
    TiedRecords(p, key, a, b, others, obj);
    TiedOrder(made, rs);
    var items := [rs[0], rs[1], rs[4], rs[2], rs[3], rs[5], rs[6]];
    assert items == [rs[0], rs[1]] + [rs[4], rs[2]] + [rs[3], rs[5], rs[6]];
    OnKeyPair([rs[0], rs[1]], rs[4], rs[2], [rs[3], rs[5], rs[6]], key);
    PatchBeforeCreate(p, key, a, p.diff(a, b), items);
  }

  /**
    The failing input: an object is created and updated at one clock reading, among five
    events at that reading and two at the next. The heap of Record and the heap of Replay
    each let the tied records out in an order of its own, and together they put the update
    before the creation. The replayed cluster has the older content.
  */
  method TiedUpdateIsLost<O, P>(patcher: Patcher<O, P>, key: Key, a: O, b: O, others: seq<Key>, obj: O)
      returns (replayed: map<Key, O>)
    requires |others| == 5 && AllDiffer(key, others)
    ensures Lookup(replayed, key) == Some(a)
    ensures Lookup(HappenAll(map[], TiedEvents(key, a, b, others, obj)), key) == Some(b)
  {
    var saver := new Saver<O, P>(patcher);
    var written, made := saver.RecordEvents(TiedEvents(key, a, b, others, obj), [0, 0, 0, 0, 0, 1, 1]);
    var loader := new Loader<O, P>(patcher, map[]);
    var ordered := loader.Replay(written);
    TiedReplay(patcher, key, a, b, others, obj, made);
    TiedHistory(key, a, b, others, obj);
    replayed := loader.store;
  }

  // ---------------------------------------------------------------------------------------
  // Resources that share a name
  // ---------------------------------------------------------------------------------------

  lemma TwoInOrder<T>(made: seq<Timed<T>>, rs: seq<T>)
    requires |made| == 2 && made[0].duration < made[1].duration && Items(made) == rs
    ensures Items(Reordered(Reordered(made, RECORD_THRESHOLD), REPLAY_THRESHOLD)) == rs
  {
    OneOrderOnly(made, RECORD_THRESHOLD);
    OneOrderOnly(made, REPLAY_THRESHOLD);
  }

  lemma SharedNameReplay<O, P>(p: Patcher<O, P>, first: Key, second: Key, a: O, b: O)
    requires first.ref == second.ref && first != second
    ensures
      var evs := [Put(first, a), Put(second, b)];
      && ApplyAll(p, Loaded(map[], map[]), RecordAll(p, map[], evs)) == Loaded(map[first := a], map[first := a])
      && HappenAll(map[], evs) == map[first := a, second := b]
  {
    var evs := [Put(first, a), Put(second, b)];
    assert evs[1..] == [Put(second, b)] && evs[1..][1..] == [];
    var one: Loaded<O> := Loaded(map[first := a], map[first := a]);
    var track := map[first.ref := a];
    assert RecordAll(p, track, evs[1..]) == [RecordOf(p, track, Put(second, b))];
    var rs := RecordAll(p, map[], evs);
    assert Apply(p, Loaded(map[], map[]), rs[0], true, Accepted) == one;
    SharedNameLosesObject(p, track, one, second, b);
    assert rs[1..][1..] == [];
    assert ApplyAll(p, one, rs[1..]) == ApplyAll(p, one, []);
    assert HappenAll(map[first := a], evs[1..]) == HappenAll(map[first := a, second := b], []);
  }

  /**
    Two resources of one namespace and name are created one after the other; the creation of
    the second is recorded as a patch, and replay has nothing to patch.
  */
  method SecondOfANameIsLost<O, P>(patcher: Patcher<O, P>, first: Key, second: Key, a: O, b: O)
      returns (replayed: map<Key, O>)
    requires first.ref == second.ref && first != second
    ensures replayed == map[first := a]
    ensures HappenAll(map[], [Put(first, a), Put(second, b)]) == map[first := a, second := b]
  {
    var evs := [Put(first, a), Put(second, b)];
    var saver := new Saver<O, P>(patcher);
    var written, made := saver.RecordEvents(evs, [0, 1]);
    var loader := new Loader<O, P>(patcher, map[]);
    var ordered := loader.Replay(written);
    SharedNameReplay(patcher, first, second, a, b);
    TwoInOrder(made, RecordAll(patcher, map[], evs));
    replayed := loader.store;
  }
}

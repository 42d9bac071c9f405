/**
  The versioned read cache over a resource getter, and filters stacked over it. A cached
  getter compares the version of the getter below with the version it last stored a value
  for, first under a read lock and again under the write lock, and only then fetches.

  Values are represented by the epoch of the source they were computed from; a filter is a
  pure function of the value below and keeps the epoch. Epoch 0 is the zero value that a
  cache holds before its first fetch, and version 0 is the empty version string.
*/
module VersionedCache {
  import opened Options

  datatype Cache = Cache(version: nat, data: nat, locked: bool)

  /** The cache object itself, with the two critical sections of Get. */
  class CacheGetter {
    var currentVer: nat
    var data: nat
    var locked: bool

    constructor ()
      ensures State() == Cache(0, 0, false)
    {
      currentVer, data, locked := 0, 0, false;
    }

    function State(): Cache
      reads this
    {
      Cache(currentVer, data, locked)
    }

    /** The comparison, made under either lock: a hit answers with the stored value. */
    method Lookup(latestVer: nat) returns (found: Option<nat>)
      ensures found == Hit(State(), latestVer)
    {
      if currentVer == latestVer {
        found := Some(data);
      } else {
        found := None;
      }
    }

    /** The section under the write lock, in which the getter below answers with `below`. */
    method GetLocked(latestVer: nat, below: nat) returns (value: nat)
      requires !locked
      modifies this
      ensures (State(), value) == Locked(old(State()), latestVer, below)
    {
      locked := true;
      var found := Lookup(latestVer);
      if found.Some? {
        value := found.value;
      } else {
        value := below;
        data := below;
        currentVer := latestVer;
      }
      locked := false;
    }
  }

  function Hit(c: Cache, latest: nat): Option<nat> {
    if c.version == latest then Some(c.data) else None
  }

  function Stored(latest: nat, fetched: nat): Cache {
    Cache(latest, fetched, false)
  }

  /** What the section under the write lock leaves and returns. */
  function Locked(c: Cache, latest: nat, below: nat): (Cache, nat) {
    match Hit(c, latest)
    case Some(value) => (c, value)
    case None => (Stored(latest, below), below)
  }

  // ---------------------------------------------------------------------------------------
  // A stack of caches with any number of concurrent callers
  // ---------------------------------------------------------------------------------------

  /**
    A call of Get at one layer. `born` is the version of the source when the call began,
    `latest` the version that the call has observed.
  */
  datatype Frame =
    | Entered(layer: nat, born: nat)
    | Missed(layer: nat, born: nat, latest: nat)   // not found under the read lock
    | Filling(layer: nat, born: nat, latest: nat)  // holds the write lock, fetches from below

  /**
    The nested calls of one caller, outermost first, and the value just returned to the last.
    `born` is the version of the source when the outermost call began, `observed` the version
    that call has read from the source since.
  */
  datatype Caller = Caller(frames: seq<Frame>, born: nat, observed: nat, returned: Option<nat>)

  /** The source's version and the epoch of the data it would hand out. */
  datatype State = State(version: nat, epoch: nat, caches: seq<Cache>, callers: seq<Caller>)

  datatype Action =
    | Advance(version: nat, epoch: nat)
    | Call(c: nat)
    | Read(c: nat)
    | Lock(c: nat)
    | Fetch(c: nat)
    | Fill(c: nat)

  function Top(caller: Caller): Frame
    requires caller.frames != []
  {
    caller.frames[|caller.frames| - 1]
  }

  /** The outermost call has just read the source's version. */
  function Observe(caller: Caller, version: nat): Caller {
    if |caller.frames| == 1 then caller.(observed := version) else caller
  }

  function Return(caller: Caller, value: nat): Caller
    requires caller.frames != []
  {
    caller.(frames := caller.frames[..|caller.frames| - 1], returned := Some(value))
  }

  function Replace(caller: Caller, frame: Frame): Caller
    requires caller.frames != []
  {
    caller.(frames := caller.frames[..|caller.frames| - 1] + [frame])
  }

  /** Caller c is inside a call of Get at an existing layer. */
  predicate Inside(s: State, c: nat) {
    c < |s.callers| && s.callers[c].frames != [] && Top(s.callers[c]).layer < |s.caches|
  }

  predicate Unlocked(s: State, c: nat)
    requires Inside(s, c)
  {
    !s.caches[Top(s.callers[c]).layer].locked
  }

  /** The read section waits for a writer of that layer, the write section too. */
  predicate Enabled(s: State, a: Action) {
    match a
    case Advance(version, epoch) => s.version <= version <= epoch && s.epoch <= epoch
    case Call(c) => c < |s.callers| && s.callers[c].frames == [] && s.caches != []
    case Read(c) =>
      Inside(s, c) && Top(s.callers[c]).Entered? && s.callers[c].returned.None? && Unlocked(s, c)
    case Lock(c) =>
      Inside(s, c) && Top(s.callers[c]).Missed? && s.callers[c].returned.None? && Unlocked(s, c)
    case Fetch(c) =>
      Inside(s, c) && Top(s.callers[c]).Filling? && s.callers[c].returned.None? && Top(s.callers[c]).layer == 0
    case Fill(c) =>
      Inside(s, c) && Top(s.callers[c]).Filling? && s.callers[c].returned.Some?
  }

  function Next(s: State, a: Action): State
    requires Enabled(s, a)
  {
    match a
    case Advance(version, epoch) => s.(version := version, epoch := epoch)
    case Call(c) =>
      Set(s, c, Caller([Entered(|s.caches| - 1, s.version)], s.version, s.version, None))
    case Read(c) =>
      var me := Observe(s.callers[c], s.version);
      var top := Top(me);
      (match Hit(s.caches[top.layer], s.version)
       case Some(value) => Set(s, c, Return(me, value))
       case None => Set(s, c, Replace(me, Missed(top.layer, top.born, s.version))))
    case Lock(c) =>
      var me := s.callers[c];
      var top := Top(me);
      (match Hit(s.caches[top.layer], top.latest)
       case Some(value) => Set(s, c, Return(me, value))
       case None =>
         var filling := Replace(me, Filling(top.layer, top.born, top.latest));
         var below := if top.layer == 0 then [] else [Entered(top.layer - 1, s.version)];
         Set(s.(caches := s.caches[top.layer := s.caches[top.layer].(locked := true)]),
             c, filling.(frames := filling.frames + below)))
    case Fetch(c) => Set(s, c, s.callers[c].(returned := Some(s.epoch)))
    case Fill(c) =>
      var me := s.callers[c];
      var top := Top(me);
      Set(s.(caches := s.caches[top.layer := Stored(top.latest, me.returned.value)]),
          c, Return(me, me.returned.value))
  }

  function Set(s: State, c: nat, caller: Caller): State
    requires c < |s.callers|
  {
    s.(callers := s.callers[c := caller])
  }

  predicate IsRun(s: State, actions: seq<Action>)
    decreases |actions|
  {
    actions == [] || (Enabled(s, actions[0]) && IsRun(Next(s, actions[0]), actions[1..]))
  }

  function Run(s: State, actions: seq<Action>): State
    requires IsRun(s, actions)
    decreases |actions|
  {
    if actions == [] then s else Run(Next(s, actions[0]), actions[1..])
  }

  /** Caches just made over a getter whose data is at least as new as its version. */
  predicate Init(s: State) {
    && s.version <= s.epoch
    && (forall i :: 0 <= i < |s.caches| ==> s.caches[i] == Cache(0, 0, false))
    && (forall c :: 0 <= c < |s.callers| ==> s.callers[c] == Caller([], 0, 0, None))
  }

  // ---------------------------------------------------------------------------------------
  // Freshness
  // ---------------------------------------------------------------------------------------

  /** A cached value is never older than the label it is stored under. */
  predicate CacheOk(cache: Cache, version: nat) {
    cache.version <= cache.data && cache.version <= version
  }

  predicate FrameOk(frame: Frame, version: nat) {
    frame.born <= version && (!frame.Entered? ==> frame.born <= frame.latest <= version)
  }

  /** Every call waits for the one after it, which began when its caller knew `latest`. */
  predicate CallerOk(caller: Caller, version: nat) {
    && (forall i :: 0 <= i < |caller.frames| ==> FrameOk(caller.frames[i], version))
    && (forall i :: 0 <= i < |caller.frames| - 1 ==>
          caller.frames[i].Filling? && caller.frames[i].latest <= caller.frames[i + 1].born)
    && (caller.frames != [] ==> caller.born <= caller.frames[0].born && caller.born <= caller.observed <= version)
    && (caller.frames != [] && !caller.frames[0].Entered? ==> caller.observed == caller.frames[0].latest)
    && (caller.returned.Some? && caller.frames != [] ==>
          Top(caller).Filling? && Top(caller).latest <= caller.returned.value)
    && (caller.returned.Some? && caller.frames == [] ==>
          caller.born <= caller.observed <= caller.returned.value)
  }

  predicate Inv(s: State) {
    && s.version <= s.epoch
    && (forall i :: 0 <= i < |s.caches| ==> CacheOk(s.caches[i], s.version))
    && (forall c :: 0 <= c < |s.callers| ==> CallerOk(s.callers[c], s.version))
  }

  /** A call that returns a value as new as its own birth satisfies whoever waits for it. */
  lemma ReturnOk(caller: Caller, version: nat, value: nat)
    requires CallerOk(caller, version) && caller.frames != [] && Top(caller).born <= value
    requires |caller.frames| == 1 ==> caller.observed <= value
    ensures CallerOk(Return(caller, value), version)
  {
  }

  lemma ReplaceOk(caller: Caller, version: nat, frame: Frame)
    requires CallerOk(caller, version) && caller.frames != [] && caller.returned.None?
    requires FrameOk(frame, version) && frame.born == Top(caller).born
    requires |caller.frames| == 1 && !frame.Entered? ==> caller.observed == frame.latest
    ensures CallerOk(Replace(caller, frame), version)
  {
  }

  lemma AdvanceInv(s: State, version: nat, epoch: nat)
    requires Inv(s) && Enabled(s, Advance(version, epoch))
    ensures Inv(Next(s, Advance(version, epoch)))
  {
  }

  lemma LockInv(s: State, c: nat)
    requires Inv(s) && Enabled(s, Lock(c))
    ensures Inv(Next(s, Lock(c)))
  {
    var me := s.callers[c];
    var top := Top(me);
    var hit := Hit(s.caches[top.layer], top.latest);
    assert CacheOk(s.caches[top.layer], s.version) && FrameOk(top, s.version);
    if hit.Some? {
      ReturnOk(me, s.version, hit.value);
    } else {
      ReplaceOk(me, s.version, Filling(top.layer, top.born, top.latest));
    }
  }

  lemma ReadInv(s: State, c: nat)
    requires Inv(s) && Enabled(s, Read(c))
    ensures Inv(Next(s, Read(c)))
  {
    var me := Observe(s.callers[c], s.version);
    var top := Top(me);
    var hit := Hit(s.caches[top.layer], s.version);
    assert CacheOk(s.caches[top.layer], s.version) && FrameOk(top, s.version);
    if hit.Some? {
      ReturnOk(me, s.version, hit.value);
    } else {
      ReplaceOk(me, s.version, Missed(top.layer, top.born, s.version));
    }
  }

  lemma NextInv(s: State, a: Action)
    requires Inv(s) && Enabled(s, a)
    ensures Inv(Next(s, a))
  {
    match a {
      case Advance(version, epoch) => AdvanceInv(s, version, epoch);
      case Call(c) =>
      case Read(c) => ReadInv(s, c);
      case Lock(c) => LockInv(s, c);
      case Fetch(c) => assert FrameOk(Top(s.callers[c]), s.version);
      case Fill(c) =>
        var me := s.callers[c];
        assert FrameOk(Top(me), s.version);
        ReturnOk(me, s.version, me.returned.value);
    }
  }

  lemma {:induction false} RunInv(s: State, actions: seq<Action>)
    requires Inv(s) && IsRun(s, actions)
    ensures Inv(Run(s, actions))
    decreases |actions|
  {
    if actions != [] {
      NextInv(s, actions[0]);
      RunInv(Next(s, actions[0]), actions[1..]);
    }
  }

  /**
    Freshness of the stack, whatever its height and however its callers interleave: a
    finished Get hands out data at least as new as the version that it observed, and what it
    observed is at least as new as what the source had when the call began.
  */
  lemma GetIsFresh(s: State, actions: seq<Action>, c: nat)
    requires Init(s) && IsRun(s, actions) && c < |Run(s, actions).callers|
    requires Run(s, actions).callers[c].frames == [] && Run(s, actions).callers[c].returned.Some?
    ensures var me := Run(s, actions).callers[c]; me.born <= me.observed <= me.returned.value
  {
    RunInv(s, actions);
    assert CallerOk(Run(s, actions).callers[c], Run(s, actions).version);
  }

  // ---------------------------------------------------------------------------------------
  // Only values that the source had
  // ---------------------------------------------------------------------------------------

  /** The epochs that the source takes on in the course of these actions. */
  function Epochs(actions: seq<Action>): set<nat> {
    set i | 0 <= i < |actions| && actions[i].Advance? :: actions[i].epoch
  }

  /** Everything cached or just returned is among `known`, and none is newer than the source. */
  predicate Genuine(s: State, known: set<nat>) {
    && s.epoch in known
    && (forall i :: 0 <= i < |s.caches| ==> s.caches[i].data in known && s.caches[i].data <= s.epoch)
    && (forall c :: 0 <= c < |s.callers| && s.callers[c].returned.Some? ==>
          s.callers[c].returned.value in known && s.callers[c].returned.value <= s.epoch)
  }

  lemma NextGenuine(s: State, a: Action, known: set<nat>)
    requires Genuine(s, known) && Enabled(s, a)
    ensures Genuine(Next(s, a), known + if a.Advance? then {a.epoch} else {})
  {
  }

  lemma {:induction false} RunGenuine(s: State, actions: seq<Action>, known: set<nat>)
    requires Genuine(s, known) && IsRun(s, actions)
    ensures Genuine(Run(s, actions), known + Epochs(actions))
    decreases |actions|
  {
    if actions == [] {
      assert known + Epochs(actions) == known;
    } else {
      var now := if actions[0].Advance? then {actions[0].epoch} else {};
      NextGenuine(s, actions[0], known);
      RunGenuine(Next(s, actions[0]), actions[1..], known + now);
      EpochsCons(actions);
      assert known + now + Epochs(actions[1..]) == known + Epochs(actions);
    }
  }

  lemma EpochsCons(actions: seq<Action>)
    requires actions != []
    ensures Epochs(actions) == Epochs(actions[1..]) + if actions[0].Advance? then {actions[0].epoch} else {}
  {
    forall e | e in Epochs(actions[1..]) ensures e in Epochs(actions) {
      var i :| 0 <= i < |actions[1..]| && actions[1..][i].Advance? && actions[1..][i].epoch == e;
      assert actions[i + 1].epoch == e;
    }
    forall e | e in Epochs(actions) && !(actions[0].Advance? && e == actions[0].epoch) ensures e in Epochs(actions[1..]) {
      var i :| 0 <= i < |actions| && actions[i].Advance? && actions[i].epoch == e;
      assert actions[1..][i - 1].epoch == e;
    }
  }

  /** Every value that a Get returns is the zero value or one that the source has had by then. */
  lemma ReturnedWasThere(s: State, actions: seq<Action>, c: nat)
    requires Init(s) && IsRun(s, actions) && c < |Run(s, actions).callers|
    requires Run(s, actions).callers[c].returned.Some?
    ensures Run(s, actions).callers[c].returned.value in {0, s.epoch} + Epochs(actions)
    ensures Run(s, actions).callers[c].returned.value <= Run(s, actions).epoch
  {
    RunGenuine(s, actions, {0, s.epoch});
  }

  // ---------------------------------------------------------------------------------------
  // The cache hits
  // ---------------------------------------------------------------------------------------

  /** Nobody stores anything in that layer. */
  predicate FillsNot(s: State, actions: seq<Action>, layer: nat)
    requires IsRun(s, actions)
    decreases |actions|
  {
    actions == [] ||
    (!(actions[0].Fill? && Top(s.callers[actions[0].c]).layer == layer) &&
     FillsNot(Next(s, actions[0]), actions[1..], layer))
  }

  lemma {:induction false} CacheStays(s: State, actions: seq<Action>, layer: nat)
    requires IsRun(s, actions) && FillsNot(s, actions, layer) && layer < |s.caches|
    ensures layer < |Run(s, actions).caches|
    ensures Run(s, actions).caches[layer].version == s.caches[layer].version
    ensures Run(s, actions).caches[layer].data == s.caches[layer].data
    decreases |actions|
  {
    if actions != [] {
      CacheStays(Next(s, actions[0]), actions[1..], layer);
    }
  }

  /**
    After a fill, and until the next one in that layer, every call there that sees the version
    of the fill gets the value that was fetched for it, without a fetch of its own.
  */
  lemma FilledIsHit(s: State, c: nat, more: seq<Action>, d: nat)
    requires Enabled(s, Fill(c)) && IsRun(Next(s, Fill(c)), more)
    requires FillsNot(Next(s, Fill(c)), more, Top(s.callers[c]).layer)
    requires
      var s' := Run(Next(s, Fill(c)), more);
      && Enabled(s', Read(d)) && Top(s'.callers[d]).layer == Top(s.callers[c]).layer
      && s'.version == Top(s.callers[c]).latest
    ensures
      var s' := Next(Run(Next(s, Fill(c)), more), Read(d));
      && s'.callers[d].returned == s.callers[c].returned
      && |s'.callers[d].frames| == |Run(Next(s, Fill(c)), more).callers[d].frames| - 1
  {
    CacheStays(Next(s, Fill(c)), more, Top(s.callers[c]).layer);
  }

  /** The write section leaves what it returns, for the next lookup under that version. */
  lemma LockedIsHit(cache: Cache, latest: nat, below: nat)
    ensures var (after, value) := Locked(cache, latest, below);
      && Hit(after, latest) == Some(value)
      && (cache.version == latest ==> after == cache && value == cache.data)
      && (cache.version != latest ==> value == below && !after.locked)
  {
  }

  // ---------------------------------------------------------------------------------------
  // An undisturbed write section
  // ---------------------------------------------------------------------------------------

  lemma RunThree(s: State, a: Action, b: Action, c: Action)
    requires Enabled(s, a) && Enabled(Next(s, a), b) && Enabled(Next(Next(s, a), b), c)
    ensures IsRun(s, [a, b, c]) && Run(s, [a, b, c]) == Next(Next(Next(s, a), b), c)
  {
    assert [a, b, c][1..] == [b, c] && [b, c][1..] == [c] && [c][1..] == [];
    var s2 := Next(Next(s, a), b);
    assert IsRun(s2, [c]) && Run(s2, [c]) == Next(s2, c);
    assert IsRun(Next(s, a), [b, c]) && Run(Next(s, a), [b, c]) == Run(s2, [c]);
  }

  /** Without interference, the steps of the lowest layer's write section do what GetLocked does. */
  lemma LockedIsRun(s: State, c: nat) returns (actions: seq<Action>)
    requires Enabled(s, Lock(c)) && Top(s.callers[c]).layer == 0
    ensures IsRun(s, actions)
    ensures
      var me := s.callers[c];
      var (cache, value) := Locked(s.caches[0], Top(me).latest, s.epoch);
      Run(s, actions) == Set(s.(caches := s.caches[0 := cache]), c, Return(me, value))
  {
    var me := s.callers[c];
    if Hit(s.caches[0], Top(me).latest).Some? {
      actions := [Lock(c)];
      assert actions[1..] == [];
    } else {
      actions := [Lock(c), Fetch(c), Fill(c)];
      var s1 := Next(s, Lock(c));
      assert Top(s1.callers[c]) == Filling(0, Top(me).born, Top(me).latest);
      var s2 := Next(s1, Fetch(c));
      RunThree(s, Lock(c), Fetch(c), Fill(c));
      assert s2.callers[c].frames[..|me.frames| - 1] == me.frames[..|me.frames| - 1];
    }
  }

  // ---------------------------------------------------------------------------------------
  // An undisturbed Get
  // ---------------------------------------------------------------------------------------

  /** Get without locks and other callers: each layer that is not up to date asks the one below. */
  function Plain(caches: seq<Cache>, layer: nat, version: nat, epoch: nat): (r: (seq<Cache>, nat))
    requires layer < |caches|
    ensures |r.0| == |caches| && forall i :: layer < i < |caches| ==> r.0[i] == caches[i]
  {
    if caches[layer].version == version then (caches, caches[layer].data)
    else if layer == 0 then (caches[0 := Stored(version, epoch)], epoch)
    else
      var (below, value) := Plain(caches, layer - 1, version, epoch);
      (below[layer := Stored(version, value)], value)
  }

  /** Until the version changes, a second Get returns the same and changes nothing, whatever the source has. */
  lemma PlainAgain(caches: seq<Cache>, layer: nat, version: nat, epoch: nat, epoch': nat)
    requires layer < |caches|
    ensures
      var (after, value) := Plain(caches, layer, version, epoch);
      Plain(after, layer, version, epoch') == (after, value)
  {
  }

  predicate Idle(caches: seq<Cache>, layer: nat) {
    layer < |caches| && forall i :: 0 <= i <= layer ==> !caches[i].locked
  }

  /** The lock of a layer above does not matter to the layers below. */
  lemma {:induction false} PlainBelow(caches: seq<Cache>, layer: nat, version: nat, epoch: nat, i: nat, cache: Cache)
    requires layer < i < |caches|
    ensures
      var (after, value) := Plain(caches, layer, version, epoch);
      Plain(caches[i := cache], layer, version, epoch) == (after[i := cache], value)
    decreases layer
  {
    if layer == 0 {
      var stored := Stored(version, epoch);
      assert caches[0 := stored][i := cache] == caches[i := cache][0 := stored];
    } else {
      PlainBelow(caches, layer - 1, version, epoch, i, cache);
      var below := Plain(caches, layer - 1, version, epoch).0;
      var stored := Stored(version, Plain(caches, layer - 1, version, epoch).1);
      assert below[layer := stored][i := cache] == below[i := cache][layer := stored];
    }
  }

  lemma RunCons(s: State, a: Action, rest: seq<Action>) returns (actions: seq<Action>)
    requires Enabled(s, a) && IsRun(Next(s, a), rest)
    ensures actions == [a] + rest && IsRun(s, actions) && Run(s, actions) == Run(Next(s, a), rest)
  {
    actions := [a] + rest;
    assert actions[1..] == rest;
  }

  lemma {:induction false} RunConcat(s: State, a: seq<Action>, b: seq<Action>)
    requires IsRun(s, a) && IsRun(Run(s, a), b)
    ensures IsRun(s, a + b) && Run(s, a + b) == Run(Run(s, a), b)
    decreases |a|
  {
    if a == [] {
      assert a + b == b;
    } else {
      assert (a + b)[0] == a[0] && (a + b)[1..] == a[1..] + b;
      RunConcat(Next(s, a[0]), a[1..], b);
    }
  }

  /** Caller c has just entered a layer below which nothing is locked. */
  predicate JustEntered(s: State, c: nat) {
    Inside(s, c) && Top(s.callers[c]).Entered? && s.callers[c].returned.None? && Idle(s.caches, Top(s.callers[c]).layer)
  }

  /** The state in which the call at the top of c's stack has returned. */
  function Done(s: State, c: nat): State
    requires JustEntered(s, c)
  {
    var me := s.callers[c];
    var (caches, value) := Plain(s.caches, Top(me).layer, s.version, s.epoch);
    Set(s.(caches := caches), c, Return(Observe(me, s.version), value))
  }

  /** The layer is not up to date: the lock is taken, and the layer below, if any, is entered. */
  lemma MissSteps(s: State, c: nat) returns (actions: seq<Action>)
    requires JustEntered(s, c) && s.caches[Top(s.callers[c]).layer].version != s.version
    ensures IsRun(s, actions)
    ensures
      var me := Observe(s.callers[c], s.version);
      var top := Top(me);
      var filling := Replace(me, Filling(top.layer, top.born, s.version));
      var below := if top.layer == 0 then [] else [Entered(top.layer - 1, s.version)];
      Run(s, actions) == Set(s.(caches := s.caches[top.layer := s.caches[top.layer].(locked := true)]), c,
                             filling.(frames := filling.frames + below))
  {
    var me := Observe(s.callers[c], s.version);
    var top := Top(me);
    var missed := Replace(me, Missed(top.layer, top.born, s.version));
    var s1 := Next(s, Read(c));
    assert s1 == Set(s, c, missed);
    assert missed.frames[..|missed.frames| - 1] == me.frames[..|me.frames| - 1];
    actions := RunCons(s1, Lock(c), []);
    actions := RunCons(s, Read(c), actions);
  }

  /** The answer from below is stored, and returned. */
  lemma FillStep(s: State, c: nat, me: Caller, frame: Frame, value: nat)
    requires c < |s.callers| && frame.Filling? && frame.layer < |s.caches| && me.frames != []
    requires s.callers[c] == Replace(me, frame).(returned := Some(value))
    ensures Enabled(s, Fill(c))
    ensures Next(s, Fill(c)) == Set(s.(caches := s.caches[frame.layer := Stored(frame.latest, value)]), c, Return(me, value))
  {
    assert Replace(me, frame).frames[..|me.frames| - 1] == me.frames[..|me.frames| - 1];
  }

  /** In the lowest layer the answer is the source's. */
  lemma FinishLowest(s: State, c: nat) returns (actions: seq<Action>)
    requires JustEntered(s, c) && s.caches[0].version != s.version && Top(s.callers[c]).layer == 0
    ensures IsRun(s, actions) && Run(s, actions) == Done(s, c)
  {
    var first := MissSteps(s, c);
    var s1 := Run(s, first);
    var me := Observe(s.callers[c], s.version);
    var frame := Filling(0, Top(me).born, s.version);
    assert Replace(me, frame).frames + [] == Replace(me, frame).frames;
    assert s1.callers[c] == Replace(me, frame);
    var s2 := Next(s1, Fetch(c));
    FillStep(s2, c, me, frame, s.epoch);
    actions := RunCons(s2, Fill(c), []);
    actions := RunCons(s1, Fetch(c), actions);
    RunConcat(s, first, actions);
    actions := first + actions;
    assert s2.caches[0 := Stored(s.version, s.epoch)] == s.caches[0 := Stored(s.version, s.epoch)];
    assert Next(s2, Fill(c)) == Done(s, c);
  }

  /** An undisturbed call at any layer finishes and does what Plain does. */
  lemma {:induction false} FinishCall(s: State, c: nat) returns (actions: seq<Action>)
    requires JustEntered(s, c)
    ensures IsRun(s, actions) && Run(s, actions) == Done(s, c)
    decreases Top(s.callers[c]).layer
  {
    var layer := Top(s.callers[c]).layer;
    if s.caches[layer].version == s.version {
      actions := RunCons(s, Read(c), []);
    } else if layer == 0 {
      actions := FinishLowest(s, c);
    } else {
      var first := MissSteps(s, c);
      var s1 := Run(s, first);
      var second := FinishCall(s1, c);
      var last := FinishUpper(s, c, s1);
      actions := RunCons(Done(s1, c), Fill(c), []);
      RunConcat(s1, second, actions);
      RunConcat(s, first, second + actions);
      actions := first + (second + actions);
    }
  }

  lemma FinishUpper(s: State, c: nat, s1: State) returns (last: State)
    requires JustEntered(s, c) && Top(s.callers[c]).layer > 0
    requires s.caches[Top(s.callers[c]).layer].version != s.version
    requires
      var me := Observe(s.callers[c], s.version);
      var top := Top(me);
      var filling := Replace(me, Filling(top.layer, top.born, s.version));
      s1 == Set(s.(caches := s.caches[top.layer := s.caches[top.layer].(locked := true)]), c,
                filling.(frames := filling.frames + [Entered(top.layer - 1, s.version)]))
    ensures JustEntered(s1, c) && Enabled(Done(s1, c), Fill(c))
    ensures last == Next(Done(s1, c), Fill(c)) == Done(s, c)
  {
    var me := Observe(s.callers[c], s.version);
    var layer := Top(me).layer;
    var frame := Filling(layer, Top(me).born, s.version);
    var inner := s1.callers[c];
    var (below, value) := Plain(s.caches, layer - 1, s.version, s.epoch);
    var cache := s.caches[layer].(locked := true);
    PlainBelow(s.caches, layer - 1, s.version, s.epoch, layer, cache);
    assert Observe(inner, s.version) == inner;
    assert inner.frames[..|inner.frames| - 1] == Replace(me, frame).frames;
    var s2 := Done(s1, c);
    assert s2.callers[c] == Replace(me, frame).(returned := Some(value));
    FillStep(s2, c, me, frame, value);
    last := Next(s2, Fill(c));
    assert below[layer := cache][layer := Stored(s.version, value)] == below[layer := Stored(s.version, value)];
    assert s2.callers[c := Return(me, value)] == s.callers[c := Return(me, value)];
  }

  /** A whole Get that nobody disturbs: what it leaves in the caches and what it returns. */
  lemma UndisturbedGet(s: State, c: nat) returns (actions: seq<Action>)
    requires c < |s.callers| && s.callers[c].frames == [] && s.caches != [] && Idle(s.caches, |s.caches| - 1)
    ensures IsRun(s, actions)
    ensures
      var (caches, value) := Plain(s.caches, |s.caches| - 1, s.version, s.epoch);
      Run(s, actions) == s.(caches := caches, callers := s.callers[c := Caller([], s.version, s.version, Some(value))])
  {
    var s1 := Next(s, Call(c));
    actions := FinishCall(s1, c);
    actions := RunCons(s, Call(c), actions);
    assert Return(s1.callers[c], 0).frames == [];
  }

  // ---------------------------------------------------------------------------------------
  // The empty version
  // ---------------------------------------------------------------------------------------

  /** Under the empty version there is only the zero value, and nobody goes past the read section. */
  predicate ZeroOk(s: State) {
    && (forall i :: 0 <= i < |s.caches| && s.caches[i].version == 0 ==> s.caches[i].data == 0)
    && (forall c :: 0 <= c < |s.callers| ==> ZeroCaller(s.callers[c]))
  }

  predicate ZeroCaller(caller: Caller) {
    && (forall i :: 0 <= i < |caller.frames| && !caller.frames[i].Entered? ==> caller.frames[i].latest > 0)
    && (caller.frames == [] && caller.returned.Some? && caller.observed == 0 ==> caller.returned.value == 0)
  }

  lemma ReturnZero(caller: Caller, value: nat)
    requires ZeroCaller(caller) && caller.frames != []
    requires |caller.frames| == 1 && caller.observed == 0 ==> value == 0
    ensures ZeroCaller(Return(caller, value))
  {
  }

  lemma ReplaceZero(caller: Caller, frame: Frame)
    requires ZeroCaller(caller) && caller.frames != [] && (frame.Entered? || frame.latest > 0)
    ensures ZeroCaller(Replace(caller, frame))
  {
  }

  lemma ZeroRead(s: State, c: nat)
    requires Inv(s) && ZeroOk(s) && Enabled(s, Read(c))
    ensures ZeroOk(Next(s, Read(c)))
  {
    var me := Observe(s.callers[c], s.version);
    var top := Top(me);
    var cache := s.caches[top.layer];
    assert ZeroCaller(s.callers[c]) && CacheOk(cache, s.version);
    if cache.version == s.version {
      ReturnZero(me, cache.data);
    } else {
      ReplaceZero(me, Missed(top.layer, top.born, s.version));
    }
  }

  lemma ZeroLock(s: State, c: nat)
    requires Inv(s) && ZeroOk(s) && Enabled(s, Lock(c))
    ensures ZeroOk(Next(s, Lock(c)))
  {
    var me := s.callers[c];
    var top := Top(me);
    assert ZeroCaller(me) && CallerOk(me, s.version);
    if s.caches[top.layer].version == top.latest {
      ReturnZero(me, s.caches[top.layer].data);
    } else {
      ReplaceZero(me, Filling(top.layer, top.born, top.latest));
    }
  }

  lemma ZeroFill(s: State, c: nat)
    requires Inv(s) && ZeroOk(s) && Enabled(s, Fill(c))
    ensures ZeroOk(Next(s, Fill(c)))
  {
    var me := s.callers[c];
    assert ZeroCaller(me) && CallerOk(me, s.version);
    ReturnZero(me, me.returned.value);
  }

  lemma ZeroNext(s: State, a: Action)
    requires Inv(s) && ZeroOk(s) && Enabled(s, a)
    ensures ZeroOk(Next(s, a))
  {
    match a {
      case Advance(_, _) =>
      case Call(c) =>
      case Read(c) => ZeroRead(s, c);
      case Lock(c) => ZeroLock(s, c);
      case Fetch(c) => assert ZeroCaller(s.callers[c]);
      case Fill(c) => ZeroFill(s, c);
    }
  }

  lemma {:induction false} RunZero(s: State, actions: seq<Action>)
    requires Inv(s) && ZeroOk(s) && IsRun(s, actions)
    ensures ZeroOk(Run(s, actions))
    decreases |actions|
  {
    if actions != [] {
      NextInv(s, actions[0]);
      ZeroNext(s, actions[0]);
      RunZero(Next(s, actions[0]), actions[1..]);
    }
  }

  /** Whoever has found a cache outdated has observed a nonempty version: only for that is there a fetch. */
  lemma FetchedUnderAVersion(s: State, actions: seq<Action>, c: nat, i: nat)
    requires Init(s) && IsRun(s, actions) && c < |Run(s, actions).callers|
    requires i < |Run(s, actions).callers[c].frames| && !Run(s, actions).callers[c].frames[i].Entered?
    ensures Run(s, actions).callers[c].frames[i].latest > 0
  {
    RunZero(s, actions);
    assert ZeroCaller(Run(s, actions).callers[c]);
  }

  /**
    In every run a finished Get has the zero value exactly if it observed the empty version. A
    getter whose version stays empty, as the static getter's does, is never read through a cache.
  */
  lemma ZeroExactly(s: State, actions: seq<Action>, c: nat)
    requires Init(s) && IsRun(s, actions) && c < |Run(s, actions).callers|
    requires Run(s, actions).callers[c].frames == [] && Run(s, actions).callers[c].returned.Some?
    ensures Run(s, actions).callers[c].returned.value == 0 <==> Run(s, actions).callers[c].observed == 0
  {
    GetIsFresh(s, actions, c);
    RunZero(s, actions);
    assert ZeroCaller(Run(s, actions).callers[c]);
  }
}

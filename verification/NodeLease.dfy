/**
  The node lease protocol: any number of kwok instances compete for the one Lease object of
  a node. Each instance decides from an informer cache that may be arbitrarily stale, and the
  API server accepts an Update only for the current resourceVersion and a Create only when
  the object is absent.

  The protocol is a deterministic function `Next` over actions, so that a run is a sequence
  of actions and "every run" is a quantification over such sequences.
*/
module NodeLease {
  import opened Options
  import opened Units

  type Time = int // nanoseconds

  datatype Lease = Lease(
    holder: Option<string>,
    durationSeconds: Option<int>,
    renewTime: Option<Time>,
    transitions: Option<int>)

  /** The conversion to a 32-bit signed integer, which wraps around. */
  function Int32(n: int): (r: int)
    ensures -0x8000_0000 <= r < 0x8000_0000
    ensures (n - r) % 0x1_0000_0000 == 0
    ensures -0x8000_0000 <= n < 0x8000_0000 ==> r == n
  {
    (n + 0x8000_0000) % 0x1_0000_0000 - 0x8000_0000
  }

  /** A stored MicroTime keeps whole microseconds only. */
  function Micro(t: Time): (r: Time)
    ensures t - MICROSECOND < r <= t
    ensures r % MICROSECOND == 0
  {
    t - t % MICROSECOND
  }

  function ExpireTime(lease: Lease): Option<Time> {
    if lease.holder.None? || lease.durationSeconds.None? || lease.renewTime.None? then None
    else Some(lease.renewTime.value + lease.durationSeconds.value * SECOND)
  }

  predicate TryAcquireOrRenew(lease: Lease, id: string, now: Time) {
    || lease.holder.None?
    || lease.holder.value == id
    || lease.renewTime.None?
    || lease.durationSeconds.None?
    || lease.renewTime.value + lease.durationSeconds.value * SECOND < now
  }

  /** What ensureLease submits. */
  function NewLease(id: string, seconds: nat, now: Time): Lease {
    Lease(Some(id), Some(Int32(seconds)), Some(Micro(now)), None)
  }

  /** What renewLease submits: only a change of holder touches duration and transitions. */
  function Renewed(base: Lease, id: string, seconds: nat, now: Time): Lease {
    var moved :=
      if base.holder.GetOr("") != id
      then base.(holder := Some(id),
                 durationSeconds := Some(Int32(seconds)),
                 transitions := Some(Int32(base.transitions.GetOr(0) + 1)))
      else base;
    moved.(renewTime := Some(Micro(now)))
  }

  // ---------------------------------------------------------------------------------------
  // The step system
  // ---------------------------------------------------------------------------------------

  /** One stored version of the lease, with the clock reading its writer put into it. */
  datatype Version = Version(lease: Lease, at: Time)

  /** How far an instance has come in `sync`. */
  datatype Phase =
    | Idle
    | Acquiring(base: Lease, rv: nat, checkedAt: Time)  // the cached lease passed the check
    | Updating(rv: nat, next: Lease, at: Time)          // the Update request is on its way
    | Creating                                          // the cache knows no lease
    | Submitting(next: Lease, at: Time)                 // the Create request is on its way

  datatype Instance = Instance(id: string, seconds: nat, phase: Phase)

  /**
    `current` holds the stored versions since the object was last created, the newest last,
    with resource versions firstRv, firstRv + 1, ...; it is empty while the object is absent.
    `past` holds the version histories of earlier, deleted objects.
  */
  datatype State = State(
    clock: Time,
    past: seq<seq<Version>>,
    firstRv: nat,
    current: seq<Version>,
    instances: seq<Instance>)

  datatype Action =
    | Tick(now: Time)
    | Observe(i: nat, lease: Lease, rv: nat)  // read the cache, however stale, and check
    | ObserveNone(i: nat)                     // the cache holds no lease
    | Stamp(i: nat)                           // read the clock, build the new lease
    | Commit(i: nat)                          // the request reaches the API server
    | NamespaceMissing(i: nat)                // Create answered NotFound: ensureLease again
    | Abort(i: nat)                           // the request failed
    | Delete                                  // the object is removed by somebody else

  /**
    A cached lease is one that was stored under that resource version. Of deleted objects
    nothing is required, so the model admits every stale read of them and more.
  */
  predicate Cached(s: State, lease: Lease, rv: nat) {
    rv < s.firstRv || (rv - s.firstRv < |s.current| && s.current[rv - s.firstRv].lease == lease)
  }

  function SetPhase(s: State, i: nat, phase: Phase): State
    requires i < |s.instances|
  {
    s.(instances := s.instances[i := s.instances[i].(phase := phase)])
  }

  /** The API server's answer to the request of instance i; a refused request changes nothing. */
  function Served(s: State, i: nat): State
    requires i < |s.instances|
  {
    match s.instances[i].phase
    case Updating(rv, next, at) =>
      if s.current != [] && rv == s.firstRv + |s.current| - 1
      then s.(current := s.current + [Version(next, at)]) else s
    case Submitting(next, at) =>
      if s.current == [] then s.(current := [Version(next, at)]) else s
    case _ => s
  }

  /** An action that is not enabled leaves the state as it is. */
  function Next(s: State, a: Action): State {
    match a
    case Tick(now) => if s.clock <= now then s.(clock := now) else s
    case Delete =>
      if s.current == [] then s
      else s.(past := s.past + [s.current], firstRv := s.firstRv + |s.current| + 1, current := [])
    case _ => if a.i < |s.instances| then NextOf(s, a, s.instances[a.i]) else s
  }

  function NextOf(s: State, a: Action, me: Instance): State
    requires !a.Tick? && !a.Delete?
    requires a.i < |s.instances| && me == s.instances[a.i]
  {
    match a
    case Observe(i, lease, rv) =>
      if me.phase.Idle? && Cached(s, lease, rv) && TryAcquireOrRenew(lease, me.id, s.clock)
      then SetPhase(s, i, Acquiring(lease, rv, s.clock)) else s
    case ObserveNone(i) =>
      if me.phase.Idle? then SetPhase(s, i, Creating) else s
    case Stamp(i) =>
      (match me.phase
       case Acquiring(base, rv, _) =>
         SetPhase(s, i, Updating(rv, Renewed(base, me.id, me.seconds, s.clock), s.clock))
       case Creating => SetPhase(s, i, Submitting(NewLease(me.id, me.seconds, s.clock), s.clock))
       case _ => s)
    case Commit(i) =>
      if me.phase.Updating? || me.phase.Submitting? then SetPhase(Served(s, i), i, Idle) else s
    case NamespaceMissing(i) =>
      if me.phase.Submitting? then SetPhase(s, i, Creating) else s
    case Abort(i) => SetPhase(s, i, Idle)
  }

  function Run(s: State, actions: seq<Action>): State
    decreases |actions|
  {
    if actions == [] then s else Run(Next(s, actions[0]), actions[1..])
  }

  /** A stored renew time is in whole microseconds and not after the clock reading behind it. */
  predicate RenewTimeOk(v: Version) {
    v.lease.renewTime.Some? ==> v.lease.renewTime.value <= v.at && v.lease.renewTime.value % MICROSECOND == 0
  }

  /** At the start the object is absent, or somebody stored one version not stamped in the future. */
  predicate Init(s: State) {
    && s.past == []
    && |s.current| <= 1
    && (s.current != [] ==>
          && s.current[0].at <= s.clock
          && RenewTimeOk(s.current[0])
          && var t := s.current[0].lease.transitions.GetOr(0); Int32(t) == t)
    && forall i :: 0 <= i < |s.instances| ==> s.instances[i].phase.Idle?
  }

  // ---------------------------------------------------------------------------------------
  // What holds of the version history of one object
  // ---------------------------------------------------------------------------------------

  predicate Stamped(life: seq<Version>) {
    && (forall i, j :: 0 <= i < j < |life| ==> life[i].at <= life[j].at)
    && (forall i :: 0 <= i < |life| ==> RenewTimeOk(life[i]))
    && (forall i :: 0 < i < |life| ==> life[i].lease.renewTime == Some(Micro(life[i].at)))
  }

  /** Once a version has a holder and an expiry, so has every later one. */
  predicate StaysSet(life: seq<Version>) {
    forall i, j :: 0 <= i < j < |life| ==>
      && (life[i].lease.holder.Some? ==> life[j].lease.holder.Some?)
      && (ExpireTime(life[i].lease).Some? ==> ExpireTime(life[j].lease).Some?)
  }

  /** A holder that renews its own lease keeps the duration. */
  ghost predicate SteadyDuration(life: seq<Version>) {
    forall i, j :: 0 <= i < j < |life| && j == i + 1 && life[i].lease.holder == life[j].lease.holder ==>
      life[i].lease.durationSeconds == life[j].lease.durationSeconds
  }

  /** When v was written, the tenure granted by u to another holder had run out. */
  predicate OutlivedBy(u: Version, v: Version) {
    ExpireTime(u.lease).Some? && u.lease.holder != v.lease.holder
    ==> ExpireTime(u.lease).value < v.at
  }

  /** A later version of the same holder expires no earlier, or comes after u's expiry. */
  predicate ExtendedBy(u: Version, v: Version) {
    ExpireTime(u.lease).Some? && u.lease.holder == v.lease.holder
    ==> || ExpireTime(u.lease).value <= ExpireTime(v.lease).GetOr(ExpireTime(u.lease).value)
        || ExpireTime(u.lease).value < v.at
  }

  predicate Exclusive(life: seq<Version>) {
    forall i, j :: 0 <= i < j < |life| ==> OutlivedBy(life[i], life[j]) && ExtendedBy(life[i], life[j])
  }

  /** The number of versions whose holder differs from that of the version before. */
  function Handovers(life: seq<Version>): nat {
    if |life| < 2 then 0
    else Handovers(life[..|life| - 1])
         + if life[|life| - 2].lease.holder.GetOr("") != life[|life| - 1].lease.holder.GetOr("") then 1 else 0
  }

  predicate CountsHandovers(life: seq<Version>) {
    forall n :: 0 < n <= |life| ==>
      life[n - 1].lease.transitions.GetOr(0)
      == Int32(life[0].lease.transitions.GetOr(0) + Handovers(life[..n]))
  }

  ghost predicate GoodLife(life: seq<Version>) {
    Stamped(life) && StaysSet(life) && SteadyDuration(life) && Exclusive(life) && CountsHandovers(life)
  }

  /** `next` renews the version `last` after a check of it that passed. */
  ghost predicate Renews(last: Version, next: Lease, at: Time) {
    exists id: string, seconds: nat, checkedAt: Time ::
      Justified(last, id, seconds, checkedAt, next, at)
  }

  predicate Justified(last: Version, id: string, seconds: nat, checkedAt: Time, next: Lease, at: Time) {
    && TryAcquireOrRenew(last.lease, id, checkedAt)
    && last.at <= checkedAt <= at
    && next == Renewed(last.lease, id, seconds, at)
  }

  lemma MicroAbove(r: Time, t: Time)
    requires r % MICROSECOND == 0 && r <= t
    ensures r <= Micro(t)
  {
  }

  lemma ExtendPair(life: seq<Version>, i: nat, next: Lease, at: Time)
    requires i < |life|
    requires Stamped(life) && StaysSet(life) && Exclusive(life)
    requires Renews(life[|life| - 1], next, at)
    ensures OutlivedBy(life[i], Version(next, at)) && ExtendedBy(life[i], Version(next, at))
  {
    var last := life[|life| - 1];
    var id: string, seconds: nat, checkedAt: Time :| Justified(last, id, seconds, checkedAt, next, at);
    if last.lease.renewTime.Some? {
      MicroAbove(last.lease.renewTime.value, at);
    }
    if i < |life| - 1 {
      assert OutlivedBy(life[i], last) && ExtendedBy(life[i], last);
    }
  }

  lemma ExtendExclusive(life: seq<Version>, next: Lease, at: Time)
    requires life != [] && Stamped(life) && StaysSet(life) && Exclusive(life)
    requires Renews(life[|life| - 1], next, at)
    ensures Exclusive(life + [Version(next, at)])
  {
    forall i | 0 <= i < |life|
      ensures OutlivedBy(life[i], Version(next, at)) && ExtendedBy(life[i], Version(next, at))
    {
      ExtendPair(life, i, next, at);
    }
  }

  lemma ExtendStamped(life: seq<Version>, next: Lease, at: Time)
    requires life != [] && Stamped(life) && StaysSet(life)
    requires Renews(life[|life| - 1], next, at)
    ensures Stamped(life + [Version(next, at)]) && StaysSet(life + [Version(next, at)])
  {
  }

  lemma ExtendSteady(life: seq<Version>, next: Lease, at: Time)
    requires life != [] && SteadyDuration(life)
    requires Renews(life[|life| - 1], next, at)
    ensures SteadyDuration(life + [Version(next, at)])
  {
  }

  lemma CountOneMore(first: int, n: int)
    ensures Int32(Int32(first + n) + 1) == Int32(first + (n + 1))
  {
  }

  lemma HandoversLast(life: seq<Version>, v: Version)
    requires life != []
    ensures Handovers(life + [v])
         == Handovers(life) + if life[|life| - 1].lease.holder.GetOr("") != v.lease.holder.GetOr("") then 1 else 0
  {
  }

  lemma ExtendCounts(life: seq<Version>, next: Lease, at: Time)
    requires life != [] && CountsHandovers(life)
    requires Renews(life[|life| - 1], next, at)
    ensures CountsHandovers(life + [Version(next, at)])
  {
    var n, v := |life|, Version(next, at);
    var longer := life + [v];
    var first := life[0].lease.transitions.GetOr(0);
    assert life[..n] == life;
    HandoversLast(life, v);
    CountOneMore(first, Handovers(life));
    var id: string, seconds: nat, checkedAt: Time :| Justified(life[n - 1], id, seconds, checkedAt, next, at);
    forall m | 0 < m <= |longer|
      ensures longer[m - 1].lease.transitions.GetOr(0) == Int32(first + Handovers(longer[..m]))
    {
      if m <= n {
        assert longer[..m] == life[..m];
      } else {
        assert longer[..m] == longer;
      }
    }
  }

  /** One accepted Update keeps everything that is claimed of a history. */
  lemma ExtendLife(life: seq<Version>, next: Lease, at: Time)
    requires life != [] && GoodLife(life)
    requires Renews(life[|life| - 1], next, at)
    ensures GoodLife(life + [Version(next, at)])
  {
    ExtendStamped(life, next, at);
    ExtendSteady(life, next, at);
    ExtendExclusive(life, next, at);
    ExtendCounts(life, next, at);
  }

  // ---------------------------------------------------------------------------------------
  // The invariant of the protocol
  // ---------------------------------------------------------------------------------------

  /** What an instance in the middle of `sync` may rely on, as long as its object still exists. */
  ghost predicate PhaseOk(s: State, me: Instance) {
    match me.phase
    case Acquiring(base, rv, checkedAt) =>
      && checkedAt <= s.clock
      && rv < s.firstRv + |s.current|
      && (rv >= s.firstRv ==>
            && s.current[rv - s.firstRv].lease == base
            && s.current[rv - s.firstRv].at <= checkedAt
            && TryAcquireOrRenew(base, me.id, checkedAt))
    case Updating(rv, next, at) =>
      && at <= s.clock
      && rv < s.firstRv + |s.current|
      && (rv >= s.firstRv ==> Renews(s.current[rv - s.firstRv], next, at))
    case Submitting(next, at) => at <= s.clock && next == NewLease(me.id, me.seconds, at)
    case _ => true
  }

  ghost predicate Inv(s: State) {
    && (forall k :: 0 <= k < |s.past| ==> GoodLife(s.past[k]))
    && GoodLife(s.current)
    && (forall i :: 0 <= i < |s.current| ==> s.current[i].at <= s.clock)
    && (forall i :: 0 <= i < |s.instances| ==> PhaseOk(s, s.instances[i]))
  }

  lemma InitInv(s: State)
    requires Init(s)
    ensures Inv(s)
  {
  }

  lemma SetPhaseInv(s: State, i: nat, phase: Phase)
    requires Inv(s) && i < |s.instances|
    requires PhaseOk(s, s.instances[i].(phase := phase))
    ensures Inv(SetPhase(s, i, phase))
  {
  }

  lemma StampInv(s: State, i: nat)
    requires Inv(s) && i < |s.instances|
    ensures Inv(Next(s, Stamp(i)))
  {
    var me := s.instances[i];
    match me.phase {
      case Acquiring(base, rv, checkedAt) =>
        var next := Renewed(base, me.id, me.seconds, s.clock);
        if rv >= s.firstRv {
          assert Justified(s.current[rv - s.firstRv], me.id, me.seconds, checkedAt, next, s.clock);
        }
        SetPhaseInv(s, i, Updating(rv, next, s.clock));
      case Creating =>
        SetPhaseInv(s, i, Submitting(NewLease(me.id, me.seconds, s.clock), s.clock));
      case _ =>
    }
  }

  /** Phases stay justified when the history grows, because they speak of a fixed version. */
  lemma GrowInv(s: State, v: Version)
    requires Inv(s) && v.at <= s.clock
    requires GoodLife(s.current + [v])
    ensures Inv(s.(current := s.current + [v]))
  {
  }

  lemma UpdateInv(s: State, next: Lease, at: Time)
    requires Inv(s) && s.current != [] && at <= s.clock
    requires Renews(s.current[|s.current| - 1], next, at)
    ensures Inv(s.(current := s.current + [Version(next, at)]))
  {
    ExtendLife(s.current, next, at);
    GrowInv(s, Version(next, at));
  }

  lemma CreateInv(s: State, next: Lease, at: Time)
    requires Inv(s) && s.current == [] && at <= s.clock
    requires exists id: string, seconds: nat :: next == NewLease(id, seconds, at)
    ensures Inv(s.(current := [Version(next, at)]))
  {
    FirstLife(next, at);
    assert s.current + [Version(next, at)] == [Version(next, at)];
    GrowInv(s, Version(next, at));
  }

  lemma ServedInv(s: State, i: nat)
    requires Inv(s) && i < |s.instances|
    ensures Inv(Served(s, i))
  {
    assert PhaseOk(s, s.instances[i]);
    match s.instances[i].phase {
      case Updating(rv, next, at) =>
        if s.current != [] && rv == s.firstRv + |s.current| - 1 { UpdateInv(s, next, at); }
      case Submitting(next, at) =>
        if s.current == [] { CreateInv(s, next, at); }
      case _ =>
    }
  }

  lemma FirstLife(next: Lease, at: Time)
    requires exists id: string, seconds: nat :: next == NewLease(id, seconds, at)
    ensures GoodLife([Version(next, at)])
  {
  }

  lemma CommitInv(s: State, i: nat)
    requires Inv(s) && i < |s.instances|
    ensures Inv(Next(s, Commit(i)))
  {
    var me := s.instances[i];
    if me.phase.Updating? || me.phase.Submitting? {
      ServedInv(s, i);
      SetPhaseInv(Served(s, i), i, Idle);
    }
  }

  lemma DeleteInv(s: State)
    requires Inv(s)
    ensures Inv(Next(s, Delete))
  {
  }

  lemma TickInv(s: State, now: Time)
    requires Inv(s)
    ensures Inv(Next(s, Tick(now)))
  {
    var s' := Next(s, Tick(now));
    forall i | 0 <= i < |s.instances| ensures PhaseOk(s', s.instances[i]) {
      assert PhaseOk(s, s.instances[i]);
    }
  }

  lemma ObserveInv(s: State, i: nat, lease: Lease, rv: nat)
    requires Inv(s) && i < |s.instances|
    ensures Inv(Next(s, Observe(i, lease, rv)))
  {
    var me := s.instances[i];
    if me.phase.Idle? && Cached(s, lease, rv) && TryAcquireOrRenew(lease, me.id, s.clock) {
      SetPhaseInv(s, i, Acquiring(lease, rv, s.clock));
    }
  }

  lemma NextInv(s: State, a: Action)
    requires Inv(s)
    ensures Inv(Next(s, a))
  {
    match a {
      case Tick(now) => TickInv(s, now);
      case Delete => DeleteInv(s);
      case Stamp(i) => if i < |s.instances| { StampInv(s, i); }
      case Commit(i) => if i < |s.instances| { CommitInv(s, i); }
      case Observe(i, lease, rv) => if i < |s.instances| { ObserveInv(s, i, lease, rv); }
      case ObserveNone(i) => if i < |s.instances| { SetPhaseInv(s, i, Creating); }
      case NamespaceMissing(i) => if i < |s.instances| { SetPhaseInv(s, i, Creating); }
      case Abort(i) => if i < |s.instances| { SetPhaseInv(s, i, Idle); }
    }
  }

  lemma {:induction false} RunInv(s: State, actions: seq<Action>)
    requires Inv(s)
    ensures Inv(Run(s, actions))
    decreases |actions|
  {
    if actions != [] {
      NextInv(s, actions[0]);
      RunInv(Next(s, actions[0]), actions[1..]);
    }
  }

  // ---------------------------------------------------------------------------------------
  // The guarantees, over every run
  // ---------------------------------------------------------------------------------------

  /** The version histories of all objects that ever existed in s. */
  function Lives(s: State): seq<seq<Version>> {
    s.past + [s.current]
  }

  lemma LivesGood(s: State, actions: seq<Action>, k: nat)
    requires Init(s) && k < |Lives(Run(s, actions))|
    ensures GoodLife(Lives(Run(s, actions))[k])
  {
    InitInv(s);
    RunInv(s, actions);
  }

  lemma LifeTenures(life: seq<Version>, i: nat, j: nat)
    requires GoodLife(life) && i < j < |life|
    requires ExpireTime(life[i].lease).Some? && life[i].lease.holder != life[j].lease.holder
    ensures life[j].lease.holder.Some? && life[j].lease.renewTime == Some(Micro(life[j].at))
    ensures ExpireTime(life[i].lease).value < life[j].at
    ensures ExpireTime(life[i].lease).value % MICROSECOND == 0
  {
    assert OutlivedBy(life[i], life[j]);
    ExpiryIsWhole(life[i]);
  }

  lemma ExpiryIsWhole(v: Version)
    requires RenewTimeOk(v) && ExpireTime(v.lease).Some?
    ensures ExpireTime(v.lease).value % MICROSECOND == 0
  {
    var micros := v.lease.renewTime.value / MICROSECOND + v.lease.durationSeconds.value * 1_000_000;
    assert ExpireTime(v.lease).value == micros * MICROSECOND;
    WholeMicros(micros);
  }

  lemma WholeMicros(n: int)
    ensures n * MICROSECOND % MICROSECOND == 0
  {
  }

  /**
    Tenures of different holders never overlap: when a version was written, the expiry of
    every earlier version with another holder had passed on the shared clock, and the renew
    time stored with it is no earlier than that expiry.
  */
  lemma TenuresNeverOverlap(s: State, actions: seq<Action>, k: nat, i: nat, j: nat)
    requires Init(s) && k < |Lives(Run(s, actions))|
    requires i < j < |Lives(Run(s, actions))[k]|
    requires
      var life := Lives(Run(s, actions))[k];
      ExpireTime(life[i].lease).Some? && life[i].lease.holder != life[j].lease.holder
    ensures
      var life := Lives(Run(s, actions))[k];
      && life[j].lease.holder.Some?
      && ExpireTime(life[i].lease).value < life[j].at
      && life[j].lease.renewTime.Some?
      && ExpireTime(life[i].lease).value <= life[j].lease.renewTime.value
  {
    LivesGood(s, actions, k);
    var life := Lives(Run(s, actions))[k];
    LifeTenures(life, i, j);
    MicroAbove(ExpireTime(life[i].lease).value, life[j].at);
  }

  /**
    Rounding makes the stored renew time equal to the other holder's expiry when the new
    holder acts within the same microsecond, so the stored times of a takeover are strictly
    apart exactly when a whole microsecond lies between the expiry and the clock reading.
  */
  lemma StoredGapIsStrict(s: State, actions: seq<Action>, k: nat, i: nat, j: nat)
    requires Init(s) && k < |Lives(Run(s, actions))|
    requires i < j < |Lives(Run(s, actions))[k]|
    requires
      var life := Lives(Run(s, actions))[k];
      ExpireTime(life[i].lease).Some? && life[i].lease.holder != life[j].lease.holder
    ensures
      var life := Lives(Run(s, actions))[k];
      var expiry := ExpireTime(life[i].lease).value;
      && life[j].lease.renewTime.Some?
      && (expiry < life[j].lease.renewTime.value <==> expiry + MICROSECOND <= life[j].at)
  {
    LivesGood(s, actions, k);
    var life := Lives(Run(s, actions))[k];
    LifeTenures(life, i, j);
    MicroGap(ExpireTime(life[i].lease).value, life[j].at);
  }

  lemma MicroGap(expiry: Time, at: Time)
    requires expiry % MICROSECOND == 0
    ensures expiry < Micro(at) <==> expiry + MICROSECOND <= at
  {
  }

  lemma RunThree(s: State, a: Action, b: Action, c: Action)
    ensures Run(s, [a, b, c]) == Next(Next(Next(s, a), b), c)
  {
    assert [a, b, c][1..] == [b, c] && [b, c][1..] == [c] && [c][1..] == [];
    assert Run(Next(s, a), [b, c]) == Run(Next(Next(s, a), b), [c]);
  }

  /** A takeover half a microsecond after the expiry, which is stored as if it were at the expiry. */
  lemma GapCanVanish() returns (s: State, actions: seq<Action>)
    ensures Init(s) && |Run(s, actions).current| == 2
    ensures
      var u, v := Run(s, actions).current[0].lease, Run(s, actions).current[1].lease;
      && u.holder == Some("a") && v.holder == Some("b")
      && ExpireTime(u).Some? && v.renewTime == ExpireTime(u)
  {
    var lease := Lease(Some("a"), Some(1), Some(0), None);
    var now := SECOND + 500;
    s := State(now, [], 0, [Version(lease, 0)], [Instance("b", 1, Idle)]);
    actions := [Observe(0, lease, 0), Stamp(0), Commit(0)];
    RunThree(s, actions[0], actions[1], actions[2]);
    var s1 := Next(s, actions[0]);
    assert s1.instances[0].phase == Acquiring(lease, 0, now);
    var s2 := Next(s1, actions[1]);
    assert s2.instances[0].phase == Updating(0, Renewed(lease, "b", 1, now), now);
  }

  /** At no instant do two versions of one object grant a tenure to two different holders. */
  lemma AtMostOneTenure(s: State, actions: seq<Action>, k: nat, i: nat, j: nat, t: Time)
    requires Init(s) && k < |Lives(Run(s, actions))|
    requires i < |Lives(Run(s, actions))[k]| && j < |Lives(Run(s, actions))[k]|
    requires
      var life := Lives(Run(s, actions))[k];
      && ExpireTime(life[i].lease).Some? && life[i].at <= t <= ExpireTime(life[i].lease).value
      && ExpireTime(life[j].lease).Some? && life[j].at <= t <= ExpireTime(life[j].lease).value
    ensures
      var life := Lives(Run(s, actions))[k];
      life[i].lease.holder == life[j].lease.holder
  {
    var life := Lives(Run(s, actions))[k];
    if life[i].lease.holder != life[j].lease.holder {
      if i < j { TenuresNeverOverlap(s, actions, k, i, j); }
      if j < i { TenuresNeverOverlap(s, actions, k, j, i); }
    }
  }

  /** leaseTransitions counts the changes of holder since the first version, in 32 bits. */
  lemma TransitionsCountHandovers(s: State, actions: seq<Action>, k: nat, n: nat)
    requires Init(s) && k < |Lives(Run(s, actions))|
    requires 0 < n <= |Lives(Run(s, actions))[k]|
    ensures
      var life := Lives(Run(s, actions))[k];
      life[n - 1].lease.transitions.GetOr(0)
      == Int32(life[0].lease.transitions.GetOr(0) + Handovers(life[..n]))
  {
    LivesGood(s, actions, k);
  }
}

/**
  When a worker of the node lease controller comes back to a node: the delay that syncWorker
  chooses after each sync, and what that choice means for a lease over a whole run of renewals.
*/
module NodeLeaseRenewal {
  import opened Options
  import opened Units
  import opened NodeLease

  /** What `sync` returns: an error, no lease because another holder has it, or the stored lease. */
  datatype SyncResult = SyncFailed | HeldByOther | Synced(lease: Lease)

  datatype Requeue = Requeue(weight: nat, delay: int)

  function NextTryDuration(renewInterval: int, expire: int, hold: bool): int {
    if !hold then renewInterval
    else if renewInterval < expire then renewInterval
    else if expire < SECOND then SECOND
    else expire
  }

  /** How syncWorker puts the node back into its queue. */
  function Requeued(result: SyncResult, id: string, interval: int, now: Time): Requeue {
    if !result.Synced? || ExpireTime(result.lease).None? then Requeue(1, interval)
    else
      var expire := ExpireTime(result.lease).value;
      Requeue(2, NextTryDuration(interval, expire - now, TryAcquireOrRenew(result.lease, id, now)))
  }

  /** The jittered interval of a controller whose leases last `seconds`: D/4 up to 1.04 * D/4. */
  predicate IsInterval(interval: int, seconds: nat) {
    seconds * SECOND / 4 <= interval && 100 * interval <= 104 * (seconds * SECOND / 4)
  }

  /** The jitter of an interval by a number drawn from 0 up to 1: up to 4% more. */
  function Jitter(interval: nat, drawn: real): int
    requires 0.0 <= drawn < 1.0
  {
    (interval as real + drawn * (0.04 * interval as real)).Floor
  }

  /** Every interval that a controller draws is in that range, and the lower end can be drawn. */
  lemma JitterInRange(interval: nat, drawn: real)
    requires 0.0 <= drawn < 1.0
    ensures interval <= Jitter(interval, drawn) && 100 * Jitter(interval, drawn) <= 104 * interval
    ensures Jitter(interval, 0.0) == interval
  {
    var part := 0.04 * interval as real;
    PartOf(drawn, part);
    FloorBetween(interval, interval as real + drawn * part);
  }

  lemma FloorBetween(interval: nat, x: real)
    requires interval as real <= x <= 1.04 * interval as real
    ensures interval <= x.Floor && 100 * x.Floor <= 104 * interval
  {
    assert x.Floor as real <= x;
    assert 100.0 * x.Floor as real <= 104.0 * interval as real;
  }

  lemma PartOf(drawn: real, whole: real)
    requires 0.0 <= drawn < 1.0 && whole >= 0.0
    ensures 0.0 <= drawn * whole <= whole
  {
    assert (1.0 - drawn) * whole >= 0.0;
    assert drawn * whole == whole - (1.0 - drawn) * whole;
  }

  /** After a sync: the clock reading once the reply is there, and the interval drawn before. */
  datatype Visit = Visit(done: Time, interval: int)

  /** When the worker is to come back after a sync that stored `lease`. */
  function Due(lease: Lease, id: string, visit: Visit): Time {
    visit.done + Requeued(Synced(lease), id, visit.interval, visit.done).delay
  }

  /**
    sync hands back a lease only for this instance, so the holder check of syncWorker passes.
    A lease without a holder stays without one if the instance's own identity is empty.
  */
  lemma SyncedIsHeld(base: Lease, id: string, seconds: nat, stamp: Time, now: Time)
    ensures Renewed(base, id, seconds, stamp).holder == if base.holder.None? && id == "" then None else Some(id)
    ensures TryAcquireOrRenew(Renewed(base, id, seconds, stamp), id, now)
    ensures NewLease(id, seconds, stamp).holder == Some(id)
  {
  }

  /**
    A new lease and a lease taken over run for the controller's own duration from the clock
    reading on, up to the microsecond lost in storing it; a renewal of one's own lease runs
    for the duration that the lease already had.
  */
  lemma GrantedTenure(base: Lease, id: string, seconds: nat, stamp: Time)
    requires seconds < 0x8000_0000
    ensures
      var granted := if base.holder.GetOr("") == id then base.durationSeconds else Some(seconds);
      var expire := ExpireTime(Renewed(base, id, seconds, stamp));
      && (expire.Some? <==> granted.Some? && (base.holder.Some? || id != ""))
      && (expire.Some? ==>
            stamp + granted.value * SECOND - MICROSECOND < expire.value <= stamp + granted.value * SECOND)
    ensures
      && ExpireTime(NewLease(id, seconds, stamp)).Some?
      && stamp + seconds * SECOND - MICROSECOND < ExpireTime(NewLease(id, seconds, stamp)).value
      && ExpireTime(NewLease(id, seconds, stamp)).value <= stamp + seconds * SECOND
  {
  }

  /** A held lease is tried again after the interval or at its expiry, whichever is first, but for a last second. */
  lemma DueExactly(lease: Lease, id: string, visit: Visit)
    requires lease.holder == Some(id) && ExpireTime(lease).Some?
    ensures
      var expire := ExpireTime(lease).value;
      var left := expire - visit.done;
      Due(lease, id, visit) ==
        if visit.interval >= left && left < SECOND then visit.done + SECOND
        else if visit.done + visit.interval < expire then visit.done + visit.interval else expire
  {
  }

  /**
    A node comes back with weight 2 exactly after a sync that returned a lease with an expiry;
    after a failed sync, or one that found another holder, it comes back after the interval,
    and in no case sooner than after the interval or a second.
  */
  lemma RequeuedExactly(result: SyncResult, id: string, interval: int, now: Time)
    ensures
      var r := Requeued(result, id, interval, now);
      && (r.weight == 2 <==> result.Synced? && ExpireTime(result.lease).Some?)
      && (r.weight == 1 <==> r.weight != 2)
      && (r.weight == 1 ==> r.delay == interval)
      && (r.weight == 2 && !TryAcquireOrRenew(result.lease, id, now) ==> r.delay == interval)
      && (r.delay >= interval || r.delay >= SECOND)
  {
  }

  /** The worker returns before the lease runs out, exactly when the interval fits or a second is left. */
  lemma DueBeforeExpiry(lease: Lease, id: string, visit: Visit)
    requires lease.holder == Some(id) && ExpireTime(lease).Some?
    ensures
      var expire := ExpireTime(lease).value;
      Due(lease, id, visit) <= expire <==> (visit.interval < expire - visit.done || expire - visit.done >= SECOND)
  {
  }

  /** Until its expiry, nobody else's check of a lease passes. */
  lemma ClosedToOthers(lease: Lease, id: string, other: string, t: Time)
    requires lease.holder == Some(id) && other != id && ExpireTime(lease).Some?
    ensures TryAcquireOrRenew(lease, other, t) <==> ExpireTime(lease).value < t
  {
  }

  // ---------------------------------------------------------------------------------------
  // A holder that is not too late keeps the lease, over every run of the protocol
  // ---------------------------------------------------------------------------------------

  /** From version i on the lease is held by `id` and has an expiry. */
  ghost predicate HeldFrom(life: seq<Version>, i: nat, id: string) {
    forall m :: i <= m < |life| ==> life[m].lease.holder == Some(id) && ExpireTime(life[m].lease).Some?
  }

  /** If the version after one of `id` was stamped before that expired, it is of `id` as well. */
  lemma HeldOnceMore(s: State, actions: seq<Action>, k: nat, m: nat, id: string)
    requires Init(s) && k < |Lives(Run(s, actions))| && m + 1 < |Lives(Run(s, actions))[k]|
    requires
      var life := Lives(Run(s, actions))[k];
      && life[m].lease.holder == Some(id) && ExpireTime(life[m].lease).Some?
      && life[m + 1].at <= ExpireTime(life[m].lease).value
    ensures
      var life := Lives(Run(s, actions))[k];
      && life[m + 1].lease.holder == Some(id) && ExpireTime(life[m + 1].lease).Some?
      && life[m + 1].lease.durationSeconds == life[m].lease.durationSeconds
      && life[m + 1].lease.renewTime == Some(Micro(life[m + 1].at))
  {
    var life := Lives(Run(s, actions))[k];
    LivesGood(s, actions, k);
    assert OutlivedBy(life[m], life[m + 1]);
  }

  /** Every version that `id` holds from i on is followed, if at all, by one not stamped after its expiry. */
  ghost predicate TimelyFrom(life: seq<Version>, i: nat, id: string) {
    forall m, n :: i <= m && n == m + 1 && n < |life|
      && life[m].lease.holder == Some(id) && ExpireTime(life[m].lease).Some?
      ==> life[n].at <= ExpireTime(life[m].lease).value
  }

  lemma {:induction false} TimelyAt(s: State, actions: seq<Action>, k: nat, i: nat, id: string, m: nat)
    requires Init(s) && k < |Lives(Run(s, actions))| && i <= m < |Lives(Run(s, actions))[k]|
    requires TimelyFrom(Lives(Run(s, actions))[k], i, id)
    requires var v := Lives(Run(s, actions))[k][i].lease; v.holder == Some(id) && ExpireTime(v).Some?
    ensures var v := Lives(Run(s, actions))[k][m].lease; v.holder == Some(id) && ExpireTime(v).Some?
    decreases m
  {
    if i < m {
      TimelyAt(s, actions, k, i, id, m - 1);
      var life := Lives(Run(s, actions))[k];
      assert life[m].at <= ExpireTime(life[m - 1].lease).value;
      HeldOnceMore(s, actions, k, m - 1, id);
    }
  }

  /** A lease whose versions all come in time stays with its holder, whatever the other instances try. */
  lemma TimelyKeepsLease(s: State, actions: seq<Action>, k: nat, i: nat, id: string)
    requires Init(s) && k < |Lives(Run(s, actions))| && i < |Lives(Run(s, actions))[k]|
    requires TimelyFrom(Lives(Run(s, actions))[k], i, id)
    requires var v := Lives(Run(s, actions))[k][i].lease; v.holder == Some(id) && ExpireTime(v).Some?
    ensures HeldFrom(Lives(Run(s, actions))[k], i, id)
  {
    var life := Lives(Run(s, actions))[k];
    forall m | i <= m < |life| ensures life[m].lease.holder == Some(id) && ExpireTime(life[m].lease).Some? {
      TimelyAt(s, actions, k, i, id, m);
    }
  }

  /**
    The version after one of `id` is stamped at most `late` after the worker of `id` was due
    back, which is so if the worker comes back by then and its renewal is accepted, or finds
    that a version stamped before has been accepted instead.
  */
  ghost predicate ComesBack(life: seq<Version>, i: nat, id: string, visits: seq<Visit>, late: nat) {
    && |visits| == |life|
    && forall m, n :: i <= m && n == m + 1 && n < |life| && life[m].lease.holder == Some(id)
         ==> life[n].at <= Due(life[m].lease, id, visits[m]) + late
  }

  /** A worker that comes back on time and has a second of validity left after each reply keeps the lease. */
  lemma OnTimeKeepsLease(s: State, actions: seq<Action>, k: nat, i: nat, id: string, visits: seq<Visit>)
    requires Init(s) && k < |Lives(Run(s, actions))| && i < |Lives(Run(s, actions))[k]|
    requires ComesBack(Lives(Run(s, actions))[k], i, id, visits, 0)
    requires var v := Lives(Run(s, actions))[k][i].lease; v.holder == Some(id) && ExpireTime(v).Some?
    requires
      var life := Lives(Run(s, actions))[k];
      forall m :: i <= m < |life| && life[m].lease.holder == Some(id) && ExpireTime(life[m].lease).Some?
        ==> ExpireTime(life[m].lease).value - visits[m].done >= SECOND
    ensures HeldFrom(Lives(Run(s, actions))[k], i, id)
    ensures TimelyFrom(Lives(Run(s, actions))[k], i, id)
  {
    var life := Lives(Run(s, actions))[k];
    forall m, n | i <= m && n == m + 1 && n < |life|
      && life[m].lease.holder == Some(id) && ExpireTime(life[m].lease).Some?
      ensures life[n].at <= ExpireTime(life[m].lease).value
    {
      DueBeforeExpiry(life[m].lease, id, visits[m]);
    }
    TimelyKeepsLease(s, actions, k, i, id);
  }

  /** The interval takes up at most 26% of the duration, and the delays the rest. */
  lemma DueWithinTenure(v: Version, id: string, visit: Visit, seconds: nat, lag: nat, late: nat)
    requires v.lease.holder == Some(id) && v.lease.durationSeconds == Some(seconds)
    requires v.lease.renewTime == Some(Micro(v.at))
    requires IsInterval(visit.interval, seconds) && visit.done - v.at <= lag
    requires 100 * (lag + late + MICROSECOND) <= 74 * (seconds * SECOND)
    ensures Due(v.lease, id, visit) + late <= ExpireTime(v.lease).value
  {
  }

  lemma {:induction false} BoundedDelayAt(s: State, actions: seq<Action>, k: nat, i: nat, id: string,
                                          visits: seq<Visit>, seconds: nat, lag: nat, late: nat, m: nat)
    requires Init(s) && k < |Lives(Run(s, actions))| && i <= m < |Lives(Run(s, actions))[k]|
    requires ComesBack(Lives(Run(s, actions))[k], i, id, visits, late)
    requires
      var v := Lives(Run(s, actions))[k][i];
      v.lease.holder == Some(id) && v.lease.durationSeconds == Some(seconds) && v.lease.renewTime == Some(Micro(v.at))
    requires forall n :: i <= n < |visits| ==>
      IsInterval(visits[n].interval, seconds) && visits[n].done - Lives(Run(s, actions))[k][n].at <= lag
    requires 100 * (lag + late + MICROSECOND) <= 74 * (seconds * SECOND)
    ensures
      var v := Lives(Run(s, actions))[k][m];
      v.lease.holder == Some(id) && v.lease.durationSeconds == Some(seconds) && v.lease.renewTime == Some(Micro(v.at))
    decreases m
  {
    if i < m {
      BoundedDelayAt(s, actions, k, i, id, visits, seconds, lag, late, m - 1);
      var life := Lives(Run(s, actions))[k];
      DueWithinTenure(life[m - 1], id, visits[m - 1], seconds, lag, late);
      assert life[m].at <= Due(life[m - 1].lease, id, visits[m - 1]) + late;
      HeldOnceMore(s, actions, k, m - 1, id);
    }
  }

  /**
    No assumption on the remaining validity is needed when the delays are bounded: a worker
    that gets its replies within `lag` and comes back at most `late` after the due time keeps
    the lease over the whole run, and never lets it lapse between two versions, as long as
    lag + late + 1us is at most 74% of the duration.
  */
  lemma BoundedDelayKeepsLease(s: State, actions: seq<Action>, k: nat, i: nat, id: string,
                               visits: seq<Visit>, seconds: nat, lag: nat, late: nat)
    requires Init(s) && k < |Lives(Run(s, actions))| && i < |Lives(Run(s, actions))[k]|
    requires ComesBack(Lives(Run(s, actions))[k], i, id, visits, late)
    requires
      var v := Lives(Run(s, actions))[k][i];
      v.lease.holder == Some(id) && v.lease.durationSeconds == Some(seconds) && v.lease.renewTime == Some(Micro(v.at))
    requires forall n :: i <= n < |visits| ==>
      IsInterval(visits[n].interval, seconds) && visits[n].done - Lives(Run(s, actions))[k][n].at <= lag
    requires 100 * (lag + late + MICROSECOND) <= 74 * (seconds * SECOND)
    ensures HeldFrom(Lives(Run(s, actions))[k], i, id)
    ensures TimelyFrom(Lives(Run(s, actions))[k], i, id)
  {
    var life := Lives(Run(s, actions))[k];
    forall m | i <= m < |life| ensures life[m].lease.holder == Some(id) && ExpireTime(life[m].lease).Some? {
      BoundedDelayAt(s, actions, k, i, id, visits, seconds, lag, late, m);
    }
    forall m, n | i <= m && n == m + 1 && n < |life|
      && life[m].lease.holder == Some(id) && ExpireTime(life[m].lease).Some?
      ensures life[n].at <= ExpireTime(life[m].lease).value
    {
      BoundedDelayAt(s, actions, k, i, id, visits, seconds, lag, late, m);
      DueWithinTenure(life[m], id, visits[m], seconds, lag, late);
    }
  }
}

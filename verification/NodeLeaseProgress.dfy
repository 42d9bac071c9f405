/**
  What the requests of the lease protocol do to the object when nobody interferes, what is
  refused, and that stored versions are never changed or lost afterwards.
*/
module NodeLeaseProgress {
  import opened Options
  import opened Units
  import opened NodeLease

  lemma SetTwice(s: State, i: nat, p: Phase, q: Phase)
    requires i < |s.instances|
    ensures SetPhase(SetPhase(s, i, p), i, q) == SetPhase(s, i, q)
    ensures s.instances[i].phase == q ==> SetPhase(s, i, q) == s
  {
  }

  /** A failed request changes nothing but that the instance is free for the next sync. */
  lemma FailedRequestIsForgotten(s: State, i: nat)
    requires i < |s.instances|
    ensures Next(s, Abort(i)) == s.(instances := s.instances[i := s.instances[i].(phase := Idle)])
  {
  }

  lemma CreateSteps(s: State, i: nat, lease: Lease)
    requires i < |s.instances| && s.current == [] && s.instances[i].phase == Creating
    requires lease == NewLease(s.instances[i].id, s.instances[i].seconds, s.clock)
    ensures Next(Next(s, Stamp(i)), Commit(i)) == SetPhase(s.(current := [Version(lease, s.clock)]), i, Idle)
  {
    var s1 := Next(s, Stamp(i));
    assert s1 == SetPhase(s, i, Submitting(lease, s.clock));
    assert Served(s1, i) == s1.(current := [Version(lease, s.clock)]);
    SetTwice(s.(current := [Version(lease, s.clock)]), i, Submitting(lease, s.clock), Idle);
  }

  /** An undisturbed sync of an absent lease stores one, stamped with the clock and held by the instance. */
  lemma AbsentIsCreated(s: State, i: nat)
    requires i < |s.instances| && s.current == [] && s.instances[i].phase.Idle?
    ensures
      var me := s.instances[i];
      var lease := Lease(Some(me.id), Some(Int32(me.seconds)), Some(Micro(s.clock)), None);
      Run(s, [ObserveNone(i), Stamp(i), Commit(i)]) == s.(current := [Version(lease, s.clock)])
  {
    var me := s.instances[i];
    var lease := NewLease(me.id, me.seconds, s.clock);
    RunThree(s, ObserveNone(i), Stamp(i), Commit(i));
    var s1 := SetPhase(s, i, Creating);
    CreateSteps(s1, i, lease);
    SetTwice(s.(current := [Version(lease, s.clock)]), i, Creating, Idle);
  }

  lemma UpdateSteps(s: State, i: nat, base: Lease, rv: nat, lease: Lease)
    requires i < |s.instances| && s.current != [] && rv == s.firstRv + |s.current| - 1
    requires s.instances[i].phase == Acquiring(base, rv, s.clock)
    requires lease == Renewed(base, s.instances[i].id, s.instances[i].seconds, s.clock)
    ensures Next(Next(s, Stamp(i)), Commit(i)) == SetPhase(s.(current := s.current + [Version(lease, s.clock)]), i, Idle)
  {
    var s1 := Next(s, Stamp(i));
    assert s1 == SetPhase(s, i, Updating(rv, lease, s.clock));
    assert Served(s1, i) == s1.(current := s.current + [Version(lease, s.clock)]);
    SetTwice(s.(current := s.current + [Version(lease, s.clock)]), i, Updating(rv, lease, s.clock), Idle);
  }

  /**
    A renewal of one's own lease changes the renew time only; a takeover also the holder, the
    duration and the count of transitions.
  */
  lemma RenewedExactly(base: Lease, id: string, seconds: nat, now: Time)
    ensures
      var lease := Renewed(base, id, seconds, now);
      && lease.renewTime == Some(Micro(now))
      && (base.holder.GetOr("") == id ==> lease == base.(renewTime := lease.renewTime))
      && (base.holder.GetOr("") != id ==>
            && lease.holder == Some(id) && lease.durationSeconds == Some(Int32(seconds))
            && lease.transitions == Some(Int32(base.transitions.GetOr(0) + 1)))
  {
  }

  /**
    An undisturbed sync that sees the newest version and may have it stores one more, renewed
    and stamped with the clock, and leaves everything else as it was.
  */
  lemma NewestIsRenewed(s: State, i: nat, newest: Lease, rv: nat, lease: Lease)
    requires i < |s.instances| && s.current != [] && s.instances[i].phase.Idle?
    requires newest == s.current[|s.current| - 1].lease && rv == s.firstRv + |s.current| - 1
    requires TryAcquireOrRenew(newest, s.instances[i].id, s.clock)
    requires lease == Renewed(newest, s.instances[i].id, s.instances[i].seconds, s.clock)
    ensures Run(s, [Observe(i, newest, rv), Stamp(i), Commit(i)])
         == s.(current := s.current + [Version(lease, s.clock)])
  {
    RunThree(s, Observe(i, newest, rv), Stamp(i), Commit(i));
    var acquiring := Acquiring(newest, rv, s.clock);
    assert Next(s, Observe(i, newest, rv)) == SetPhase(s, i, acquiring);
    UpdateSteps(SetPhase(s, i, acquiring), i, newest, rv, lease);
    SetTwice(s.(current := s.current + [Version(lease, s.clock)]), i, acquiring, Idle);
  }

  /** If the namespace was missing, the lease is stamped again, at the later time, and then stored. */
  lemma RetriedCreateIsStamped(s: State, i: nat, now: Time)
    requires i < |s.instances| && s.current == [] && s.instances[i].phase.Submitting? && s.clock <= now
    ensures
      var me := s.instances[i];
      var s' := Next(Next(s, NamespaceMissing(i)), Tick(now));
      Next(Next(s', Stamp(i)), Commit(i))
      == SetPhase(s.(clock := now, current := [Version(NewLease(me.id, me.seconds, now), now)]), i, Idle)
  {
    var me := s.instances[i];
    var lease := NewLease(me.id, me.seconds, now);
    var s1 := Next(Next(s, NamespaceMissing(i)), Tick(now));
    assert s1 == SetPhase(s.(clock := now), i, Creating);
    CreateSteps(s1, i, lease);
    SetTwice(s.(clock := now, current := [Version(lease, now)]), i, Creating, Idle);
  }

  // ---------------------------------------------------------------------------------------
  // What is refused
  // ---------------------------------------------------------------------------------------

  /** A lease may be had exactly by its holder, by anybody if it has no expiry, and by anybody after it. */
  lemma CheckExactly(lease: Lease, id: string, now: Time)
    ensures TryAcquireOrRenew(lease, id, now)
            <==> lease.holder == Some(id) || ExpireTime(lease).None? || ExpireTime(lease).value < now
  {
  }

  /** An instance that sees an unexpired lease of another holder does not go on. */
  lemma HeldIsLeftAlone(s: State, i: nat, lease: Lease, rv: nat)
    requires i < |s.instances| && lease.holder != Some(s.instances[i].id)
    requires ExpireTime(lease).Some? && s.clock <= ExpireTime(lease).value
    ensures Next(s, Observe(i, lease, rv)) == s
  {
    CheckExactly(lease, s.instances[i].id, s.clock);
  }

  /** A request is stored iff it is for the newest version, or a Create while the object is absent. */
  lemma StoredExactly(s: State, i: nat)
    requires i < |s.instances| && (s.instances[i].phase.Updating? || s.instances[i].phase.Submitting?)
    ensures
      var phase, s' := s.instances[i].phase, Next(s, Commit(i));
      var accepted := if phase.Submitting? then s.current == []
                      else s.current != [] && phase.rv == s.firstRv + |s.current| - 1;
      && s'.instances == s.instances[i := s.instances[i].(phase := Idle)]
      && s'.past == s.past && s'.firstRv == s.firstRv && s'.clock == s.clock
      && s'.current == s.current + if accepted then [Version(phase.next, phase.at)] else []
  {
    assert s.current == [] ==> forall v: Version :: s.current + [v] == [v];
  }

  /** Nothing that was prepared for an object is stored once that object has been deleted. */
  lemma DeletedIsNotUpdated(s: State, i: nat)
    requires i < |s.instances| && s.instances[i].phase.Updating? && s.current != []
    requires s.instances[i].phase.rv < s.firstRv + |s.current|
    ensures Next(s, Delete).current == [] && Next(s, Delete).past == s.past + [s.current]
    ensures s.instances[i].phase.rv < Next(s, Delete).firstRv
    ensures Next(Next(s, Delete), Commit(i)).current == []
  {
  }

  // ---------------------------------------------------------------------------------------
  // Stored versions stay
  // ---------------------------------------------------------------------------------------

  /** The same objects and more, each with the same versions and more; the deleted ones are closed. */
  ghost predicate Grows(s: State, s': State) {
    && |s.past| <= |s'.past| && s'.past[..|s.past|] == s.past
    && s.current <= Lives(s')[|s.past|] && s.clock <= s'.clock
  }

  lemma NextGrows(s: State, a: Action)
    ensures Grows(s, Next(s, a))
  {
  }

  lemma GrowsFurther(s: State, s': State, s'': State)
    requires Grows(s, s') && Grows(s', s'')
    ensures Grows(s, s'')
  {
    assert s''.past[..|s.past|] == s'.past[..|s.past|];
    if |s.past| < |s'.past| {
      assert s''.past[|s.past|] == s'.past[|s.past|];
    }
  }

  /** Over every run the history of every object is only ever added to. */
  lemma {:induction false} RunGrows(s: State, actions: seq<Action>)
    ensures Grows(s, Run(s, actions))
    decreases |actions|
  {
    if actions != [] {
      NextGrows(s, actions[0]);
      RunGrows(Next(s, actions[0]), actions[1..]);
      GrowsFurther(s, Next(s, actions[0]), Run(s, actions));
    }
  }
}

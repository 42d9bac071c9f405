/**
  When a node that a worker puts back is ready again: not before the clock reading plus the
  delay, and possibly then, as long as every node has one copy; a lost entry can make it
  ready sooner.
*/
module HoldDelay {
  import opened Options
  import opened DelayQueue
  import opened QueueLoop
  import opened HoldQueue
  import opened Starvation

  /** Nobody adds the name to the queue again. */
  predicate AddsNot(actions: seq<Action>, n: Name) {
    forall i :: 0 <= i < |actions| ==> actions[i] != HoldAdd(n) && !(actions[i].PutBack? && actions[i].n == n)
  }

  lemma NextNotBefore(s: State, a: Action, n: Name, t: int)
    requires NotBefore(s.queue, n, t) && Enabled(s, a) && s.clock < t
    requires a != HoldAdd(n) && !(a.PutBack? && a.n == n)
    ensures NotBefore(Next(s, a).queue, n, t)
  {
    match a {
      case LoopDeliver(w, due, m) => DeliverNotBefore(s.queue, w, due, m, s.clock, n, t);
      case PutBack(m, w, readAt, delay) => OthersNotBefore(s.queue, w, m, readAt, delay, n, t);
      case HoldAdd(m) => OthersNotBefore(s.queue, Low, m, 0, 0, n, t);
      case ReleaseCancel(m) => OthersNotBefore(s.queue, Low, m, 0, 0, n, t);
      case Pop(m) => OthersNotBefore(s.queue, Low, m, 0, 0, n, t);
      case LoopHand => OthersNotBefore(s.queue, Low, n, 0, 0, n, t);
      case _ =>
    }
  }

  lemma {:induction false} ClockGrows(s: State, actions: seq<Action>)
    requires IsRun(s, actions)
    ensures s.clock <= Run(s, actions).clock
    decreases |actions|
  {
    if actions != [] { ClockGrows(Next(s, actions[0]), actions[1..]); }
  }

  lemma {:induction false} RunNotBefore(s: State, actions: seq<Action>, n: Name, t: int)
    requires NotBefore(s.queue, n, t) && IsRun(s, actions) && AddsNot(actions, n)
    requires Run(s, actions).clock < t
    ensures NotBefore(Run(s, actions).queue, n, t)
    decreases |actions|
  {
    if actions != [] {
      ClockGrows(s, actions);
      NextNotBefore(s, actions[0], n, t);
      assert forall i :: 0 <= i < |actions[1..]| ==> actions[1..][i] == actions[i + 1];
      RunNotBefore(Next(s, actions[0]), actions[1..], n, t);
    }
  }

  lemma PutBackIsAlone(s: State, n: Name, w: Which, readAt: int, delay: int)
    requires CarriedOnce(s) && Enabled(s, PutBack(n, w, readAt, delay))
    ensures Copies(s.queue, n) == 0 && NoOrphans(s.queue)
  {
    assert Tokens(s, n) <= 1;
  }

  /** A node that is put back stays out of the way of the workers until the reading plus the delay. */
  lemma NotReadyBeforeDue(s: State, n: Name, w: Which, readAt: int, delay: int, more: seq<Action>)
    requires CarriedOnce(s) && Enabled(s, PutBack(n, w, readAt, delay)) && delay > 0
    requires IsRun(Next(s, PutBack(n, w, readAt, delay)), more) && AddsNot(more, n)
    requires Run(Next(s, PutBack(n, w, readAt, delay)), more).clock < readAt + delay
    ensures var q := Run(Next(s, PutBack(n, w, readAt, delay)), more).queue; n !in q.ready && q.transit != Some(n)
  {
    PutBackIsAlone(s, n, w, readAt, delay);
    AddedAfter(s.queue, w, n, readAt, delay);
    RunNotBefore(Next(s, PutBack(n, w, readAt, delay)), more, n, readAt + delay);
  }

  /** At that time, or at once without a delay, the loop worker can make it ready. */
  lemma ReadyWhenDue(s: State, n: Name, w: Which, readAt: int, delay: int) returns (more: seq<Action>)
    requires CarriedOnce(s) && Enabled(s, PutBack(n, w, readAt, delay))
    ensures
      var s' := Next(s, PutBack(n, w, readAt, delay));
      && IsRun(s', more) && LoopOnly(more) && n in Run(s', more).queue.ready
      && Run(s', more).clock == if delay > 0 && s.clock < readAt + delay then readAt + delay else s.clock
  {
    PutBackIsAlone(s, n, w, readAt, delay);
    AddedAfter(s.queue, w, n, readAt, delay);
    more := [];
    if delay > 0 {
      more := AheadIsDelivered(Next(s, PutBack(n, w, readAt, delay)), w, readAt + delay, n);
    }
  }

  /** A worker that is slow to take the queue's lock puts a node back that is due already. */
  lemma LatePutBack() returns (run: seq<Action>)
    ensures IsRun(START, run)
    ensures
      var s := Run(START, run);
      "a" in s.queue.high.indexed && s.queue.high.indexed["a"] == 10 && s.clock == 30
  {
    run := HoldCall([], "a");
    run := Then(run, Pop("a"));
    run := Then(run, Lookup("a"));
    run := Then(run, Tick(30));
    run := Then(run, PutBack("a", High, 0, 10));
  }

  lemma WokenEarly() returns (more: seq<Action>)
    ensures more == [Tick(10), LoopDeliver(High, 10, "a"), LoopHand] && IsRun(PutBackTwice(), more)
    ensures Run(PutBackTwice(), more).clock == 10 && "a" in Run(PutBackTwice(), more).queue.ready
  {
    var s := PutBackTwice();
    var s1 := Next(s, Tick(10));
    assert IsTop(s1.queue.high, 10, "a");
    var s2 := Next(s1, LoopDeliver(High, 10, "a"));
    more := RunCons(s2, LoopHand, []);
    more := RunCons(s1, LoopDeliver(High, 10, "a"), more);
    more := RunCons(s, Tick(10), more);
  }

  /** With two copies a node can be ready before its time: here a was last put back at 0 with a delay of 20. */
  lemma LostEntryWakesEarly() returns (run: seq<Action>)
    ensures IsRun(START, run)
    ensures Run(START, run).clock == 10 && "a" in Run(START, run).queue.ready
    ensures exists k :: 0 <= k < |run| && run[k] == PutBack("a", High, 0, 20) && AddsNot(run[k + 1..], "a")
  {
    var first := OrphanReachable();
    var more := WokenEarly();
    RunConcat(START, first, more);
    run := first + more;
    var k := |first| - 1;
    assert run[k + 1..] == more && run[k] == PutBack("a", High, 0, 20);
  }
}

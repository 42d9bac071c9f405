/**
  What a second copy of a name can lead to. A heap entry that the index has lost is never
  removed, so everything behind it in the heap waits for good; and a node waits for good only
  behind such an entry.
*/
module Starvation {
  import opened Options
  import opened DelayQueue
  import opened QueueLoop
  import opened HoldQueue

  /** The one copy of a held node that nobody is releasing waits in heap w. */
  predicate Waits(s: State, w: Which, m: Name) {
    m in s.held && m !in s.deleting && m in Get(s.queue, w).indexed && Tokens(s, m) == 1
  }

  // ---------------------------------------------------------------------------------------
  // Behind a lost entry
  // ---------------------------------------------------------------------------------------

  /** Nobody else has a name whose one copy waits in a heap. */
  lemma WaitsTokens(s: State, a: Action, w: Which, m: Name)
    requires Waits(s, w, m) && Enabled(s, a) && a != ReleaseCancel(m)
    ensures Tokens(Next(s, a), m) == 1
  {
    match a {
      case LoopDeliver(w', top, x) => LoopTokens(s, w', top, x, m);
      case LoopHand => LoopTokens(s, Low, 0, m, m);
      case PutBack(x, w', readAt, delay) => PutBackTokens(s, x, w', readAt, delay, m);
      case Pop(x) => PopTokens(s, x, m);
      case Lookup(x) => LookupTokens(s, x, m);
      case HoldAdd(x) => CallerTokens(s, x, m);
      case ReleaseCancel(x) => CallerTokens(s, x, m);
      case ReleaseDelete(x) => CallerTokens(s, x, m);
      case HoldStore(_) =>
      case Tick(_) =>
    }
  }

  lemma BehindPutBack(q: Queue<Name>, w: Which, e: int, n: Name, m: Name, x: Name, w': Which, now: int, delay: int)
    requires Behind(Get(q, w), e, n, m) && m in Get(q, w).indexed && x != m
    ensures var h := Get(AddAfter(q, w', x, now, delay), w); Behind(h, e, n, m) && m in h.indexed
  {
    if w' == w { BehindStays(Get(q, w), e, n, m, x, now + delay); }
  }

  lemma BehindNext(s: State, a: Action, w: Which, e: int, n: Name, m: Name)
    requires Behind(Get(s.queue, w), e, n, m) && m in Get(s.queue, w).indexed
    requires Enabled(s, a) && a != ReleaseCancel(m) && m !in s.syncing
    ensures Behind(Get(Next(s, a).queue, w), e, n, m) && m in Get(Next(s, a).queue, w).indexed
  {
    var h := Get(s.queue, w);
    match a {
      case LoopDeliver(w', top, x) =>
        if w' == w { BehindDeliversNot(s.queue, w, e, n, m, top, x, s.clock); }
      case PutBack(x, w', readAt, delay) => BehindPutBack(s.queue, w, e, n, m, x, w', readAt, delay);
      case ReleaseCancel(x) => BehindStays(h, e, n, m, x, 0);
      case _ =>
    }
  }

  /**
    Starvation: no worker ever again gets a node whose one copy is behind a lost entry of
    another, whatever the other threads do and whether or not the other is still held.
  */
  lemma {:induction false} BehindStarves(s: State, actions: seq<Action>, w: Which, e: int, n: Name, m: Name)
    requires IsRun(s, actions) && ReleaseCancel(m) !in actions
    requires Behind(Get(s.queue, w), e, n, m) && Waits(s, w, m)
    ensures
      var s' := Run(s, actions);
      && Behind(Get(s'.queue, w), e, n, m) && Waits(s', w, m)
      && m !in s'.queue.ready && m !in s'.popped && m !in s'.syncing
    decreases |actions|
  {
    if actions != [] {
      BehindNext(s, actions[0], w, e, n, m);
      WaitsTokens(s, actions[0], w, m);
      BehindStarves(Next(s, actions[0]), actions[1..], w, e, n, m);
    }
  }

  // ---------------------------------------------------------------------------------------
  // Ahead of the lost entries
  // ---------------------------------------------------------------------------------------

  /** Only time passes and the loop worker works. */
  predicate LoopOnly(actions: seq<Action>) {
    forall i :: 0 <= i < |actions| ==> actions[i].Tick? || actions[i].LoopDeliver? || actions[i].LoopHand?
  }

  lemma RunCons(s: State, a: Action, rest: seq<Action>) returns (actions: seq<Action>)
    requires Enabled(s, a) && IsRun(Next(s, a), rest)
    ensures actions == [a] + rest && IsRun(s, actions) && Run(s, actions) == Run(Next(s, a), rest)
  {
    actions := [a] + rest;
    assert actions[1..] == rest;
  }

  lemma {:induction false} RunConcat(s: State, a: seq<Action>, b: seq<Action>)
    requires IsRun(s, a) && IsRun(Run(s, a), b)
    ensures IsRun(s, a + b) && Run(s, a + b) == Run(Run(s, a), b)
    decreases |a|
  {
    if a == [] {
      assert a + b == b;
    } else {
      assert (a + b)[0] == a[0] && (a + b)[1..] == a[1..] + b;
      RunConcat(Next(s, a[0]), a[1..], b);
    }
  }

  /** What the loop worker serves by itself is a run. */
  lemma {:induction false} RunServes(s: State, peeks: seq<Peek<Name>>) returns (actions: seq<Action>)
    requires Serves(s.queue, High, peeks, s.clock)
    ensures IsRun(s, actions) && LoopOnly(actions)
    ensures Run(s, actions) == s.(queue := ServeAll(s.queue, peeks, s.clock))
    decreases |peeks|
  {
    actions := [];
    if peeks != [] {
      var p := peeks[0];
      var s1 := Next(s, LoopDeliver(p.w, p.due, p.item));
      assert p == Peek(p.w, p.due, p.item);
      actions := RunServes(s.(queue := Serve(s.queue, p, s.clock)), peeks[1..]);
      actions := RunCons(s1, LoopHand, actions);
      actions := RunCons(s, LoopDeliver(p.w, p.due, p.item), actions);
    }
  }

  /** Whatever the loop worker is doing, and however late m is due, m can be ready when it is due. */
  lemma AheadIsDelivered(s: State, w: Which, d: int, m: Name) returns (actions: seq<Action>)
    requires Ahead(Get(s.queue, w), d, m)
    ensures IsRun(s, actions) && LoopOnly(actions)
    ensures m in Run(s, actions).queue.ready && Run(s, actions).clock == if s.clock < d then d else s.clock
  {
    var tick := Tick(if s.clock < d then d else s.clock);
    var s1 := Next(s, tick);
    var s2 := Next(s1, LoopHand);
    assert Get(s2.queue, w) == Get(s.queue, w);
    var peeks := ServeDue(s2.queue, High, w, d, m, s2.clock);
    actions := RunServes(s2, peeks);
    actions := RunCons(s1, LoopHand, actions);
    actions := RunCons(s, tick, actions);
  }

  /** No run in which nobody releases m ever makes it ready. */
  ghost predicate Starves(s: State, m: Name) {
    forall actions :: IsRun(s, actions) && ReleaseCancel(m) !in actions ==> m !in Run(s, actions).queue.ready
  }

  /** A waiting node starves exactly if a lost entry of another comes before all of its own entries. */
  lemma StarvesExactly(s: State, w: Which, m: Name)
    requires Waits(s, w, m)
    ensures Starves(s, m) <==> exists e: int, n: Name :: Behind(Get(s.queue, w), e, n, m)
  {
    var h := Get(s.queue, w);
    BehindOrAhead(h, m);
    if e: int, n: Name :| Behind(h, e, n, m) {
      forall actions | IsRun(s, actions) && ReleaseCancel(m) !in actions ensures m !in Run(s, actions).queue.ready {
        BehindStarves(s, actions, w, e, n, m);
      }
    } else {
      var d :| Ahead(h, d, m);
      var actions := AheadIsDelivered(s, w, d, m);
      assert ReleaseCancel(m) !in actions;
    }
  }

  // ---------------------------------------------------------------------------------------
  // Lost entries and starvation are reachable
  // ---------------------------------------------------------------------------------------

  lemma Then(actions: seq<Action>, a: Action) returns (more: seq<Action>)
    requires IsRun(START, actions) && Enabled(Run(START, actions), a)
    ensures more == actions + [a] && IsRun(START, more)
    ensures Run(START, more) == Next(Run(START, actions), a)
  {
    assert [a][1..] == [];
    RunConcat(START, actions, [a]);
    more := actions + [a];
  }

  /** A whole TryHold of a name that is not held. */
  lemma HoldCall(before: seq<Action>, n: Name) returns (run: seq<Action>)
    requires IsRun(START, before) && n !in Run(START, before).held
    requires Run(START, before).adding == multiset{}
    ensures IsRun(START, run)
    ensures
      var s := Run(START, before);
      Run(START, run) == s.(held := s.held + {n}, queue := Add(s.queue, n))
  {
    run := Then(before, HoldStore(n));
    run := Then(run, HoldAdd(n));
    assert multiset{n} - multiset{n} == multiset{};
  }

  /** A whole ReleaseHold. */
  lemma ReleaseCall(before: seq<Action>, n: Name) returns (run: seq<Action>)
    requires IsRun(START, before) && Run(START, before).deleting == multiset{}
    ensures IsRun(START, run)
    ensures
      var s := Run(START, before);
      Run(START, run) == s.(held := s.held - {n}, queue := Cancel(s.queue, n))
  {
    run := Then(before, ReleaseCancel(n));
    run := Then(run, ReleaseDelete(n));
    assert multiset{n} - multiset{n} == multiset{};
  }

  function ReadyTwice(): State {
    START.(held := {"a"}, queue := START.queue.(ready := multiset{"a", "a"}))
  }

  /** A node that is released and taken up again while its copy is ready comes to have two. */
  lemma ReholdReachable() returns (run: seq<Action>)
    ensures IsRun(START, run) && Run(START, run) == ReadyTwice()
  {
    run := HoldCall([], "a");
    var one := START.queue.(ready := multiset{"a"});
    assert Run(START, run) == START.(held := {"a"}, queue := one);
    run := ReleaseCall(run, "a");
    assert one.low.indexed - {"a"} == one.low.indexed;
    assert Run(START, run) == START.(queue := one) by {
      assert {"a"} - {"a"} == {};
      assert Cancel(one, "a") == one;
    }
    run := HoldCall(run, "a");
  }

  lemma SyncSteps(s: State, n: Name, delay: int)
    requires n in s.held && n in s.queue.ready && s.popped == multiset{} == s.syncing
    ensures
      var s1 := Next(s, Pop(n));
      var s2 := Next(s1, Lookup(n));
      && Enabled(s, Pop(n)) && Enabled(s1, Lookup(n)) && Enabled(s2, PutBack(n, High, s.clock, delay))
      && Next(s2, PutBack(n, High, s.clock, delay))
         == s.(queue := AddAfter(Take(s.queue, n), High, n, s.clock, delay))
  {
    var one := multiset{n};
    assert multiset{} + one == one && one - one == multiset{};
    var s1 := Next(s, Pop(n));
    assert s1 == s.(queue := Take(s.queue, n), popped := one);
    var s2 := Next(s1, Lookup(n));
    assert s2 == s.(queue := Take(s.queue, n), syncing := one);
  }

  /** One sync of a ready node that ends with the node in the high-weight heap. */
  lemma SyncOnce(before: seq<Action>, n: Name, delay: int) returns (run: seq<Action>)
    requires IsRun(START, before) && n in Run(START, before).held && delay > 0
    requires n in Run(START, before).queue.ready
    requires Run(START, before).popped == multiset{} == Run(START, before).syncing
    ensures IsRun(START, run)
    ensures
      var s := Run(START, before);
      Run(START, run) == s.(queue := AddAfter(Take(s.queue, n), High, n, s.clock, delay))
    ensures run != [] && run[|run| - 1] == PutBack(n, High, Run(START, before).clock, delay)
  {
    SyncSteps(Run(START, before), n, delay);
    run := Then(before, Pop(n));
    run := Then(run, Lookup(n));
    run := Then(run, PutBack(n, High, Run(START, before).clock, delay));
  }

  function PutBackTwice(): State {
    START.(held := {"a"}, queue := START.queue.(high := Heap(map["a" := 20], multiset{(10, "a")})))
  }

  /** Both copies are put back, so that the heap holds an entry that its index has lost. */
  lemma OrphanReachable() returns (run: seq<Action>)
    ensures IsRun(START, run) && Run(START, run) == PutBackTwice()
    ensures run != [] && run[|run| - 1] == PutBack("a", High, 0, 20)
  {
    run := ReholdReachable();
    run := SyncOnce(run, "a", 10);
    var once := START.queue.(high := Heap(map["a" := 10], multiset{}), ready := multiset{"a"});
    assert Run(START, run).queue == once by {
      assert multiset{"a", "a"} - multiset{"a"} == multiset{"a"};
    }
    run := SyncOnce(run, "a", 20);
    assert Take(once, "a") == once.(ready := multiset{});
    assert AddAfter(Take(once, "a"), High, "a", 0, 20) == PutBackTwice().queue;
  }

  function BothWaiting(): State {
    START.(held := {"a", "b"},
           queue := START.queue.(high := Heap(map["a" := 20, "b" := 15], multiset{(10, "a")})))
  }

  lemma BothReachable() returns (run: seq<Action>)
    ensures IsRun(START, run) && Run(START, run) == BothWaiting()
  {
    run := OrphanReachable();
    run := HoldCall(run, "b");
    var queue := PutBackTwice().queue.(ready := multiset{"b"});
    assert Run(START, run) == PutBackTwice().(held := {"a", "b"}, queue := queue);
    run := SyncOnce(run, "b", 15);
    assert Take(queue, "b") == PutBackTwice().queue;
    assert AddAfter(PutBackTwice().queue, High, "b", 0, 15) == BothWaiting().queue;
  }

  /** The starvation is reachable: node b is overdue, and nothing but its release makes it ready again. */
  lemma StarvationReachable() returns (run: seq<Action>)
    ensures IsRun(START, run)
    ensures
      var s := Run(START, run);
      && Waits(s, High, "b") && s.queue.high.indexed["b"] < s.clock
      && Starves(s, "b")
  {
    run := BothReachable();
    run := Then(run, Tick(30));
    var s := Run(START, run);
    assert Behind(Get(s.queue, High), 10, "a", "b");
    StarvesExactly(s, High, "b");
  }
}

/**
  How the node lease controller keeps coming back to the nodes it holds: holdLeaseSet, the
  delay queue, any number of sync workers, and any number of concurrent callers of TryHold
  and ReleaseHold, interleaved between the individual map and queue operations.
*/
module HoldQueue {
  import opened DelayQueue
  import opened QueueLoop

  type Name = string

  /**
    Where the threads are: `adding` are the TryHold calls that stored the name and are about
    to Add it, `deleting` the ReleaseHold calls that cancelled it and are about to Delete it,
    `popped` the workers that took the name and are about to look it up, `syncing` the
    workers that found it held and will put it back.
  */
  datatype State = State(
    clock: int,
    held: set<Name>,
    queue: Queue<Name>,
    adding: multiset<Name>,
    deleting: multiset<Name>,
    popped: multiset<Name>,
    syncing: multiset<Name>)

  datatype Action =
    | Tick(now: int)
    | HoldStore(n: Name)
    | HoldAdd(n: Name)
    | ReleaseCancel(n: Name)
    | ReleaseDelete(n: Name)
    | Pop(n: Name)
    | Lookup(n: Name)
    | PutBack(n: Name, w: Which, readAt: int, delay: int)
    | LoopDeliver(w: Which, due: int, n: Name)
    | LoopHand

  const START := State(0, {}, EmptyQueue<Name>(), multiset{}, multiset{}, multiset{}, multiset{})

  /**
    The loop worker acts on a top entry, of the low heap only if the high one has nothing for
    it; every other action needs its thread to be there. A worker that puts a name back has
    read the clock before it takes the queue's lock, so the reading may be an old one.
  */
  ghost predicate Enabled(s: State, a: Action) {
    match a
    case Tick(now) => s.clock <= now
    case HoldStore(_) => true
    case HoldAdd(n) => n in s.adding
    case ReleaseCancel(_) => true
    case ReleaseDelete(n) => n in s.deleting
    case Pop(n) => n in s.queue.ready
    case Lookup(n) => n in s.popped
    case PutBack(n, _, readAt, _) => n in s.syncing && readAt <= s.clock
    case LoopDeliver(w, due, n) => CanPeek(s.queue, High, Peek(w, due, n), s.clock)
    case LoopHand => true
  }

  function Next(s: State, a: Action): State {
    match a
    case Tick(now) => s.(clock := now)
    case HoldStore(n) =>
      if n in s.held then s else s.(held := s.held + {n}, adding := s.adding + multiset{n})
    case HoldAdd(n) => s.(adding := s.adding - multiset{n}, queue := Add(s.queue, n))
    case ReleaseCancel(n) =>
      s.(queue := Cancel(s.queue, n), deleting := s.deleting + multiset{n})
    case ReleaseDelete(n) => s.(deleting := s.deleting - multiset{n}, held := s.held - {n})
    case Pop(n) =>
      if n in s.queue.ready then s.(queue := Take(s.queue, n), popped := s.popped + multiset{n}) else s
    case Lookup(n) =>
      var s' := s.(popped := s.popped - multiset{n});
      if n in s.held then s'.(syncing := s.syncing + multiset{n}) else s'
    case PutBack(n, w, readAt, delay) =>
      s.(syncing := s.syncing - multiset{n}, queue := AddAfter(s.queue, w, n, readAt, delay))
    case LoopDeliver(w, due, n) => s.(queue := Deliver(s.queue, w, due, n, s.clock))
    case LoopHand => s.(queue := Hand(s.queue))
  }

  ghost predicate IsRun(s: State, actions: seq<Action>)
    decreases |actions|
  {
    actions == [] || (Enabled(s, actions[0]) && IsRun(Next(s, actions[0]), actions[1..]))
  }

  function Run(s: State, actions: seq<Action>): State
    decreases |actions|
  {
    if actions == [] then s else Run(Next(s, actions[0]), actions[1..])
  }

  // ---------------------------------------------------------------------------------------
  // No held node is lost
  // ---------------------------------------------------------------------------------------

  /** Who still has the name: its findable copies, the workers that took it and the TryHolds. */
  function Tokens(s: State, n: Name): nat {
    Copies(s.queue, n) + s.popped[n] + s.syncing[n] + s.adding[n]
  }

  ghost predicate NoneLost(s: State) {
    forall n :: n in s.held ==> Tokens(s, n) > 0 || n in s.deleting
  }

  lemma LoopTokens(s: State, w: Which, due: int, m: Name, n: Name)
    ensures Tokens(Next(s, LoopDeliver(w, due, m)), n) == Tokens(s, n) == Tokens(Next(s, LoopHand), n)
  {
    MoveCopies(s.queue, w, due, m, s.clock, n);
  }

  lemma PopTokens(s: State, m: Name, n: Name)
    requires m in s.queue.ready
    ensures Tokens(Next(s, Pop(m)), n) == Tokens(s, n)
  {
  }

  lemma LookupTokens(s: State, m: Name, n: Name)
    requires m in s.popped
    ensures Tokens(Next(s, Lookup(m)), n) == Tokens(s, n) - if m == n && n !in s.held then 1 else 0
  {
  }

  /** Only a name that waits in the heap already can lose a copy on its way back. */
  lemma PutBackTokens(s: State, m: Name, w: Which, readAt: int, delay: int, n: Name)
    requires m in s.syncing
    ensures m == n ==> Tokens(Next(s, PutBack(m, w, readAt, delay)), n) > 0
    ensures m != n || m !in Get(s.queue, w).indexed ==> Tokens(Next(s, PutBack(m, w, readAt, delay)), n) == Tokens(s, n)
  {
    AddAfterKeeps(s.queue, w, m, readAt, delay, n);
    if m !in Get(s.queue, w).indexed { AddAfterCopies(s.queue, w, m, readAt, delay, n); }
  }

  lemma CallerTokens(s: State, m: Name, n: Name)
    ensures m in s.adding ==> Tokens(Next(s, HoldAdd(m)), n) == Tokens(s, n)
    ensures Tokens(Next(s, ReleaseCancel(m)), n) <= Tokens(s, n)
    ensures m != n ==> Tokens(Next(s, ReleaseCancel(m)), n) == Tokens(s, n)
    ensures Tokens(Next(s, ReleaseDelete(m)), n) == Tokens(s, n)
  {
  }

  lemma NextCarried(s: State, a: Action, n: Name)
    requires Enabled(s, a) && n in Next(s, a).held
    requires n in s.held ==> Tokens(s, n) > 0 || n in s.deleting
    ensures Tokens(Next(s, a), n) > 0 || n in Next(s, a).deleting
  {
    match a {
      case HoldStore(m) =>
      case HoldAdd(m) => CallerTokens(s, m, n);
      case ReleaseCancel(m) => CallerTokens(s, m, n);
      case ReleaseDelete(m) => CallerTokens(s, m, n);
      case Pop(m) => PopTokens(s, m, n);
      case Lookup(m) => LookupTokens(s, m, n);
      case PutBack(m, w, readAt, delay) => PutBackTokens(s, m, w, readAt, delay, n);
      case LoopDeliver(w, due, m) => LoopTokens(s, w, due, m, n);
      case LoopHand => LoopTokens(s, Low, 0, n, n);
      case Tick(_) =>
    }
  }

  lemma NextNoneLost(s: State, a: Action)
    requires NoneLost(s) && Enabled(s, a)
    ensures NoneLost(Next(s, a))
  {
    forall n | n in Next(s, a).held ensures Tokens(Next(s, a), n) > 0 || n in Next(s, a).deleting {
      NextCarried(s, a, n);
    }
  }

  lemma {:induction false} RunNoneLost(s: State, actions: seq<Action>)
    requires NoneLost(s) && IsRun(s, actions)
    ensures NoneLost(Run(s, actions))
    decreases |actions|
  {
    if actions != [] {
      NextNoneLost(s, actions[0]);
      RunNoneLost(Next(s, actions[0]), actions[1..]);
    }
  }

  /**
    Under every interleaving, a held node has a copy that can still be found, is with a worker
    or a TryHold, or is being released.
  */
  lemma HeldNeverLost(actions: seq<Action>, n: Name)
    requires IsRun(START, actions) && n in Run(START, actions).held
    ensures var s := Run(START, actions); Tokens(s, n) > 0 || n in s.deleting
  {
    RunNoneLost(START, actions);
  }

  // ---------------------------------------------------------------------------------------
  // When every node is carried once
  // ---------------------------------------------------------------------------------------

  ghost predicate CarriedOnce(s: State) {
    NoOrphans(s.queue) && forall n :: Tokens(s, n) <= 1
  }

  /** TryHold takes up a name of which an old copy is still under way. */
  predicate Reholds(s: State, a: Action) {
    a.HoldStore? && a.n !in s.held && Tokens(s, a.n) > 0
  }

  lemma TokensMove(s: State, a: Action, n: Name)
    requires Enabled(s, a) && !a.HoldStore?
    requires a.PutBack? ==> a.n !in Get(s.queue, a.w).indexed
    ensures Tokens(Next(s, a), n) <= Tokens(s, n)
  {
    match a {
      case LoopDeliver(w, due, m) => LoopTokens(s, w, due, m, n);
      case LoopHand => LoopTokens(s, Low, 0, n, n);
      case PutBack(m, w, readAt, delay) => PutBackTokens(s, m, w, readAt, delay, n);
      case Pop(m) => PopTokens(s, m, n);
      case Lookup(m) => LookupTokens(s, m, n);
      case HoldAdd(m) => CallerTokens(s, m, n);
      case ReleaseCancel(m) => CallerTokens(s, m, n);
      case ReleaseDelete(m) => CallerTokens(s, m, n);
      case Tick(_) =>
    }
  }

  lemma OrphansMove(s: State, a: Action)
    requires Enabled(s, a) && NoOrphans(s.queue)
    requires a.PutBack? ==> a.n !in Get(s.queue, a.w).indexed
    ensures NoOrphans(Next(s, a).queue)
  {
  }

  /** The one step that makes a second copy of a name is a TryHold that comes too early. */
  lemma CarriedOnceExactly(s: State, a: Action)
    requires CarriedOnce(s) && Enabled(s, a)
    ensures CarriedOnce(Next(s, a)) <==> !Reholds(s, a)
  {
    if a.HoldStore? {
      assert Tokens(Next(s, a), a.n) == Tokens(s, a.n) + if a.n in s.held then 0 else 1;
      assert forall m :: m != a.n ==> Tokens(Next(s, a), m) == Tokens(s, m);
    } else {
      if a.PutBack? { assert Tokens(s, a.n) <= 1; }
      OrphansMove(s, a);
      forall n ensures Tokens(Next(s, a), n) <= 1 {
        TokensMove(s, a, n);
      }
    }
  }

  ghost predicate NeverReholds(s: State, actions: seq<Action>)
    decreases |actions|
  {
    actions == [] || (!Reholds(s, actions[0]) && NeverReholds(Next(s, actions[0]), actions[1..]))
  }

  /** Without such a TryHold, each node has at most one copy and no heap ever holds an orphan. */
  lemma {:induction false} RunCarriedOnce(s: State, actions: seq<Action>)
    requires CarriedOnce(s) && IsRun(s, actions) && NeverReholds(s, actions)
    ensures CarriedOnce(Run(s, actions))
    decreases |actions|
  {
    if actions != [] {
      CarriedOnceExactly(s, actions[0]);
      RunCarriedOnce(Next(s, actions[0]), actions[1..]);
    }
  }
}

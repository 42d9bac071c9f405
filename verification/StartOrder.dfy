/**
  The start order of components: GroupByLinks sorts them into groups such that every link of
  a component names a component of an earlier group.
*/
module StartOrder {
  import opened Options

  datatype Component = Component(name: string, links: seq<string>)

  predicate Blocked(c: Component, had: set<string>) {
    exists l :: l in c.links && l !in had
  }

  function BlockedOf(cs: seq<Component>, had: set<string>): seq<Component> {
    if cs == [] then []
    else BlockedOf(cs[..|cs| - 1], had) + if Blocked(cs[|cs| - 1], had) then [cs[|cs| - 1]] else []
  }

  function ReadyOf(cs: seq<Component>, had: set<string>): seq<Component> {
    if cs == [] then []
    else ReadyOf(cs[..|cs| - 1], had) + if Blocked(cs[|cs| - 1], had) then [] else [cs[|cs| - 1]]
  }

  lemma {:induction false} Partition(cs: seq<Component>, had: set<string>)
    ensures |ReadyOf(cs, had)| + |BlockedOf(cs, had)| == |cs|
    ensures multiset(ReadyOf(cs, had)) + multiset(BlockedOf(cs, had)) == multiset(cs)
  {
    if cs != [] {
      var init, last := cs[..|cs| - 1], cs[|cs| - 1];
      Partition(init, had);
      assert multiset(cs) == multiset(init) + multiset{last} by { assert cs == init + [last]; }
    }
  }

  lemma {:induction false} PartitionMembers(cs: seq<Component>, had: set<string>, c: Component)
    ensures c in BlockedOf(cs, had) <==> c in cs && Blocked(c, had)
    ensures c in ReadyOf(cs, had) <==> c in cs && !Blocked(c, had)
  {
    if cs != [] {
      var init, last := cs[..|cs| - 1], cs[|cs| - 1];
      PartitionMembers(init, had, c);
      assert c in cs <==> c in init || c == last by { assert cs == init + [last]; }
    }
  }

  function Names(cs: seq<Component>): set<string> {
    set c | c in cs :: c.name
  }

  /** The groups still to come when `cs` are left and the names in `had` are started; None on a dead end. */
  function Layers(cs: seq<Component>, had: set<string>): Option<seq<seq<Component>>>
    decreases |cs|
  {
    if cs == [] then Some([])
    else
      var group := ReadyOf(cs, had);
      if group == [] then None
      else
        Partition(cs, had);
        match Layers(BlockedOf(cs, had), had + Names(group))
        case None => None
        case Some(groups) => Some([group] + groups)
  }

  // ---------------------------------------------------------------------------------------
  // The algorithm, over one backing array
  // ---------------------------------------------------------------------------------------

  /**
    One pass: the components that have to wait are moved to the front of the array they are
    read from, which never overwrites one that is still to be read.
  */
  method Pass(next: array<Component>, len: nat, had: set<string>) returns (kept: nat, group: seq<Component>)
    requires len <= next.Length
    modifies next
    ensures kept <= len
    ensures next[..kept] == BlockedOf(old(next[..len]), had)
    ensures group == ReadyOf(old(next[..len]), had)
    ensures next[len..] == old(next[len..])
  {
    ghost var current := next[..len];
    kept, group := 0, [];
    for i := 0 to len
      invariant kept <= i
      invariant forall k :: i <= k < next.Length ==> next[k] == old(next[k])
      invariant next[..kept] == BlockedOf(current[..i], had)
      invariant group == ReadyOf(current[..i], had)
    {
      var component := next[i];
      PartsGrow(current, i, had);
      if exists l :: l in component.links && l !in had {
        ghost var front := next[..kept];
        next[kept] := component;
        assert next[..kept + 1] == front + [component];
        kept := kept + 1;
      } else {
        group := group + [component];
      }
    }
    assert current[..len] == current;
  }

  /** What one more component does to the two parts. */
  lemma PartsGrow(cs: seq<Component>, i: nat, had: set<string>)
    requires i < |cs|
    ensures Blocked(cs[i], had) ==>
      BlockedOf(cs[..i + 1], had) == BlockedOf(cs[..i], had) + [cs[i]] && ReadyOf(cs[..i + 1], had) == ReadyOf(cs[..i], had)
    ensures !Blocked(cs[i], had) ==>
      BlockedOf(cs[..i + 1], had) == BlockedOf(cs[..i], had) && ReadyOf(cs[..i + 1], had) == ReadyOf(cs[..i], had) + [cs[i]]
  {
    assert cs[..i + 1] == cs[..i] + [cs[i]];
    PartsSnoc(cs[..i], cs[i], had);
  }

  lemma PartsSnoc(cs: seq<Component>, c: Component, had: set<string>)
    ensures Blocked(c, had) ==>
      BlockedOf(cs + [c], had) == BlockedOf(cs, had) + [c] && ReadyOf(cs + [c], had) == ReadyOf(cs, had)
    ensures !Blocked(c, had) ==>
      BlockedOf(cs + [c], had) == BlockedOf(cs, had) && ReadyOf(cs + [c], had) == ReadyOf(cs, had) + [c]
  {
  }

  method GroupByLinks(components: seq<Component>) returns (result: Option<seq<seq<Component>>>)
    ensures result == Layers(components, {})
  {
    var had: set<string> := {};
    var next := new Component[|components|](i requires 0 <= i < |components| => components[i]);
    var len: nat := |components|;
    var groups := [];
    assert next[..len] == components;
    PrependStep([], [], Layers(components, {}));
    while len != 0
      invariant len <= next.Length
      invariant Layers(components, {}) == Prepend(groups, Layers(next[..len], had))
      decreases len
    {
      ghost var cs := next[..len];
      Partition(cs, had);
      var kept, group := Pass(next, len, had);
      if group == [] {
        return None;
      }
      PrependStep(groups, group, Layers(BlockedOf(cs, had), had + Names(group)));
      had := had + Names(group);
      groups := groups + [group];
      len := kept;
    }
    assert next[..len] == [] && groups + [] == groups;
    return Some(groups);
  }

  ghost function Prepend(groups: seq<seq<Component>>, rest: Option<seq<seq<Component>>>): Option<seq<seq<Component>>> {
    match rest
    case None => None
    case Some(more) => Some(groups + more)
  }

  lemma PrependStep(groups: seq<seq<Component>>, group: seq<Component>, rest: Option<seq<seq<Component>>>)
    ensures Prepend([], rest) == rest
    ensures Prepend(groups, Prepend([group], rest)) == Prepend(groups + [group], rest)
  {
    if rest.Some? {
      assert [] + rest.value == rest.value;
      assert groups + ([group] + rest.value) == groups + [group] + rest.value;
    }
  }

  // ---------------------------------------------------------------------------------------
  // What the groups are
  // ---------------------------------------------------------------------------------------

  function Flatten(groups: seq<seq<Component>>): seq<Component> {
    if groups == [] then [] else groups[0] + Flatten(groups[1..])
  }

  /** Every link of a component names a component of a strictly earlier group, or one in `had`. */
  ghost predicate Layering(groups: seq<seq<Component>>, had: set<string>) {
    forall g, c, l :: 0 <= g < |groups| && c in groups[g] && l in c.links ==>
      l in had + Names(Flatten(groups[..g]))
  }

  lemma NamesConcat(a: seq<Component>, b: seq<Component>)
    ensures Names(a + b) == Names(a) + Names(b)
  {
  }

  lemma LayeringCons(group: seq<Component>, groups: seq<seq<Component>>, had: set<string>)
    requires forall c :: c in group ==> !Blocked(c, had)
    requires Layering(groups, had + Names(group))
    ensures Layering([group] + groups, had)
  {
    var all := [group] + groups;
    forall g, c: Component, l | 0 <= g < |all| && c in all[g] && l in c.links
      ensures l in had + Names(Flatten(all[..g]))
    {
      if g > 0 {
        assert all[..g] == [group] + groups[..g - 1];
        assert all[..g][1..] == groups[..g - 1];
        NamesConcat(group, Flatten(groups[..g - 1]));
      }
    }
  }

  /** On success the groups hold exactly the given components, and every link points back. */
  lemma {:induction false} LayersSound(cs: seq<Component>, had: set<string>)
    requires Layers(cs, had).Some?
    ensures multiset(Flatten(Layers(cs, had).value)) == multiset(cs)
    ensures Layering(Layers(cs, had).value, had)
    ensures forall g :: 0 <= g < |Layers(cs, had).value| ==> Layers(cs, had).value[g] != []
    decreases |cs|
  {
    if cs != [] {
      var group, rest := ReadyOf(cs, had), BlockedOf(cs, had);
      Partition(cs, had);
      LayersSound(rest, had + Names(group));
      var groups := Layers(rest, had + Names(group)).value;
      assert ([group] + groups)[1..] == groups;
      forall c | c in group ensures !Blocked(c, had) {
        PartitionMembers(cs, had, c);
      }
      LayeringCons(group, groups, had);
    }
  }

  /** A start order: each component comes after components with the names it links to. */
  ghost predicate IsStartOrder(order: seq<Component>, had: set<string>) {
    forall i, l :: 0 <= i < |order| && l in order[i].links ==> l in had + Names(order[..i])
  }

  /** Starting the groups one after the other is a start order of all components. */
  lemma {:induction false} GroupsAreAnOrder(cs: seq<Component>, had: set<string>)
    requires Layers(cs, had).Some?
    ensures IsStartOrder(Flatten(Layers(cs, had).value), had)
    decreases |cs|
  {
    if cs != [] {
      var group, rest := ReadyOf(cs, had), BlockedOf(cs, had);
      Partition(cs, had);
      GroupsAreAnOrder(rest, had + Names(group));
      var groups := Layers(rest, had + Names(group)).value;
      var tail: seq<Component> := Flatten(groups);
      var order: seq<Component> := group + tail;
      assert ([group] + groups)[1..] == groups;
      forall i, l | 0 <= i < |order| && l in order[i].links
        ensures l in had + Names(order[..i])
      {
        if i < |group| {
          PartitionMembers(cs, had, group[i]);
        } else {
          assert order[..i] == group + tail[..i - |group|];
          NamesConcat(group, tail[..i - |group|]);
        }
      }
    }
  }

  /** Components that are all blocked by each other cannot be part of any start order. */
  lemma StuckMeansNoOrder(all: seq<Component>, stuck: seq<Component>, had: set<string>, order: seq<Component>)
    requires stuck != [] && forall c :: c in stuck ==> c in all && Blocked(c, had)
    requires forall c :: c in all ==> c in stuck || c.name in had
    requires multiset(order) == multiset(all)
    ensures !IsStartOrder(order, {})
  {
    assert forall c :: c in order <==> c in multiset(order);
    assert forall c :: c in all <==> c in multiset(all);
    assert stuck[0] in order;
    var p := FirstBlocked(order, had);
    var l :| l in order[p].links && l !in had;
    forall c | c in order[..p] ensures c.name != l {
      assert c in order && !Blocked(c, had);
    }
    assert l !in {} + Names(order[..p]);
  }

  lemma {:induction false} FirstBlocked(order: seq<Component>, had: set<string>) returns (p: nat)
    requires exists c :: c in order && Blocked(c, had)
    ensures p < |order| && Blocked(order[p], had)
    ensures forall c :: c in order[..p] ==> !Blocked(c, had)
  {
    p := 0;
    while !Blocked(order[p], had)
      invariant p < |order|
      invariant forall c :: c in order[..p] ==> !Blocked(c, had)
      invariant exists c :: c in order[p..] && Blocked(c, had)
      decreases |order| - p
    {
      var c :| c in order[p..] && Blocked(c, had);
      assert order[p..] == [order[p]] + order[p + 1..];
      assert c in order[p + 1..];
      assert order[..p + 1] == order[..p] + [order[p]];
      p := p + 1;
    }
  }

  lemma {:induction false} NoneMeansNoOrder(all: seq<Component>, cs: seq<Component>, had: set<string>, order: seq<Component>)
    requires Layers(cs, had).None?
    requires forall c :: c in cs ==> c in all
    requires forall c :: c in all ==> c in cs || c.name in had
    requires multiset(order) == multiset(all)
    ensures !IsStartOrder(order, {})
    decreases |cs|
  {
    var group, rest := ReadyOf(cs, had), BlockedOf(cs, had);
    Partition(cs, had);
    forall c ensures c in cs <==> c in group || c in rest
      ensures c in rest ==> Blocked(c, had)
    {
      PartitionMembers(cs, had, c);
    }
    if group == [] {
      StuckMeansNoOrder(all, cs, had, order);
    } else {
      NoneMeansNoOrder(all, rest, had + Names(group), order);
    }
  }

  /** GroupByLinks fails exactly when no start order of the components exists. */
  lemma FailsIffNoOrder(cs: seq<Component>)
    ensures Layers(cs, {}).None? <==>
      !exists order: seq<Component> :: multiset(order) == multiset(cs) && IsStartOrder(order, {})
  {
    match Layers(cs, {}) {
      case None =>
        forall order: seq<Component> | multiset(order) == multiset(cs) ensures !IsStartOrder(order, {}) {
          NoneMeansNoOrder(cs, cs, {}, order);
        }
      case Some(groups) =>
        LayersSound(cs, {});
        GroupsAreAnOrder(cs, {});
        assert multiset(Flatten(groups)) == multiset(cs) && IsStartOrder(Flatten(groups), {});
    }
  }

  // ---------------------------------------------------------------------------------------
  // The groups are the earliest possible
  // ---------------------------------------------------------------------------------------

  /** The components of the first m groups. */
  function FirstGroups(groups: seq<seq<Component>>, m: nat): seq<Component> {
    Flatten(if m <= |groups| then groups[..m] else groups)
  }

  lemma FirstGroupsCons(group: seq<Component>, groups: seq<seq<Component>>, m: nat)
    requires m > 0
    ensures FirstGroups([group] + groups, m) == group + FirstGroups(groups, m - 1)
  {
    var all := [group] + groups;
    if m <= |all| {
      assert all[..m] == [group] + groups[..m - 1] && all[..m][1..] == groups[..m - 1];
    } else {
      assert all[1..] == groups;
    }
  }

  /** A component that nothing in the first m groups' way blocks is in one of the first m + 1 groups. */
  lemma {:induction false} PlacedAsSoonAsReady(cs: seq<Component>, had: set<string>, m: nat, c: Component)
    requires Layers(cs, had).Some? && c in cs
    requires !Blocked(c, had + Names(FirstGroups(Layers(cs, had).value, m)))
    ensures c in FirstGroups(Layers(cs, had).value, m + 1)
    decreases |cs|
  {
    var group, rest := ReadyOf(cs, had), BlockedOf(cs, had);
    Partition(cs, had);
    PartitionMembers(cs, had, c);
    var groups := Layers(rest, had + Names(group)).value;
    FirstGroupsCons(group, groups, m + 1);
    if m == 0 {
      assert ([group] + groups)[..0] == [];
      assert Names(Flatten([])) == {};
      assert had + {} == had;
    } else if c !in group {
      FirstGroupsCons(group, groups, m);
      NamesConcat(group, FirstGroups(groups, m - 1));
      assert had + Names(group) + Names(FirstGroups(groups, m - 1))
          == had + Names(FirstGroups([group] + groups, m));
      PlacedAsSoonAsReady(rest, had + Names(group), m - 1, c);
    }
  }

  lemma {:induction false} FirstGroupsGrow(groups: seq<seq<Component>>, m: nat, c: Component)
    requires c in FirstGroups(groups, m)
    ensures c in FirstGroups(groups, m + 1)
    decreases |groups|
  {
    if 0 < m < |groups| {
      assert groups == [groups[0]] + groups[1..];
      FirstGroupsCons(groups[0], groups[1..], m);
      FirstGroupsCons(groups[0], groups[1..], m + 1);
      if c !in groups[0] { FirstGroupsGrow(groups[1..], m - 1, c); }
    } else if m == |groups| {
      assert groups[..m] == groups;
    }
  }

  lemma {:induction false} InFlatten(groups: seq<seq<Component>>, c: Component) returns (g: nat)
    requires c in Flatten(groups)
    ensures g < |groups| && c in groups[g]
  {
    if c in groups[0] {
      g := 0;
    } else {
      g := InFlatten(groups[1..], c);
      g := g + 1;
    }
  }

  /**
    Whatever other layering of the same components one takes, GroupByLinks starts every
    component no later: a component of its group m is among the first m + 1 groups.
  */
  lemma {:induction false} EarliestGroup(cs: seq<Component>, other: seq<seq<Component>>, m: nat, c: Component)
    requires Layers(cs, {}).Some?
    requires Layering(other, {}) && forall g, d :: 0 <= g < |other| && d in other[g] ==> d in cs
    requires m < |other| && c in other[m]
    ensures c in FirstGroups(Layers(cs, {}).value, m + 1)
    decreases m
  {
    var groups := Layers(cs, {}).value;
    forall l | l in c.links ensures l in {} + Names(FirstGroups(groups, m)) {
      assert l in {} + Names(Flatten(other[..m]));
      var d :| d in Flatten(other[..m]) && d.name == l;
      var g := InFlatten(other[..m], d);
      EarliestGroup(cs, other, g, d);
      FirstGroupsMono(groups, g + 1, m, d);
    }
    PlacedAsSoonAsReady(cs, {}, m, c);
  }

  lemma {:induction false} FirstGroupsMono(groups: seq<seq<Component>>, m: nat, n: nat, c: Component)
    requires m <= n && c in FirstGroups(groups, m)
    ensures c in FirstGroups(groups, n)
    decreases n - m
  {
    if m < n {
      FirstGroupsGrow(groups, m, c);
      FirstGroupsMono(groups, m + 1, n, c);
    }
  }

  // ---------------------------------------------------------------------------------------
  // Order within a group
  // ---------------------------------------------------------------------------------------

  /** `a` is `b` with some elements left out. */
  ghost predicate Subsequence(a: seq<Component>, b: seq<Component>)
    decreases |b|
  {
    || a == []
    || (b != [] && Subsequence(a, b[..|b| - 1]))
    || (b != [] && a[|a| - 1] == b[|b| - 1] && Subsequence(a[..|a| - 1], b[..|b| - 1]))
  }

  lemma SubsequenceSnoc(a: seq<Component>, b: seq<Component>, x: Component)
    requires Subsequence(a, b)
    ensures Subsequence(a, b + [x]) && Subsequence(a + [x], b + [x])
  {
  }

  lemma {:induction false} PartsAreSubsequences(cs: seq<Component>, had: set<string>)
    ensures Subsequence(ReadyOf(cs, had), cs) && Subsequence(BlockedOf(cs, had), cs)
  {
    if cs != [] {
      var init, last := cs[..|cs| - 1], cs[|cs| - 1];
      PartsAreSubsequences(init, had);
      SubsequenceSnoc(ReadyOf(init, had), init, last);
      SubsequenceSnoc(BlockedOf(init, had), init, last);
      PartsSnoc(init, last, had);
      assert cs == init + [last];
    }
  }

  lemma {:induction false} SubsequenceTrans(a: seq<Component>, b: seq<Component>, c: seq<Component>)
    requires Subsequence(a, b) && Subsequence(b, c)
    ensures Subsequence(a, c)
    decreases |b| + |c|
  {
    if a != [] {
      if Subsequence(b, c[..|c| - 1]) {
        SubsequenceTrans(a, b, c[..|c| - 1]);
      } else if Subsequence(a, b[..|b| - 1]) {
        SubsequenceTrans(a, b[..|b| - 1], c[..|c| - 1]);
      } else {
        SubsequenceTrans(a[..|a| - 1], b[..|b| - 1], c[..|c| - 1]);
      }
    }
  }

  /** Within a group the components keep the order in which they were given. */
  lemma {:induction false} GroupsKeepOrder(cs: seq<Component>, had: set<string>, g: nat)
    requires Layers(cs, had).Some? && g < |Layers(cs, had).value|
    ensures Subsequence(Layers(cs, had).value[g], cs)
    decreases |cs|
  {
    var group, rest := ReadyOf(cs, had), BlockedOf(cs, had);
    Partition(cs, had);
    PartsAreSubsequences(cs, had);
    if g > 0 {
      GroupsKeepOrder(rest, had + Names(group), g - 1);
      SubsequenceTrans(Layers(rest, had + Names(group)).value[g - 1], rest, cs);
    }
  }
}

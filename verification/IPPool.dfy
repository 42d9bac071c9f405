/** The allocator of pod IP addresses: used and usable addresses, and an index of the next new one. */
module IPPool {
  import opened Units

  /** An address as two 64-bit halves. */
  datatype IP = IP(high: nat, low: nat)

  /** addIP: the sum wraps around within the low half. */
  function AddIP(ip: IP, n: nat): IP {
    IP(ip.high, (ip.low + n) % TWO64)
  }

  /** Offset 0 is the address itself, and each further offset the next address, from the last to the first. */
  lemma AddIPCounts(ip: IP, n: nat)
    requires ip.low < TWO64
    ensures AddIP(ip, 0) == ip
    ensures
      var next, after := AddIP(ip, n), AddIP(ip, n + 1);
      next.high == after.high == ip.high && after.low == if next.low == TWO64 - 1 then 0 else next.low + 1
  {
  }

  lemma AddIPInjective(ip: IP, a: nat, b: nat)
    requires a < b < a + TWO64
    ensures AddIP(ip, a) != AddIP(ip, b)
  {
  }

  /** The addresses with indices from a up to b. */
  ghost function Window(ip: IP, a: nat, b: nat): set<IP> {
    set k | a <= k < b :: AddIP(ip, k)
  }

  lemma WindowMembers(ip: IP, a: nat, b: nat)
    ensures forall k :: a <= k < b ==> AddIP(ip, k) in Window(ip, a, b)
  {
  }

  /** Fewer than 2^64 successive addresses are all different. */
  lemma {:induction false} WindowSize(ip: IP, a: nat, b: nat)
    requires a <= b <= a + TWO64
    ensures |Window(ip, a, b)| == b - a
    decreases b
  {
    if a < b {
      WindowSize(ip, a, b - 1);
      forall k | a <= k < b - 1 ensures AddIP(ip, k) != AddIP(ip, b - 1) {
        AddIPInjective(ip, k, b - 1);
      }
      assert AddIP(ip, b - 1) !in Window(ip, a, b - 1);
      assert Window(ip, a, b) == Window(ip, a, b - 1) + {AddIP(ip, b - 1)};
    } else {
      assert Window(ip, a, b) == {};
    }
  }

  lemma WindowGrows(ip: IP, a: nat, b: nat)
    requires a <= b && |Window(ip, a, b)| < TWO64
    ensures b - a < TWO64 && AddIP(ip, b) !in Window(ip, a, b)
    ensures Window(ip, a, b + 1) == Window(ip, a, b) + {AddIP(ip, b)}
  {
    if b - a >= TWO64 {
      WindowSize(ip, a, a + TWO64);
      assert Window(ip, a, a + TWO64) <= Window(ip, a, b);
      SubsetSize(Window(ip, a, a + TWO64), Window(ip, a, b));
      assert false;
    }
    forall k | a <= k < b ensures AddIP(ip, k) != AddIP(ip, b) {
      AddIPInjective(ip, k, b);
    }
  }

  /**
    The loop of new(): it stops right after the first address from `from` on that is not in
    use. If all 2^64 addresses were in use the loop would not end.
  */
  method NextUnused(base: IP, used: set<IP>, from: nat) returns (index: nat)
    requires |used| < TWO64
    ensures from < index && AddIP(base, index - 1) !in used
    ensures forall k :: from <= k < index - 1 ==> AddIP(base, k) in used
  {
    ghost var seen: set<IP> := {};
    var ip := AddIP(base, from);
    index := from + 1;
    while ip in used
      invariant from < index && ip == AddIP(base, index - 1)
      invariant seen == Window(base, from, index - 1) && seen <= used
      decreases |used - seen|
    {
      SubsetSize(seen, used);
      WindowGrows(base, from, index - 1);
      assert used - (seen + {ip}) == (used - seen) - {ip};
      seen := seen + {ip};
      ip := AddIP(base, index);
      index := index + 1;
    }
    WindowMembers(base, from, index - 1);
  }

  // ---------------------------------------------------------------------------------------
  // The pool as a step system
  // ---------------------------------------------------------------------------------------

  datatype Addresses = Addresses(used: set<IP>, usable: set<IP>, index: nat)

  datatype Op = Got(ip: IP) | Given(ip: IP) | Reserved(ip: IP)

  /** Get returns any usable address, or else the first unused one from the index on. */
  ghost predicate Gets(base: IP, a: Addresses, ip: IP, a': Addresses) {
    if a.usable != {}
    then ip in a.usable && a' == Addresses(a.used + {ip}, a.usable - {ip}, a.index)
    else
      && a.index < a'.index && ip == AddIP(base, a'.index - 1) && ip !in a.used
      && (forall k :: a.index <= k < a'.index - 1 ==> AddIP(base, k) in a.used)
      && a'.used == a.used + {ip} && a'.usable == {}
  }

  /** Put of an address outside the block does nothing. */
  function GiveBack(a: Addresses, contains: IP -> bool, ip: IP): Addresses {
    if contains(ip) then a.(used := a.used - {ip}, usable := a.usable + {ip}) else a
  }

  /** Use of an address outside the block does nothing. */
  function Reserve(a: Addresses, contains: IP -> bool, ip: IP): Addresses {
    if contains(ip) then a.(used := a.used + {ip}) else a
  }

  ghost predicate Steps(base: IP, contains: IP -> bool, a: Addresses, op: Op, a': Addresses) {
    match op
    case Got(ip) => Gets(base, a, ip, a')
    case Given(ip) => a' == GiveBack(a, contains, ip)
    case Reserved(ip) => a' == Reserve(a, contains, ip)
  }

  ghost predicate IsHistory(base: IP, contains: IP -> bool, states: seq<Addresses>, ops: seq<Op>) {
    && |states| == |ops| + 1
    && forall i :: 0 <= i < |ops| ==> Steps(base, contains, states[i], ops[i], states[i + 1])
  }

  /** No address that the pool has come to know is ever forgotten. */
  lemma {:induction false} KnownStaysKnown(base: IP, contains: IP -> bool, states: seq<Addresses>, ops: seq<Op>, i: nat)
    requires IsHistory(base, contains, states, ops) && i < |states|
    ensures states[0].used + states[0].usable <= states[i].used + states[i].usable
  {
    if i > 0 {
      KnownStaysKnown(base, contains, states, ops, i - 1);
      assert Steps(base, contains, states[i - 1], ops[i - 1], states[i - 1 + 1]);
    }
  }

  class Pool {
    const base: IP
    const contains: IP -> bool // membership in the CIDR block
    var used: set<IP>
    var usable: set<IP>
    var index: nat // the field is its value modulo 2^64, which AddIP cannot tell apart
    /** The addresses handed out or reserved and not given back since. */
    ghost var outstanding: set<IP>

    function State(): Addresses
      reads this
    {
      Addresses(used, usable, index)
    }

    ghost predicate Valid()
      reads this
    {
      outstanding <= used && outstanding !! usable
    }

    constructor (base: IP, contains: IP -> bool)
      ensures Valid() && this.base == base && this.contains == contains
      ensures State() == Addresses({}, {}, 0) && outstanding == {}
    {
      this.base, this.contains := base, contains;
      used, usable, outstanding, index := {}, {}, {}, 0;
    }

    /** A new address is in use and, until Get takes it out again, usable. */
    method New() returns (ip: IP)
      requires |used| < TWO64
      modifies this`used, this`usable, this`index
      ensures old(index) < index && ip == AddIP(base, index - 1) && ip !in old(used)
      ensures forall k :: old(index) <= k < index - 1 ==> AddIP(base, k) in old(used)
      ensures used == old(used) + {ip} && usable == old(usable) + {ip}
    {
      index := NextUnused(base, used, index);
      ip := AddIP(base, index - 1);
      used := used + {ip};
      usable := usable + {ip};
    }

    /** Get never hands out an outstanding address. */
    method Get() returns (ip: IP)
      requires Valid() && |used| < TWO64
      modifies this
      ensures Valid() && ip !in old(outstanding) && outstanding == old(outstanding) + {ip}
      ensures Gets(base, old(State()), ip, State())
    {
      if usable != {} {
        ip :| ip in usable;
      } else {
        ip := New();
      }
      usable := usable - {ip};
      used := used + {ip};
      outstanding := outstanding + {ip};
    }

    /** Give an address back; one outside the block stays in use. */
    method Put(ip: IP)
      requires Valid()
      modifies this`used, this`usable, this`outstanding
      ensures Valid() && outstanding == old(outstanding) - {ip}
      ensures State() == GiveBack(old(State()), contains, ip)
    {
      outstanding := outstanding - {ip};
      if !contains(ip) {
        return;
      }
      used := used - {ip};
      usable := usable + {ip};
    }

    /** Reserve an address that an object already has; see UseProtects for when that works. */
    method Use(ip: IP)
      requires Valid()
      modifies this`used, this`outstanding
      ensures Valid() && outstanding == old(outstanding) + if contains(ip) && ip !in usable then {ip} else {}
      ensures State() == Reserve(old(State()), contains, ip)
    {
      if !contains(ip) {
        return;
      }
      used := used + {ip};
      if ip !in usable {
        outstanding := outstanding + {ip};
      }
    }
  }

  lemma SubsetSize(a: set<IP>, b: set<IP>)
    requires a <= b
    ensures |a| <= |b|
  {
    if a != {} {
      var x :| x in a;
      SubsetSize(a - {x}, b - {x});
    }
  }

  // ---------------------------------------------------------------------------------------
  // When Use protects an address
  // ---------------------------------------------------------------------------------------

  /** The addresses that new() can come upon. */
  predicate OnLine(base: IP, ip: IP) {
    ip.high == base.high && ip.low < TWO64
  }

  predicate OutOfReach(base: IP, a: Addresses, ip: IP) {
    ip !in a.usable && (ip in a.used || !OnLine(base, ip))
  }

  lemma StepKeepsOutOfReach(base: IP, contains: IP -> bool, a: Addresses, op: Op, a': Addresses, ip: IP)
    requires Steps(base, contains, a, op, a') && OutOfReach(base, a, ip) && op != Given(ip)
    ensures OutOfReach(base, a', ip) && op != Got(ip)
  {
  }

  lemma {:induction false} NeverReturned(base: IP, contains: IP -> bool, states: seq<Addresses>, ops: seq<Op>, ip: IP)
    requires IsHistory(base, contains, states, ops) && OutOfReach(base, states[0], ip) && Given(ip) !in ops
    ensures Got(ip) !in ops
    decreases |ops|
  {
    if ops != [] {
      assert Steps(base, contains, states[0], ops[0], states[1]);
      StepKeepsOutOfReach(base, contains, states[0], ops[0], states[1], ip);
      assert IsHistory(base, contains, states[1..], ops[1..]);
      NeverReturned(base, contains, states[1..], ops[1..], ip);
      assert ops == [ops[0]] + ops[1..];
    }
  }

  /** Some index from `from` on stands for the address. */
  lemma IndexOf(base: IP, ip: IP, from: nat) returns (j: nat)
    requires OnLine(base, ip)
    ensures from <= j && AddIP(base, j) == ip
  {
    j := from + (ip.low - base.low - from) % TWO64;
    assert base.low + j == ip.low - (ip.low - base.low - from) / TWO64 * TWO64;
  }

  /** The first unused address from `from` on. */
  lemma FirstUnused(base: IP, used: set<IP>, from: nat, j: nat) returns (i: nat)
    requires from <= j && AddIP(base, j) !in used
    ensures from <= i <= j && AddIP(base, i) !in used && forall k :: from <= k < i ==> AddIP(base, k) in used
    decreases j - from
  {
    i := from;
    if AddIP(base, from) in used {
      i := FirstUnused(base, used, from + 1, j);
    }
  }

  /** One Get that returns ip or comes closer to it. */
  lemma GetOnce(base: IP, a: Addresses, ip: IP, j: nat) returns (got: IP, a': Addresses)
    requires ip !in a.used && ip == AddIP(base, j) && (ip !in a.usable ==> a.index <= j)
    ensures Gets(base, a, got, a')
    ensures got != ip ==> ip !in a'.used && (ip !in a.usable ==> ip !in a'.usable && a'.index <= j)
    ensures got != ip ==> a'.usable < a.usable || (a'.usable == a.usable && a.index < a'.index)
  {
    if a.usable != {} {
      got :| got in a.usable;
      a' := Addresses(a.used + {got}, a.usable - {got}, a.index);
    } else {
      var i := FirstUnused(base, a.used, a.index, j);
      got := AddIP(base, i);
      a' := Addresses(a.used + {got}, {}, i + 1);
    }
  }

  /** An unused address within reach is handed out after finitely many Gets. */
  lemma {:induction false} GetUntil(base: IP, contains: IP -> bool, a: Addresses, ip: IP, j: nat)
      returns (states: seq<Addresses>, ops: seq<Op>)
    requires ip !in a.used && ip !in a.usable && ip == AddIP(base, j) && a.index <= j
    ensures IsHistory(base, contains, states, ops) && states[0] == a
    ensures Got(ip) in ops && forall op :: op in ops ==> op.Got?
    decreases a.usable, j - a.index
  {
    var got, a' := GetOnce(base, a, ip, j);
    if got == ip {
      states, ops := [a, a'], [Got(ip)];
    } else {
      states, ops := GetUntil(base, contains, a', ip, j);
      states, ops := [a] + states, [Got(got)] + ops;
    }
  }

  /** After Use(ip), no sequence of Get, Put of other addresses and Use returns ip. */
  ghost predicate Protected(base: IP, contains: IP -> bool, a: Addresses, ip: IP) {
    forall states, ops :: IsHistory(base, contains, states, ops) && states[0] == a && Given(ip) !in ops
      ==> Got(ip) !in ops
  }

  /**
    Use protects an address exactly if the address was not usable and is in the block, in use
    already, or not one that new() can make.
  */
  lemma UseProtects(base: IP, contains: IP -> bool, a: Addresses, ip: IP)
    ensures Protected(base, contains, Reserve(a, contains, ip), ip)
            <==> ip !in a.usable && (contains(ip) || ip in a.used || !OnLine(base, ip))
  {
    var a' := Reserve(a, contains, ip);
    if OutOfReach(base, a', ip) {
      forall states, ops | IsHistory(base, contains, states, ops) && states[0] == a' && Given(ip) !in ops
        ensures Got(ip) !in ops
      {
        NeverReturned(base, contains, states, ops, ip);
      }
    } else if ip in a'.usable {
      var states, ops := [a', Addresses(a'.used + {ip}, a'.usable - {ip}, a'.index)], [Got(ip)];
      assert IsHistory(base, contains, states, ops) && Given(ip) !in ops && Got(ip) in ops;
    } else {
      var j := IndexOf(base, ip, a'.index);
      var states, ops := GetUntil(base, contains, a', ip, j);
      assert Given(ip) !in ops;
    }
  }

  /** The failing case: an address that was given back and is then reserved is handed out next. */
  method ReservedAddressIsHandedOut(base: IP, contains: IP -> bool) returns (reserved: IP, got: IP)
    requires contains(AddIP(base, 0))
    ensures contains(reserved) && got == reserved
  {
    var pool := new Pool(base, contains);
    reserved := pool.Get();
    assert reserved == AddIP(base, 0);
    pool.Put(reserved);
    pool.Use(reserved);
    assert pool.usable == {reserved};
    got := pool.Get();
  }
}

/**
  The pace of a replay: before each record the loader sleeps until the record's duration,
  counting the time that applying records takes. With a speed handle the sleeps are divided
  by the handle's speed and the time of applying is multiplied by it, the loader waits while
  the handle pauses, and it slows the handle down when it is more than a second behind.

  As in ReplaySpeed, a speed is an integer in units of 1/100000, so ONE is the speed 1.
*/
module ReplayClock {
  import opened Units
  import opened ReplaySpeed

  function Sum(s: seq<int>): int {
    if s == [] then 0 else Sum(s[..|s| - 1]) + s[|s| - 1]
  }

  /** What the clock, the speed handle and etcd do while one record is handled. */
  datatype Conditions = Conditions(
    takes: nat,            // how long applying the record takes
    late: nat -> nat,      // how much longer than asked for each sleep lasts
    pause: nat -> nat,     // how long the handle pauses before each sleep, and before applying
    speed: nat -> nat)     // the handle's speed at each sleep, and after applying

  /** Every speed that the loader reads is positive and at most `top`. */
  ghost predicate SpeedsUpTo(c: Conditions, top: nat) {
    forall i: nat :: 0 < c.speed(i) <= top
  }

  /** The conditions of a replay without a handle. */
  ghost predicate NoHandle(c: Conditions) {
    forall i: nat :: c.speed(i) == ONE && c.pause(i) == 0
  }

  /** The time asked of a sleep that is to cover `step` of the recording. */
  function Scaled(step: nat, speed: nat): nat
    requires speed > 0
  {
    step * ONE / speed
  }

  /** Rounding costs a sleep less than a nanosecond, which is worth at most `top`. */
  lemma ScaledCovers(step: nat, speed: nat, top: nat)
    requires 0 < speed <= top
    ensures step * ONE <= top * (Scaled(step, speed) + 1)
    ensures speed == ONE ==> Scaled(step, speed) == step
  {
    var n := Scaled(step, speed);
    assert step * ONE < speed * n + speed;
    assert speed * (n + 1) <= top * (n + 1);
  }

  /** The sleep is the longest that does not overrun the step at that speed; a speed above 1 shortens it. */
  lemma ScaledExactly(step: nat, speed: nat, n: nat)
    requires speed > 0
    ensures n * speed <= step * ONE <==> n <= Scaled(step, speed)
    ensures speed >= ONE ==> Scaled(step, speed) <= step
    ensures speed <= ONE ==> Scaled(step, speed) >= step
  {
    QuotientExactly(step * ONE, speed, n);
    QuotientExactly(step * ONE, speed, step);
    QuotientExactly(step * ONE, speed, step + 1);
    if speed >= ONE && step > 0 { ProductGrows(step + 1, ONE, speed); }
    if speed <= ONE { ProductGrows(step, speed, ONE); }
  }

  lemma QuotientExactly(a: nat, b: nat, n: nat)
    requires b > 0
    ensures n * b <= a <==> n <= a / b
  {
    var q := a / b;
    assert a == q * b + a % b;
    if n <= q { ProductGrows(b, n, q); } else { ProductGrows(b, q + 1, n); }
  }

  lemma ProductGrows(a: nat, b: nat, c: nat)
    requires b <= c
    ensures a * b <= a * c
  {
  }

  /** The time of applying counts at most at the top speed. */
  lemma AppliedCovers(takes: nat, speed: nat, top: nat)
    requires 0 < speed <= top
    ensures takes * speed / ONE * ONE <= top * takes
    ensures speed == ONE ==> takes * speed / ONE == takes
  {
    assert takes * speed <= top * takes;
  }

  /** How long after the request the sleeps and the pauses before them end. */
  function Elapsed(slept: seq<int>, c: Conditions): int {
    if slept == [] then 0
    else
      var n := |slept| - 1;
      Elapsed(slept[..n], c) + c.pause(n) + slept[n] + if slept[n] > 0 then c.late(n) else 0
  }

  /** Steps of at most a second, each slept for at the speed of the moment. */
  ghost predicate AsAsked(steps: seq<int>, slept: seq<int>, c: Conditions) {
    && |slept| == |steps|
    && forall i :: 0 <= i < |steps| ==>
         0 < steps[i] <= SECOND && c.speed(i) > 0 && slept[i] == Scaled(steps[i], c.speed(i))
  }

  lemma OneMoreSleep(steps: seq<int>, slept: seq<int>, c: Conditions, step: nat, t: nat)
    requires AsAsked(steps, slept, c) && 0 < step <= SECOND
    requires c.speed(|steps|) > 0 && t == Scaled(step, c.speed(|steps|))
    ensures AsAsked(steps + [step], slept + [t], c) && Sum(steps + [step]) == Sum(steps) + step
    ensures Elapsed(slept + [t], c) == Elapsed(slept, c) + c.pause(|steps|) + t + if t > 0 then c.late(|steps|) else 0
  {
    assert (steps + [step])[..|steps|] == steps && (slept + [t])[..|slept|] == slept;
  }

  lemma {:induction false} ElapsedNonNegative(steps: seq<int>, slept: seq<int>, c: Conditions)
    requires AsAsked(steps, slept, c)
    ensures Elapsed(slept, c) >= 0
    decreases |steps|
  {
    if slept != [] {
      var n := |slept| - 1;
      ElapsedNonNegative(steps[..n], slept[..n], c);
      assert slept[n] == Scaled(steps[n], c.speed(n));
    }
  }

  /** Each record was applied no earlier than the recording gets there at top speed, but for the roundings. */
  ghost predicate Covered(records: seq<int>, applied: seq<int>, top: nat, start: int, roundings: nat) {
    && |applied| == |records|
    && forall i :: 0 <= i < |records| ==> records[i] * ONE <= top * (applied[i] - start + roundings)
  }

  lemma AllCovered(records: seq<int>, applied: seq<int>, top: nat, start: int, roundings: nat, more: nat)
    requires Covered(records, applied, top, start, roundings) && roundings <= more
    ensures Covered(records, applied, top, start, more)
  {
    forall i | 0 <= i < |records| ensures records[i] * ONE <= top * (applied[i] - start + more) {
      CoversLater(records[i] * ONE, top, applied[i] - start + roundings, applied[i] - start + more);
    }
  }

  lemma CoveredSnoc(records: seq<int>, applied: seq<int>, top: nat, start: int, roundings: nat, recorded: int, at: int)
    requires Covered(records, applied, top, start, roundings)
    requires recorded * ONE <= top * (at - start + roundings)
    ensures Covered(records + [recorded], applied + [at], top, start, roundings)
  {
  }

  class Pace {
    const handle: bool
    const top: nat
    const start: int
    var clock: int
    var dur: int
    /** How many sleeps have been scaled, each of which may be short by less than a nanosecond. */
    ghost var roundings: nat

    constructor (now: int, handle: bool, top: nat)
      requires top > 0 && (!handle ==> top == ONE)
      ensures this.handle == handle && this.top == top
      ensures start == clock == now && dur == 0 && roundings == 0 && Valid()
    {
      this.handle, this.top := handle, top;
      start, clock, dur, roundings := now, now, 0, 0;
    }

    /** What is accounted for never runs ahead of what the time that has passed can cover at top speed. */
    ghost predicate Valid()
      reads this
    {
      && top > 0 && (!handle ==> top == ONE && roundings == 0)
      && dur * ONE <= top * (clock - start + roundings)
    }

    /** Time that passes between two records. */
    method Wait(t: nat)
      requires Valid()
      modifies this`clock
      ensures Valid() && clock == old(clock) + t
    {
      CoversLater(dur * ONE, top, clock - start + roundings, clock + t - start + roundings);
      clock := clock + t;
    }

    /** One sleep that is to bring the recording `step` further, `left` before the goal. */
    method Sleep(step: nat, ghost left: nat, speed: nat, pause: nat, late: nat) returns (slept: nat)
      requires step > 0 && 0 < speed <= top && top > 0
      requires !handle ==> speed == ONE == top && pause == 0 && roundings == 0
      requires (dur - left - step) * ONE <= top * (clock - start + roundings)
      modifies this`clock, this`roundings
      ensures (dur - left) * ONE <= top * (clock - start + roundings)
      ensures slept == Scaled(step, speed)
      ensures clock == old(clock) + pause + slept + if slept > 0 then late else 0
      ensures roundings == old(roundings) + if handle then 1 else 0
    {
      slept := if handle then Scaled(step, speed) else step;
      ScaledCovers(step, speed, top);
      ghost var before := clock - start + roundings;
      clock := clock + pause + slept;
      if slept > 0 {
        clock := clock + late;
      }
      if handle {
        roundings := roundings + 1;
      }
      SleepCovers(dur - left - step, step, slept + if handle then 1 else 0, top, before, clock - start + roundings);
    }

    /** How far the record is ahead; `dur` moves to it before the sleeping is done. */
    method SetGoal(recorded: int) returns (gap: nat, slowed: bool)
      requires Valid()
      modifies this`dur
      ensures slowed == (handle && recorded - old(dur) < -SECOND)
      ensures gap == if recorded > old(dur) then recorded - old(dur) else 0
      ensures dur == if recorded > old(dur) || slowed then recorded else old(dur)
      ensures recorded <= dur && (dur - gap) * ONE <= top * (clock - start + roundings)
    {
      slowed := false;
      var d := recorded - dur;
      if d > 0 {
        dur := recorded;
        gap := d;
      } else if d < -SECOND && handle {
        slowed := true;
        dur := recorded;
        gap := 0;
      } else {
        gap := 0;
      }
    }

    /** Sleep until the recording is `gap` further, in steps of at most a second. */
    method SleepFor(gap: nat, c: Conditions) returns (steps: seq<int>, slept: seq<int>)
      requires top > 0 && SpeedsUpTo(c, top) && (!handle ==> NoHandle(c) && top == ONE && roundings == 0)
      requires (dur - gap) * ONE <= top * (clock - start + roundings)
      modifies this`clock, this`roundings
      ensures dur * ONE <= top * (clock - start + roundings)
      ensures Sum(steps) == gap && AsAsked(steps, slept, c)
      ensures clock == old(clock) + Elapsed(slept, c)
      ensures roundings == old(roundings) + if handle then |steps| else 0
    {
      steps, slept := [], [];
      var d: nat := gap;
      while d > 0
        invariant Sum(steps) == gap - d && AsAsked(steps, slept, c)
        invariant (dur - d) * ONE <= top * (clock - start + roundings)
        invariant clock == old(clock) + Elapsed(slept, c)
        invariant roundings == old(roundings) + if handle then |steps| else 0
        decreases d
      {
        var step: nat := SECOND;
        if step > d {
          step := d;
        }
        d := d - step;
        var i := |steps|;
        var t := Sleep(step, d, c.speed(i), c.pause(i), c.late(i));
        OneMoreSleep(steps, slept, c, step, t);
        steps, slept := steps + [step], slept + [t];
      }
    }

    /** Applying a record takes time, which is accounted for at the speed read afterwards. */
    method ApplyTakes(takes: nat, speed: nat)
      requires Valid() && 0 < speed <= top && (!handle ==> speed == ONE)
      modifies this`clock, this`dur
      ensures Valid() && clock == old(clock) + takes && dur == old(dur) + takes * speed / ONE
    {
      var past := if handle then takes * speed / ONE else takes;
      AppliedCovers(takes, speed, top);
      ApplyCovers(dur, past, takes, top, clock - start + roundings);
      clock := clock + takes;
      dur := dur + past;
    }

    /** handleResourcePatch for a record of duration `recorded`. */
    method HandleResourcePatch(recorded: int, c: Conditions)
        returns (steps: seq<int>, slept: seq<int>, slowed: bool, appliedAt: int)
      requires Valid() && SpeedsUpTo(c, top) && (!handle ==> NoHandle(c))
      modifies this`clock, this`dur, this`roundings
      ensures Valid() && recorded * ONE <= top * (appliedAt - start + roundings)
      ensures !handle ==> recorded <= appliedAt - start
      ensures slowed == (handle && recorded - old(dur) < -SECOND)
      ensures Sum(steps) == if recorded > old(dur) then recorded - old(dur) else 0
      ensures AsAsked(steps, slept, c)
      ensures dur == (if recorded > old(dur) || slowed then recorded else old(dur))
                     + c.takes * c.speed(|slept|) / ONE
      ensures appliedAt == old(clock) + Elapsed(slept, c) + c.pause(|slept|) && clock == appliedAt + c.takes
      ensures roundings == old(roundings) + if handle then |steps| else 0
    {
      var gap;
      gap, slowed := SetGoal(recorded);
      steps, slept := SleepFor(gap, c);
      Wait(c.pause(|slept|));
      appliedAt := clock;
      CoversLess(recorded, dur, top * (appliedAt - start + roundings));
      ApplyTakes(c.takes, c.speed(|slept|));
    }

    /**
      A whole replay. Every record is applied no earlier than the recording gets there at the
      top speed, but for less than a nanosecond a sleep, and after the one before it.
    */
    method Play(records: seq<int>, conditions: seq<Conditions>, waits: seq<nat>) returns (applied: seq<int>)
      requires Valid() && |conditions| == |waits| == |records|
      requires forall i :: 0 <= i < |conditions| ==>
        SpeedsUpTo(conditions[i], top) && (!handle ==> NoHandle(conditions[i]))
      modifies this`clock, this`dur, this`roundings
      ensures Valid() && |applied| == |records|
      ensures Covered(records, applied, top, start, roundings)
      ensures !handle ==> forall i :: 0 <= i < |records| ==> start + records[i] <= applied[i]
      ensures forall i, j :: 0 <= i < j < |applied| ==> applied[i] + conditions[i].takes <= applied[j]
    {
      applied := [];
      for i := 0 to |records|
        invariant Valid() && |applied| == i
        invariant Covered(records[..i], applied, top, start, roundings)
        invariant !handle ==> forall k :: 0 <= k < i ==> start + records[k] <= applied[k]
        invariant forall k :: 0 <= k < i ==> applied[k] + conditions[k].takes <= clock
        invariant forall k, m :: 0 <= k < m < i ==> applied[k] + conditions[k].takes <= applied[m]
      {
        Wait(waits[i]);
        ghost var before, rounded := clock, roundings;
        var steps, slept, slowed, at := HandleResourcePatch(records[i], conditions[i]);
        ElapsedNonNegative(steps, slept, conditions[i]);
        assert before <= at;
        AllCovered(records[..i], applied, top, start, rounded, roundings);
        CoveredSnoc(records[..i], applied, top, start, roundings, records[i], at);
        assert records[..i + 1] == records[..i] + [records[i]];
        applied := applied + [at];
      }
      assert records[..|records|] == records;
    }
  }

  lemma CoversLater(amount: int, top: nat, t: int, t': int)
    requires amount <= top * t && t <= t'
    ensures amount <= top * t'
  {
    assert top * t <= top * t';
  }

  lemma CoversLess(less: int, more: int, covered: int)
    ensures less <= more && more * ONE <= covered ==> less * ONE <= covered
  {
  }

  lemma SleepCovers(done: int, step: nat, worth: nat, top: nat, t: int, t': int)
    requires done * ONE <= top * t && step * ONE <= top * worth && t + worth <= t'
    ensures (done + step) * ONE <= top * t'
  {
    assert top * t + top * worth == top * (t + worth);
    CoversLater((done + step) * ONE, top, t + worth, t');
  }

  lemma ApplyCovers(dur: int, past: nat, takes: nat, top: nat, t: int)
    requires dur * ONE <= top * t && past * ONE <= top * takes
    ensures (dur + past) * ONE <= top * (t + takes)
  {
    assert top * t + top * takes == top * (t + takes);
  }
}

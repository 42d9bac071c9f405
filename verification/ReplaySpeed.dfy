/**
  The ladder of replay speeds. A speed s is represented by the integer s * 100000, in which
  the smallest positive speed, 0.0001, is 10.
*/
module ReplaySpeed {

  const BASE := 10
  const ONE := 100_000
  const TEN := 1_000_000

  function Pow10(k: nat): (r: nat)
    ensures r >= 1
  {
    if k == 0 then 1 else 10 * Pow10(k - 1)
  }

  function DigitCount(i: int): nat {
    if i <= 0 then 0 else 1 + DigitCount(i / 10)
  }

  /** A tenth of the leading digit's place value, but no less than the base speed. */
  function StepFor(digits: nat): (r: nat)
    ensures r >= 10
  {
    if digits <= 3 then 10 else 10 * Pow10(digits - 3)
  }

  function Up(n: int): int {
    if n < BASE then BASE else n + StepFor(DigitCount(n))
  }

  function Down(n: int): int {
    if n <= BASE then 0 else n - StepFor(DigitCount(n - 1))
  }

  /** The speeds that have two significant digits, or are multiples of the base speed below 0.01. */
  predicate OnLadder(n: int) {
    n == 0 || (n >= BASE && n % StepFor(DigitCount(n)) == 0)
  }

  lemma {:induction false} Digits(n: int, d: nat)
    requires n > 0
    ensures DigitCount(n) == d <==> d > 0 && Pow10(d - 1) <= n < Pow10(d)
    decreases n
  {
    if n < 10 {
      assert DigitCount(n / 10) == 0;
      if d > 1 { PowGrows(1, d - 1); }
    } else if d > 1 {
      Digits(n / 10, d - 1);
    } else {
      Digits(n / 10, 0);
      assert Pow10(1) == 10;
    }
  }

  lemma {:induction false} PowGrows(a: nat, b: nat)
    requires a <= b
    ensures Pow10(a) <= Pow10(b)
    decreases b - a
  {
    if a < b { PowGrows(a + 1, b); }
  }

  lemma ModUnique(x: int, q: int, r: int, s: int)
    requires s > 0 && x == q * s + r && 0 <= r < s
    ensures x % s == r
  {
    var k := x / s - q;
    assert x == x / s * s + x % s;
    assert k * s == x / s * s - q * s == r - x % s;
    assert -s < k * s < s;
  }

  lemma MultipleMod(k: int, s: int)
    requires s > 0
    ensures (k * s) % s == 0
  {
    ModUnique(k * s, k, 0, s);
  }

  lemma AddMod(a: int, s: int)
    requires s > 0
    ensures (a + s) % s == a % s
  {
    assert a == a / s * s + a % s;
    assert (a / s + 1) * s == a / s * s + s;
    ModUnique(a + s, a / s + 1, a % s, s);
  }

  lemma MulMono(i: int, j: int, s: int)
    requires s > 0 && i <= j
    ensures i * s <= j * s
  {
  }

  lemma MultiplesApart(i: int, j: int, s: int)
    requires s > 0 && i * s < j * s
    ensures i * s + s <= j * s
  {
    if j <= i {
      MulMono(j, i, s);
      assert false;
    }
    MulMono(i + 1, j, s);
  }

  /** Two multiples of s are at least s apart. */
  lemma NextMultiple(a: int, b: int, s: int)
    requires s > 0 && a % s == 0 && b % s == 0 && a < b
    ensures a + s <= b
  {
    var i, j := a / s, b / s;
    assert a == i * s;
    assert b == j * s;
    MultiplesApart(i, j, s);
  }

  /** The powers of ten around a d-digit number are multiples of its step. */
  lemma StepDivides(d: nat)
    requires d >= 2
    ensures Pow10(d - 1) % StepFor(d) == 0 && Pow10(d) % StepFor(d) == 0
  {
    if d <= 3 {
      assert Pow10(1) == 10 && Pow10(2) == 100 && Pow10(3) == 1000;
    } else {
      var s := StepFor(d);
      assert Pow10(d - 2) == s && Pow10(d - 1) == 10 * s && Pow10(d) == 100 * s;
      MultipleMod(10, s);
      MultipleMod(100, s);
    }
  }

  lemma AtLeastTwoDigits(n: int)
    requires n >= 10
    ensures DigitCount(n) >= 2
  {
  }

  /** Down undoes Up everywhere on the ladder, also across a power of ten and at the 0 end. */
  lemma DownUndoesUp(n: int)
    requires OnLadder(n)
    ensures OnLadder(Up(n)) && n < Up(n) && Down(Up(n)) == n
  {
    if n == 0 {
      assert DigitCount(10) == 2;
    } else {
      var d := DigitCount(n);
      var s := StepFor(d);
      AtLeastTwoDigits(n);
      Digits(n, d);
      StepDivides(d);
      NextMultiple(n, Pow10(d), s);
      Digits(n + s - 1, d);
      AddMod(n, s);
      if n + s < Pow10(d) {
        Digits(n + s, d);
      } else {
        StepDivides(d + 1);
        Digits(n + s, d + 1);
      }
    }
  }

  /** Up undoes Down everywhere on the ladder above 0, and Down stays on it. */
  lemma UpUndoesDown(n: int)
    requires OnLadder(n) && n > 0
    ensures OnLadder(Down(n)) && 0 <= Down(n) < n && Up(Down(n)) == n
  {
    if n > BASE {
      var d := DigitCount(n - 1);
      var s := StepFor(d);
      AtLeastTwoDigits(n - 1);
      Digits(n - 1, d);
      StepDivides(d);
      if n < Pow10(d) { Digits(n, d); }
      NextMultiple(Pow10(d - 1), n, s);
      PowGrows(1, d - 1);
      assert Pow10(1) == 10;
      Digits(n - s, d);
      AddMod(n - s, s);
    }
  }

  /** How many digits the speed below Up(n) has. */
  lemma DigitsAfterUp(n: int)
    requires n >= BASE
    ensures
      var d := DigitCount(n);
      && d >= 2
      && DigitCount(n + StepFor(d) - 1) == if n + StepFor(d) <= Pow10(d) then d else d + 1
  {
    var d := DigitCount(n);
    AtLeastTwoDigits(n);
    Digits(n, d);
    PowTimesTen(d);
    Digits(n + StepFor(d) - 1, if n + StepFor(d) <= Pow10(d) then d else d + 1);
  }

  lemma SameStepBack(n: int, d: nat, s: nat)
    requires n >= BASE && d == DigitCount(n) && s == StepFor(d)
    ensures StepFor(DigitCount(n + s - 1)) == s <==> d <= 2 || n + s <= Pow10(d)
  {
    DigitsAfterUp(n);
    StepsDiffer(d);
  }

  lemma DownAfterUp(n: int, s: nat)
    requires n >= BASE && s == StepFor(DigitCount(n))
    ensures Down(Up(n)) == n + s - StepFor(DigitCount(n + s - 1))
  {
  }

  /** Between two powers of ten Up and Down go by the same step. */
  lemma StepsWithinBand(n: int, d: nat, s: nat)
    requires d >= 2 && s == StepFor(d) && Pow10(d - 1) <= n && n + s <= Pow10(d)
    ensures Up(n) == n + s && Down(n + s) == n
  {
    PowGrows(1, d - 1);
    assert Pow10(1) == 10;
    Digits(n, d);
    Digits(n + s - 1, d);
  }

  lemma Band(q: int, e: nat, n: int, m: int)
    requires 10 <= q <= 99 && e >= 1 && n == q * Pow10(e) && m == (q + 1) * Pow10(e)
    ensures StepFor(e + 2) == Pow10(e) && m == n + Pow10(e)
    ensures Pow10(e + 1) <= n && m <= Pow10(e + 2)
  {
  }

  /** On the ladder a key press changes the second significant digit by one. */
  lemma SecondDigitSteps(q: int, e: nat, n: int, m: int)
    requires 10 <= q <= 99 && e >= 1 && n == q * Pow10(e) && m == (q + 1) * Pow10(e)
    ensures Up(n) == m && Down(m) == n
  {
    Band(q, e, n, m);
    StepsWithinBand(n, e + 2, m - n);
  }

  /**
    Off the ladder too, Down undoes Up exactly unless the speed is below the base speed, other
    than 0, or the step leads past a power of ten.
  */
  lemma DownUndoesUpExactly(n: int, d: nat, s: nat)
    requires d == DigitCount(n) && s == StepFor(d)
    ensures Down(Up(n)) == n <==> n == 0 || (n >= BASE && (d <= 2 || n + s <= Pow10(d)))
  {
    if n >= BASE {
      DownAfterUp(n, s);
      SameStepBack(n, d, s);
    }
  }

  lemma StepsDiffer(d: nat)
    requires d >= 2
    ensures StepFor(d + 1) == StepFor(d) <==> d == 2
  {
  }

  lemma PowTimesTen(d: nat)
    requires d >= 2
    ensures StepFor(d) <= Pow10(d - 1) && StepFor(d) <= Pow10(d)
    ensures Pow10(d + 1) == 10 * Pow10(d)
  {
  }

  /** The speed that the keys of the replay terminal change. */
  class Handle {
    var speed: int

    /** On the ladder and between 0.0001 and 10, so that dividing by it is safe. */
    ghost predicate Valid()
      reads this
    {
      OnLadder(speed) && BASE <= speed <= TEN
    }

    constructor ()
      ensures Valid() && speed == ONE
    {
      speed := ONE;
      new;
      assert DigitCount(ONE) == 6 by { Digits(ONE, 6); PowTable(); }
      PowTable();
    }

    method SpeedUp() returns (now: int)
      requires Valid()
      modifies this
      ensures Valid() && now == speed
      ensures speed == if Up(old(speed)) <= TEN then Up(old(speed)) else old(speed)
      ensures speed != old(speed) ==> Down(speed) == old(speed)
    {
      DownUndoesUp(speed);
      var faster := Up(speed);
      if faster <= TEN {
        speed := faster;
      }
      return speed;
    }

    method SpeedDown() returns (now: int)
      requires Valid()
      modifies this
      ensures Valid() && now == speed
      ensures speed == if Down(old(speed)) != 0 then Down(old(speed)) else old(speed)
      ensures speed != old(speed) ==> Up(speed) == old(speed)
    {
      UpUndoesDown(speed);
      var slower := Down(speed);
      if slower != 0 {
        speed := slower;
      }
      return speed;
    }
  }

  lemma PowTable()
    ensures Pow10(5) == 100_000 && Pow10(6) == 1_000_000 && Pow10(3) == 1_000
  {
  }
}

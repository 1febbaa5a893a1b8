/** Addition with carry and subtraction with borrow (posix/c/arithmetic.c), for words of any width.

    Words are numbers below 2 * half (half is 2^63 in the program); sums and differences wrap around. The carry is
    derived from the highest bits of operands and result only. */
module Arithmetic {

  datatype WithCarry = WithCarry(value: nat, carry: nat)

  predicate Top(half: nat, x: nat) { x >= half }

  function AsCarry(b: bool): nat { if b then 1 else 0 }

  function Wrap(half: nat, x: int): (z: nat)
    requires half > 0
    ensures z < 2 * half
  {
    x % (2 * half)
  }

  function Adc(half: nat, x: nat, y: nat, carry: nat): WithCarry
    requires half > 0 && x < 2 * half && y < 2 * half
  {
    var z := Wrap(half, x + y + carry);
    WithCarry(z, AsCarry(if Top(half, z) then Top(half, x) && Top(half, y) else Top(half, x) || Top(half, y)))
  }

  function Sbb(half: nat, x: nat, y: nat, carry: nat): WithCarry
    requires half > 0 && x < 2 * half && y < 2 * half
  {
    var z := Wrap(half, x - y - carry);
    WithCarry(z, AsCarry(if Top(half, x) then Top(half, y) && Top(half, z) else Top(half, y) || Top(half, z)))
  }

  lemma WrapOnce(half: nat, x: int)
    requires half > 0 && -2 * half <= x < 4 * half
    ensures Wrap(half, x) == if x < 0 then x + 2 * half else if x < 2 * half then x else x - 2 * half
  {
    var w := 2 * half;
    var q := x / w;
    assert x == w * q + x % w;
    var k := if x < 0 then -1 else if x < w then 0 else 1;
    SmallQuotient(w, q, k, x % w, x);
  }

  lemma SmallQuotient(w: nat, q: int, k: int, r: int, x: int)
    requires w > 0 && x == w * q + r && 0 <= r < w && w * k <= x < w * k + w
    ensures q == k
  {
    if q < k {
      Times(w, q + 1, k);
    } else if q > k {
      Times(w, k + 1, q);
    }
  }

  lemma Times(w: nat, a: int, b: int)
    requires a <= b
    ensures w * a <= w * b
  {
  }

  /** With a carry of 0 or 1, value and carry of the result are the exact sum. */
  lemma AdcExact(half: nat, x: nat, y: nat, carry: nat)
    requires half > 0 && x < 2 * half && y < 2 * half && carry <= 1
    ensures var r := Adc(half, x, y, carry);
      r.value < 2 * half && r.carry <= 1 && r.value + 2 * half * r.carry == x + y + carry
  {
    WrapOnce(half, x + y + carry);
  }

  lemma SbbExact(half: nat, x: nat, y: nat, carry: nat)
    requires half > 0 && x < 2 * half && y < 2 * half && carry <= 1
    ensures var r := Sbb(half, x, y, carry);
      r.value < 2 * half && r.carry <= 1 && r.value - 2 * half * r.carry == x - y - carry
  {
    WrapOnce(half, x - y - carry);
  }

  /** Value and carry of adc are the exact sum of all operands. */
  ghost predicate AlwaysExact(half: nat, carry: nat)
    requires half > 0
  {
    forall x: nat, y: nat {:trigger Adc(half, x, y, carry)} :: x < 2 * half && y < 2 * half ==>
      var r := Adc(half, x, y, carry); r.value + 2 * half * r.carry == x + y + carry
  }

  /** Of the carries that the parameter admits, only 0 and 1 are added exactly: with a larger one the sum of two
      operands whose highest bits are clear can overflow, which the highest bits do not show. */
  lemma ExactIff(half: nat, carry: nat)
    requires half > 0 && carry < 2 * half
    ensures AlwaysExact(half, carry) <==> carry <= 1
  {
    if carry <= 1 {
      forall x: nat, y: nat | x < 2 * half && y < 2 * half
        ensures var r := Adc(half, x, y, carry); r.value + 2 * half * r.carry == x + y + carry
      {
        AdcExact(half, x, y, carry);
      }
    } else {
      var x: nat := half - 1;
      WrapOnce(half, x + x + carry);
      SmallCarry(half, carry);
      assert Adc(half, x, x, carry).value + 2 * half * Adc(half, x, x, carry).carry != x + x + carry;
    }
  }

  lemma SmallCarry(half: nat, carry: nat)
    requires half > 0 && 2 <= carry < 2 * half
    ensures Adc(half, half - 1, half - 1, carry) == WithCarry(carry - 2, 0)
  {
    WrapOnce(half, half - 1 + half - 1 + carry);
  }

  /** Value and borrow of sbb are the exact difference of all operands. */
  ghost predicate AlwaysExactDifference(half: nat, carry: nat)
    requires half > 0
  {
    forall x: nat, y: nat {:trigger Sbb(half, x, y, carry)} :: x < 2 * half && y < 2 * half ==>
      var r := Sbb(half, x, y, carry); r.value - 2 * half * r.carry == x - y - carry
  }

  /** Likewise, a larger borrow can take a difference of 1 below 0 unnoticed. */
  lemma DifferenceExactIff(half: nat, carry: nat)
    requires half > 0 && carry < 2 * half
    ensures AlwaysExactDifference(half, carry) <==> carry <= 1
  {
    if carry <= 1 {
      forall x: nat, y: nat | x < 2 * half && y < 2 * half
        ensures var r := Sbb(half, x, y, carry); r.value - 2 * half * r.carry == x - y - carry
      {
        SbbExact(half, x, y, carry);
      }
    } else {
      var x: nat, y: nat := half, half - 1;
      SmallBorrow(half, carry);
      assert Sbb(half, x, y, carry).value - 2 * half * Sbb(half, x, y, carry).carry != x - y - carry;
    }
  }

  lemma SmallBorrow(half: nat, carry: nat)
    requires half > 0 && 2 <= carry < 2 * half
    ensures Sbb(half, half, half - 1, carry) == WithCarry(2 * half + 1 - carry, 0)
  {
    WrapOnce(half, half - (half - 1) - carry);
  }

  // ---------------------------------------------------------------- numbers of several words, lowest first

  datatype Chained = Chained(words: seq<nat>, carry: nat)

  predicate Words(half: nat, x: seq<nat>) { forall i :: 0 <= i < |x| ==> x[i] < 2 * half }

  function Value(half: nat, x: seq<nat>): nat {
    if x == [] then 0 else x[0] + 2 * half * Value(half, x[1..])
  }

  function Power(half: nat, n: nat): nat { if n == 0 then 1 else 2 * half * Power(half, n - 1) }

  /** The carry of each word goes into the next. */
  function Add(half: nat, x: seq<nat>, y: seq<nat>, carry: nat): (r: Chained)
    requires half > 0 && Words(half, x) && Words(half, y) && |x| == |y|
    ensures |r.words| == |x|
  {
    if x == [] then Chained([], carry)
    else
      var low := Adc(half, x[0], y[0], carry);
      var high := Add(half, x[1..], y[1..], low.carry);
      Chained([low.value] + high.words, high.carry)
  }

  function Subtract(half: nat, x: seq<nat>, y: seq<nat>, carry: nat): (r: Chained)
    requires half > 0 && Words(half, x) && Words(half, y) && |x| == |y|
    ensures |r.words| == |x|
  {
    if x == [] then Chained([], carry)
    else
      var low := Sbb(half, x[0], y[0], carry);
      var high := Subtract(half, x[1..], y[1..], low.carry);
      Chained([low.value] + high.words, high.carry)
  }

  /** Chaining adc gives the exact sum: the words of the result and the last carry. */
  lemma {:induction false} AddExact(half: nat, x: seq<nat>, y: seq<nat>, carry: nat)
    requires half > 0 && Words(half, x) && Words(half, y) && |x| == |y| && carry <= 1
    ensures var r := Add(half, x, y, carry);
      && Words(half, r.words) && r.carry <= 1
      && Value(half, r.words) + r.carry * Power(half, |x|) == Value(half, x) + Value(half, y) + carry
  {
    if x != [] {
      AdcExact(half, x[0], y[0], carry);
      var low := Adc(half, x[0], y[0], carry);
      AddExact(half, x[1..], y[1..], low.carry);
      var high := Add(half, x[1..], y[1..], low.carry);
      var r := Add(half, x, y, carry);
      assert r.words[1..] == high.words;
      Carried(2 * half, Value(half, high.words), high.carry, Power(half, |x| - 1), Value(half, x[1..]),
        Value(half, y[1..]), low.carry);
    }
  }

  /** One word up, a sum is multiplied by the size of a word. */
  lemma Carried(w: int, v: int, c: int, p: int, a: int, b: int, d: int)
    requires v + c * p == a + b + d
    ensures w * v + c * (w * p) == w * a + w * b + w * d
  {
    calc {
      w * v + c * (w * p);
      w * v + w * (c * p);
      w * (v + c * p);
      w * (a + b + d);
      w * a + w * b + w * d;
    }
  }

  lemma Borrowed(w: int, v: int, c: int, p: int, a: int, b: int, d: int)
    requires v - c * p == a - b - d
    ensures w * v - c * (w * p) == w * a - w * b - w * d
  {
    calc {
      w * v - c * (w * p);
      w * v - w * (c * p);
      w * (v - c * p);
      w * (a - b - d);
      w * a - w * b - w * d;
    }
  }

  /** Chaining sbb gives the exact difference, less the last borrow. */
  lemma {:induction false} SubtractExact(half: nat, x: seq<nat>, y: seq<nat>, carry: nat)
    requires half > 0 && Words(half, x) && Words(half, y) && |x| == |y| && carry <= 1
    ensures var r := Subtract(half, x, y, carry);
      && Words(half, r.words) && r.carry <= 1
      && Value(half, r.words) - r.carry * Power(half, |x|) == Value(half, x) - Value(half, y) - carry
  {
    if x != [] {
      SbbExact(half, x[0], y[0], carry);
      var low := Sbb(half, x[0], y[0], carry);
      SubtractExact(half, x[1..], y[1..], low.carry);
      var high := Subtract(half, x[1..], y[1..], low.carry);
      var r := Subtract(half, x, y, carry);
      assert r.words[1..] == high.words;
      Borrowed(2 * half, Value(half, high.words), high.carry, Power(half, |x| - 1), Value(half, x[1..]),
        Value(half, y[1..]), low.carry);
    }
  }

  lemma SbbUndoesAdc(half: nat, x: nat, y: nat, carry: nat)
    requires half > 0 && x < 2 * half && y < 2 * half && carry <= 1
    ensures var r := Adc(half, x, y, carry); r.value < 2 * half && Sbb(half, r.value, y, carry) == WithCarry(x, r.carry)
  {
    AdcExact(half, x, y, carry);
    var r := Adc(half, x, y, carry);
    var back := Sbb(half, r.value, y, carry);
    SbbExact(half, r.value, y, carry);
    hide Adc, Sbb;
    SameDigits(2 * half, back.value, back.carry, x, r.carry);
  }

  lemma SameDigits(w: nat, x: nat, b: nat, y: nat, c: nat)
    requires x < w && y < w && b <= 1 && c <= 1 && x - w * b == y - w * c
    ensures x == y && b == c
  {
    assert b == 0 || b == 1;
    assert c == 0 || c == 1;
  }

  /** Subtracting undoes adding, and borrows exactly when the addition carried. */
  lemma {:induction false} SubtractUndoesAdd(half: nat, x: seq<nat>, y: seq<nat>, carry: nat)
    requires half > 0 && Words(half, x) && Words(half, y) && |x| == |y| && carry <= 1
    ensures var r := Add(half, x, y, carry);
      Words(half, r.words) && Subtract(half, r.words, y, carry) == Chained(x, r.carry)
  {
    AddExact(half, x, y, carry);
    if x != [] {
      AdcExact(half, x[0], y[0], carry);
      SbbUndoesAdc(half, x[0], y[0], carry);
      SubtractUndoesAdd(half, x[1..], y[1..], Adc(half, x[0], y[0], carry).carry);
      hide Adc, Sbb, Value, Power;
      var r := Add(half, x, y, carry);
      assert r.words[1..] == Add(half, x[1..], y[1..], Adc(half, x[0], y[0], carry).carry).words;
    }
  }
}

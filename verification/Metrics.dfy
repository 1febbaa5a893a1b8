/** The string metrics flashsort is used with (posix/lib/fsort-metrics.c), in exact arithmetic. */
module Metrics {
  import opened Bytes
  import opened Order

  /** strcmp compares characters as unsigned char. */
  function StrCmp(s: CString, t: CString): int {
    if s == [] && t == [] then 0
    else if s == [] then -t[0]
    else if t == [] then s[0]
    else if s[0] != t[0] then s[0] - t[0]
    else StrCmp(s[1..], t[1..])
  }

  lemma {:induction false} StrCmpFlip(s: CString, t: CString)
    ensures StrCmp(t, s) == -StrCmp(s, t)
  {
    if s != [] && t != [] && s[0] == t[0] { StrCmpFlip(s[1..], t[1..]); }
  }

  lemma {:induction false} StrCmpTransitive(s: CString, t: CString, u: CString)
    requires StrCmp(s, t) <= 0 && StrCmp(t, u) <= 0
    ensures StrCmp(s, u) <= 0
  {
    if s != [] && t != [] && u != [] && s[0] == t[0] == u[0] { StrCmpTransitive(s[1..], t[1..], u[1..]); }
  }

  lemma StrCmpPreorder()
    ensures TotalPreorder(StrCmp)
  {
    forall x: CString, y: CString ensures StrCmp(x, y) < 0 <==> StrCmp(y, x) > 0 {
      StrCmpFlip(x, y);
    }
    forall x: CString, y: CString, z: CString | StrCmp(x, y) <= 0 && StrCmp(y, z) <= 0 ensures StrCmp(x, z) <= 0 {
      StrCmpTransitive(x, y, z);
    }
  }

  // ---------------------------------------------------------------- positional expansions

  /** The string read as a number: first digit in front of the point, each further digit base times less. */
  function Expand(digit: CChar -> real, base: real, s: CString): real
    requires base > 0.0
  {
    if s == [] then 0.0 else digit(s[0]) + Expand(digit, base, s[1..]) / base
  }

  /** Digits far enough apart that everything that can follow a digit stays below the next digit. */
  ghost predicate Spaced(digit: CChar -> real, base: real, gap: real) {
    && base > 1.0 && gap > 0.0
    && (forall b :: 0.0 < digit(b) <= (base - 1.0) * gap)
    && (forall b, c :: b < c ==> digit(b) + gap <= digit(c))
  }

  lemma DivBelow(x: real, base: real, gap: real)
    requires base > 0.0 && 0.0 <= x < base * gap
    ensures 0.0 <= x / base < gap
  {
    var q := x / base;
    assert q * base == x;
    if q >= gap { MulLeq(gap, q, base); }
  }

  lemma MulLeq(x: real, y: real, z: real)
    requires x <= y && z >= 0.0
    ensures x * z <= y * z
  {
    assert y * z == x * z + (y - x) * z;
  }

  lemma {:induction false} ExpandBound(digit: CChar -> real, base: real, gap: real, s: CString)
    requires Spaced(digit, base, gap)
    ensures 0.0 <= Expand(digit, base, s) < base * gap
    ensures s != [] ==> Expand(digit, base, s) >= digit(s[0])
  {
    assert base * gap > 0.0;
    if s != [] {
      ExpandBound(digit, base, gap, s[1..]);
      DivBelow(Expand(digit, base, s[1..]), base, gap);
    }
  }

  lemma DivLess(x: real, y: real, base: real)
    requires base > 0.0 && x < y
    ensures x / base < y / base
  {
    var p, q := x / base, y / base;
    assert p * base == x && q * base == y;
    if p >= q { MulLeq(q, p, base); }
  }

  /** With spaced digits the expansion is strictly monotone in strcmp order. */
  lemma {:induction false} ExpandMonotone(digit: CChar -> real, base: real, gap: real, s: CString, t: CString)
    requires Spaced(digit, base, gap) && StrCmp(s, t) < 0
    ensures Expand(digit, base, s) < Expand(digit, base, t)
  {
    ExpandBound(digit, base, gap, t);
    if s != [] {
      if s[0] != t[0] {
        ExpandBound(digit, base, gap, s[1..]);
        DivBelow(Expand(digit, base, s[1..]), base, gap);
      } else {
        ExpandMonotone(digit, base, gap, s[1..], t[1..]);
        DivLess(Expand(digit, base, s[1..]), Expand(digit, base, t[1..]), base);
      }
    }
  }

  lemma {:induction false} StrCmpZero(s: CString, t: CString)
    ensures StrCmp(s, t) == 0 <==> s == t
  {
    if s != [] && t != [] && s[0] == t[0] {
      StrCmpZero(s[1..], t[1..]);
      assert s == [s[0]] + s[1..] && t == [t[0]] + t[1..];
    }
  }

  /** The metric decides exactly as strcmp does. */
  lemma ExpandAgrees(digit: CChar -> real, base: real, gap: real, s: CString, t: CString)
    requires Spaced(digit, base, gap)
    ensures StrCmp(s, t) < 0 <==> Expand(digit, base, s) < Expand(digit, base, t)
    ensures s == t <==> Expand(digit, base, s) == Expand(digit, base, t)
  {
    StrCmpZero(s, t);
    StrCmpFlip(s, t);
    if StrCmp(s, t) < 0 { ExpandMonotone(digit, base, gap, s, t); }
    if StrCmp(t, s) < 0 { ExpandMonotone(digit, base, gap, t, s); }
  }

  // ---------------------------------------------------------------- exactly when an expansion is monotone

  ghost predicate OrdersStrings(digit: CChar -> real, base: real)
    requires base > 0.0
  {
    forall s, t :: StrCmp(s, t) < 0 ==> Expand(digit, base, s) < Expand(digit, base, t)
  }

  /** Checkable on the digits alone: no zero digit, and steps not smaller than what the greatest digit can add up to. */
  ghost predicate WideSteps(digit: CChar -> real, base: real) {
    (forall b :: digit(b) > 0.0) && (forall b, c :: b < c ==> WideStep(digit, base, b, c))
  }

  ghost predicate WideStep(digit: CChar -> real, base: real, b: CChar, c: CChar) {
    (digit(c) - digit(b)) * (base - 1.0) >= digit(255)
  }

  function Power(base: real, k: nat): (p: real)
    requires base >= 2.0
    ensures p >= k as real + 1.0
  {
    if k == 0 then 1.0 else base * Power(base, k - 1)
  }

  /** The greatest strings of length k. */
  function Repeat(k: nat): CString { if k == 0 then [] else [255] + Repeat(k - 1) }

  /** The geometric sum: e is the expansion of k digits d, where p is the k-th power of the base. */
  ghost predicate GeometricSum(d: real, base: real, p: real, e: real) {
    e * (base - 1.0) * p == d * base * (p - 1.0)
  }

  lemma {:induction false} ExpandRepeat(digit: CChar -> real, base: real, k: nat)
    requires base >= 2.0
    ensures GeometricSum(digit(255), base, Power(base, k), Expand(digit, base, Repeat(k)))
  {
    if k > 0 {
      ExpandRepeat(digit, base, k - 1);
      assert Repeat(k)[1..] == Repeat(k - 1);
      GeometricStep(digit(255), base, Power(base, k - 1), Expand(digit, base, Repeat(k - 1)));
    }
  }

  lemma GeometricStep(d: real, base: real, p: real, e: real)
    requires base >= 2.0 && GeometricSum(d, base, p, e)
    ensures GeometricSum(d, base, base * p, d + e / base)
  {
    var q := e / base;
    QuotientTimes(e, base);
    RepeatAlgebra(d, q, base, p);
  }

  lemma QuotientTimes(x: real, y: real)
    requires y != 0.0
    ensures (x / y) * y == x
  {
  }

  lemma RepeatAlgebra(d: real, q: real, base: real, p: real)
    requires (q * base) * (base - 1.0) * p == d * base * (p - 1.0)
    ensures (d + q) * (base - 1.0) * (base * p) == d * base * (base * p - 1.0)
  {
    var c := base - 1.0;
    assert (d + q) * c * (base * p) == d * c * (base * p) + (q * base) * c * p;
    assert d * c * (base * p) + d * base * (p - 1.0) == d * base * (c * p + p - 1.0);
    assert c * p + p == base * p;
  }

  /** b followed by k greatest bytes stays below c > b: what that says about the digits. */
  lemma TailFits(digit: CChar -> real, base: real, b: CChar, c: CChar, k: nat)
    requires base >= 2.0 && OrdersStrings(digit, base) && b < c
    ensures Expand(digit, base, Repeat(k)) / base < digit(c) - digit(b)
  {
    var s: CString, t: CString := [b] + Repeat(k), [c];
    assert StrCmp(s, t) < 0;
    ExpandCons(digit, base, b, Repeat(k));
    ExpandCons(digit, base, c, []);
    assert t == [c] + [];
    hide Expand, StrCmp;
  }

  lemma ExpandCons(digit: CChar -> real, base: real, b: CChar, s: CString)
    requires base > 0.0
    ensures Expand(digit, base, [b] + s) == digit(b) + (if s == [] then 0.0 else Expand(digit, base, s) / base)
    ensures Expand(digit, base, s) / base == if s == [] then 0.0 else Expand(digit, base, s) / base
  {
    var u := [b] + s;
    assert u[0] == b && u[1..] == s;
  }

  lemma StepsNecessary(digit: CChar -> real, base: real, b: CChar, c: CChar)
    requires base >= 2.0 && OrdersStrings(digit, base) && b < c && digit(255) > 0.0
    ensures WideStep(digit, base, b, c)
  {
    hide OrdersStrings, Power, Expand;
    var step, m := digit(c) - digit(b), digit(255);
    var g := step * (base - 1.0);
    if g < m {
      QuotientPositive(m, m - g);
      var k: nat := (m / (m - g)).Floor + 1;
      TailFits(digit, base, b, c, k);
      ExpandRepeat(digit, base, k);
      TailTooLong(m, g, base, Expand(digit, base, Repeat(k)), Power(base, k), k, step);
    }
  }

  lemma QuotientPositive(x: real, y: real)
    requires x > 0.0 && y > 0.0
    ensures (x / y).Floor >= 0 && (x / y) * y == x
  {
    var q := x / y;
    assert q * y == x;
    if q < 0.0 { MulStrict(q, 0.0, y); }
  }

  lemma TailTooLong(m: real, g: real, base: real, e: real, p: real, k: nat, step: real)
    requires base >= 2.0 && m > 0.0 && g < m && g == step * (base - 1.0)
    requires p >= k as real + 1.0 && k as real > m / (m - g)
    requires GeometricSum(m, base, p, e)
    ensures e / base >= step
  {
    var c, q := base - 1.0, e / base;
    assert q * base == e;
    assert q * c * p == m * (p - 1.0) by {
      assert (q * c * p) * base == (m * (p - 1.0)) * base;
      Cancel(q * c * p, m * (p - 1.0), base);
    }
    QuotientPositive(m, m - g);
    MulLeq(m / (m - g), p, m - g);
    assert m <= p * (m - g);
    assert g * p <= q * c * p;
    assert (step * c) * p <= (q * c) * p;
    if q < step {
      MulStrict(q, step, c);
      MulStrict(q * c, step * c, p);
    }
  }

  lemma MulStrict(x: real, y: real, z: real)
    requires x < y && z > 0.0
    ensures x * z < y * z
  {
    assert y * z == x * z + (y - x) * z;
  }

  lemma Cancel(x: real, y: real, z: real)
    requires z > 0.0 && x * z == y * z
    ensures x == y
  {
    if x < y { MulStrict(x, y, z); }
    if y < x { MulStrict(y, x, z); }
  }

  /** An expansion orders all strings as strcmp does if and only if the steps between its digits are wide enough. */
  lemma OrdersStringsIff(digit: CChar -> real, base: real)
    requires base >= 2.0
    ensures OrdersStrings(digit, base) <==> WideSteps(digit, base)
  {
    if OrdersStrings(digit, base) {
      forall b ensures digit(b) > 0.0 {
        var s: CString, t: CString := [], [b];
        assert StrCmp(s, t) < 0 && t[1..] == [];
      }
      forall b, c | b < c ensures WideStep(digit, base, b, c) {
        StepsNecessary(digit, base, b, c);
      }
    }
    if WideSteps(digit, base) {
      var gap := digit(255) / (base - 1.0);
      WideStepsSpaced(digit, base, gap);
      SpacedOrders(digit, base, gap);
    }
  }

  lemma SpacedOrders(digit: CChar -> real, base: real, gap: real)
    requires Spaced(digit, base, gap)
    ensures OrdersStrings(digit, base)
  {
    forall s, t | StrCmp(s, t) < 0 ensures Expand(digit, base, s) < Expand(digit, base, t) {
      ExpandMonotone(digit, base, gap, s, t);
    }
  }

  lemma WideStepsSpaced(digit: CChar -> real, base: real, gap: real)
    requires base >= 2.0 && WideSteps(digit, base) && gap == digit(255) / (base - 1.0)
    ensures Spaced(digit, base, gap)
  {
    PositiveQuotient(digit(255), base - 1.0);
    assert (base - 1.0) * gap == digit(255);
    hide WideStep;
    forall x: CChar, y: CChar | x < y ensures digit(x) + gap <= digit(y) {
      StepAtLeast(digit, base, gap, x, y);
    }
  }

  lemma StepAtLeast(digit: CChar -> real, base: real, gap: real, b: CChar, c: CChar)
    requires base > 1.0 && WideStep(digit, base, b, c) && gap == digit(255) / (base - 1.0)
    ensures digit(b) + gap <= digit(c)
  {
    var step := digit(c) - digit(b);
    QuotientTimes(digit(255), base - 1.0);
    if step < gap { MulStrict(step, gap, base - 1.0); }
  }

  // ---------------------------------------------------------------- the two metrics

  function FullDigit(b: CChar): real { b as real }

  /** metric_str_full, as a function. */
  function StrFull(s: CString): real { Expand(FullDigit, 256.0, s) }

  lemma FullSpaced()
    ensures Spaced(FullDigit, 256.0, 1.0)
  {
  }

  /** The accumulating loop of both metrics. */
  method Accumulate(digit: CChar -> real, base: real, str: CString) returns (result: real)
    requires base > 0.0
    ensures result == Expand(digit, base, str)
  {
    var i := 0;
    result := 0.0;
    var factor := 1.0;
    while i < |str| && factor > 0.0
      invariant 0 <= i <= |str| && factor > 0.0
      invariant result + Expand(digit, base, str[i..]) * factor == Expand(digit, base, str)
    {
      AccumulateStep(digit, base, str[i..], result, factor);
      result := result + digit(str[i]) * factor;
      PositiveQuotient(factor, base);
      factor := factor / base;
      assert str[i..][1..] == str[i + 1..];
      i := i + 1;
    }
    assert Expand(digit, base, str[i..]) == 0.0;
  }

  lemma PositiveQuotient(x: real, y: real)
    requires x > 0.0 && y > 0.0
    ensures x / y > 0.0
  {
  }

  lemma AccumulateStep(digit: CChar -> real, base: real, rest: CString, result: real, factor: real)
    requires base > 0.0 && rest != []
    ensures result + Expand(digit, base, rest) * factor
         == result + digit(rest[0]) * factor + Expand(digit, base, rest[1..]) * (factor / base)
  {
    var e := Expand(digit, base, rest[1..]);
    assert (digit(rest[0]) + e / base) * factor == digit(rest[0]) * factor + (e / base) * factor;
    SwapDivision(e, base, factor);
  }

  lemma SwapDivision(x: real, base: real, y: real)
    requires base > 0.0
    ensures (x / base) * y == x * (y / base)
  {
    var p, q := x / base, y / base;
    assert p * base == x && q * base == y;
    assert p * (q * base) == (p * base) * q;
  }

  /** The first byte counts in full, everything behind it 256 times less. */
  lemma StrFullFirst(b: CChar, s: CString)
    ensures StrFull([]) == 0.0 && StrFull([b] + s) == b as real + StrFull(s) / 256.0
  {
    ExpandCons(FullDigit, 256.0, b, s);
  }

  /** The metric decides exactly as strcmp does. */
  lemma StrFullOrders(s: CString, t: CString)
    ensures StrCmp(s, t) < 0 <==> StrFull(s) < StrFull(t)
    ensures s == t <==> StrFull(s) == StrFull(t)
  {
    FullSpaced();
    ExpandAgrees(FullDigit, 256.0, 1.0, s, t);
  }

  function Power256(k: nat): (p: nat)
    ensures p > 0
  {
    if k == 0 then 1 else 256 * Power256(k - 1)
  }

  /** The number that is written with the bytes of s as digits to base 256, the highest first. */
  function Number(s: CString): nat {
    if s == [] then 0 else 256 * Number(s[..|s| - 1]) + s[|s| - 1]
  }

  /** Each byte is the digit of its place. */
  lemma {:induction false} NumberDigits(s: CString, i: nat)
    requires i < |s|
    ensures Number(s) / Power256(|s| - 1 - i) % 256 == s[i]
  {
    var front, last := s[..|s| - 1], s[|s| - 1];
    if i < |s| - 1 {
      NumberDigits(front, i);
      DropDigit(Number(front), last, Power256(|front| - 1 - i));
    }
  }

  lemma DropDigit(x: nat, b: nat, p: nat)
    requires b < 256 && p > 0
    ensures (256 * x + b) / (256 * p) == x / p
  {
    var q, r := x / p, x % p;
    assert 256 * x + b == (256 * p) * q + (256 * r + b);
    QuotientIs(256 * x + b, 256 * p, q, 256 * r + b);
  }

  lemma QuotientIs(x: nat, d: nat, q: nat, r: nat)
    requires d > 0 && x == d * q + r && r < d
    ensures x / d == q
  {
    assert x == d * (x / d) + x % d;
    QuotientUnique(d, q, r, x / d, x % d);
  }

  lemma QuotientUnique(d: nat, q: nat, r: nat, k: nat, m: nat)
    requires d * q + r == d * k + m && r < d && m < d
    ensures q == k
  {
    if q < k { TimesMore(d, q, k); }
    if k < q { TimesMore(d, k, q); }
  }

  lemma {:induction false} TimesMore(d: nat, q: nat, k: nat)
    requires q < k
    ensures d * q + d <= d * k
    decreases k
  {
    OnceMore(d, k - 1);
    if q < k - 1 { TimesMore(d, q, k - 1); }
  }

  lemma OnceMore(d: nat, k: nat)
    ensures d * (k + 1) == d * k + d
  {
  }

  lemma {:induction false} NumberFirst(s: CString)
    requires s != []
    ensures Number(s) == s[0] * Power256(|s| - 1) + Number(s[1..])
  {
    if |s| > 1 {
      var front := s[..|s| - 1];
      NumberFirst(front);
      assert front[1..] == s[1..][..|s| - 2];
      Distribute256(s[0], Power256(|s| - 2));
    } else {
      assert s[..0] == [] && s[1..] == [];
    }
  }

  lemma Distribute256(b: nat, p: nat)
    ensures 256 * (b * p) == b * (256 * p)
  {
  }

  /** x is the integer n, divided by p. */
  predicate Shifted(x: real, p: nat, n: nat) { x * p as real == n as real }

  /** The metric is that number, with the point behind the first digit. */
  lemma StrFullNumber(s: CString)
    requires s != []
    ensures StrFull(s) * Power256(|s| - 1) as real == Number(s) as real
  {
    StrFullShifted(s);
    hide StrFull, Power256, Number;
  }

  lemma {:induction false} StrFullShifted(s: CString)
    requires s != []
    ensures Shifted(StrFull(s), Power256(|s| - 1), Number(s))
  {
    var rest := s[1..];
    NumberFirst(s);
    StrFullFirst(s[0], rest);
    assert s == [s[0]] + rest;
    if rest == [] {
      assert Number(rest) == 0 && Power256(0) == 1;
    } else {
      StrFullShifted(rest);
      assert Power256(|s| - 1) == 256 * Power256(|rest| - 1);
      hide StrFull, Number, Power256, Shifted;
      ShiftPoint(s[0], StrFull(rest), Power256(|rest| - 1), Number(rest), StrFull(s), Power256(|s| - 1), Number(s));
    }
  }

  lemma ShiftPoint(b: nat, x: real, p: nat, n: nat, y: real, p': nat, n': nat)
    requires Shifted(x, p, n) && y == b as real + x / 256.0 && p' == 256 * p && n' == b * p' + n
    ensures Shifted(y, p', n')
  {
    var q := p as real;
    assert p' as real == 256.0 * q;
    assert (b * p') as real == b as real * (256.0 * q);
    assert (b as real + x / 256.0) * (256.0 * q) == b as real * (256.0 * q) + x * q;
  }

  method MetricStrFull(str: CString) returns (result: real)
    ensures result == StrFull(str)
    ensures if str == [] then result == 0.0 else result * Power256(|str| - 1) as real == Number(str) as real
  {
    result := Accumulate(FullDigit, 256.0, str);
    if str != [] { StrFullNumber(str); }
  }
}

/** Arithmetic shared by the Go parser and the Python services: the conversion `int(x)` of both languages,
    and decimal printing and reading of natural numbers. */
module Numbers {

  /** `int(x)` of Go and of Python: the fraction is dropped, so the result moves toward zero. */
  function Trunc(x: real): (n: int)
    ensures x >= 0.0 ==> n as real <= x < n as real + 1.0
    ensures x < 0.0 ==> n as real - 1.0 < x <= n as real
  {
    if x >= 0.0 then x.Floor else -((-x).Floor)
  }

  lemma TruncMonotone(x: real, y: real)
    requires x <= y
    ensures Trunc(x) <= Trunc(y)
  {}

  function Min(a: int, b: int): int {
    if a < b then a else b
  }

  function Max(a: int, b: int): int {
    if a < b then b else a
  }

  predicate IsDigit(c: char) {
    '0' <= c <= '9'
  }

  predicate AllDigits(s: string) {
    forall i | 0 <= i < |s| :: IsDigit(s[i])
  }

  function Digit(d: nat): char
    requires d < 10
  {
    '0' + d as char
  }

  /** The number a string of decimal digits denotes; leading zeros are allowed. */
  function Value(s: string): nat
    requires AllDigits(s)
  {
    if s == [] then 0 else 10 * Value(s[..|s| - 1]) + (s[|s| - 1] - '0') as nat
  }

  /** One digit, or several that do not start with a zero. */
  predicate IsPlain(s: string) {
    s != [] && AllDigits(s) && (|s| > 1 ==> s[0] != '0')
  }

  /** The decimal print of a natural number. */
  function Decimal(n: nat): (s: string)
    ensures s != [] && AllDigits(s)
    ensures Value(s) == n
    ensures IsPlain(s) && (n > 0 ==> s[0] != '0')
  {
    if n < 10 then
      [Digit(n)]
    else
      var s := Decimal(n / 10) + [Digit(n % 10)];
      assert s[..|s| - 1] == Decimal(n / 10);
      s
  }

  lemma {:induction false} PlainIsPositive(s: string)
    requires AllDigits(s) && s != [] && s[0] != '0'
    ensures Value(s) > 0
  {
    if |s| > 1 {
      PlainIsPositive(s[..|s| - 1]);
    }
  }

  /** No other plain string of digits has the value. */
  lemma {:induction false} DecimalUnique(s: string, n: nat)
    requires IsPlain(s) && Value(s) == n
    ensures s == Decimal(n)
  {
    var (before, d) := (s[..|s| - 1], (s[|s| - 1] - '0') as nat);
    assert Digit(d) == s[|s| - 1] && s == before + [s[|s| - 1]];
    if |s| > 1 {
      PlainIsPositive(before);
      DecimalUnique(before, Value(before));
      assert n / 10 == Value(before) && n % 10 == d;
    } else {
      assert Value(before) == 0;
    }
  }

  // ---------- products and quotients of reals ----------

  /** A product by name, for arguments that are themselves sums. */
  function Times(a: real, b: real): real {
    a * b
  }

  lemma MulNonNegative(a: real, b: real)
    requires a >= 0.0 && b >= 0.0
    ensures a * b >= 0.0
  {}

  lemma MulPositive(a: real, b: real)
    requires a > 0.0 && b > 0.0
    ensures a * b > 0.0
  {}

  lemma Distribute(a: real, b: real, m: real)
    ensures (a + b) * m == a * m + b * m
  {}

  /** A fraction of a nonnegative number is no larger than the number. */
  lemma MulFraction(t: real, m: real)
    requires 0.0 <= t <= 1.0 && m >= 0.0
    ensures 0.0 <= Times(t, m) <= m
  {
    MulNonNegative(t, m);
    MulNonNegative(1.0 - t, m);
    Distribute(1.0 - t, t, m);
    assert (1.0 - t) + t == 1.0;
  }

  lemma CancelEq(a: real, b: real, m: real)
    requires m > 0.0 && a * m == b * m
    ensures a == b
  {}

  lemma DivTimes(a: real, d: real)
    requires d != 0.0
    ensures a / d * d == a
  {}
}

/** The parts of Java's 32-bit `int` arithmetic that the engine relies on. */
module JavaInt {

  const INT_MIN: int := -0x8000_0000
  const INT_MAX: int := 0x7fff_ffff
  const TWO_TO_32: int := 0x1_0000_0000

  predicate IsInt(x: int) {
    INT_MIN <= x <= INT_MAX
  }

  /** The narrowing cast `(int) x` of a `long`: keeps the low 32 bits. */
  function ToInt(x: int): (r: int)
    ensures IsInt(r)
    ensures IsInt(x) ==> r == x
    ensures (x - r) % TWO_TO_32 == 0
  {
    (x - INT_MIN) % TWO_TO_32 + INT_MIN
  }

  /** `AtomicInteger.incrementAndGet`, which wraps from INT_MAX to INT_MIN. */
  function IncrementAndGet(x: int): (r: int)
    requires IsInt(x)
    ensures IsInt(r)
    ensures x < INT_MAX ==> r == x + 1
    ensures x == INT_MAX ==> r == INT_MIN
  {
    ToInt(x + 1)
  }

  /**
   * Java's `/` on integers, which truncates toward zero: the remainder
   * `a - q * b` takes the sign of the dividend and is smaller than the
   * divisor (section 15.17.2 of the Java Language Specification).
   */
  function DivTrunc(a: int, b: int): (q: int)
    requires b > 0
    ensures a >= 0 ==> 0 <= a - q * b < b
    ensures a < 0 ==> -b < a - q * b <= 0
  {
    if a >= 0 then a / b else -((-a) / b)
  }

  /** Truncation is symmetric around zero, and agrees with `/` on non-negative dividends. */
  lemma DivTruncOdd(a: int, b: int)
    requires b > 0
    ensures DivTrunc(-a, b) == -DivTrunc(a, b)
    ensures a >= 0 ==> DivTrunc(a, b) == a / b
  {
    if a > 0 {
      assert DivTrunc(-a, b) == -(a / b);
    } else if a < 0 {
      assert DivTrunc(a, b) == -((-a) / b);
    } else {
      assert DivTrunc(0, b) == 0 / b;
    }
  }

  function DigitChar(d: nat): char
    requires d < 10
  {
    ('0' as int + d) as char
  }

  function NatToString(n: nat): string
    decreases n
  {
    if n < 10 then [DigitChar(n)] else NatToString(n / 10) + [DigitChar(n % 10)]
  }

  /** `Integer.toString(i)`: decimal digits with a leading '-' for negatives. */
  function IntToString(i: int): string {
    if i < 0 then "-" + NatToString(-i) else NatToString(i)
  }
}

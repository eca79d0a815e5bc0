/**
 * Shared vocabulary of the model: optional values, the Java exceptions the
 * formatting code raises, and the Java integer and character operations whose
 * meaning differs from Dafny's built-in ones.
 */
module Common {

  datatype Option<T> = None | Some(value: T)

  /** The kinds of Java exception raised by the modelled code. */
  datatype Exception =
    | IllegalArgument       // IllegalArgumentException: a bad builder argument
    | IllegalState          // IllegalStateException: optionalEnd without optionalStart
    | DateTimeError         // DateTimeException: a value that cannot be printed or built
    | ArithmeticError       // ArithmeticException: a long that does not fit an int
    | UnsupportedOperation  // UnsupportedOperationException
    | IndexOutOfBounds      // IndexOutOfBoundsException / ArrayIndexOutOfBoundsException
    | ClassCast             // ClassCastException
    | NullPointer           // NullPointerException

  /** The outcome of a Java call that either returns a value or throws. */
  datatype Result<T> = Ok(value: T) | Err(error: Exception)

  const INT_MIN: int := -0x8000_0000
  const INT_MAX: int := 0x7fff_ffff
  const LONG_MIN: int := -0x8000_0000_0000_0000
  const LONG_MAX: int := 0x7fff_ffff_ffff_ffff

  predicate IsInt(x: int) { INT_MIN <= x <= INT_MAX }
  predicate IsLong(x: int) { LONG_MIN <= x <= LONG_MAX }

  /** Java's `~x`: parse failures are reported as the complement of the error position. */
  function Complement(x: int): int { -x - 1 }

  lemma ComplementInvolution(x: int)
    ensures Complement(Complement(x)) == x
    ensures x >= 0 <==> Complement(x) < 0
  {
  }

  function Abs(x: int): nat { if x < 0 then -x else x }

  function Min(a: int, b: int): int { if a <= b then a else b }

  function Max(a: int, b: int): int { if a >= b then a else b }

  function Pow10(n: nat): (r: nat)
    ensures r >= 1
  {
    if n == 0 then 1 else 10 * Pow10(n - 1)
  }

  lemma {:induction false} Pow10Monotonic(m: nat, n: nat)
    requires m <= n
    ensures Pow10(m) <= Pow10(n)
  {
    if m < n {
      Pow10Monotonic(m, n - 1);
    }
  }

  lemma {:induction false} Pow10Add(m: nat, n: nat)
    ensures Pow10(m + n) == Pow10(m) * Pow10(n)
  {
    if n > 0 {
      Pow10Add(m, n - 1);
    }
  }

  /** Java's `/` on integers, which truncates toward zero. */
  function JavaDiv(a: int, b: int): int
    requires b != 0
  {
    var q := Abs(a) / Abs(b);
    if (a < 0) != (b < 0) then -q else q
  }

  /** Java's `%` on integers, whose sign follows the dividend. */
  function JavaRem(a: int, b: int): int
    requires b != 0
  {
    a - b * JavaDiv(a, b)
  }

  lemma JavaRemAbs(a: int, b: int)
    requires b > 0
    ensures Abs(JavaRem(a, b)) == Abs(a) % b
    ensures a >= 0 ==> JavaRem(a, b) == a % b
    ensures a < 0 ==> JavaRem(a, b) == -(Abs(a) % b)
  {
  }

  // ---- characters, with the standard symbols: ASCII digits, '+', '-' and '.' ----

  predicate IsDigit(c: char) { '0' <= c <= '9' }

  /** DateTimeFormatSymbols.convertToDigit for the standard zero digit '0'. */
  function ConvertToDigit(c: char): (d: int)
    ensures IsDigit(c) ==> 0 <= d <= 9 && c == (d + '0' as int) as char
    ensures !IsDigit(c) ==> d == -1
  {
    if IsDigit(c) then c as int - '0' as int else -1
  }

  function DigitChar(d: int): (c: char)
    requires 0 <= d <= 9
    ensures IsDigit(c) && ConvertToDigit(c) == d
  {
    (d + '0' as int) as char
  }

  predicate IsLetter(c: char) { 'A' <= c <= 'Z' || 'a' <= c <= 'z' }

  /** Character.toUpperCase restricted to ASCII. */
  function ToUpper(c: char): char
  {
    if 'a' <= c <= 'z' then (c as int - 32) as char else c
  }

  /** Character.toLowerCase restricted to ASCII. */
  function ToLower(c: char): char
  {
    if 'A' <= c <= 'Z' then (c as int + 32) as char else c
  }

  /** A string of `n` copies of `c`. */
  function Repeat(c: char, n: nat): (s: string)
    ensures |s| == n && forall i :: 0 <= i < n ==> s[i] == c
  {
    if n == 0 then [] else Repeat(c, n - 1) + [c]
  }

  // ---- decimal digit strings ----

  predicate AllDigits(s: string) { forall i :: 0 <= i < |s| ==> IsDigit(s[i]) }

  /** The value of a string of decimal digits, most significant first. */
  function DigitsValue(s: string): nat
    requires AllDigits(s)
  {
    if s == [] then 0 else 10 * DigitsValue(s[..|s| - 1]) + ConvertToDigit(s[|s| - 1])
  }

  /** Long.toString of a non-negative value: its decimal digits, no leading zero. */
  function NumberToString(n: nat): (s: string)
    ensures 1 <= |s| && AllDigits(s)
    decreases n
  {
    if n < 10 then [DigitChar(n)] else NumberToString(n / 10) + [DigitChar(n % 10)]
  }

  /** The `width` lowest decimal digits of `n`, zero padded: the digits a fixed width prints. */
  function PaddedDigits(n: nat, width: nat): (s: string)
    ensures |s| == width && AllDigits(s)
  {
    if width == 0 then [] else PaddedDigits(n / 10, width - 1) + [DigitChar(n % 10)]
  }

  lemma {:induction false} DigitsValueBound(s: string)
    requires AllDigits(s)
    ensures DigitsValue(s) < Pow10(|s|)
  {
    if s != [] {
      DigitsValueBound(s[..|s| - 1]);
    }
  }

  lemma {:induction false} DigitsValueAppend(s: string, c: char)
    requires AllDigits(s) && IsDigit(c)
    ensures AllDigits(s + [c]) && DigitsValue(s + [c]) == 10 * DigitsValue(s) + ConvertToDigit(c)
  {
    assert (s + [c])[..|s + [c]| - 1] == s;
  }

  lemma {:induction false} NumberToStringValue(n: nat)
    ensures DigitsValue(NumberToString(n)) == n
    decreases n
  {
    if n >= 10 {
      NumberToStringValue(n / 10);
      DigitsValueAppend(NumberToString(n / 10), DigitChar(n % 10));
    } else {
      assert [DigitChar(n)][..0] == [];
    }
  }

  /** The number of decimal digits of `n` is at most `w` exactly when n < 10^w. */
  lemma {:induction false} NumberToStringLength(n: nat, w: nat)
    requires w >= 1
    ensures |NumberToString(n)| <= w <==> n < Pow10(w)
    decreases n
  {
    if n >= 10 {
      if w == 1 {
        assert |NumberToString(n)| >= 2;
      } else {
        NumberToStringLength(n / 10, w - 1);
      }
    }
  }

  lemma {:induction false} PaddedDigitsValue(n: nat, width: nat)
    ensures DigitsValue(PaddedDigits(n, width)) == n % Pow10(width)
  {
    if width > 0 {
      PaddedDigitsValue(n / 10, width - 1);
      DigitsValueAppend(PaddedDigits(n / 10, width - 1), DigitChar(n % 10));
      DivModPow10(n, width - 1);
    }
  }

  lemma DivModPow10(n: nat, k: nat)
    ensures n % (10 * Pow10(k)) == 10 * ((n / 10) % Pow10(k)) + n % 10
  {
    var p := Pow10(k);
    var q := n / 10;
    var r := n % 10;
    assert n == 10 * q + r;
    var a := q / p;
    var b := q % p;
    assert q == a * p + b;
    assert n == a * (10 * p) + (10 * b + r);
    assert 0 <= 10 * b + r < 10 * p;
    LemmaModUnique(n, 10 * p, a, 10 * b + r);
  }

  lemma LemmaModUnique(n: int, d: int, q: int, r: int)
    requires d > 0 && 0 <= r < d && n == q * d + r
    ensures n % d == r && n / d == q
  {
    var q2, r2 := n / d, n % d;
    assert (q - q2) * d == r2 - r;
    if q > q2 {
      MulAtLeast(q - q2, d);
    } else if q < q2 {
      MulAtLeast(q2 - q, d);
    }
  }

  lemma ModAdd(p: int, k: int, d: int)
    requires d > 0
    ensures (p + k) % d == (p % d + k % d) % d
  {
    var s := p % d + k % d;
    assert p + k == (p / d + k / d + s / d) * d + s % d;
    LemmaModUnique(p + k, d, p / d + k / d + s / d, s % d);
  }

  lemma MulAtLeast(k: int, d: int)
    requires k >= 1 && d > 0
    ensures k * d >= d
  {
    assert k * d == (k - 1) * d + d;
  }

  /** Leading zeros do not change the value of a digit string. */
  lemma {:induction false} DigitsValueLeadingZeros(k: nat, s: string)
    requires AllDigits(s)
    ensures AllDigits(Repeat('0', k) + s) && DigitsValue(Repeat('0', k) + s) == DigitsValue(s)
    decreases |s|
  {
    var z := Repeat('0', k);
    if s == [] {
      assert z + s == z;
      ZerosValue(k);
    } else {
      var s' := s[..|s| - 1];
      DigitsValueLeadingZeros(k, s');
      assert (z + s)[..|z + s| - 1] == z + s';
    }
  }

  lemma {:induction false} ZerosValue(k: nat)
    ensures AllDigits(Repeat('0', k)) && DigitsValue(Repeat('0', k)) == 0
  {
    if k > 0 {
      ZerosValue(k - 1);
      assert Repeat('0', k)[..k - 1] == Repeat('0', k - 1);
    }
  }

  /** Two numbers within `d` of each other with the same remainder are equal. */
  lemma ModWindowUnique(a: int, b: int, d: int)
    requires d > 0 && a <= b < a + d && a % d == b % d
    ensures a == b
  {
    var qa, qb := a / d, b / d;
    assert (qb - qa) * d == b - a;
    if qb > qa {
      MulAtLeast(qb - qa, d);
    } else if qb < qa {
      MulAtLeast(qa - qb, d);
    }
  }
}

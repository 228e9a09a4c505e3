/** `convert_bytes_to_megabytes`: a package's byte count shown in
    mebibytes with exactly two decimals, as `"%.2f" % (n / 1024.0**2)`. */
module Sizes {
  import opened Text

  /** Byte counts below 2^53. For these `int(float(size))` is exact and the
      quotient by 1024**2 is an exactly representable double, so `%.2f`
      rounds the true rational n / 2^20. */
  type ByteCount = n: nat | n < 0x20_0000_0000_0000

  /** `c` hundredths is a correctly rounded rendering of `n` bytes: within
      half a hundredth of n / 2^20, and even when exactly half-way. */
  ghost predicate IsNearestEven(n: nat, c: nat) {
    var err := c * 1048576 - 100 * n;
    var dist := if err < 0 then -err else err;
    && 2 * dist <= 1048576
    && (2 * dist == 1048576 ==> c % 2 == 0)
  }

  /** The byte count in hundredths of a mebibyte, rounded half to even. */
  function Hundredths(n: ByteCount): (c: nat)
    ensures IsNearestEven(n, c)
  {
    var q := (100 * n) / 1048576;
    var r := (100 * n) % 1048576;
    if 2 * r > 1048576 || (2 * r == 1048576 && q % 2 == 1) then q + 1 else q
  }

  /** Correct rounding leaves no choice: the nearest-even hundredth is unique. */
  lemma {:induction false} HundredthsUnique(n: ByteCount, c: nat)
    requires IsNearestEven(n, c)
    ensures c == Hundredths(n)
  {
    var q := (100 * n) / 1048576;
    var r := (100 * n) % 1048576;
    assert 100 * n == q * 1048576 + r;
    if c >= q + 2 {
      assert false;
    } else if c + 1 <= q {
      assert false;
    }
  }

  /** More bytes never show as fewer megabytes. */
  lemma {:induction false} HundredthsMonotone(n: ByteCount, m: ByteCount)
    requires n <= m
    ensures Hundredths(n) <= Hundredths(m)
  {
    var q1, r1 := (100 * n) / 1048576, (100 * n) % 1048576;
    var q2, r2 := (100 * m) / 1048576, (100 * m) % 1048576;
    assert 100 * n == q1 * 1048576 + r1;
    assert 100 * m == q2 * 1048576 + r2;
    if q2 < q1 {
      assert false;
    }
  }

  /** The shape `%.2f` produces: decimal digits, a dot, two digits. */
  predicate IsFixed2(s: string) {
    && |s| >= 4
    && s[|s| - 3] == '.'
    && AllDigits(s[..|s| - 3])
    && IsDigit(s[|s| - 2])
    && IsDigit(s[|s| - 1])
  }

  /** Reads a two-decimal rendering back as a number of hundredths. */
  function ReadFixed2(s: string): nat
    requires IsFixed2(s)
  {
    100 * DecimalValue(s[..|s| - 3]) + 10 * DigitValue(s[|s| - 2]) + DigitValue(s[|s| - 1])
  }

  /** A number is its hundreds, tens and units digits put back together. */
  lemma HundredsTensUnits(c: nat)
    ensures 100 * (c / 100) + 10 * (c / 10 % 10) + c % 10 == c
  {
    var t, u := c / 10, c % 10;
    var w, v := t / 10, t % 10;
    assert c == 10 * t + u;
    assert t == 10 * w + v;
    assert c == 100 * w + (10 * v + u) && 10 * v + u < 100;
    assert c / 100 == w;
  }

  /** Rendering a number of hundredths and reading it back gives it again. */
  lemma ReadFixed2Parts(c: nat)
    ensures var s := Decimal(c / 100) + "." + [DigitChar(c / 10 % 10), DigitChar(c % 10)];
      IsFixed2(s) && ReadFixed2(s) == c
  {
    var whole := Decimal(c / 100);
    var s := whole + "." + [DigitChar(c / 10 % 10), DigitChar(c % 10)];
    assert s[..|s| - 3] == whole;
    DecimalRoundTrip(c / 100);
    assert DigitValue(s[|s| - 2]) == c / 10 % 10;
    assert DigitValue(s[|s| - 1]) == c % 10;
    HundredsTensUnits(c);
  }

  /** `convert_bytes_to_megabytes`: the rounded number of hundredths,
      written as its integer part, a dot and two digits. Its properties are
      stated by `ConvertBytesToMegabytesReadsBack`, kept apart so that code
      which only passes the rendering around does not carry them. */
  function ConvertBytesToMegabytes(n: ByteCount): string {
    var c := Hundredths(n);
    Decimal(c / 100) + "." + [DigitChar(c / 10 % 10), DigitChar(c % 10)]
  }

  /** The rendering is always an integer part without leading zeros, a dot
      and exactly two digits, and it reads back as the correctly rounded
      number of hundredths. */
  lemma ConvertBytesToMegabytesReadsBack(n: ByteCount)
    ensures var s := ConvertBytesToMegabytes(n);
      && IsFixed2(s)
      && (|s| > 4 ==> s[0] != '0')
      && ReadFixed2(s) == Hundredths(n)
  {
    ReadFixed2Parts(Hundredths(n));
  }

  /** The rendering is monotone in the byte count. */
  lemma ConvertBytesToMegabytesMonotone(n: ByteCount, m: ByteCount)
    requires n <= m
    ensures var a, b := ConvertBytesToMegabytes(n), ConvertBytesToMegabytes(m);
      IsFixed2(a) && IsFixed2(b) && ReadFixed2(a) <= ReadFixed2(b)
  {
    ConvertBytesToMegabytesReadsBack(n);
    ConvertBytesToMegabytesReadsBack(m);
    HundredthsMonotone(n, m);
  }

  /** A byte count whose rounded hundredths are `c`, for `c` below 1000,
      shows as the three digits of `c` with a dot after the first. */
  lemma ShowsBelowTen(n: ByteCount, c: nat)
    requires Hundredths(n) == c && c < 1000
    ensures ConvertBytesToMegabytes(n) == [DigitChar(c / 100), '.', DigitChar(c / 10 % 10), DigitChar(c % 10)]
  {
  }

  /** Worked values: zero, one and one and a half mebibytes, a half-way
      case that rounds to the even hundredth, and two mebibytes. */
  lemma ConvertBytesToMegabytesExamples()
    ensures ConvertBytesToMegabytes(0) == "0.00"
    ensures ConvertBytesToMegabytes(1048576) == "1.00"
    ensures ConvertBytesToMegabytes(1572864) == "1.50"
    ensures ConvertBytesToMegabytes(131072) == "0.12"
    ensures ConvertBytesToMegabytes(2097152) == "2.00"
  {
    ShowsBelowTen(0, 0);
    ShowsBelowTen(1048576, 100);
    ShowsBelowTen(1572864, 150);
    ShowsBelowTen(131072, 12);
    ShowsBelowTen(2097152, 200);
  }
}

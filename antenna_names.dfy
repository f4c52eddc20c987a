/** Antenna names as calibrate_uvh5.py writes them: "ea" followed by the
    antenna number in decimal, zero-filled to at least two digits
    ('ea' + str(a).zfill(2) and 'ea%.2d' % a agree on non-negative numbers).
    Names are compared as strings, so what matters is that distinct antennas
    get distinct names; that is proved by reading the number back. */
module AntennaNames {

  predicate IsDigit(c: char) {
    '0' <= c <= '9'
  }

  function DigitChar(d: nat): (c: char)
    requires d < 10
    ensures IsDigit(c)
  {
    ('0' as int + d) as char
  }

  function DigitValue(c: char): (d: nat)
    requires IsDigit(c)
    ensures d < 10
  {
    c as int - '0' as int
  }

  /** str(n): the decimal digits of n, without leading zeros. */
  function Decimal(n: nat): string
    decreases n
  {
    if n < 10 then [DigitChar(n)] else Decimal(n / 10) + [DigitChar(n % 10)]
  }

  /** str(n) is a non-empty string of digits. */
  lemma {:induction false} DecimalDigits(n: nat)
    ensures |Decimal(n)| > 0
    ensures forall k :: 0 <= k < |Decimal(n)| ==> IsDigit(Decimal(n)[k])
    decreases n
  {
    if n >= 10 {
      DecimalDigits(n / 10);
    }
  }

  /** str.zfill(width) of a string without a sign: '0's on the left up to
      width characters. */
  function ZeroFill(s: string, width: nat): string
    decreases width - |s|
  {
    if |s| < width then ZeroFill(['0'] + s, width) else s
  }

  /** zfill pads to the width with '0's and keeps s at the end. */
  lemma {:induction false} ZeroFillShape(s: string, width: nat)
    ensures var r := ZeroFill(s, width);
      && |r| == (if |s| < width then width else |s|)
      && (forall k :: 0 <= k < |r| - |s| ==> r[k] == '0')
      && r[|r| - |s|..] == s
    decreases width - |s|
  {
    if |s| < width {
      ZeroFillShape(['0'] + s, width);
    }
  }

  /** The antenna name of antenna number a. */
  function AntName(a: nat): string {
    "ea" + ZeroFill(Decimal(a), 2)
  }

  /** The value of a string of decimal digits (leading zeros allowed). */
  function ParseDecimal(s: string): nat
    requires forall k :: 0 <= k < |s| ==> IsDigit(s[k])
  {
    if |s| == 0 then 0 else ParseDecimal(s[..|s| - 1]) * 10 + DigitValue(s[|s| - 1])
  }

  /** Reading back the digits of str(n) gives n. */
  lemma {:induction false} ParseDecimalOfDecimal(n: nat)
    ensures forall k :: 0 <= k < |Decimal(n)| ==> IsDigit(Decimal(n)[k])
    ensures ParseDecimal(Decimal(n)) == n
    decreases n
  {
    DecimalDigits(n);
    if n >= 10 {
      var s := Decimal(n);
      assert s[..|s| - 1] == Decimal(n / 10);
      ParseDecimalOfDecimal(n / 10);
    }
  }

  /** Leading zeros do not change the value. */
  lemma {:induction false} ParseIgnoresZeros(z: string, s: string)
    requires forall k :: 0 <= k < |z| ==> z[k] == '0'
    requires forall k :: 0 <= k < |s| ==> IsDigit(s[k])
    ensures forall k :: 0 <= k < |z + s| ==> IsDigit((z + s)[k])
    ensures ParseDecimal(z + s) == ParseDecimal(s)
    decreases |s|
  {
    if |s| == 0 {
      assert z + s == z;
      ZerosParseToZero(z);
    } else {
      var t := z + s;
      assert t[..|t| - 1] == z + s[..|s| - 1];
      ParseIgnoresZeros(z, s[..|s| - 1]);
    }
  }

  lemma {:induction false} ZerosParseToZero(z: string)
    requires forall k :: 0 <= k < |z| ==> z[k] == '0'
    ensures ParseDecimal(z) == 0
    decreases |z|
  {
    if |z| > 0 {
      ZerosParseToZero(z[..|z| - 1]);
    }
  }

  /** The number part of an antenna name, read back. */
  function NameNumber(name: string): nat
    requires |name| >= 2
    requires forall k :: 2 <= k < |name| ==> IsDigit(name[k])
  {
    ParseDecimal(name[2..])
  }

  /** Every antenna name starts with "ea" and reads back as its number. */
  lemma NameRoundTrip(a: nat)
    ensures AntName(a)[..2] == "ea" && |AntName(a)| >= 4
    ensures forall k :: 2 <= k < |AntName(a)| ==> IsDigit(AntName(a)[k])
    ensures NameNumber(AntName(a)) == a
  {
    var d := Decimal(a);
    var f := ZeroFill(d, 2);
    DecimalDigits(a);
    ZeroFillShape(d, 2);
    var z := f[..|f| - |d|];
    assert f == z + d;
    assert AntName(a)[2..] == f;
    ParseIgnoresZeros(z, d);
    ParseDecimalOfDecimal(a);
  }

  /** Distinct antennas have distinct names. */
  lemma AntNameInjective(a: nat, b: nat)
    ensures AntName(a) == AntName(b) <==> a == b
  {
    if AntName(a) == AntName(b) {
      NameRoundTrip(a);
      NameRoundTrip(b);
    }
  }

  /** Antennas below 100 get exactly two digits: ea05, ea10, ea27. */
  lemma TwoDigitName(a: nat)
    requires a < 100
    ensures AntName(a) == ['e', 'a', DigitChar(a / 10), DigitChar(a % 10)]
  {
    if a < 10 {
      PaddedDigit(a);
    } else {
      TwoDigits(a);
    }
  }

  lemma PaddedDigit(a: nat)
    requires a < 10
    ensures ZeroFill(Decimal(a), 2) == [DigitChar(0), DigitChar(a)]
  {
    assert ZeroFill([DigitChar(a)], 2) == ZeroFill(['0', DigitChar(a)], 2);
  }

  lemma TwoDigits(a: nat)
    requires 10 <= a < 100
    ensures Decimal(a) == [DigitChar(a / 10), DigitChar(a % 10)]
  {
    assert Decimal(a / 10) == [DigitChar(a / 10)];
  }
}

/**
 The two pieces of Rust's standard library that the crate relies on for its
 text form, written out so that they can be reasoned about:

 - `u16::from_str` (`str::parse::<u16>`): an optional `+`, then one or more
   ASCII decimal digits, scanned left to right with checked arithmetic;
 - `{:03}` formatting of an unsigned integer: its decimal digits, padded on
   the left with `0` up to a width of three, never cut.

 The reference reading of a digit string is `Value`; the scan `Accumulate`
 is proved to agree with it.
 */
module Numerals {
  import opened Wrappers

  /** Rust's `u16`. */
  type u16 = x: int | 0 <= x < 0x1_0000

  const U16_MAX: int := 0xFFFF

  /** The kinds of `core::num::ParseIntError` an unsigned parse can produce. */
  datatype ParseIntError = Empty | InvalidDigit | PosOverflow

  predicate IsDigit(c: char) {
    '0' <= c <= '9'
  }

  predicate AllDigits(s: string) {
    forall i :: 0 <= i < |s| ==> IsDigit(s[i])
  }

  function DigitValue(c: char): (d: nat)
    requires IsDigit(c)
    ensures d < 10
  {
    c as int - '0' as int
  }

  function DigitChar(d: nat): (c: char)
    requires d < 10
    ensures IsDigit(c) && DigitValue(c) == d
  {
    ('0' as int + d) as char
  }

  /** The number a digit string denotes, most significant digit first. */
  function Value(ds: string): nat
    requires AllDigits(ds)
    decreases |ds|
  {
    if ds == [] then 0 else Value(ds[..|ds| - 1]) * 10 + DigitValue(ds[|ds| - 1])
  }

  // ---------------------------------------------------------------------------
  // Parsing
  // ---------------------------------------------------------------------------

  /** The digits after an optional leading `+`. */
  function Magnitude(s: string): string {
    if |s| > 0 && s[0] == '+' then s[1..] else s
  }

  /** The shape `u16::from_str` accepts, before the range check. */
  predicate IsNumeral(s: string) {
    |Magnitude(s)| > 0 && AllDigits(Magnitude(s))
  }

  /**
   The digit loop of `from_str_radix`: each character is first checked to be
   a digit, then the running value is multiplied by ten and the digit added,
   each step failing on overflow of `u16`.
   */
  function Accumulate(acc: u16, ds: string): Result<u16, ParseIntError>
    decreases |ds|
  {
    if ds == [] then Ok(acc)
    else if !IsDigit(ds[0]) then Err(InvalidDigit)
    else if acc * 10 > U16_MAX then Err(PosOverflow)
    else if acc * 10 + DigitValue(ds[0]) > U16_MAX then Err(PosOverflow)
    else Accumulate(acc * 10 + DigitValue(ds[0]), ds[1..])
  }

  /**
   `s.parse::<u16>()`. It succeeds exactly on an optional `+` followed by one
   or more digits denoting at most 65535, and then returns that number.
   */
  function ParseU16(s: string): (r: Result<u16, ParseIntError>)
    ensures r.Ok? <==> IsNumeral(s) && Value(Magnitude(s)) <= U16_MAX
    ensures r.Ok? ==> r.value == Value(Magnitude(s))
  {
    if s == [] then Err(Empty)
    else if |s| == 1 && (s[0] == '+' || s[0] == '-') then Err(InvalidDigit)
    else
      AccumulateValue([], Magnitude(s));
      assert [] + Magnitude(s) == Magnitude(s);
      Accumulate(0, Magnitude(s))
  }

  lemma {:induction false} ValueGrows(p: string, q: string)
    requires AllDigits(p) && AllDigits(q)
    ensures AllDigits(p + q) && Value(p) <= Value(p + q)
    decreases |q|
  {
    assert AllDigits(p + q) by {
      forall i | 0 <= i < |p + q| ensures IsDigit((p + q)[i]) {
        if i < |p| { assert (p + q)[i] == p[i]; } else { assert (p + q)[i] == q[i - |p|]; }
      }
    }
    if q != [] {
      var q' := q[..|q| - 1];
      assert (p + q)[..|p + q| - 1] == p + q';
      ValueGrows(p, q');
      assert Value(p + q) == Value(p + q') * 10 + DigitValue((p + q)[|p + q| - 1]);
    } else {
      assert p + q == p;
    }
  }

  /**
   Scanning `ds` with the value of the digits `p` already read gives the value
   of `p + ds` when all of `ds` are digits and that value fits in `u16`; a non
   digit or a too large value is an error, and on digits alone it is overflow.
   */
  lemma {:induction false} AccumulateValue(p: string, ds: string)
    requires AllDigits(p) && Value(p) <= U16_MAX
    ensures AllDigits(ds) ==> AllDigits(p + ds)
    ensures Accumulate(Value(p), ds).Ok? <==> AllDigits(ds) && Value(p + ds) <= U16_MAX
    ensures Accumulate(Value(p), ds).Ok? ==> Accumulate(Value(p), ds).value == Value(p + ds)
    ensures AllDigits(ds) && Value(p + ds) > U16_MAX ==> Accumulate(Value(p), ds) == Err(PosOverflow)
    decreases |ds|
  {
    if ds == [] {
      assert p + ds == p;
    } else if !IsDigit(ds[0]) {
      assert !AllDigits(ds);
    } else {
      var p' := p + [ds[0]];
      assert AllDigits(p') by { ValueGrows(p, [ds[0]]); }
      assert p'[..|p'| - 1] == p;
      assert Value(p') == Value(p) * 10 + DigitValue(ds[0]);
      assert p' + ds[1..] == p + ds;
      assert AllDigits(ds) <==> AllDigits(ds[1..]) by {
        if AllDigits(ds[1..]) {
          forall i | 0 <= i < |ds| ensures IsDigit(ds[i]) {
            if i > 0 { assert ds[i] == ds[1..][i - 1]; }
          }
        }
      }
      if Value(p') > U16_MAX {
        if AllDigits(ds[1..]) { ValueGrows(p', ds[1..]); }
      } else {
        AccumulateValue(p', ds[1..]);
      }
    }
  }

  /** The three error kinds, each on the inputs that produce it. */
  lemma ParseU16Errors(s: string)
    ensures s == [] ==> ParseU16(s) == Err(Empty)
    ensures s != [] && (Magnitude(s) == [] || !IsDigit(Magnitude(s)[0])) ==> ParseU16(s) == Err(InvalidDigit)
    ensures IsNumeral(s) && Value(Magnitude(s)) > U16_MAX ==> ParseU16(s) == Err(PosOverflow)
  {
    if IsNumeral(s) && Value(Magnitude(s)) > U16_MAX {
      AccumulateValue([], Magnitude(s));
      assert [] + Magnitude(s) == Magnitude(s);
    }
  }

  // ---------------------------------------------------------------------------
  // Formatting
  // ---------------------------------------------------------------------------

  /** The decimal digits of `n`, without leading zeros (`{}`). */
  function Decimal(n: nat): (s: string)
    ensures |s| >= 1 && AllDigits(s)
    decreases n
  {
    if n < 10 then [DigitChar(n)] else Decimal(n / 10) + [DigitChar(n % 10)]
  }

  function Zeros(k: nat): (z: string)
    ensures |z| == k && forall i :: 0 <= i < k ==> z[i] == '0'
  {
    seq(k, _ => '0')
  }

  /**
   `{:03}`: `n`'s digits, left-padded with zeros to at least three characters.
   The result has at least three digits, is exactly the decimal form from 100
   up (padding never truncates) and reads back as `n`.
   */
  function Pad3(n: nat): (s: string)
    ensures |s| == if |Decimal(n)| < 3 then 3 else |Decimal(n)|
    ensures n >= 100 ==> s == Decimal(n)
    ensures AllDigits(s) && Value(s) == n
  {
    var digits := Decimal(n);
    DecimalValue(n);
    DecimalLength(n);
    if |digits| < 3 then
      ValueLeadingZeros(3 - |digits|, digits);
      Zeros(3 - |digits|) + digits
    else digits
  }

  /** `Decimal` is read back by `Value`, and it has no superfluous leading zero. */
  lemma {:induction false} DecimalValue(n: nat)
    ensures Value(Decimal(n)) == n
    ensures n >= 10 ==> Decimal(n)[0] != '0'
    decreases n
  {
    if n >= 10 {
      var d := Decimal(n);
      assert d[..|d| - 1] == Decimal(n / 10);
      DecimalValue(n / 10);
    }
  }

  lemma {:induction false} ValueLeadingZeros(k: nat, ds: string)
    requires AllDigits(ds)
    ensures AllDigits(Zeros(k) + ds) && Value(Zeros(k) + ds) == Value(ds)
    decreases k + |ds|
  {
    var s := Zeros(k) + ds;
    assert AllDigits(s) by {
      forall i | 0 <= i < |s| ensures IsDigit(s[i]) {
        if i < k { assert s[i] == Zeros(k)[i]; } else { assert s[i] == ds[i - k]; }
      }
    }
    if ds == [] {
      if k > 0 {
        assert s == Zeros(k);
        assert s[..|s| - 1] == Zeros(k - 1) + [];
        ValueLeadingZeros(k - 1, []);
      }
    } else {
      var ds' := ds[..|ds| - 1];
      assert s[..|s| - 1] == Zeros(k) + ds';
      assert s[|s| - 1] == ds[|ds| - 1];
      ValueLeadingZeros(k, ds');
    }
  }

  /** `{:03}` only prepends zeros: the full decimal form ends the output. */
  lemma Pad3KeepsDecimal(n: nat)
    ensures Pad3(n)[|Pad3(n)| - |Decimal(n)|..] == Decimal(n)
  {
  }

  /** Numbers below 1000 have at most three digits; from 100 up, at least three. */
  lemma {:induction false} DecimalLength(n: nat)
    ensures n < 1000 ==> |Decimal(n)| <= 3
    ensures 100 <= n ==> |Decimal(n)| >= 3
    decreases n
  {
    if n >= 10 {
      DecimalLength(n / 10);
    }
  }

  /** `{:03}` output is accepted by `u16::from_str`, which returns the number. */
  lemma ParsePad3(n: u16)
    ensures ParseU16(Pad3(n)) == Ok(n)
  {
  }
}

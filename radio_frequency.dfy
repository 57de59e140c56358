/**
 An aviation VHF radio frequency such as `121.500` or `132.005`: an integral
 MHz part `left` in the civil band 118..137 and a channel part `right` whose
 last two decimal digits name one of 16 channel codes in a block of 100, four
 in each block of 25 (00, 05, 10, 15, 25, ...). Channels ending in a multiple
 of 25 belong to the 25 kHz plan; the others exist only in the 8.33 kHz plan.

 The type covers the values `New` builds (and `FromStr`, through `New`), so
 every `RadioFrequency` satisfies `Valid`. It prints as `LLL.RRR` (`Format`)
 and is read back from that form (`FromStr`).
 */
module AviationRadio {
  import opened Wrappers
  import opened Numerals
  import opened Segments

  // ---------------------------------------------------------------------------
  // The value type
  // ---------------------------------------------------------------------------

  /** The struct's three fields, in declaration order. */
  datatype Fields = Fields(left: u16, right: u16, is25KhzSpaced: bool)

  /** The channel codes `new` accepts for `right % 100`. */
  const VALID_CHANNELS: seq<int> := [0, 5, 10, 15, 25, 30, 35, 40, 50, 55, 60, 65, 75, 80, 85, 90]

  /** The channel codes that are also 25 kHz channels. */
  const CHANNELS_25_KHZ: seq<int> := [0, 25, 50, 75]

  /** What every constructed value satisfies. */
  predicate Valid(f: Fields) {
    && 118 <= f.left <= 137
    && f.right % 100 in VALID_CHANNELS
    && f.is25KhzSpaced == (f.right % 100 in CHANNELS_25_KHZ)
  }

  /** `RadioFrequency`: its fields are private, so only valid values exist. */
  type RadioFrequency = f: Fields | Valid(f) witness Fields(118, 0, true)

  datatype RadioFrequencyError =
    | InvalidFrequency
    | NotEnoughParts
    | ParseError(cause: ParseIntError)

  /** `From<ParseIntError>`, the conversion `?` applies in `from_str`. */
  function FromParseIntError(e: ParseIntError): RadioFrequencyError {
    ParseError(e)
  }

  /**
   The channel table read arithmetically: a code is valid when it is one of the
   four multiples of 5 below 20 in a block of 25, and a 25 kHz channel when it
   is the first of them.
   */
  lemma ChannelCode(right: u16)
    ensures right % 100 in VALID_CHANNELS <==> right % 5 == 0 && right % 25 < 20
    ensures right % 100 in CHANNELS_25_KHZ <==> right % 25 == 0
  {
    var c := right % 100;
    var k, m := c / 25, c % 25;
    assert c == 25 * k + m && 0 <= k < 4;
    assert right == 25 * (4 * (right / 100) + k) + m;
    assert right % 25 == m;
    assert right % 5 == m % 5;
    if k == 0 {
      assert c in VALID_CHANNELS <==> m in [0, 5, 10, 15];
    } else if k == 1 {
      assert c in VALID_CHANNELS <==> m in [0, 5, 10, 15];
    } else if k == 2 {
      assert c in VALID_CHANNELS <==> m in [0, 5, 10, 15];
    } else {
      assert c in VALID_CHANNELS <==> m in [0, 5, 10, 15];
    }
  }

  // ---------------------------------------------------------------------------
  // Construction and queries
  // ---------------------------------------------------------------------------

  /**
   `RadioFrequency::new`: the MHz part is checked first, then the channel
   code; either failure is `InvalidFrequency`. On success the inputs are kept
   unchanged and the spacing flag is derived from the channel code.
   */
  function New(left: u16, right: u16): (r: Result<RadioFrequency, RadioFrequencyError>)
    ensures r.Ok? <==> 118 <= left <= 137 && right % 5 == 0 && right % 25 < 20
    ensures r.Err? ==> r.error == InvalidFrequency
    ensures r.Ok? ==> r.value.left == left && r.value.right == right
    ensures r.Ok? ==> (r.value.is25KhzSpaced <==> right % 25 == 0)
  {
    ChannelCode(right);
    if !(118 <= left <= 137) then Err(InvalidFrequency)
    else
      var lastTwo := right % 100;
      if lastTwo !in VALID_CHANNELS then Err(InvalidFrequency)
      else Ok(Fields(left, right, lastTwo in CHANNELS_25_KHZ))
  }

  /** `is_25_khz_spaced`: the channel is on the 25 kHz grid. */
  function Is25KhzSpaced(rf: RadioFrequency): (b: bool)
    ensures b <==> rf.right % 25 == 0
  {
    ChannelCode(rf.right);
    rf.is25KhzSpaced
  }

  /** `is_8_33_khz_spaced`: the channel exists only on the 8.33 kHz grid. */
  function Is833KhzSpaced(rf: RadioFrequency): (b: bool)
    ensures b <==> rf.right % 25 in {5, 10, 15}
    ensures b != Is25KhzSpaced(rf)
  {
    ChannelCode(rf.right);
    !rf.is25KhzSpaced
  }

  /** `frequency`: both parts, which rebuild the same value through `New`. */
  function Frequency(rf: RadioFrequency): (p: (u16, u16))
    ensures New(p.0, p.1) == Ok(rf)
  {
    ChannelCode(rf.right);
    (rf.left, rf.right)
  }

  /** `left`: the MHz part, always in the civil band. */
  function Left(rf: RadioFrequency): (l: u16)
    ensures 118 <= l <= 137
  {
    rf.left
  }

  /** `right`: the channel part, always naming a valid channel. */
  function Right(rf: RadioFrequency): (r: u16)
    ensures r % 5 == 0 && r % 25 < 20
  {
    ChannelCode(rf.right);
    rf.right
  }

  /** What `New` stores is what the accessors report. */
  lemma NewAccessors(left: u16, right: u16)
    requires New(left, right).Ok?
    ensures Frequency(New(left, right).value) == (left, right)
    ensures Left(New(left, right).value) == left
    ensures Right(New(left, right).value) == right
    ensures Is25KhzSpaced(New(left, right).value) <==> right % 100 in CHANNELS_25_KHZ
  {
  }

  /** The cases of the crate's `validate` test. */
  lemma NewTestVectors()
    ensures New(120, 905).Ok? && Left(New(120, 905).value) == 120
    ensures Right(New(120, 905).value) == 905 && Is833KhzSpaced(New(120, 905).value)
    ensures New(110, 300).Err? && New(118, 3).Err? && New(138, 5).Err? && New(121, 12).Err?
  {
  }

  // ---------------------------------------------------------------------------
  // Ordering (the derived `Ord`)
  // ---------------------------------------------------------------------------

  datatype Ordering = Less | Equal | Greater {
    function Reverse(): Ordering {
      match this
      case Less => Greater
      case Equal => Equal
      case Greater => Less
    }

    /** `Ordering::then`: the second comparison breaks a tie of the first. */
    function Then(other: Ordering): Ordering {
      if Equal? then other else this
    }
  }

  function CmpInt(a: int, b: int): Ordering {
    if a < b then Less else if a == b then Equal else Greater
  }

  /** `bool`'s order: `false < true`. */
  function CmpBool(a: bool, b: bool): Ordering {
    CmpInt(if a then 1 else 0, if b then 1 else 0)
  }

  /**
   The derived `Ord::cmp`: field by field in declaration order. Because the flag
   is a function of `right`, it never decides: the order is that of the pair
   `(left, right)`, and only equal values compare `Equal`.
   */
  function Cmp(a: RadioFrequency, b: RadioFrequency): (o: Ordering)
    ensures o == Equal <==> a == b
    ensures o == Less <==> a.left < b.left || (a.left == b.left && a.right < b.right)
    ensures o == Greater <==> a.left > b.left || (a.left == b.left && a.right > b.right)
  {
    CmpInt(a.left, b.left).Then(CmpInt(a.right, b.right)).Then(CmpBool(a.is25KhzSpaced, b.is25KhzSpaced))
  }

  /** `Cmp` is a total order: antisymmetric and transitive. */
  lemma CmpTotalOrder(a: RadioFrequency, b: RadioFrequency, c: RadioFrequency)
    ensures Cmp(b, a) == Cmp(a, b).Reverse()
    ensures Cmp(a, b) == Less && Cmp(b, c) == Less ==> Cmp(a, c) == Less
    ensures Cmp(a, b) != Greater && Cmp(b, c) != Greater ==> Cmp(a, c) != Greater
  {
  }

  // ---------------------------------------------------------------------------
  // Text form
  // ---------------------------------------------------------------------------

  lemma Pad3HasNoDot(n: nat)
    ensures '.' !in Pad3(n)
  {
  }

  /**
   `Display::fmt`: `{:03}.{:03}`. The text has exactly one dot, and splitting
   on it gives back the two padded parts.
   */
  function Format(rf: RadioFrequency): (s: string)
    ensures multiset(s)['.'] == 1
    ensures Split(s, '.') == [Pad3(rf.left), Pad3(rf.right)]
  {
    var l, r := Pad3(rf.left), Pad3(rf.right);
    Pad3HasNoDot(rf.left);
    Pad3HasNoDot(rf.right);
    SplitAtFirst(l, '.', r);
    SplitNoSep(r, '.');
    SplitCount(l + "." + r, '.');
    l + "." + r
  }

  /**
   Before the dot stand the three digits of `left`; after it `right`, padded to
   at least three digits and never truncated.
   */
  lemma FormatWidth(rf: RadioFrequency)
    ensures |Format(rf)| == 4 + (if rf.right < 1000 then 3 else |Decimal(rf.right)|)
    ensures Format(rf)[..3] == Decimal(rf.left)
    ensures Format(rf)[3] == '.'
    ensures Format(rf)[4..] == Pad3(rf.right) && Value(Pad3(rf.right)) == rf.right
  {
    DecimalLength(rf.right);
    DecimalLength(rf.left);
  }

  /**
   `FromStr::from_str`: the first two `.`-separated segments are parsed as
   `u16` (in that order, so a bad first segment is reported before a missing
   second one) and passed to `New`. Success needs a dot, and with a dot the
   second segment is never missing.
   */
  function FromStr(s: string): (r: Result<RadioFrequency, RadioFrequencyError>)
    ensures r.Ok? ==> '.' in s
    ensures r == Err(NotEnoughParts) ==> '.' !in s
  {
    var parts := Split(s, '.');
    SplitCount(s, '.');
    assert '.' in s <==> multiset(s)['.'] >= 1;
    var first :- Nth(parts, 0).OkOr(NotEnoughParts);
    var left :- ParseU16(first).MapErr(FromParseIntError);
    var second :- Nth(parts, 1).OkOr(NotEnoughParts);
    var right :- ParseU16(second).MapErr(FromParseIntError);
    New(left, right)
  }

  /**
   With two segments `a` and `b` (and anything after a further dot), the result
   is `New` of the two parsed numbers, or the first parse error.
   */
  lemma FromStrSegments(a: string, b: string, tail: string)
    requires '.' !in a && '.' !in b
    requires tail == [] || tail[0] == '.'
    ensures FromStr(a + "." + b + tail) ==
      match ParseU16(a)
      case Err(e) => Err(ParseError(e))
      case Ok(left) =>
        match ParseU16(b)
        case Err(e) => Err(ParseError(e))
        case Ok(right) => New(left, right)
  {
    var s := a + "." + b + tail;
    assert s == a + ['.'] + (b + tail);
    SplitAtFirst(a, '.', b + tail);
    if tail == [] {
      assert b + tail == b;
      SplitNoSep(b, '.');
    } else {
      assert b + tail == b + ['.'] + tail[1..];
      SplitAtFirst(b, '.', tail[1..]);
    }
  }

  /** Without a dot: the segment's parse error if it has one, else `NotEnoughParts`. */
  lemma FromStrOneSegment(a: string)
    requires '.' !in a
    ensures FromStr(a) ==
      match ParseU16(a)
      case Err(e) => Err(ParseError(e))
      case Ok(_) => Err(NotEnoughParts)
  {
    SplitNoSep(a, '.');
  }

  /** Whatever follows a second dot is ignored. */
  lemma FromStrIgnoresTail(a: string, b: string, c: string)
    requires '.' !in a && '.' !in b
    ensures FromStr(a + "." + b + "." + c) == FromStr(a + "." + b)
  {
    assert a + "." + b + "." + c == a + "." + b + ("." + c);
    FromStrSegments(a, b, "." + c);
    FromStrSegments(a, b, []);
    assert a + "." + b + [] == a + "." + b;
  }

  /** Every value survives printing and reading back. */
  lemma RoundTrip(rf: RadioFrequency)
    ensures FromStr(Format(rf)) == Ok(rf)
  {
    var parts := Split(Format(rf), '.');
    assert parts == [Pad3(rf.left), Pad3(rf.right)];
    ParsePad3(rf.left);
    ParsePad3(rf.right);
    assert Nth(parts, 0) == Some(Pad3(rf.left)) && Nth(parts, 1) == Some(Pad3(rf.right));
    assert New(rf.left, rf.right) == Ok(rf) by {
      ChannelCode(rf.right);
    }
  }

  /** Hence printing is injective. */
  lemma FormatInjective(a: RadioFrequency, b: RadioFrequency)
    requires Format(a) == Format(b)
    ensures a == b
  {
    RoundTrip(a);
    RoundTrip(b);
  }

  /** Example inputs of the text form. */
  lemma FromStrOutOfBand()
    ensures FromStr("138.005") == Err(InvalidFrequency)
  {
  }

  lemma FromStrBadChannel()
    ensures FromStr("118.003") == Err(InvalidFrequency)
  {
    assert ParseU16("118") == Ok(118);
    assert ParseU16("003") == Ok(3);
    assert FromStr("118.003") == New(118, 3) by {
      FromStrSegments("118", "003", "");
      assert "118" + "." + "003" + "" == "118.003";
    }
  }

  lemma FromStrEightThreeThree()
    ensures FromStr("120.905").Ok? && FromStr("120.905").value == Fields(120, 905, false)
    ensures Is833KhzSpaced(FromStr("120.905").value)
  {
    assert ParseU16("120") == Ok(120);
    assert ParseU16("905") == Ok(905);
    assert FromStr("120.905") == New(120, 905) by {
      FromStrSegments("120", "905", "");
      assert "120" + "." + "905" + "" == "120.905";
    }
    NewTestVectors();
  }

  lemma FromStrNotNumeric()
    ensures FromStr("abc.005") == Err(ParseError(InvalidDigit))
  {
  }

  lemma FromStrMissingParts()
    ensures FromStr("120") == Err(NotEnoughParts)
    ensures FromStr("120.") == Err(ParseError(Empty))
  {
  }
}

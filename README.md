# aviation_radio in Dafny

A model of the `aviation_radio` crate: the validated value type
`RadioFrequency`, an aviation VHF frequency such as `121.500` or `132.005`,
with its text codec.

- `left` is the MHz part. It must lie in the civil band 118..137.
- `right` is the channel part. Its last two decimal digits must be one of the
  16 channel codes 00, 05, 10, 15, 25, 30, 35, 40, 50, 55, 60, 65, 75, 80, 85, 90.
- A flag records whether the code is a 25 kHz channel (00, 25, 50, 75). Any
  other code exists only in the 8.33 kHz plan.

The files:

- `wrappers.dfy` (module `Wrappers`): Rust's `Option` and `Result`. They support
  `:-`, which stands for Rust's `?`.
- `numerals.dfy` (module `Numerals`): `u16`, and the two pieces of the
  standard library the codec relies on. These are `u16::from_str` (`ParseU16`)
  and `{:03}` formatting (`Pad3`). Both are proved against a reference reading
  of digit strings (`Value`).
- `segments.dfy` (module `Segments`): `str::split` on one character (`Split`).
  Call number `i + 1` of `Iterator::next` is `Nth(parts, i)`; `i` counts from 0.
- `radio_frequency.dfy` (module `AviationRadio`): the crate itself.
  `RadioFrequency` is a subset type of its three fields, constrained by `Valid`.
  The subset type stands for every value `new` or `from_str` builds (the
  derived `Deserialize` can build others; see "Left out"). The file also holds
  `New`, the accessors, the derived ordering `Cmp`, `Format` (`Display`) and
  `FromStr`. The `From<ParseIntError>` conversion is `FromParseIntError`.

Two things the model makes explicit:

- The channel rule has an arithmetic reading, proved in `ChannelCode`. A code
  is valid iff `right % 5 == 0 && right % 25 < 20`. It is a 25 kHz channel iff
  `right % 25 == 0`.
- `from_str` parses the first segment before it asks for the second. So an
  input without a dot gives `NotEnoughParts` only when its single segment is a
  valid `u16`. `"abc"` gives `ParseError(InvalidDigit)` instead
  (`FromStrOneSegment`).

## Model

| member | source | states |
|---|---|---|
| `AviationRadio.Valid` | src/lib.rs:5-34 | the struct's invariant, which the subset type `RadioFrequency` imposes on every value: `left` in 118..137, `right % 100` in the channel table, the flag equal to the four-code lookup; `New`'s ensures show every `Ok` value is one, and `Frequency`'s that every value is `New` of its own fields |
| `AviationRadio.New` | src/lib.rs:14-36 | succeeds iff `118 <= left <= 137` and `right`'s channel code is valid (`right % 5 == 0 && right % 25 < 20`); every failure is `InvalidFrequency`; on success the fields are exactly the inputs and the flag holds iff `right % 25 == 0` |
| `AviationRadio.ChannelCode` | src/lib.rs:24-33 | membership of `right % 100` in the 16-entry table is `right % 5 == 0 && right % 25 < 20`; membership in `[0, 25, 50, 75]` is `right % 25 == 0` |
| `AviationRadio.Is25KhzSpaced` | src/lib.rs:40-42 | true iff `right` is on the 25 kHz grid (`right % 25 == 0`) |
| `AviationRadio.Is833KhzSpaced` | src/lib.rs:37-39 | true iff `right % 25` is 5, 10 or 15, and always the opposite of `Is25KhzSpaced`: exactly one of the two holds |
| `AviationRadio.Frequency` | src/lib.rs:44-46 | the pair it returns, passed to `New`, rebuilds the same value |
| `AviationRadio.Left` | src/lib.rs:48-50 | the MHz part is always within 118..137 |
| `AviationRadio.Right` | src/lib.rs:52-54 | the channel part always names a valid channel |
| `AviationRadio.NewAccessors` | src/lib.rs:30-54 | after a successful `New(l, r)`, `Frequency` is `(l, r)`, `Left` is `l`, `Right` is `r`, and the 25 kHz flag is `r % 100` in `[0, 25, 50, 75]` |
| `AviationRadio.NewTestVectors` | src/lib.rs:104-121 | `New(120, 905)` succeeds with left 120, right 905, 8.33 kHz spaced; `New(110, 300)`, `New(118, 3)`, `New(138, 5)` and `New(121, 12)` fail |
| `AviationRadio.Cmp` | src/lib.rs:4-9 | the derived field-by-field order is `Equal` only on equal values, and `Less`/`Greater` exactly by the lexicographic order of `(left, right)`: the flag never breaks a tie |
| `AviationRadio.CmpTotalOrder` | src/lib.rs:4-9 | swapping the arguments reverses the result; `Less` and "not `Greater`" are transitive |
| `AviationRadio.Format` | src/lib.rs:57-61 | the printed text has exactly one `.`, and splitting it on `.` gives the two padded parts |
| `AviationRadio.FormatWidth` | src/lib.rs:59 | the text is the three digits of `left`, a `.`, then `right` padded to at least three digits; the length is 7 below 1000 and grows with the number's digits above it (no truncation), and the digits after the dot denote `right` |
| `AviationRadio.FromStr` | src/lib.rs:64-71 | success needs a `.` in the input, and `NotEnoughParts` happens only when there is none; the full result is stated by `FromStrSegments` and `FromStrOneSegment` |
| `AviationRadio.FromParseIntError` | src/lib.rs:82-86 | the `From` conversion wraps the integer-parse error as `ParseError(e)` and keeps the cause; this reaches the caller as stated by `FromStrSegments` and `FromStrOneSegment` |
| `AviationRadio.FromStrSegments` | src/lib.rs:66-71 | for segments `a`, `b` before and between the first two dots, the result is the first segment's parse error, else the second's, else `New` of the two numbers |
| `AviationRadio.FromStrOneSegment` | src/lib.rs:67-69 | with no dot: the segment's `ParseError` if it does not parse, otherwise `NotEnoughParts` |
| `AviationRadio.FromStrIgnoresTail` | src/lib.rs:67-69 | a second dot and whatever follows it do not change the result |
| `AviationRadio.RoundTrip` | src/lib.rs:57-71 | `FromStr(Format(rf)) == Ok(rf)` for every value |
| `AviationRadio.FormatInjective` | src/lib.rs:57-61 | two values with the same text are equal |
| `AviationRadio.FromStrOutOfBand` | src/lib.rs:17-19 | `"138.005"` is rejected with `InvalidFrequency` |
| `AviationRadio.FromStrBadChannel` | src/lib.rs:24-28 | `"118.003"` is rejected with `InvalidFrequency` |
| `AviationRadio.FromStrEightThreeThree` | src/lib.rs:64-71 | `"120.905"` parses to left 120, right 905, 8.33 kHz spaced |
| `AviationRadio.FromStrNotNumeric` | src/lib.rs:68 | `"abc.005"` is rejected with `ParseError(InvalidDigit)` |
| `AviationRadio.FromStrMissingParts` | src/lib.rs:68-69 | `"120"` gives `NotEnoughParts`; `"120."` gives `ParseError(Empty)` |
| `Numerals.ParseU16` | src/lib.rs:68-69 | `parse::<u16>` succeeds iff the text is an optional `+` and one or more digits denoting at most 65535, and then returns that number |
| `Numerals.ParseU16Errors` | src/lib.rs:68-69 | empty text is `Empty`; a lone sign or a non-digit first character after an optional `+` is `InvalidDigit`; digits denoting more than 65535 are `PosOverflow` |
| `Numerals.AccumulateValue` | src/lib.rs:68-69 | the left-to-right checked scan after digits `p` succeeds iff the rest is all digits and `p + rest` denotes at most 65535, returns that value, and reports `PosOverflow` on digits that are too large |
| `Numerals.Decimal` | src/lib.rs:59 | the decimal form of a number is a non-empty digit string |
| `Numerals.DecimalValue` | src/lib.rs:59 | the decimal form reads back as the number and has no leading zero above 9 |
| `Numerals.Pad3` | src/lib.rs:59 | `{:03}` output is all digits, has length max(3, digits of the number), equals the decimal form from 100 up, and reads back as the number |
| `Numerals.Pad3KeepsDecimal` | src/lib.rs:59 | `{:03}` only prepends zeros: its output ends with the full decimal form, so nothing is truncated |
| `Numerals.ParsePad3` | src/lib.rs:59-69 | `parse::<u16>` of the `{:03}` form of a `u16` returns that number |
| `Segments.Nth` | src/lib.rs:68-69 | call number `i + 1` of `parts.next()` on the split iterator: the segment if there is one, else nothing; its use is stated by `AviationRadio.FromStrSegments` (two segments are there) and `AviationRadio.FromStrOneSegment` (the second is missing) |
| `Wrappers.Option.OkOr` | src/lib.rs:68-69 | `ok_or(NotEnoughParts)`: a missing segment becomes that error; its effect is stated by `AviationRadio.FromStrOneSegment`, where a missing second segment gives `NotEnoughParts`, and by `AviationRadio.FromStrSegments` |
| `Segments.Split` | src/lib.rs:67 | `split` yields at least one segment, and no segment contains the separator |
| `Segments.JoinSplit` | src/lib.rs:67 | joining the segments with the separator gives the input back |
| `Segments.SplitJoin` | src/lib.rs:67 | a non-empty list of separator-free segments is recovered by splitting its join |
| `Segments.SplitAtFirst` | src/lib.rs:67-69 | the first separator ends the first segment, and the rest is split on its own |
| `Segments.SplitCount` | src/lib.rs:67 | there is one more segment than there are separators |

## Left out

- The `Serialize` and `Deserialize` derives (src/lib.rs:2, 4). They are serde glue, and their wire format is not visible in the crate.
- `Deserialize` builds a value from any three field values without `new`'s checks, for example `left` 5, `right` 3 with the flag set. The model's `RadioFrequency` covers only validated values. For a deserialized invalid value, `Valid`, `RoundTrip` and the statement that the flag never breaks a tie in `Cmp` do not apply.
- The `Debug` and `Clone`/`Copy` derives. They have no behaviour; Dafny datatype values are already plain copyable values.
- `Display` for `RadioFrequencyError` (src/lib.rs:88-96) and the `std::error::Error` marker impl (src/lib.rs:98). They are fixed message strings with no logic.
- `ParseIntError` internals. The cause is the small enum `Empty | InvalidDigit | PosOverflow`. `ParseU16` approximates `u16::from_str` as implemented in Rust's core library (`from_str_radix`): optional `+`, a lone sign rejected, then a digit check, a checked multiply and a checked add per character. Bytes of a multi-byte UTF-8 character are modelled as one `char`; either way the scan stops at that character with `InvalidDigit`, unless an earlier digit has already overflowed (`PosOverflow`).
- `Format` is the text `fmt` writes, as `to_string()` produces it. The `fmt::Result` error that `write!` passes on when the formatter's output fails (src/lib.rs:58-59) is not modelled.
- `u16` is the subset type `0 <= x < 65536`. No operation of the crate can leave that range: `new` only compares and takes `right % 100`, and the parser checks each step for overflow.
- The derived `PartialEq`/`PartialOrd` are not separate members. Equality is Dafny's datatype equality, and `partial_cmp` is `Some(cmp)` for this type.

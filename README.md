# task_log duration formatter, in Dafny

`task_log` is a small Rust library. It prints a RUNNING / DONE status line around a unit of work.
Its one piece of logic is `format_duration` (src/util.rs). That function turns an elapsed time into a short label such as `999ns`, `5ms`, `1m `, `12mo` or `3y `.

The label has two parts:
- the count of elapsed nanoseconds divided by the size of one adaptive unit, truncated toward zero;
- that unit's two-character suffix, written immediately after the number.

The unit is the first branch of a fixed if / else-if chain whose upper bound the count is below. The chain runs from nanoseconds to years, and years have no upper bound.

The model has three files:
- `util.dfy` (module `Util`) holds the unit selection, the suffix and divisor tables, Rust's truncating division and the formatter. It also holds a reader for the formatter's output, which serves as its partner, and the lemmas.
- `decimal.dfy` (module `Decimal`) models the decimal rendering of an `i64` that `format!("{}", ...)` performs. It has a parser for each printer. Parsing inverts printing for every natural and every integer. Printing inverts parsing for every canonical numeral, signed ones included, except "-0", which the printer never writes.
- `wrappers.dfy` (module `Wrappers`) holds `Option`.

Modelling decisions:
- The input is the signed 64-bit nanosecond count (`I64`). The `chrono::Duration` conversion before it is not modelled.
- The source writes its bounds and divisors as `f64` literals cast to `i64`. Every one of them is an exact integer, so the model uses integer constants.
- Rust's `/` truncates toward zero. The model writes it out as `TruncDiv`. `Util.TruncDivAgrees` shows that it equals Dafny's Euclidean `/` here, because a negative count always falls in the nanosecond branch, whose divisor is 1.
- Strings are sequences of Unicode scalar values. So `"µs"` has two characters, as every other suffix does. As a Rust `String`, which is UTF-8, it is three bytes long.
- The week unit holds at most four whole weeks. Five or six weeks already select months (`Util.WeeksStopAtFour`). The source's unit test checks one to six whole units of every unit except weeks. So "i whole units print as i" holds for i up to each unit's capacity (`Util.WholeUnits`), and for 1..6 in every unit but weeks (`Util.SourceTestCases`).

## Model

| member | source | states |
|---|---|---|
| `Decimal.NatToString` | src/util.rs:38 | The decimal rendering of a natural is non-empty and all digits, with no leading zero except for "0" itself. It is one character long exactly when the value is below 10. |
| `Decimal.IntToString` | src/util.rs:38 | The rendering of an `i64` starts with '-' exactly when the value is negative. The rest is a canonical numeral of the magnitude, so the whole is a canonical signed numeral (no leading zeros, no "-0"). |
| `Decimal.ParseNatToString` | src/util.rs:38 | Parsing the rendering of any natural gives that natural back. |
| `Decimal.NatToStringParse` | src/util.rs:38 | Rendering the value of any canonical numeral gives that numeral back. |
| `Decimal.NatToStringInjective` | src/util.rs:38 | Two naturals render the same exactly when they are equal. |
| `Decimal.IntRoundTrip` | src/util.rs:38 | Parsing the rendering of any integer, negative ones included, gives it back. |
| `Decimal.IntToStringParse` | src/util.rs:38 | Rendering the value of a canonical signed numeral gives that numeral back. This covers a canonical magnitude alone, or one other than "0" with a '-' before it. |
| `Util.SelectUnit` | src/util.rs:7-37 | The if / else-if chain. The unit it selects always has the count within its range under the reference table of bounds; `Util.SelectIsBand` adds that no other unit's range holds the count. |
| `Util.Factor` | src/util.rs:9-36 | The divisor each branch binds is at least 1, so the division never faults. `Util.FactorIsLowerBound` ties each divisor to the bound at which its branch starts. |
| `Util.FormatDuration` | src/util.rs:3-39 | `format_duration` itself. The output's last two characters are the selected unit's suffix. Everything before them is a canonical signed numeral that reads back as the truncated quotient. Since a canonical numeral is the only printing of its value (`Decimal.IntToStringParse`), this fixes the output string exactly. |
| `Util.Suffix` | src/util.rs:7-37 | Every suffix is exactly two characters, neither of them a digit. The suffix identifies its unit uniquely. |
| `Util.TruncDiv` | src/util.rs:38 | Integer `/` truncates toward zero. For a non-negative dividend the remainder lies in [0, b). For a negative dividend it lies in (-b, 0]. |
| `Util.ThresholdsIncrease` | src/util.rs:7-37 | The bounds 1000, 1e6, 1e9, 6e10, 3.6e12, 8.64e13, 6.048e14, 2.628e15, 3.154e16 strictly increase. |
| `Util.FactorIsLowerBound` | src/util.rs:7-37 | The nanosecond divisor is 1. Every other unit's divisor is the bound at which that unit's branch starts. |
| `Util.BandsDisjoint` | src/util.rs:7-37 | No count lies in the ranges of two different units. |
| `Util.SelectIsBand` | src/util.rs:7-37 | The chain selects a unit exactly when the count lies in that unit's range. Both directions are proved, so every count selects exactly one unit. |
| `Util.SelectMonotone` | src/util.rs:7-37 | A longer duration never selects a smaller unit. |
| `Util.YearsUnbounded` | src/util.rs:34-38 | Every count from 3.154e16 up selects years, is divided by 3.154e16 and gets suffix "y ". The number shown is between 1 and 292. |
| `Util.TruncDivAgrees` | src/util.rs:38 | On every `i64` count, Rust's truncating quotient by the selected divisor equals the Euclidean one. |
| `Util.BelowThousand` | src/util.rs:7-9 | Any count below 1000, negative ones included, prints as its own decimal followed by "ns". |
| `Util.QuotientBounds` | src/util.rs:10-38 | From 1000 ns on, the number q shown is at least 1, with q·factor ≤ n < (q+1)·factor and n below the branch's upper bound. So q is at most 999 for µs/ms, 59 for s/m, 23 for h, 6 for d, 4 for w and 12 for mo. |
| `Util.BandHoldsMaxCount` | src/util.rs:10-33 | Each bounded unit's range holds its maximum count of whole units, and not one more. |
| `Util.WholeUnits` | src/util.rs:7-38 | For every i from 1 to the unit's capacity, exactly i whole units format as i immediately followed by the unit's suffix. |
| `Util.TestUnitNanos` | src/util.rs:55-96 | Each unit as the unit test builds it, with its inputs in seconds converted to nanoseconds, equals the unit's divisor. |
| `Util.ZeroFormatsAsNs` | src/util.rs:51-54 | A zero duration prints as exactly "0ns". |
| `Util.SourceTestCases` | src/util.rs:55-96 | These are the unit test's other expected strings. For 1 ≤ i ≤ 6 and every unit except weeks, i units fit in an `i64` and print as "<i>" followed by ns, µs, ms, "s ", "m ", "h ", "d ", mo or "y ". |
| `Util.WeeksStopAtFour` | src/util.rs:28-33 | Four weeks print as "4w ". Five weeks already print as "1mo". |
| `Util.FormatRoundTrip` | src/util.rs:38 | Reading the output back yields the truncated quotient and the selected unit. |
| `Util.CanonicalReadingIsOutput` | src/util.rs:38 | The converse: any string made of a canonical numeral and a suffix that reads as the output's quotient and unit is the output itself. So the output is exactly the decimal numeral of the quotient followed by the suffix, with no separator. |
| `Util.SuffixOfUnit` | src/util.rs:7-37 | A string the suffix reader accepts is exactly the suffix of the unit it names. |
| `Util.FormatDeterminesReading` | src/util.rs:38 | Two counts format the same exactly when they select the same unit and the same truncated quotient. |

## Left out

- The conversion from `chrono::Duration` to nanoseconds, and the `unwrap()` that panics when that conversion overflows (src/util.rs:4): this is a foreign library call. The model starts from the `i64` count.
- Floating-point semantics of the `f64` literals: every literal is an exact integer, so integer constants take their place.
- Byte length: the model counts characters, not UTF-8 bytes, so it does not say that `"µs"` is three bytes long.
- `task` in src/lib.rs: console output around a caller's closure. It prints the RUNNING and DONE lines with `colorful` styling and a raw cursor-up escape. Its only logic calls the closure once and returns the result unchanged.
- The configuration builder and its global, mutex-guarded cell (`ConfigBuilder`, `duration`, `apply`): used by examples/conf.rs, but its implementation is not part of this model. src/lib.rs takes no configuration and never prints a duration.
- The demonstration programs examples/result.rs, examples/new_file.rs and examples/conf.rs: they only do file I/O, sleeping and printing.

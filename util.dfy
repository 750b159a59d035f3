/**
 * `format_duration` of src/util.rs: an elapsed time, as a signed 64-bit count of
 * nanoseconds, rendered as a truncated whole number of one adaptive unit followed
 * by that unit's two-character suffix ("999ns", "5ms", "1m ", "12mo", "3y ").
 *
 * The source writes its bounds and divisors as `f64` literals cast to `i64`
 * (`1e6 as i64`, `factor as i64`); each of them is an exact integer, so here they
 * are integer constants. The conversion from a `chrono::Duration` to the count is
 * outside the model: the count itself is the input.
 */
module Util {
  import opened Wrappers
  import opened Decimal

  const I64_MIN: int := -0x8000_0000_0000_0000
  const I64_MAX: int := 0x7FFF_FFFF_FFFF_FFFF

  /** Rust's `i64`, the type of `num_nanoseconds()`. */
  type I64 = x: int | I64_MIN <= x <= I64_MAX

  datatype Unit =
    | Nanoseconds | Microseconds | Milliseconds | Seconds | Minutes
    | Hours | Days | Weeks | Months | Years

  /** The units from the smallest to the largest. */
  const Units: seq<Unit> :=
    [Nanoseconds, Microseconds, Milliseconds, Seconds, Minutes, Hours, Days, Weeks, Months, Years]

  /** `Thresholds[k]` is the count, in nanoseconds, from which `Units[k + 1]` is used. */
  const Thresholds: seq<int> :=
    [ 1000, 1_000_000, 1_000_000_000, 60_000_000_000, 3_600_000_000_000,
      86_400_000_000_000, 604_800_000_000_000, 2_628_000_000_000_000, 31_540_000_000_000_000 ]

  /** The position of a unit in `Units`. */
  function Rank(u: Unit): (k: nat)
    ensures k < |Units| && Units[k] == u
  {
    match u
    case Nanoseconds => 0
    case Microseconds => 1
    case Milliseconds => 2
    case Seconds => 3
    case Minutes => 4
    case Hours => 5
    case Days => 6
    case Weeks => 7
    case Months => 8
    case Years => 9
  }

  /** The reference definition of a unit's range: from the threshold below it (none
      for nanoseconds) up to, and excluding, the threshold above it (none for years). */
  predicate InBand(u: Unit, n: int) {
    var k := Rank(u);
    (k == 0 || Thresholds[k - 1] <= n) && (k == |Units| - 1 || n < Thresholds[k])
  }

  /** The if / else-if chain of `format_duration`: the first bound the count is below. */
  function SelectUnit(n: I64): (u: Unit)
    ensures InBand(u, n)
  {
    if n < 1000 then Nanoseconds
    else if n < 1_000_000 then Microseconds
    else if n < 1_000_000_000 then Milliseconds
    else if n < 60_000_000_000 then Seconds
    else if n < 3_600_000_000_000 then Minutes
    else if n < 86_400_000_000_000 then Hours
    else if n < 604_800_000_000_000 then Days
    else if n < 2_628_000_000_000_000 then Weeks
    else if n < 31_540_000_000_000_000 then Months
    else Years
  }

  /** The suffix the chain binds for a unit. Every suffix has two characters, neither a
      digit, and the suffix alone determines the unit. */
  function Suffix(u: Unit): (s: string)
    ensures |s| == 2 && !IsDigit(s[0]) && !IsDigit(s[1])
    ensures UnitOfSuffix(s) == Some(u)
  {
    match u
    case Nanoseconds => "ns"
    case Microseconds => "\U{00B5}s"
    case Milliseconds => "ms"
    case Seconds => "s "
    case Minutes => "m "
    case Hours => "h "
    case Days => "d "
    case Weeks => "w "
    case Months => "mo"
    case Years => "y "
  }

  /** Which unit a two-character suffix names, if any. */
  function UnitOfSuffix(t: string): Option<Unit>
  {
    if t == "ns" then Some(Nanoseconds)
    else if t == "\U{00B5}s" then Some(Microseconds)
    else if t == "ms" then Some(Milliseconds)
    else if t == "s " then Some(Seconds)
    else if t == "m " then Some(Minutes)
    else if t == "h " then Some(Hours)
    else if t == "d " then Some(Days)
    else if t == "w " then Some(Weeks)
    else if t == "mo" then Some(Months)
    else if t == "y " then Some(Years)
    else None
  }

  /** The divisor, in nanoseconds per unit, the chain binds for a unit. */
  function Factor(u: Unit): (f: nat)
    ensures f >= 1
  {
    match u
    case Nanoseconds => 1
    case Microseconds => 1000
    case Milliseconds => 1_000_000
    case Seconds => 1_000_000_000
    case Minutes => 60_000_000_000
    case Hours => 3_600_000_000_000
    case Days => 86_400_000_000_000
    case Weeks => 604_800_000_000_000
    case Months => 2_628_000_000_000_000
    case Years => 31_540_000_000_000_000
  }

  /** The most whole units a unit's band holds; years have no upper bound. */
  function MaxCount(u: Unit): nat
    requires u != Years
  {
    match u
    case Nanoseconds => 999
    case Microseconds => 999
    case Milliseconds => 999
    case Seconds => 59
    case Minutes => 59
    case Hours => 23
    case Days => 6
    case Weeks => 4
    case Months => 12
  }

  /** Rust's `/` on integers: the quotient truncated toward zero, so the remainder
      takes the sign of the dividend. */
  function TruncDiv(a: int, b: int): (q: int)
    requires b > 0
    ensures a >= 0 ==> 0 <= a - q * b < b
    ensures a < 0 ==> 0 <= q * b - a < b
  {
    if a >= 0 then a / b else -((-a) / b)
  }

  /** `format_duration`: the truncated count of the selected unit, then its suffix.
      The last two characters name the unit; everything before them is a canonical
      numeral, as `i64`'s printer writes it, that reads back as the truncated quotient. */
  function FormatDuration(n: I64): (s: string)
    ensures |s| >= 3 && s[|s| - 2..] == Suffix(SelectUnit(n))
    ensures IsCanonicalInt(s[..|s| - 2])
    ensures ParseInt(s[..|s| - 2]) == Some(TruncDiv(n, Factor(SelectUnit(n))))
  {
    var u := SelectUnit(n);
    var q := TruncDiv(n, Factor(u));
    IntRoundTrip(q);
    var s := IntToString(q) + Suffix(u);
    assert s[..|s| - 2] == IntToString(q);
    s
  }

  /** What a formatted duration says: a count of a unit. */
  datatype Reading = Reading(count: int, unit: Unit)

  /** Reads a formatted duration back: a numeral followed by a known suffix. */
  function ParseDuration(s: string): Option<Reading>
  {
    if |s| < 2 then None
    else
      match UnitOfSuffix(s[|s| - 2..])
      case None => None
      case Some(u) =>
        match ParseInt(s[..|s| - 2])
        case None => None
        case Some(q) => Some(Reading(q, u))
  }

  // ---------------------------------------------------------------------------
  // Unit selection

  /** The bounds of the chain strictly increase. */
  lemma ThresholdsIncrease()
    ensures forall i, j :: 0 <= i < j < |Thresholds| ==> Thresholds[i] < Thresholds[j]
  {
  }

  /** Each unit's divisor is the bound its band starts at, so at least one whole unit
      is shown from a thousand nanoseconds on. */
  lemma FactorIsLowerBound(u: Unit)
    ensures u == Nanoseconds ==> Factor(u) == 1
    ensures u != Nanoseconds ==> Factor(u) == Thresholds[Rank(u) - 1]
  {
  }

  /** The bands of two different units do not overlap. */
  lemma BandsDisjoint(u: Unit, v: Unit, n: int)
    requires InBand(u, n) && InBand(v, n)
    ensures u == v
  {
  }

  /** The chain selects a unit exactly when the count lies in that unit's band: every
      count selects one unit, and no other unit's band holds it. */
  lemma SelectIsBand(n: I64, u: Unit)
    ensures SelectUnit(n) == u <==> InBand(u, n)
  {
  }

  /** A longer duration never selects a smaller unit. */
  lemma SelectMonotone(m: I64, n: I64)
    requires m <= n
    ensures Rank(SelectUnit(m)) <= Rank(SelectUnit(n))
  {
  }

  /** The year branch has no upper bound. */
  lemma YearsUnbounded(n: I64)
    requires n >= 31_540_000_000_000_000
    ensures SelectUnit(n) == Years
    ensures FormatDuration(n) == NatToString(n / 31_540_000_000_000_000) + "y "
    ensures 1 <= n / 31_540_000_000_000_000 <= 292
  {
  }

  // ---------------------------------------------------------------------------
  // The numeric part

  /** Rust's truncating `/` and Dafny's Euclidean `/` agree on every count, because a
      negative count is always divided by one. */
  lemma TruncDivAgrees(n: I64)
    ensures TruncDiv(n, Factor(SelectUnit(n))) == n / Factor(SelectUnit(n))
  {
  }

  /** A count below a thousand, negative or not, is printed as itself in nanoseconds. */
  lemma BelowThousand(n: I64)
    requires n < 1000
    ensures FormatDuration(n) == IntToString(n) + "ns"
  {
  }

  /** From a thousand nanoseconds on, the shown number q is the count of whole units:
      q units fit in the count, q + 1 do not, q is at least one, and below years it is
      at most the number of units the band can hold. */
  lemma QuotientBounds(n: I64)
    requires n >= 1000
    ensures var u := SelectUnit(n); var q := TruncDiv(n, Factor(u));
      && 1 <= q
      && q * Factor(u) <= n < (q + 1) * Factor(u)
      && (u != Years ==> q <= MaxCount(u) && n < Thresholds[Rank(u)])
  {
  }

  /** Exactly i whole units print as i followed by the unit's suffix, for every i the
      unit's band can hold. */
  lemma WholeUnits(u: Unit, i: nat)
    requires 1 <= i
    requires u != Years ==> i <= MaxCount(u)
    requires i * Factor(u) <= I64_MAX
    ensures FormatDuration(i * Factor(u)) == NatToString(i) + Suffix(u)
  {
    var f := Factor(u);
    var n: I64 := i * f;
    FactorIsLowerBound(u);
    MulMonotone(1, i, f);
    if u != Years {
      MulMonotone(i, MaxCount(u), f);
      BandHoldsMaxCount(u);
    }
    assert InBand(u, n);
    SelectIsBand(n, u);
    ExactQuotient(i, f);
  }

  /** The band of each bounded unit holds its maximum count of whole units. */
  lemma BandHoldsMaxCount(u: Unit)
    requires u != Years
    ensures MaxCount(u) * Factor(u) < Thresholds[Rank(u)] <= (MaxCount(u) + 1) * Factor(u)
  {
  }

  /** Proof helper: multiplying by a natural keeps the order of two integers. */
  lemma MulMonotone(a: int, b: int, c: nat)
    requires a <= b
    ensures a * c <= b * c
  {
  }

  /** Proof helper: dividing a whole number of units by the unit leaves no remainder. */
  lemma ExactQuotient(i: nat, f: int)
    requires f > 0
    ensures TruncDiv(i * f, f) == i
  {
  }

  /** One unit in nanoseconds, built as the source's unit test builds it: from
      nanoseconds, microseconds, milliseconds or seconds, with minutes, hours, days,
      months and years given as a number of seconds. The test has no case for weeks. */
  function TestUnitNanos(u: Unit): (f: nat)
    requires u != Weeks
    ensures f == Factor(u)
  {
    match u
    case Nanoseconds => 1
    case Microseconds => 1000
    case Milliseconds => 1_000_000
    case Seconds => 1_000_000_000
    case Minutes => 60 * 1_000_000_000
    case Hours => 3600 * 1_000_000_000
    case Days => 86400 * 1_000_000_000
    case Months => 2_628_000 * 1_000_000_000
    case Years => 31_540_000 * 1_000_000_000
  }

  /** The first expected string of the source's unit test: a zero duration. */
  lemma ZeroFormatsAsNs()
    ensures FormatDuration(0) == "0ns"
  {
    BelowThousand(0);
    assert NatToString(0) == "0";
  }

  /** The other expected strings of the source's unit test: 1 to 6 units of every
      tested unit print as the count followed by that unit's suffix. */
  lemma SourceTestCases(u: Unit, i: nat)
    requires u != Weeks && 1 <= i <= 6
    ensures i * TestUnitNanos(u) <= I64_MAX
    ensures FormatDuration(i * TestUnitNanos(u)) == NatToString(i) + Suffix(u)
  {
    MulMonotone(i, 6, Factor(u));
    WholeUnits(u, i);
  }

  /** Four weeks still print in weeks, but five weeks already exceed the month bound,
      so the week unit never shows more than 4. */
  lemma WeeksStopAtFour()
    ensures FormatDuration(4 * 604_800_000_000_000) == "4w "
    ensures FormatDuration(5 * 604_800_000_000_000) == "1mo"
  {
    WholeUnits(Weeks, 4);
    var n: I64 := 5 * 604_800_000_000_000;
    assert SelectUnit(n) == Months;
    assert TruncDiv(n, Factor(Months)) == 1;
    assert NatToString(1) == "1";
  }

  // ---------------------------------------------------------------------------
  // The output string

  /** Reading the output back recovers the truncated quotient and the selected unit,
      so no separator or rounding intervenes. */
  lemma FormatRoundTrip(n: I64)
    ensures var u := SelectUnit(n);
      ParseDuration(FormatDuration(n)) == Some(Reading(TruncDiv(n, Factor(u)), u))
  {
  }

  /** Two counts format alike exactly when they select the same unit and the same
      whole number of it. */
  lemma FormatDeterminesReading(m: I64, n: I64)
    ensures FormatDuration(m) == FormatDuration(n) <==>
      SelectUnit(m) == SelectUnit(n)
      && TruncDiv(m, Factor(SelectUnit(m))) == TruncDiv(n, Factor(SelectUnit(n)))
  {
    FormatRoundTrip(m);
    FormatRoundTrip(n);
  }

  /** The converse of the round trip: a canonical numeral followed by a suffix that
      reads as the output's quotient and unit is the output itself, character for
      character. */
  lemma CanonicalReadingIsOutput(n: I64, s: string)
    requires |s| >= 2 && IsCanonicalInt(s[..|s| - 2])
    requires ParseDuration(s) == ParseDuration(FormatDuration(n))
    ensures s == FormatDuration(n)
  {
    var t := FormatDuration(n);
    var u := SelectUnit(n);
    FormatRoundTrip(n);
    assert UnitOfSuffix(s[|s| - 2..]) == Some(u);
    SuffixOfUnit(s[|s| - 2..], u);
    IntToStringParse(s[..|s| - 2]);
    IntToStringParse(t[..|t| - 2]);
    assert s == s[..|s| - 2] + s[|s| - 2..];
    assert t == t[..|t| - 2] + t[|t| - 2..];
  }

  /** A string the suffix reader accepts is the suffix of the unit it names. */
  lemma SuffixOfUnit(t: string, u: Unit)
    requires UnitOfSuffix(t) == Some(u)
    ensures t == Suffix(u)
  {
  }
}

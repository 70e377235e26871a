/**
 * Month labels of the form `YYYYMmm` (for instance `2023M04`) and their conversion to the first
 * day of that month. The raw script appends `"01"` and parses with the pattern `%YM%m%d`; pandas
 * turns that pattern into a regular expression (case-insensitive, `%m` as `1[0-2]|0[1-9]|[1-9]`,
 * `%d` as `3[01]|[12]\d|0[1-9]|[1-9]| [1-9]`), takes the first match from the start of the text
 * and then rejects any text left over. `ParseAsWritten` follows those steps, with digits
 * restricted to ASCII and errors reduced to their kinds. `ParseMonthLabel` is
 * the intended conversion: padded labels and, as `%m` allows, unpadded one-digit months.
 */
module MonthLabel {
  import opened Common

  datatype Date = Date(year: int, month: int, day: int)

  /** Lexicographic order on dates. */
  predicate Before(a: Date, b: Date)
  {
    a.year < b.year || (a.year == b.year && (a.month < b.month || (a.month == b.month && a.day < b.day)))
  }

  predicate LeapYear(y: int)
  {
    (y % 4 == 0 && y % 100 != 0) || y % 400 == 0
  }

  function DaysInMonth(y: int, m: int): (r: int)
    requires 1 <= m <= 12
    ensures 28 <= r <= 31
  {
    if m == 2 then (if LeapYear(y) then 29 else 28)
    else if m == 4 || m == 6 || m == 9 || m == 11 then 30
    else 31
  }

  /** The first and last calendar days pandas' nanosecond timestamps can hold at midnight. */
  const FirstTimestampDay := Date(1677, 9, 22)
  const LastTimestampDay := Date(2262, 4, 11)

  predicate InTimestampRange(d: Date)
  {
    !Before(d, FirstTimestampDay) && !Before(LastTimestampDay, d)
  }

  predicate IsDigit(c: char)
  {
    '0' <= c <= '9'
  }

  function DigitValue(c: char): (r: int)
    requires IsDigit(c)
    ensures 0 <= r <= 9
  {
    c as int - '0' as int
  }

  /** A group matched by the pattern: its numeric value and the position just after it. */
  datatype Token = Token(value: int, end: nat)

  /** The two digits at `i` read as one number, when that number lies in 1..`max`. */
  function TwoDigitReading(s: string, i: nat, max: int): seq<Token>
  {
    if i + 1 < |s| && IsDigit(s[i]) && IsDigit(s[i + 1]) && 1 <= 10 * DigitValue(s[i]) + DigitValue(s[i + 1]) <= max
    then [Token(10 * DigitValue(s[i]) + DigitValue(s[i + 1]), i + 2)]
    else []
  }

  /** The digit at `i` read as a number 1..9. */
  function OneDigitReading(s: string, i: nat): seq<Token>
  {
    if i < |s| && IsDigit(s[i]) && DigitValue(s[i]) != 0 then [Token(DigitValue(s[i]), i + 1)] else []
  }

  /**
   * The matches of `%m` starting at `i`, in the order the regular expression tries them: the
   * two-digit reading when it names a month (`01` to `12`), then the one-digit reading `1` to `9`.
   */
  function MonthAlternatives(s: string, i: nat): (r: seq<Token>)
    ensures r == TwoDigitReading(s, i, 12) + OneDigitReading(s, i)
    ensures forall t :: t in r ==> 1 <= t.value <= 12 && i < t.end <= i + 2 && t.end <= |s|
  {
    (if i + 1 < |s| && s[i] == '1' && '0' <= s[i + 1] <= '2' then [Token(10 + DigitValue(s[i + 1]), i + 2)] else [])
    + (if i + 1 < |s| && s[i] == '0' && '1' <= s[i + 1] <= '9' then [Token(DigitValue(s[i + 1]), i + 2)] else [])
    + (if i < |s| && '1' <= s[i] <= '9' then [Token(DigitValue(s[i]), i + 1)] else [])
  }

  /**
   * The matches of `%d` starting at `i`, in the order the regular expression tries them: the
   * two-digit reading when it names a day (`01` to `31`), the one-digit reading `1` to `9`, then a
   * space followed by a digit `1` to `9`.
   */
  function DayAlternatives(s: string, i: nat): (r: seq<Token>)
    ensures r == TwoDigitReading(s, i, 31) + OneDigitReading(s, i)
                 + (if i + 1 < |s| && s[i] == ' ' && IsDigit(s[i + 1]) && DigitValue(s[i + 1]) != 0 then [Token(DigitValue(s[i + 1]), i + 2)] else [])
    ensures forall t :: t in r ==> 1 <= t.value <= 31 && i < t.end <= i + 2 && t.end <= |s|
  {
    (if i + 1 < |s| && s[i] == '3' && '0' <= s[i + 1] <= '1' then [Token(30 + DigitValue(s[i + 1]), i + 2)] else [])
    + (if i + 1 < |s| && '1' <= s[i] <= '2' && IsDigit(s[i + 1]) then [Token(10 * DigitValue(s[i]) + DigitValue(s[i + 1]), i + 2)] else [])
    + (if i + 1 < |s| && s[i] == '0' && '1' <= s[i + 1] <= '9' then [Token(DigitValue(s[i + 1]), i + 2)] else [])
    + (if i < |s| && '1' <= s[i] <= '9' then [Token(DigitValue(s[i]), i + 1)] else [])
    + (if i + 1 < |s| && s[i] == ' ' && '1' <= s[i + 1] <= '9' then [Token(DigitValue(s[i + 1]), i + 2)] else [])
  }

  /** Some `%d` alternative matches right after the `%m` match `m`. */
  predicate DayFollows(s: string, m: Token)
  {
    |DayAlternatives(s, m.end)| > 0
  }

  /** `months[k]` is the first `%m` alternative after which a `%d` alternative matches. */
  predicate FirstWithDay(s: string, months: seq<Token>, k: int)
  {
    0 <= k < |months| && DayFollows(s, months[k]) && forall j :: 0 <= j < k ==> !DayFollows(s, months[j])
  }

  /**
   * Backtracking over the `%m` alternatives: the first one after which some `%d` alternative
   * matches, together with the first such `%d` alternative. Nothing follows `%d` in the pattern,
   * so the search never backtracks into `%d`.
   */
  function FirstMatch(s: string, months: seq<Token>): (r: Option<(Token, Token)>)
    ensures r.Some? ==> exists k :: FirstWithDay(s, months, k) && r.value == (months[k], DayAlternatives(s, months[k].end)[0])
    ensures r.None? ==> forall t :: t in months ==> !DayFollows(s, t)
  {
    if |months| == 0 then None
    else if DayFollows(s, months[0]) then
      assert FirstWithDay(s, months, 0);
      Some((months[0], DayAlternatives(s, months[0].end)[0]))
    else
      match FirstMatch(s, months[1..])
      case None =>
        assert forall t :: t in months ==> t == months[0] || t in months[1..];
        None
      case Some(p) =>
        var k :| FirstWithDay(s, months[1..], k) && p == (months[1..][k], DayAlternatives(s, months[1..][k].end)[0]);
        FirstAfterSkip(s, months, k);
        Some(p)
  }

  /** Skipping a first `%m` alternative that no `%d` alternative follows shifts the first match by one. */
  lemma FirstAfterSkip(s: string, months: seq<Token>, k: int)
    requires |months| > 0 && !DayFollows(s, months[0]) && FirstWithDay(s, months[1..], k)
    ensures FirstWithDay(s, months, k + 1) && months[k + 1] == months[1..][k]
  {
    assert months[k + 1] == months[1..][k];
    forall j | 0 <= j < k + 1
      ensures !DayFollows(s, months[j])
    {
      if j > 0 {
        assert months[j] == months[1..][j - 1];
      }
    }
  }

  /** The match `FirstMatch` returns is one of the `%m` alternatives followed by one of its `%d` alternatives. */
  lemma FirstMatchMembers(s: string, months: seq<Token>)
    ensures FirstMatch(s, months).Some? ==>
              && FirstMatch(s, months).value.0 in months
              && FirstMatch(s, months).value.1 in DayAlternatives(s, FirstMatch(s, months).value.0.end)
  {
    if FirstMatch(s, months).Some? {
      var k :| FirstWithDay(s, months, k) && FirstMatch(s, months).value == (months[k], DayAlternatives(s, months[k].end)[0]);
      assert months[k] in months;
    }
  }

  function YearOf(s: string): (r: int)
    requires |s| >= 4 && IsDigit(s[0]) && IsDigit(s[1]) && IsDigit(s[2]) && IsDigit(s[3])
    ensures 0 <= r <= 9999
  {
    1000 * DigitValue(s[0]) + 100 * DigitValue(s[1]) + 10 * DigitValue(s[2]) + DigitValue(s[3])
  }

  predicate YearAndMarker(s: string)
  {
    |s| >= 5 && IsDigit(s[0]) && IsDigit(s[1]) && IsDigit(s[2]) && IsDigit(s[3]) && (s[4] == 'M' || s[4] == 'm')
  }

  /** The last step of any conversion: the date must be a nanosecond timestamp. */
  function Timestamp(text: string, d: Date): (r: Result<Date>)
    ensures r.Ok? <==> InTimestampRange(d)
    ensures r.Ok? ==> r.value == d
  {
    if InTimestampRange(d) then Ok(d) else Err(OutOfBoundsDatetime(text))
  }

  const YearZeroMessage: string := "year 0 is out of range"
  const DayRangeMessage: string := "day is out of range for month"

  /**
   * `pd.to_datetime(label + '01', format='%YM%m%d')`, as pandas evaluates it: the regular
   * expression, the check for unconverted text, Python's calendar check of the fields (year first,
   * then day), then the timestamp range. Whatever it accepts is the first day of a month.
   */
  function ParseAsWritten(text: string): (r: Result<Date>)
    ensures r.Ok? ==> r.value.day == 1 && 1 <= r.value.month <= 12 && InTimestampRange(r.value)
  {
    var s := text + "01";
    if !YearAndMarker(s) then Err(FormatError(text))
    else
      FirstMatchMembers(s, MonthAlternatives(s, 5));
      match FirstMatch(s, MonthAlternatives(s, 5))
      case None => Err(FormatError(text))
      case Some((m, d)) =>
        if d.end != |s| then Err(FormatError(text))
        else if YearOf(s) == 0 then Err(CalendarError(YearZeroMessage))
        else if d.value > DaysInMonth(YearOf(s), m.value) then Err(CalendarError(DayRangeMessage))
        else
          assert s[|s| - 2] == '0' && s[|s| - 1] == '1';
          LastDayToken(s, m.end, d);
          Timestamp(text, Date(YearOf(s), m.value, d.value))
  }

  /** A padded label: four digits, the marker `M` (either case), two digits naming a month. */
  predicate Canonical(text: string)
  {
    && |text| == 7
    && YearAndMarker(text)
    && IsDigit(text[5]) && IsDigit(text[6])
    && 1 <= 10 * DigitValue(text[5]) + DigitValue(text[6]) <= 12
  }

  /** An unpadded label: four digits, the marker, one digit `1` to `9` naming the month, as `%m` allows. */
  predicate Unpadded(text: string)
  {
    && |text| == 6
    && YearAndMarker(text)
    && IsDigit(text[5]) && DigitValue(text[5]) != 0
  }

  predicate Label(text: string)
  {
    Canonical(text) || Unpadded(text)
  }

  /** The month a label names: its two-digit or its one-digit number. */
  function LabelMonth(text: string): (m: int)
    requires Label(text)
    ensures 1 <= m <= 12
    ensures Unpadded(text) ==> m == DigitValue(text[5])
    ensures Canonical(text) ==> m == 10 * DigitValue(text[5]) + DigitValue(text[6])
  {
    if |text| == 7 then 10 * DigitValue(text[5]) + DigitValue(text[6]) else DigitValue(text[5])
  }

  /**
   * The intended conversion: a label, padded or not, to the first day of the month it names;
   * year 0 is a calendar error, a day outside the timestamp range an out-of-bounds error, and
   * any other text a format error.
   */
  function ParseMonthLabel(text: string): (r: Result<Date>)
    ensures r.Ok? ==> Label(text) && r.value == Date(YearOf(text), LabelMonth(text), 1)
    ensures Label(text) ==> (r.Ok? <==> InTimestampRange(Date(YearOf(text), LabelMonth(text), 1)))
    ensures Label(text) && YearOf(text) == 0 ==> r == Err(CalendarError(YearZeroMessage))
    ensures !Label(text) ==> r == Err(FormatError(text))
  {
    if !Label(text) then Err(FormatError(text))
    else if YearOf(text) == 0 then Err(CalendarError(YearZeroMessage))
    else Timestamp(text, Date(YearOf(text), LabelMonth(text), 1))
  }

  function DigitChar(d: int): (c: char)
    requires 0 <= d <= 9
    ensures IsDigit(c) && DigitValue(c) == d
  {
    (d + '0' as int) as char
  }

  /** The label of a month: four-digit year, `M`, two-digit month. */
  function FormatMonthLabel(year: int, month: int): (text: string)
    requires 0 <= year <= 9999 && 1 <= month <= 12
    ensures Canonical(text) && text[4] == 'M'
  {
    var tens := year / 10;
    var hundreds := tens / 10;
    [DigitChar(hundreds / 10), DigitChar(hundreds % 10), DigitChar(tens % 10), DigitChar(year % 10), 'M',
     DigitChar(month / 10), DigitChar(month % 10)]
  }

  /** Division by ten with a known quotient and remainder. */
  lemma DivMod10(n: int, q: int, r: int)
    requires 0 <= r <= 9 && n == 10 * q + r
    ensures n / 10 == q && n % 10 == r
  {
  }

  /** Formatting a month and parsing the label gives back the first day of that month. */
  lemma FormatThenParse(year: int, month: int)
    requires 0 <= year <= 9999 && 1 <= month <= 12
    ensures ParseMonthLabel(FormatMonthLabel(year, month)).Ok? <==> InTimestampRange(Date(year, month, 1))
    ensures InTimestampRange(Date(year, month, 1)) ==> ParseMonthLabel(FormatMonthLabel(year, month)) == Ok(Date(year, month, 1))
  {
    var text := FormatMonthLabel(year, month);
    assert YearOf(text) == year;
    assert 10 * DigitValue(text[5]) + DigitValue(text[6]) == month;
  }

  /**
   * A label with an upper-case marker that parses is the label of the month it parses to, once a
   * one-digit month is padded with `0`.
   */
  lemma ParseThenFormat(text: string)
    requires ParseMonthLabel(text).Ok? && text[4] == 'M'
    ensures FormatMonthLabel(ParseMonthLabel(text).value.year, ParseMonthLabel(text).value.month)
            == if |text| == 7 then text else text[..5] + "0" + text[5..]
  {
    FormatLabel(text);
  }

  /** Formatting the year and month a label names spells the label, padded to two month digits. */
  lemma FormatLabel(text: string)
    requires Label(text) && text[4] == 'M'
    ensures FormatMonthLabel(YearOf(text), LabelMonth(text)) == if |text| == 7 then text else text[..5] + "0" + text[5..]
  {
    var padded := if |text| == 7 then text else text[..5] + "0" + text[5..];
    assert |padded| == 7 && padded[..5] == text[..5] && padded[6] == text[|text| - 1];
    var a, b, c, e := DigitValue(text[0]), DigitValue(text[1]), DigitValue(text[2]), DigitValue(text[3]);
    var year, month := YearOf(text), LabelMonth(text);
    DivMod10(year, 100 * a + 10 * b + c, e);
    DivMod10(100 * a + 10 * b + c, 10 * a + b, c);
    DivMod10(10 * a + b, a, b);
    DivMod10(month, DigitValue(padded[5]), DigitValue(padded[6]));
    var f := FormatMonthLabel(year, month);
    forall k | 0 <= k < 7 ensures f[k] == padded[k] {
      if k != 4 {
        assert IsDigit(padded[k]) && DigitChar(DigitValue(padded[k])) == padded[k];
      }
    }
  }

  /** A `%d` match that runs to the end of a text ending in `01` reads the day 1. */
  lemma LastDayToken(s: string, i: nat, t: Token)
    requires |s| >= 2 && s[|s| - 2] == '0' && s[|s| - 1] == '1'
    requires t in DayAlternatives(s, i) && t.end == |s|
    ensures t.value == 1
  {
  }

  /** On a padded label the two conversions agree. */
  lemma AsWrittenAgreesOnCanonical(text: string)
    requires Canonical(text)
    ensures ParseAsWritten(text) == ParseMonthLabel(text)
  {
    var s := text + "01";
    assert s[5] == text[5] && s[6] == text[6] && s[7] == '0' && s[8] == '1';
    assert s[0] == text[0] && s[1] == text[1] && s[2] == text[2] && s[3] == text[3] && s[4] == text[4];
    var month := 10 * DigitValue(text[5]) + DigitValue(text[6]);
    assert DayAlternatives(s, 7) == [Token(1, 9)];
    assert MonthAlternatives(s, 5)[0] == Token(month, 7);
  }

  /** On an unpadded label with month digit `2` to `9`, `%m` takes that digit and `%d` the appended `01`. */
  lemma UnpaddedMatch(text: string)
    requires Unpadded(text) && text[5] != '1'
    ensures FirstMatch(text + "01", MonthAlternatives(text + "01", 5)) == Some((Token(DigitValue(text[5]), 6), Token(1, 8)))
  {
    var s := text + "01";
    assert s[5] == text[5] && s[6] == '0' && s[7] == '1';
    var m := Token(DigitValue(text[5]), 6);
    assert MonthAlternatives(s, 5) == [m];
    assert DayAlternatives(s, 6) == [Token(1, 8)];
    assert FirstWithDay(s, [m], 0);
  }

  /** On an unpadded label with month digit `2` to `9` the pattern reads the month as intended. */
  lemma AsWrittenOnUnpadded(text: string)
    requires Unpadded(text) && text[5] != '1'
    ensures ParseAsWritten(text) == ParseMonthLabel(text)
  {
    var s := text + "01";
    assert s[0] == text[0] && s[1] == text[1] && s[2] == text[2] && s[3] == text[3] && s[4] == text[4];
    assert YearAndMarker(s) && YearOf(s) == YearOf(text);
    UnpaddedMatch(text);
    assert |s| == 8 && LabelMonth(text) == DigitValue(text[5]);
  }

  /** On the unpadded label with month digit `1` the pattern takes `10` for the month: October. */
  lemma AsWrittenOnMonthOne(text: string)
    requires Unpadded(text) && text[5] == '1'
    ensures ParseAsWritten(text) == if YearOf(text) == 0 then Err(CalendarError(YearZeroMessage))
                                    else Timestamp(text, Date(YearOf(text), 10, 1))
  {
    var s := text + "01";
    assert s[5] == '1' && s[6] == '0' && s[7] == '1';
    assert s[..5] == text[..5];
    var months := [Token(10, 7), Token(1, 6)];
    assert MonthAlternatives(s, 5) == months;
    assert DayAlternatives(s, 7) == [Token(1, 8)];
    assert FirstWithDay(s, months, 0);
    assert FirstMatch(s, months) == Some((Token(10, 7), Token(1, 8)));
  }

  /** Whatever is not a label the pattern rejects as well, with the same format error. */
  lemma AsWrittenRejectsNonLabels(text: string)
    requires !Label(text)
    ensures ParseAsWritten(text) == Err(FormatError(text))
  {
    var s := text + "01";
    if YearAndMarker(s) {
      assert |text| >= 5;
      assert s[..5] == text[..5];
      assert YearAndMarker(text);
      var months := MonthAlternatives(s, 5);
      FirstMatchMembers(s, months);
      if |text| == 5 {
        assert s[5] == '0' && s[6] == '1';
        assert months == [Token(1, 7)];
        assert DayAlternatives(s, 7) == [];
      } else if |text| == 6 {
        assert s[5] == text[5] && s[6] == '0';
        assert months == [];
      } else if |text| == 7 {
        assert s[5] == text[5] && s[6] == text[6];
        assert TwoDigitReading(s, 5, 12) == [];
        if FirstMatch(s, months).Some? {
          assert FirstMatch(s, months).value.0.end == 6;
        }
      }
    }
  }

  /**
   * The conversion as written agrees with the intended one on every text but an unpadded label
   * whose month digit is `1`.
   */
  lemma AsWrittenAgreesExceptMonthOne(text: string)
    ensures !(Unpadded(text) && text[5] == '1') ==> ParseAsWritten(text) == ParseMonthLabel(text)
  {
    if Canonical(text) {
      AsWrittenAgreesOnCanonical(text);
    } else if Unpadded(text) {
      if text[5] != '1' {
        AsWrittenOnUnpadded(text);
      }
    } else {
      AsWrittenRejectsNonLabels(text);
    }
  }

  /** The label `2023M1` becomes October 2023 as written; the intended conversion reads January. */
  lemma ShortLabelBecomesOctober()
    ensures ParseAsWritten("2023M1") == Ok(Date(2023, 10, 1))
    ensures ParseMonthLabel("2023M1") == Ok(Date(2023, 1, 1))
  {
    AsWrittenOnMonthOne("2023M1");
    assert YearOf("2023M1") == 2023;
  }
}

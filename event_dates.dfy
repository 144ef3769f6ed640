/**
 * `parseDateString` of components/FamilyEvents.tsx: the text typed into the
 * date field is cleaned down to digits and separators, split at the
 * separators, and read as MM/DD (in the current year) or MM/DD/YYYY.
 */
module EventDates {
  import opened Wrappers
  import opened Calendar

  /** Kept by `replace(/[^\d\/\-]/g, '')`: an ASCII digit, '/' or '-'. */
  predicate IsDateChar(c: char) {
    '0' <= c <= '9' || c == '/' || c == '-'
  }

  /** Split on by `split(/[\/\-]/)`. */
  predicate IsSeparator(c: char) {
    c == '/' || c == '-'
  }

  predicate AllDigits(s: string) {
    forall i :: 0 <= i < |s| ==> '0' <= s[i] <= '9'
  }

  predicate NoSeparator(s: string) {
    forall i :: 0 <= i < |s| ==> !IsSeparator(s[i])
  }

  predicate AllDateChars(s: string) {
    forall i :: 0 <= i < |s| ==> IsDateChar(s[i])
  }

  /** The cleaning step: every character other than a digit, '/' or '-' is dropped. */
  function Clean(s: string): (r: string)
    ensures AllDateChars(r)
    ensures |r| <= |s|
  {
    if s == [] then [] else (if IsDateChar(s[0]) then [s[0]] else []) + Clean(s[1..])
  }

  /** Cleaning distributes over concatenation. */
  lemma {:induction false} CleanConcat(a: string, b: string)
    ensures Clean(a + b) == Clean(a) + Clean(b)
    decreases |a|
  {
    if a == [] {
      assert a + b == b;
    } else {
      assert (a + b)[0] == a[0] && (a + b)[1..] == a[1..] + b;
      CleanConcat(a[1..], b);
    }
  }

  /** Text made only of digits and separators is left as it is. */
  lemma {:induction false} CleanKeeps(s: string)
    requires AllDateChars(s)
    ensures Clean(s) == s
  {
    if s != [] {
      CleanKeeps(s[1..]);
    }
  }

  function SeparatorCount(s: string): nat {
    if s == [] then 0 else (if IsSeparator(s[0]) then 1 else 0) + SeparatorCount(s[1..])
  }

  /**
   * `split(/[\/\-]/)`: the pieces between separators, one more piece than
   * there are separators (the empty string gives one empty piece).
   */
  function Split(s: string): (parts: seq<string>)
    ensures |parts| == 1 + SeparatorCount(s)
    ensures forall k :: 0 <= k < |parts| ==> NoSeparator(parts[k])
    ensures AllDateChars(s) ==> forall k :: 0 <= k < |parts| ==> AllDigits(parts[k])
  {
    if s == [] then [[]]
    else
      var rest := Split(s[1..]);
      if IsSeparator(s[0]) then [[]] + rest
      else [[s[0]] + rest[0]] + rest[1..]
  }

  /** Text without a separator is one piece. */
  lemma {:induction false} SplitOnePiece(a: string)
    requires NoSeparator(a)
    ensures Split(a) == [a]
  {
    if a != [] {
      assert NoSeparator(a[1..]) by {
        forall i | 0 <= i < |a| - 1 ensures !IsSeparator(a[1..][i]) { assert a[1..][i] == a[i + 1]; }
      }
      SplitOnePiece(a[1..]);
      assert [a[0]] + a[1..] == a;
    }
  }

  /** A separator after a separator-free piece ends that piece. */
  lemma {:induction false} SplitAtSeparator(a: string, sep: char, b: string)
    requires NoSeparator(a) && IsSeparator(sep)
    ensures Split(a + [sep] + b) == [a] + Split(b)
    decreases |a|
  {
    if a == [] {
      assert a + [sep] + b == [sep] + b;
      assert ([sep] + b)[1..] == b;
    } else {
      assert (a + [sep] + b)[0] == a[0] && !IsSeparator(a[0]);
      assert (a + [sep] + b)[1..] == a[1..] + [sep] + b;
      assert NoSeparator(a[1..]) by {
        forall i | 0 <= i < |a| - 1 ensures !IsSeparator(a[1..][i]) { assert a[1..][i] == a[i + 1]; }
      }
      SplitAtSeparator(a[1..], sep, b);
      assert [a[0]] + a[1..] == a;
    }
  }

  function DigitValue(c: char): nat
    requires '0' <= c <= '9'
  {
    c as int - '0' as int
  }

  /** The value of a decimal digit string, most significant digit first. */
  function DecimalValue(ds: string): nat
    requires AllDigits(ds)
  {
    if ds == [] then 0 else DecimalValue(ds[..|ds| - 1]) * 10 + DigitValue(ds[|ds| - 1])
  }

  /**
   * `parseInt` of one piece, which holds digits only: a number, or nothing
   * (NaN) for the empty piece.
   */
  function ParseInt(part: string): (r: Option<nat>)
    requires AllDigits(part)
    ensures r.None? <==> part == []
  {
    if part == [] then None else Some(DecimalValue(part))
  }

  /** The shortest decimal digit string of `n`. */
  function Decimal(n: nat): (ds: string)
    ensures AllDigits(ds) && ds != []
  {
    if n < 10 then [('0' as int + n) as char]
    else Decimal(n / 10) + [('0' as int + n % 10) as char]
  }

  /** Reading back a number's decimal representation gives the number. */
  lemma {:induction false} DecimalRoundTrip(n: nat)
    ensures ParseInt(Decimal(n)) == Some(n)
  {
    var ds := Decimal(n);
    if n < 10 {
      assert ds[..|ds| - 1] == [];
    } else {
      DecimalRoundTrip(n / 10);
      assert ds[..|ds| - 1] == Decimal(n / 10);
      assert DecimalValue(ds) == (n / 10) * 10 + n % 10;
    }
  }

  /** The pieces `parseDateString` examines: one more than the separators kept, each made of digits only. */
  function DateParts(input: string): (parts: seq<string>)
    ensures |parts| == 1 + SeparatorCount(Clean(input))
    ensures forall k :: 0 <= k < |parts| ==> AllDigits(parts[k])
  {
    Split(Clean(input))
  }

  /**
   * `parseDateString`: two pieces are month and day in `currentYear`, three
   * are month, day and year; month must be 1..12, day 1..31 and, for three
   * pieces, year at least 1900. A day past the end of its month is carried
   * into the next month, as `new Date` does. Anything else, an empty piece
   * included, is rejected. The missing value stands for `null`.
   */
  function ParseDateString(input: string, currentYear: int): (r: Option<CalendarDate>)
    ensures r.Some? ==> |DateParts(input)| == 2 || |DateParts(input)| == 3
    ensures r.Some? ==> InYearRange(r.value) && IsCalendarDate(r.value)
    ensures r.Some? && |DateParts(input)| == 2 ==>
              var parts := DateParts(input);
              ParseInt(parts[0]).Some? && ParseInt(parts[1]).Some?
              && 1 <= ParseInt(parts[0]).value <= 12 && 1 <= ParseInt(parts[1]).value <= 31
              && r.value == Carried(CalendarDate(currentYear, ParseInt(parts[0]).value, ParseInt(parts[1]).value))
    ensures r.Some? && |DateParts(input)| == 3 ==>
              var parts := DateParts(input);
              ParseInt(parts[0]).Some? && ParseInt(parts[1]).Some? && ParseInt(parts[2]).Some?
              && 1 <= ParseInt(parts[0]).value <= 12 && 1 <= ParseInt(parts[1]).value <= 31
              && ParseInt(parts[2]).value >= 1900
              && r.value == Carried(CalendarDate(ParseInt(parts[2]).value, ParseInt(parts[0]).value,
                                                 ParseInt(parts[1]).value))
    ensures (exists k :: 0 <= k < |DateParts(input)| && DateParts(input)[k] == []) ==> r.None?
  {
    ReadParts(DateParts(input), currentYear)
  }

  /** The reading of the pieces once they are split off. */
  function ReadParts(parts: seq<string>, currentYear: int): (r: Option<CalendarDate>)
    requires forall k :: 0 <= k < |parts| ==> AllDigits(parts[k])
    ensures r.Some? ==> |parts| == 2 || |parts| == 3
    ensures r.Some? ==> InYearRange(r.value) && IsCalendarDate(r.value)
    ensures r.Some? && |parts| == 2 ==>
              ParseInt(parts[0]).Some? && ParseInt(parts[1]).Some?
              && 1 <= ParseInt(parts[0]).value <= 12 && 1 <= ParseInt(parts[1]).value <= 31
              && r.value == Carried(CalendarDate(currentYear, ParseInt(parts[0]).value, ParseInt(parts[1]).value))
    ensures r.Some? && |parts| == 3 ==>
              ParseInt(parts[0]).Some? && ParseInt(parts[1]).Some? && ParseInt(parts[2]).Some?
              && 1 <= ParseInt(parts[0]).value <= 12 && 1 <= ParseInt(parts[1]).value <= 31
              && ParseInt(parts[2]).value >= 1900
              && r.value == Carried(CalendarDate(ParseInt(parts[2]).value, ParseInt(parts[0]).value,
                                                 ParseInt(parts[1]).value))
    ensures (exists k :: 0 <= k < |parts| && parts[k] == []) ==> r.None?
  {
    if |parts| == 2 then ReadMonthDay(parts[0], parts[1], currentYear)
    else if |parts| == 3 then ReadMonthDayYear(parts[0], parts[1], parts[2])
    else None
  }

  /** Two pieces: month and day in `currentYear`. */
  function ReadMonthDay(m: string, d: string, currentYear: int): (r: Option<CalendarDate>)
    requires AllDigits(m) && AllDigits(d)
    ensures r.Some? ==> InYearRange(r.value) && IsCalendarDate(r.value)
    ensures r.Some? ==>
              ParseInt(m).Some? && ParseInt(d).Some?
              && 1 <= ParseInt(m).value <= 12 && 1 <= ParseInt(d).value <= 31
              && r.value == Carried(CalendarDate(currentYear, ParseInt(m).value, ParseInt(d).value))
    ensures m == [] || d == [] ==> r.None?
  {
    match (ParseInt(m), ParseInt(d))
    case (Some(month), Some(day)) =>
      if 1 <= month <= 12 && 1 <= day <= 31 then Some(Carried(CalendarDate(currentYear, month, day))) else None
    case _ => None
  }

  /** Three pieces: month, day and a year of at least 1900. */
  function ReadMonthDayYear(m: string, d: string, y: string): (r: Option<CalendarDate>)
    requires AllDigits(m) && AllDigits(d) && AllDigits(y)
    ensures r.Some? ==> InYearRange(r.value) && IsCalendarDate(r.value)
    ensures r.Some? ==>
              ParseInt(m).Some? && ParseInt(d).Some? && ParseInt(y).Some?
              && 1 <= ParseInt(m).value <= 12 && 1 <= ParseInt(d).value <= 31
              && ParseInt(y).value >= 1900
              && r.value == Carried(CalendarDate(ParseInt(y).value, ParseInt(m).value, ParseInt(d).value))
    ensures m == [] || d == [] || y == [] ==> r.None?
  {
    match (ParseInt(m), ParseInt(d), ParseInt(y))
    case (Some(month), Some(day), Some(year)) =>
      if 1 <= month <= 12 && 1 <= day <= 31 && year >= 1900
      then Some(Carried(CalendarDate(year, month, day))) else None
    case _ => None
  }

  /**
   * The converse: two or three non-empty pieces whose month, day and (for
   * three) year are in range are always accepted.
   */
  lemma InRangePiecesAccepted(input: string, currentYear: int)
    ensures var parts := DateParts(input);
            (|parts| == 2 || |parts| == 3)
            && (forall k :: 0 <= k < |parts| ==> parts[k] != [])
            && 1 <= DecimalValue(parts[0]) <= 12 && 1 <= DecimalValue(parts[1]) <= 31
            && (|parts| == 3 ==> DecimalValue(parts[2]) >= 1900)
            ==> ParseDateString(input, currentYear).Some?
  {
    var parts := DateParts(input);
    if |parts| == 2 || |parts| == 3 {
      if forall k :: 0 <= k < |parts| ==> parts[k] != [] {
        assert parts[0] != [] && parts[1] != [];
        assert |parts| == 3 ==> parts[2] != [];
      }
    }
  }

  /** Characters other than digits, '/' and '-' are ignored wherever they appear. */
  lemma IgnoresOtherCharacters(a: string, c: char, b: string, currentYear: int)
    requires !IsDateChar(c)
    ensures ParseDateString(a + [c] + b, currentYear) == ParseDateString(a + b, currentYear)
  {
    CleanConcat(a + [c], b);
    CleanConcat(a, [c]);
    CleanConcat(a, b);
    assert [c][1..] == [];
    assert Clean([c]) == [];
    assert Clean(a + [c] + b) == Clean(a + b);
    assert DateParts(a + [c] + b) == DateParts(a + b);
  }

  lemma DigitsAreDateChars(s: string)
    requires AllDigits(s)
    ensures AllDateChars(s) && NoSeparator(s)
  {
  }

  /** Three digit pieces joined by separators split back into those pieces. */
  lemma SplitThree(m: string, s1: char, d: string, s2: char, y: string)
    requires AllDigits(m) && AllDigits(d) && AllDigits(y) && IsSeparator(s1) && IsSeparator(s2)
    ensures Split(m + [s1] + d + [s2] + y) == [m, d, y]
  {
    DigitsAreDateChars(m);
    DigitsAreDateChars(d);
    DigitsAreDateChars(y);
    assert m + [s1] + d + [s2] + y == m + [s1] + (d + [s2] + y);
    SplitAtSeparator(m, s1, d + [s2] + y);
    SplitAtSeparator(d, s2, y);
    SplitOnePiece(y);
  }

  lemma JoinedDateChars(m: string, d: string, y: string, s: string)
    requires AllDigits(m) && AllDigits(d) && AllDigits(y) && s == m + ['/'] + d + ['/'] + y
    ensures AllDateChars(s)
  {
    forall i | 0 <= i < |s| ensures IsDateChar(s[i]) {
      if i < |m| { assert s[i] == m[i]; }
      else if i == |m| { assert s[i] == '/'; }
      else if i < |m| + 1 + |d| { assert s[i] == d[i - |m| - 1]; }
      else if i == |m| + 1 + |d| { assert s[i] == '/'; }
      else { assert s[i] == y[i - |m| - |d| - 2]; }
    }
  }

  lemma ThreePartsRead(input: string, m: string, d: string, y: string, currentYear: int)
    requires AllDigits(m) && AllDigits(d) && AllDigits(y) && DateParts(input) == [m, d, y]
    requires ParseInt(m).Some? && ParseInt(d).Some? && ParseInt(y).Some?
    requires 1 <= ParseInt(m).value <= 12 && 1 <= ParseInt(d).value <= 31 && ParseInt(y).value >= 1900
    ensures ParseDateString(input, currentYear)
            == Some(Carried(CalendarDate(ParseInt(y).value, ParseInt(m).value, ParseInt(d).value)))
  {
  }

  /**
   * A date written as M/D/YYYY with in-range fields reads back as that date,
   * carried into the next month when the day is past the month's end.
   */
  lemma ParsesWrittenDate(month: nat, day: nat, year: nat, currentYear: int)
    requires 1 <= month <= 12 && 1 <= day <= 31 && year >= 1900
    ensures ParseDateString(Decimal(month) + "/" + Decimal(day) + "/" + Decimal(year), currentYear)
            == Some(Carried(CalendarDate(year, month, day)))
    ensures day <= DaysInMonth(year, month) ==>
              ParseDateString(Decimal(month) + "/" + Decimal(day) + "/" + Decimal(year), currentYear)
              == Some(CalendarDate(year, month, day))
  {
    var m, d, y := Decimal(month), Decimal(day), Decimal(year);
    var s := m + "/" + d + "/" + y;
    assert s == m + ['/'] + d + ['/'] + y;
    JoinedDateChars(m, d, y, s);
    CleanKeeps(s);
    SplitThree(m, '/', d, '/', y);
    DecimalRoundTrip(month);
    DecimalRoundTrip(day);
    DecimalRoundTrip(year);
    ThreePartsRead(s, m, d, y, currentYear);
  }

  lemma JoinedMonthDayChars(m: string, d: string, s: string)
    requires AllDigits(m) && AllDigits(d) && s == m + ['-'] + d
    ensures AllDateChars(s)
  {
    forall i | 0 <= i < |s| ensures IsDateChar(s[i]) {
      if i < |m| { assert s[i] == m[i]; }
      else if i == |m| { assert s[i] == '-'; }
      else { assert s[i] == d[i - |m| - 1]; }
    }
  }

  lemma TwoPartsRead(input: string, m: string, d: string, currentYear: int)
    requires AllDigits(m) && AllDigits(d) && DateParts(input) == [m, d]
    requires ParseInt(m).Some? && ParseInt(d).Some?
    requires 1 <= ParseInt(m).value <= 12 && 1 <= ParseInt(d).value <= 31
    ensures ParseDateString(input, currentYear)
            == Some(Carried(CalendarDate(currentYear, ParseInt(m).value, ParseInt(d).value)))
  {
  }

  /** A date written as M-D with in-range fields reads back as that date of the current year, carried as `new Date` does. */
  lemma ParsesWrittenMonthDay(month: nat, day: nat, currentYear: int)
    requires 1 <= month <= 12 && 1 <= day <= 31
    ensures ParseDateString(Decimal(month) + "-" + Decimal(day), currentYear)
            == Some(Carried(CalendarDate(currentYear, month, day)))
    ensures day <= DaysInMonth(currentYear, month) ==>
              ParseDateString(Decimal(month) + "-" + Decimal(day), currentYear)
              == Some(CalendarDate(currentYear, month, day))
  {
    var m, d := Decimal(month), Decimal(day);
    var s := m + "-" + d;
    assert s == m + ['-'] + d;
    JoinedMonthDayChars(m, d, s);
    CleanKeeps(s);
    DigitsAreDateChars(m);
    DigitsAreDateChars(d);
    SplitAtSeparator(m, '-', d);
    SplitOnePiece(d);
    DecimalRoundTrip(month);
    DecimalRoundTrip(day);
    TwoPartsRead(s, m, d, currentYear);
  }
}

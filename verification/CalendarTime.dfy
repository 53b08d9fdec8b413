/** Instants as calendar entries write them: `YYYYMMDDTHHMMSSZ` in UTC (section 3.3.5 of RFC 5545). */
module CalendarTime {
  import opened Wrappers

  datatype DateTime = DateTime(year: nat, month: nat, day: nat, hour: nat, minute: nat, second: nat, nanos: nat)

  function DaysIn(year: nat, month: nat): nat {
    if month == 2 then (if year % 4 == 0 && (year % 100 != 0 || year % 400 == 0) then 29 else 28)
    else if month == 4 || month == 6 || month == 9 || month == 11 then 30
    else 31
  }

  // A date of the proleptic Gregorian calendar in a four-digit year, and a time of day.
  predicate Valid(d: DateTime) {
    && d.year < 10000 && 1 <= d.month <= 12 && 1 <= d.day <= DaysIn(d.year, d.month)
    && d.hour < 24 && d.minute < 60 && d.second < 60 && d.nanos < 1000000000
  }

  /** The months of the Gregorian calendar. */
  lemma DaysInMeaning(year: nat, month: nat)
    requires 1 <= month <= 12
    ensures month in {1, 3, 5, 7, 8, 10, 12} ==> DaysIn(year, month) == 31
    ensures month in {4, 6, 9, 11} ==> DaysIn(year, month) == 30
    ensures DaysIn(year, 2) == if year % 4 == 0 && (year % 100 != 0 || year % 400 == 0) then 29 else 28
  {
  }

  function DigitChar(n: nat): char
    requires n < 10
  {
    ('0' as int + n) as char
  }

  predicate IsDigit(c: char) {
    '0' <= c <= '9'
  }

  function DigitOf(c: char): nat {
    if IsDigit(c) then c as int - '0' as int else 0
  }

  function Two(n: nat): (s: string)
    requires n < 100
    ensures |s| == 2 && IsDigit(s[0]) && IsDigit(s[1]) && 10 * DigitOf(s[0]) + DigitOf(s[1]) == n
  {
    [DigitChar(n / 10), DigitChar(n % 10)]
  }

  // Fractions of a second are not written.
  function Format(d: DateTime): string
    requires Valid(d)
  {
    Two(d.year / 100) + Two(d.year % 100) + Two(d.month) + Two(d.day) + "T" + Two(d.hour) + Two(d.minute) + Two(d.second) + "Z"
  }

  predicate IsSpace(c: char) {
    c == ' ' || '\t' as int <= c as int <= '\r' as int
  }

  function Trim(s: string): string
    decreases |s|
  {
    if s == "" then ""
    else if IsSpace(s[0]) then Trim(s[1..])
    else if IsSpace(s[|s| - 1]) then Trim(s[..|s| - 1])
    else s
  }

  predicate DigitsAt(s: string, i: nat, n: nat) {
    i + n <= |s| && forall k :: i <= k < i + n ==> IsDigit(s[k])
  }

  function TwoAt(s: string, i: nat): nat
    requires i + 2 <= |s|
  {
    10 * DigitOf(s[i]) + DigitOf(s[i + 1])
  }

  function Checked(d: DateTime): Option<DateTime> {
    if Valid(d) then Some(d) else None
  }

  // With or without the final 'Z', or a date alone, which is midnight.
  function Parse(value: string): Option<DateTime> {
    var v := Trim(value);
    if (|v| == 15 || (|v| == 16 && v[15] == 'Z')) && DigitsAt(v, 0, 8) && v[8] == 'T' && DigitsAt(v, 9, 6) then
      Checked(DateTime(100 * TwoAt(v, 0) + TwoAt(v, 2), TwoAt(v, 4), TwoAt(v, 6), TwoAt(v, 9), TwoAt(v, 11), TwoAt(v, 13), 0))
    else if |v| == 8 && DigitsAt(v, 0, 8) then
      Checked(DateTime(100 * TwoAt(v, 0) + TwoAt(v, 2), TwoAt(v, 4), TwoAt(v, 6), 0, 0, 0, 0))
    else None
  }

  predicate Digital(s: string) {
    forall k :: 0 <= k < |s| ==> IsDigit(s[k]) || s[k] == 'T' || s[k] == 'Z'
  }

  // ---- The written form, digit by digit ----

  function Digit(s: string, i: nat): int
    requires i < |s|
  {
    s[i] as int - '0' as int
  }

  // The digits of s from i on, read as two decimal places.
  function Pair(s: string, i: nat): int
    requires i + 1 < |s|
  {
    10 * Digit(s, i) + Digit(s, i + 1)
  }

  lemma DateWritten(d: DateTime)
    requires Valid(d)
    ensures var s := Format(d);
            && |s| == 16 && DigitsAt(s, 0, 8)
            && 100 * Pair(s, 0) + Pair(s, 2) == d.year && Pair(s, 4) == d.month && Pair(s, 6) == d.day
  {
    var s := Format(d);
    assert s[0..2] == Two(d.year / 100) && s[2..4] == Two(d.year % 100) && s[4..6] == Two(d.month) && s[6..8] == Two(d.day);
    assert s[0] == s[0..2][0] && s[1] == s[0..2][1] && s[2] == s[2..4][0] && s[3] == s[2..4][1];
    assert s[4] == s[4..6][0] && s[5] == s[4..6][1] && s[6] == s[6..8][0] && s[7] == s[6..8][1];
  }

  lemma TimeWritten(d: DateTime)
    requires Valid(d)
    ensures var s := Format(d);
            && |s| == 16 && DigitsAt(s, 9, 6) && s[8] == 'T' && s[15] == 'Z'
            && Pair(s, 9) == d.hour && Pair(s, 11) == d.minute && Pair(s, 13) == d.second
  {
    var s := Format(d);
    assert s[9..11] == Two(d.hour) && s[11..13] == Two(d.minute) && s[13..15] == Two(d.second);
    assert s[9] == s[9..11][0] && s[10] == s[9..11][1] && s[11] == s[11..13][0] && s[12] == s[11..13][1];
    assert s[13] == s[13..15][0] && s[14] == s[13..15][1];
  }

  /** An instant is written as four digits of the year, two each of month and day, 'T', two each of hour, minute and second, 'Z'. */
  lemma FormatMeaning(d: DateTime)
    requires Valid(d)
    ensures var s := Format(d);
            && |s| == 16 && s[8] == 'T' && s[15] == 'Z'
            && (forall k :: 0 <= k < 8 || 9 <= k < 15 ==> '0' <= s[k] <= '9')
            && 100 * Pair(s, 0) + Pair(s, 2) == d.year && Pair(s, 4) == d.month && Pair(s, 6) == d.day
            && Pair(s, 9) == d.hour && Pair(s, 11) == d.minute && Pair(s, 13) == d.second
  {
    DateWritten(d);
    TimeWritten(d);
  }

  // ---- What is read ----

  // The blanks: space, tab, newline, vertical tab, form feed, carriage return.
  predicate IsBlank(c: char) {
    c == ' ' || c == '\t' || c == '\n' || c as int == 11 || c as int == 12 || c == '\r'
  }

  // `trimmed` stands in s from i to j, between blanks, and begins and ends with none.
  ghost predicate StandsBetweenBlanks(s: string, i: nat, j: nat, trimmed: string) {
    && i <= j <= |s| && trimmed == s[i..j]
    && (forall k :: 0 <= k < i || j <= k < |s| ==> IsBlank(s[k]))
    && (i < j ==> !IsBlank(s[i]) && !IsBlank(s[j - 1]))
  }

  lemma BlankInFront(c: char, s: string, i: nat, j: nat, trimmed: string)
    requires IsBlank(c) && StandsBetweenBlanks(s, i, j, trimmed)
    ensures StandsBetweenBlanks([c] + s, i + 1, j + 1, trimmed)
  {
  }

  lemma BlankBehind(s: string, c: char, i: nat, j: nat, trimmed: string)
    requires IsBlank(c) && StandsBetweenBlanks(s, i, j, trimmed)
    ensures StandsBetweenBlanks(s + [c], i, j, trimmed)
  {
  }

  /** Reading takes what stands between the blanks. */
  lemma {:induction false} TrimMeaning(s: string) returns (i: nat, j: nat)
    ensures StandsBetweenBlanks(s, i, j, Trim(s))
    decreases |s|
  {
    if s == "" {
      i, j := 0, 0;
    } else if IsSpace(s[0]) {
      i, j := TrimMeaning(s[1..]);
      BlankInFront(s[0], s[1..], i, j, Trim(s[1..]));
      i, j := i + 1, j + 1;
      assert s == [s[0]] + s[1..];
    } else if IsSpace(s[|s| - 1]) {
      var front := s[..|s| - 1];
      i, j := TrimMeaning(front);
      BlankBehind(front, s[|s| - 1], i, j, Trim(front));
      assert s == front + [s[|s| - 1]];
    } else {
      i, j := 0, |s|;
      assert s[0..|s|] == s;
    }
  }

  predicate IsMidnight(d: DateTime) {
    d.hour == 0 && d.minute == 0 && d.second == 0
  }

  // The ways to write an instant: in full, without the 'Z', and for midnight without the time.
  predicate Writes(v: string, d: DateTime)
    requires Valid(d)
  {
    v == Format(d) || v == Format(d)[..15] || (IsMidnight(d) && v == Format(d)[..8])
  }

  lemma TwoIsPair(s: string, i: nat)
    requires i + 2 <= |s| && IsDigit(s[i]) && IsDigit(s[i + 1])
    ensures TwoAt(s, i) < 100 && Two(TwoAt(s, i)) == s[i..i + 2]
  {
  }

  lemma DateRead(v: string, d: DateTime)
    requires Valid(d) && DigitsAt(v, 0, 8)
    requires d.year == 100 * TwoAt(v, 0) + TwoAt(v, 2) && d.month == TwoAt(v, 4) && d.day == TwoAt(v, 6)
    ensures Format(d)[..8] == v[..8]
  {
    TwoIsPair(v, 0);
    TwoIsPair(v, 2);
    TwoIsPair(v, 4);
    TwoIsPair(v, 6);
    assert v[..8] == v[0..2] + v[2..4] + v[4..6] + v[6..8];
    assert d.year / 100 == TwoAt(v, 0) && d.year % 100 == TwoAt(v, 2);
  }

  lemma TimeRead(v: string, d: DateTime)
    requires Valid(d) && DigitsAt(v, 9, 6) && v[8] == 'T'
    requires d.hour == TwoAt(v, 9) && d.minute == TwoAt(v, 11) && d.second == TwoAt(v, 13)
    ensures Format(d)[8..15] == v[8..15]
  {
    TwoIsPair(v, 9);
    TwoIsPair(v, 11);
    TwoIsPair(v, 13);
    assert v[8..15] == "T" + v[9..11] + v[11..13] + v[13..15];
  }

  lemma ReadIsWritten(value: string, d: DateTime)
    requires Parse(value) == Some(d)
    ensures Valid(d) && d.nanos == 0 && Writes(Trim(value), d)
  {
    var v := Trim(value);
    DateRead(v, d);
    var s := Format(d);
    if |v| == 8 {
      assert v == v[..8];
    } else {
      TimeRead(v, d);
      assert v[..15] == v[..8] + v[8..15] && s[..15] == s[..8] + s[8..15];
      assert s == s[..15] + "Z";
      assert |v| == 16 ==> v == v[..15] + "Z";
      assert |v| == 15 ==> v == v[..15];
    }
  }

  lemma SameDigits(v: string, s: string)
    requires |s| == 16 && DigitsAt(s, 0, 8) && |v| >= 8 && v[..8] == s[..8]
    ensures DigitsAt(v, 0, 8)
    ensures TwoAt(v, 0) == TwoAt(s, 0) && TwoAt(v, 2) == TwoAt(s, 2) && TwoAt(v, 4) == TwoAt(s, 4) && TwoAt(v, 6) == TwoAt(s, 6)
  {
    forall k | 0 <= k < 8 ensures v[k] == s[k] {
      assert v[..8][k] == s[..8][k];
    }
  }

  lemma SameTime(v: string, s: string)
    requires |s| == 16 && DigitsAt(s, 9, 6) && s[8] == 'T' && |v| >= 15 && v[..15] == s[..15]
    ensures DigitsAt(v, 9, 6) && v[8] == 'T'
    ensures TwoAt(v, 9) == TwoAt(s, 9) && TwoAt(v, 11) == TwoAt(s, 11) && TwoAt(v, 13) == TwoAt(s, 13)
  {
    forall k | 8 <= k < 15 ensures v[k] == s[k] {
      assert v[..15][k] == s[..15][k];
    }
  }

  lemma PairIsTwo(s: string, i: nat)
    requires i + 2 <= |s| && IsDigit(s[i]) && IsDigit(s[i + 1])
    ensures Pair(s, i) == TwoAt(s, i)
  {
  }

  lemma DateDigits(d: DateTime)
    requires Valid(d)
    ensures var s := Format(d);
            |s| == 16 && DigitsAt(s, 0, 8) && d.year == 100 * TwoAt(s, 0) + TwoAt(s, 2) && d.month == TwoAt(s, 4) && d.day == TwoAt(s, 6)
  {
    var s := Format(d);
    DateWritten(d);
    PairIsTwo(s, 0);
    PairIsTwo(s, 2);
    PairIsTwo(s, 4);
    PairIsTwo(s, 6);
  }

  lemma TimeDigits(d: DateTime)
    requires Valid(d)
    ensures var s := Format(d);
            |s| == 16 && DigitsAt(s, 9, 6) && d.hour == TwoAt(s, 9) && d.minute == TwoAt(s, 11) && d.second == TwoAt(s, 13)
  {
    var s := Format(d);
    TimeWritten(d);
    PairIsTwo(s, 9);
    PairIsTwo(s, 11);
    PairIsTwo(s, 13);
  }

  lemma WrittenIsRead(value: string, d: DateTime)
    requires Valid(d) && d.nanos == 0 && Writes(Trim(value), d)
    ensures Parse(value) == Some(d)
  {
    var v, s := Trim(value), Format(d);
    DateDigits(d);
    assert v[..8] == s[..8] by {
      assert s[..15][..8] == s[..8];
    }
    SameDigits(v, s);
    if |v| > 8 {
      TimeDigits(d);
      TimeWritten(d);
      SameTime(v, s);
    }
  }

  /** Exactly which texts are read as an instant: between blanks its written form, that without the final 'Z', or for midnight its date alone. No fraction of a second is ever read. */
  lemma ParseIff(value: string, d: DateTime)
    ensures Parse(value) == Some(d) <==> Valid(d) && d.nanos == 0 && Writes(Trim(value), d)
  {
    if Parse(value) == Some(d) {
      ReadIsWritten(value, d);
    } else if Valid(d) && d.nanos == 0 && Writes(Trim(value), d) {
      WrittenIsRead(value, d);
    }
  }

  /** Writing and reading an instant loses the fraction of its second and nothing else. */
  lemma ParseFormat(d: DateTime)
    requires Valid(d)
    ensures Parse(Format(d)) == Some(d.(nanos := 0))
    ensures Digital(Format(d))
  {
    var whole := d.(nanos := 0);
    DateWritten(d);
    TimeWritten(d);
    assert Format(d) == Format(whole) && Trim(Format(d)) == Format(d);
    WrittenIsRead(Format(d), whole);
  }
}

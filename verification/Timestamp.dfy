// The printers and the parser of src/format.rs: minutes in text, and the instants of the
// `date-time` form in section 5.6 of RFC 3339.
module Timestamp {
  import opened Calendar
  import opened Text

  // MARK: Printing

  /** A number padded with zeros to a width that includes its sign. */
  function Padded(n: int, width: nat): string {
    var sign := if n < 0 then "-" else "";
    var digits := Digits(if n < 0 then -n else n);
    var missing := width - |sign| - |digits|;
    sign + Zeros(if missing > 0 then missing else 0) + digits
  }

  function DateText(c: Civil): string {
    Padded(c.year, 4) + "-" + Padded(c.month, 2) + "-" + Padded(c.day, 2)
  }

  function ClockText(remainder: int): string {
    Padded(remainder / 3_600, 2) + ":" + Padded(remainder % 3_600 / 60, 2)
  }

  function Timestamp(epochMs: int): string {
    var seconds := epochMs / 1_000;
    DateText(CivilFromDays(seconds / 86_400)) + " " + ClockText(seconds % 86_400)
  }

  function Iso8601(epochMs: int): string {
    var seconds := epochMs / 1_000;
    var remainder := seconds % 86_400;
    DateText(CivilFromDays(seconds / 86_400)) + "T" + ClockText(remainder) + ":" + Padded(remainder % 60, 2) + ".000Z"
  }

  // MARK: Parsing

  predicate IsZulu(c: char) {
    c == 'Z' || c == 'z'
  }

  function TrimZulu(s: string): string {
    if s != [] && IsZulu(s[|s| - 1]) then TrimZulu(s[..|s| - 1]) else s
  }

  /** Where the date ends: at the first space or `T`. */
  function DateEnd(s: string): (end: nat)
    ensures end <= |s|
    ensures forall i :: 0 <= i < end ==> s[i] != ' ' && s[i] != 'T'
    ensures end < |s| ==> s[end] == ' ' || s[end] == 'T'
  {
    if s == [] || s[0] == ' ' || s[0] == 'T' then 0 else 1 + DateEnd(s[1..])
  }

  function ParseDate(date: string): Option<Civil> {
    var parts := Split(date, '-');
    if |parts| != 3 then None
    else
      match (ParseInteger(parts[0]), ParseInteger(parts[1]), ParseInteger(parts[2]))
      case (Some(year), Some(month), Some(day)) =>
        if !(1 <= year <= 9_999) || !(1 <= month <= 12) || !(1 <= day <= DaysInMonth(year, month)) then None
        else Some(Civil(year, month, day))
      case _ => None
  }

  /** Seconds into the day. An absent time is midnight, absent minutes and seconds are zero. */
  function ParseClock(time: string): Option<int> {
    if time == [] then Some(0)
    else
      var parts := Split(time, ':');
      if |parts| > 3 then None
      else
        var hours := ParseInteger(parts[0]);
        var minutes := if |parts| < 2 then Some(0) else ParseInteger(parts[1]);
        var seconds := if |parts| < 3 then Some(0) else ParseInteger(parts[2]);
        match (hours, minutes, seconds)
        case (Some(h), Some(m), Some(s)) =>
          if !(0 <= h < 24) || !(0 <= m < 60) || !(0 <= s < 60) then None else Some(h * 3_600 + m * 60 + s)
        case _ => None
  }

  /** What a date text and a clock text say together. */
  function Read(date: string, clock: string): Option<int> {
    match (ParseDate(date), ParseClock(clock))
    case (Some(c), Some(seconds)) => Some(DaysFromCivil(c) * 86_400_000 + seconds * 1_000)
    case _ => None
  }

  /**
   * A number too long for 64 bits is refused by the original's integer parser and by the range
   * checks here, with the same outcome.
   */
  function ParseTimestamp(text: string): Option<int> {
    var trimmed := Trim(TrimZulu(Trim(text)));
    var end := DateEnd(trimmed);
    var time := if end == |trimmed| then [] else Trim(trimmed[end + 1..]);
    Read(trimmed[..end], time)
  }

  // MARK: Printed numbers and dates parse back

  /** Text that trimming and the search for the end of the date leave alone. */
  predicate Bare(s: string) {
    |s| > 0 && forall i :: 0 <= i < |s| ==> IsBare(s[i])
  }

  predicate IsBare(c: char) {
    !IsWhitespace(c) && !IsZulu(c) && c != 'T'
  }

  lemma BareJoin(a: string, c: char, b: string)
    requires Bare(a) && IsBare(c) && Bare(b)
    ensures Bare(a + [c] + b)
  {
  }

  lemma DigitIsBare(c: char)
    requires IsDigit(c)
    ensures IsBare(c) && c != '-' && c != ':' && c != '+'
  {
  }

  lemma DigitsAreBare(s: string)
    requires AllDigits(s) && |s| > 0
    ensures Bare(s) && '-' !in s && ':' !in s && ParseInteger(s) == Some(Value(s))
  {
    hide IsDigit, IsBare;
    forall i | 0 <= i < |s| ensures IsBare(s[i]) && s[i] != '-' && s[i] != ':' && s[i] != '+' {
      DigitIsBare(s[i]);
    }
  }

  lemma PaddedParses(n: nat, width: nat)
    ensures var s := Padded(n, width); Bare(s) && '-' !in s && ':' !in s && AllDigits(s) && ParseInteger(s) == Some(n)
  {
    hide IsDigit, Bare, ParseInteger, Digits, Value;
    var missing := width - |Digits(n)|;
    var s := Zeros(if missing > 0 then missing else 0) + Digits(n);
    ZerosAddNothing(if missing > 0 then missing else 0, Digits(n));
    assert Padded(n, width) == s;
    DigitsAreBare(s);
  }

  lemma DateParses(c: Civil)
    requires c.year >= 0 && ValidCivil(c)
    ensures Bare(DateText(c))
    ensures ParseDate(DateText(c)) == if 1 <= c.year <= 9_999 then Some(c) else None
  {
    hide Padded, ParseInteger, Bare, Split, DaysInMonth;
    var year, month, day := Padded(c.year, 4), Padded(c.month, 2), Padded(c.day, 2);
    PaddedParses(c.year, 4);
    PaddedParses(c.month, 2);
    PaddedParses(c.day, 2);
    assert DateText(c) == year + ['-'] + (month + ['-'] + day);
    BareJoin(month, '-', day);
    BareJoin(year, '-', month + ['-'] + day);
    SplitFirst(year, '-', month + ['-'] + day);
    SplitFirst(month, '-', day);
    SplitWhole(day, '-');
  }

  /** A year before year 0 prints a leading sign, which reads as an empty first field. */
  lemma NegativeYearRefused(c: Civil)
    requires c.year < 0 && ValidCivil(c)
    ensures Bare(DateText(c)) && ParseDate(DateText(c)) == None
  {
    hide Padded, ParseInteger, Bare, Split;
    var year, month, day := Padded(-c.year, 3), Padded(c.month, 2), Padded(c.day, 2);
    PaddedParses(-c.year, 3);
    PaddedParses(c.month, 2);
    PaddedParses(c.day, 2);
    NegativePads(c.year);
    var rest := year + ['-'] + (month + ['-'] + day);
    assert DateText(c) == ['-'] + rest == [] + ['-'] + rest;
    BareJoin(month, '-', day);
    BareJoin(year, '-', month + ['-'] + day);
    SignedIsBare(rest);
    SplitFirst([], '-', rest);
    assert |Split(DateText(c), '-')| == 1 + |Split(rest, '-')|;
    SplitFirst(year, '-', month + ['-'] + day);
    SplitFirst(month, '-', day);
    SplitWhole(day, '-');
  }

  lemma NegativePads(n: int)
    requires n < 0
    ensures Padded(n, 4) == ['-'] + Padded(-n, 3)
  {
  }

  lemma SignedIsBare(s: string)
    requires Bare(s)
    ensures Bare(['-'] + s) && ParseInteger([]) == None
  {
  }

  lemma ClockParses(h: nat, m: nat)
    requires h < 24 && m < 60
    ensures var text := Padded(h, 2) + ":" + Padded(m, 2);
      Bare(text) && ParseClock(text) == Some(h * 3_600 + m * 60)
  {
    hide Padded, ParseInteger, Bare;
    PaddedParses(h, 2);
    PaddedParses(m, 2);
    BareJoin(Padded(h, 2), ':', Padded(m, 2));
    SplitFirst(Padded(h, 2), ':', Padded(m, 2));
    SplitWhole(Padded(m, 2), ':');
  }

  lemma ClockWithSecondsParses(h: nat, m: nat, s: nat)
    requires h < 24 && m < 60 && s < 60
    ensures var text := Padded(h, 2) + ":" + Padded(m, 2) + ":" + Padded(s, 2);
      Bare(text) && ParseClock(text) == Some(h * 3_600 + m * 60 + s)
  {
    hide Padded, ParseInteger, Bare;
    PaddedParses(h, 2);
    PaddedParses(m, 2);
    PaddedParses(s, 2);
    var rest := Padded(m, 2) + [':'] + Padded(s, 2);
    assert Padded(h, 2) + ":" + Padded(m, 2) + ":" + Padded(s, 2) == Padded(h, 2) + [':'] + rest;
    BareJoin(Padded(m, 2), ':', Padded(s, 2));
    BareJoin(Padded(h, 2), ':', rest);
    SplitFirst(Padded(h, 2), ':', rest);
    SplitFirst(Padded(m, 2), ':', Padded(s, 2));
    SplitWhole(Padded(s, 2), ':');
  }

  /** A date and a time with nothing to trim are read as they stand. */
  lemma {:induction false} PartsParse(date: string, separator: char, time: string)
    requires separator == ' ' || separator == 'T'
    requires Bare(date) && Bare(time)
    ensures ParseTimestamp(date + [separator] + time) == Read(date, time)
  {
    hide Read;
    var text := date + [separator] + time;
    assert Trim(text) == text && TrimZulu(text) == text && Trim(time) == time;
    var end := DateEnd(text);
    assert end == |date| by {
      assert forall i :: 0 <= i < |date| ==> text[i] == date[i];
      assert text[|date|] == separator;
    }
    assert text[..end] == date && text[end + 1..] == time;
  }

  // MARK: Round trips

  function YearOf(epochMs: int): int {
    CivilFromDays(epochMs / 1_000 / 86_400).year
  }

  /**
   * Printing keeps the minute: what `timestamp` writes reads back as the minute it was written
   * in, exactly for the years the parser knows, and as nothing for any other year.
   */
  lemma TimestampRoundTrips(ms: int)
    ensures ParseTimestamp(Timestamp(ms)) == if 1 <= YearOf(ms) <= 9_999 then Some(ms - ms % 60_000) else None
  {
    hide CivilFromDays, DaysFromCivil, ParseTimestamp, ParseDate, ParseClock, DateText, Padded;
    var seconds := ms / 1_000;
    var c, remainder := CivilFromDays(seconds / 86_400), seconds % 86_400;
    DaysAreCivil(seconds / 86_400);
    if c.year >= 0 {
      DateParses(c);
    } else {
      NegativeYearRefused(c);
    }
    ClockParses(remainder / 3_600, remainder % 3_600 / 60);
    PartsParse(DateText(c), ' ', ClockText(remainder));
    MinuteOf(ms);
  }

  lemma MinuteOf(ms: int)
    ensures var seconds := ms / 1_000; var remainder := seconds % 86_400;
      seconds / 86_400 * 86_400_000
        + (remainder / 3_600 * 3_600 + remainder % 3_600 / 60 * 60) * 1_000 == ms - ms % 60_000
  {
    var seconds := ms / 1_000;
    HoursAndMinutes(seconds % 86_400);
    DivideUniquely(seconds, 60, seconds / 86_400 * 1_440 + seconds % 86_400 / 60, seconds % 86_400 % 60);
    DivideUniquely(ms, 60_000, seconds / 60, seconds % 60 * 1_000 + ms % 1_000);
  }

  lemma HoursAndMinutes(seconds: int)
    ensures seconds / 3_600 * 3_600 + seconds % 3_600 / 60 * 60 == seconds / 60 * 60
  {
    DivideUniquely(seconds, 60, seconds / 3_600 * 60 + seconds % 3_600 / 60, seconds % 3_600 % 60);
  }

  /** Without its fraction, an instant reads back as the second it was written in. */
  lemma InstantRoundTrips(ms: int)
    requires 1 <= YearOf(ms) <= 9_999
    ensures |Iso8601(ms)| >= 5
    ensures ParseTimestamp(Iso8601(ms)[..|Iso8601(ms)| - 5] + "Z") == Some(ms - ms % 1_000)
  {
    hide CivilFromDays, DaysFromCivil, ParseTimestamp, ParseDate, ParseClock, DateText, Padded, Bare;
    var seconds := ms / 1_000;
    var c, remainder := CivilFromDays(seconds / 86_400), seconds % 86_400;
    DaysAreCivil(seconds / 86_400);
    DateParses(c);
    ClockWithSecondsParses(remainder / 3_600, remainder % 3_600 / 60, remainder % 60);
    var clock := ClockText(remainder) + ":" + Padded(remainder % 60, 2);
    var text := DateText(c) + ['T'] + clock;
    assert Iso8601(ms) == text + ".000Z";
    assert Iso8601(ms)[..|Iso8601(ms)| - 5] == text;
    PartsParse(DateText(c), 'T', clock);
    BareEnds(DateText(c));
    BareEnds(clock);
    SuffixIgnored(text);
    SecondOf(ms);
  }

  lemma SecondOf(ms: int)
    ensures var seconds := ms / 1_000; var remainder := seconds % 86_400;
      seconds / 86_400 * 86_400_000
        + (remainder / 3_600 * 3_600 + remainder % 3_600 / 60 * 60 + remainder % 60) * 1_000 == ms - ms % 1_000
  {
    HoursAndMinutes(ms / 1_000 % 86_400);
  }

  lemma SuffixIgnored(text: string)
    requires |text| > 1 && IsBare(text[0]) && IsBare(text[|text| - 1])
    ensures ParseTimestamp(text + "Z") == ParseTimestamp(text)
  {
    hide Read, DateEnd;
    var marked := text + "Z";
    assert marked[..|text|] == text;
    assert Trim(marked) == marked && TrimZulu(marked) == TrimZulu(text) == text && Trim(text) == text;
  }

  /** The parser does not read instants: their fraction is not a number of seconds. */
  lemma InstantIsNotATimestamp(ms: int)
    ensures ParseTimestamp(Iso8601(ms)) == None
  {
    hide CivilFromDays, DaysFromCivil, ParseTimestamp, ParseDate, ParseClock, DateText, Padded, Bare;
    var seconds := ms / 1_000;
    var c, remainder := CivilFromDays(seconds / 86_400), seconds % 86_400;
    DaysAreCivil(seconds / 86_400);
    if c.year >= 0 {
      DateParses(c);
    } else {
      NegativeYearRefused(c);
    }
    var clock := ClockText(remainder) + ":" + Padded(remainder % 60, 2) + ".000";
    FractionRefused(remainder / 3_600, remainder % 3_600 / 60, remainder % 60);
    PartsParse(DateText(c), 'T', clock);
    var text := DateText(c) + ['T'] + clock;
    assert Iso8601(ms) == text + "Z";
    assert IsBare(text[0]) && IsBare(text[|text| - 1]) by {
      BareEnds(DateText(c));
    }
    SuffixIgnored(text);
  }

  lemma BareEnds(s: string)
    requires Bare(s)
    ensures |s| > 0 && IsBare(s[0]) && IsBare(s[|s| - 1])
  {
  }

  lemma FractionRefused(h: nat, m: nat, s: nat)
    requires h < 24 && m < 60 && s < 60
    ensures var clock := Padded(h, 2) + ":" + Padded(m, 2) + ":" + Padded(s, 2) + ".000";
      Bare(clock) && ParseClock(clock) == None
  {
    hide Padded, ParseInteger, Bare, Split;
    PaddedParses(h, 2);
    PaddedParses(m, 2);
    PaddedParses(s, 2);
    var last := Padded(s, 2) + ".000";
    LettersRefused(Padded(s, 2));
    BareJoin(Padded(m, 2), ':', last);
    BareJoin(Padded(h, 2), ':', Padded(m, 2) + [':'] + last);
    var clock := Padded(h, 2) + [':'] + (Padded(m, 2) + [':'] + last);
    assert clock == Padded(h, 2) + ":" + Padded(m, 2) + ":" + Padded(s, 2) + ".000";
    SplitFirst(Padded(h, 2), ':', Padded(m, 2) + [':'] + last);
    SplitFirst(Padded(m, 2), ':', last);
    SplitWhole(last, ':');
  }

  lemma LettersRefused(digits: string)
    requires Bare(digits) && AllDigits(digits)
    ensures var s := digits + ".000"; Bare(s) && ':' !in s && ParseInteger(s) == None
  {
    var s := digits + ".000";
    assert IsDigit(digits[0]) && s[0] == digits[0] && s[|digits|] == '.';
  }

  // MARK: What the parser accepts

  /** The moment a date and a clock time name. */
  function Moment(c: Civil, h: int, m: int, s: int): int {
    ((DaysFromCivil(c) * 24 + h) * 60 + m) * 60_000 + s * 1_000
  }

  /** Only real calendar moments are accepted, and each is the moment it names. */
  lemma AcceptedIsARealMoment(text: string) returns (c: Civil, h: int, m: int, s: int)
    requires ParseTimestamp(text).Some?
    ensures ValidCivil(c) && 1 <= c.year <= 9_999 && 0 <= h < 24 && 0 <= m < 60 && 0 <= s < 60
    ensures ParseTimestamp(text).value == Moment(c, h, m, s)
    ensures YearOf(ParseTimestamp(text).value) == c.year
  {
    hide CivilFromDays, DaysFromCivil, Split, Trim, TrimZulu, DateEnd;
    var trimmed := Trim(TrimZulu(Trim(text)));
    var end := DateEnd(trimmed);
    c := ParseDate(trimmed[..end]).value;
    var clock := ParseClock(if end == |trimmed| then [] else Trim(trimmed[end + 1..])).value;
    h, m, s := clock / 3_600, clock % 3_600 / 60, clock % 60;
    CivilAreDays(c);
    DayOfMoment(DaysFromCivil(c), clock);
  }

  lemma DayOfMoment(days: int, clock: int)
    requires 0 <= clock < 86_400
    ensures (days * 86_400_000 + clock * 1_000) / 1_000 / 86_400 == days
    ensures clock == clock / 3_600 * 3_600 + clock % 3_600 / 60 * 60 + clock % 60
  {
  }

  /** Printing and reparsing an accepted text gives its moment, to the minute. */
  lemma AcceptedReprints(text: string)
    requires ParseTimestamp(text).Some?
    ensures var ms := ParseTimestamp(text).value; ParseTimestamp(Timestamp(ms)) == Some(ms - ms % 60_000)
  {
    hide ParseTimestamp;
    var c, h, m, s := AcceptedIsARealMoment(text);
    TimestampRoundTrips(ParseTimestamp(text).value);
  }

  // MARK: Every spelling

  /** A text in its pieces: white space, the date, perhaps a separator and a clock, and what is ignored at the end. */
  datatype Spelling = Spelling(
    before: string, date: seq<string>, separator: Option<char>, blank: string, clock: seq<string>,
    gap: string, zulu: string, after: string)

  function Written(sp: Spelling): string {
    sp.before + Joined(sp.date, '-')
    + (if sp.separator.Some? then [sp.separator.value] + sp.blank + Joined(sp.clock, ':') else [])
    + sp.gap + sp.zulu + sp.after
  }

  predicate AllZulu(s: string) {
    forall c <- s :: IsZulu(c)
  }

  /** The number in a place of the clock, and zero for a place left out. */
  predicate Shows(clock: seq<string>, place: nat, n: int) {
    if place < |clock| then ParseInteger(clock[place]) == Some(n) else n == 0
  }

  /** The pieces spell a date of years 1 to 9999 and a time: an hour, with minutes, with seconds, or none of these. */
  predicate Spells(sp: Spelling, c: Civil, h: int, m: int, s: int) {
    && IsBlank(sp.before) && IsBlank(sp.blank) && IsBlank(sp.gap) && AllZulu(sp.zulu) && IsBlank(sp.after)
    && (sp.separator == None || sp.separator == Some(' ') || sp.separator == Some('T'))
    && (sp.separator.None? ==> sp.clock == [])
    && |sp.date| == 3 && ParseInteger(sp.date[0]) == Some(c.year)
    && ParseInteger(sp.date[1]) == Some(c.month) && ParseInteger(sp.date[2]) == Some(c.day)
    && 1 <= c.year <= 9_999 && ValidCivil(c)
    && |sp.clock| <= 3 && Shows(sp.clock, 0, h) && Shows(sp.clock, 1, m) && Shows(sp.clock, 2, s)
    && 0 <= h < 24 && 0 <= m < 60 && 0 <= s < 60
  }

  lemma NumberIsBare(s: string)
    requires ParseInteger(s).Some?
    ensures Bare(s) && ':' !in s && (ParseInteger(s).value > 0 ==> '-' !in s)
  {
    hide IsWhitespace;
    var digits := if s[0] == '-' || s[0] == '+' then s[1..] else s;
    SignsAreBare();
    forall i | 0 <= i < |digits| ensures IsBare(digits[i]) && digits[i] != '-' && digits[i] != ':' {
      DigitIsBare(digits[i]);
    }
    hide IsBare, IsDigit;
    assert s == digits || s == [s[0]] + digits;
  }

  lemma SignsAreBare()
    ensures IsBare('-') && IsBare('+') && IsBare(':') && !IsWhitespace('T') && !IsZulu('T')
  {
  }

  lemma JoinedFew(parts: seq<string>, separator: char)
    ensures |parts| == 1 ==> Joined(parts, separator) == parts[0]
    ensures |parts| == 2 ==> Joined(parts, separator) == parts[0] + [separator] + parts[1]
    ensures |parts| == 3 ==> Joined(parts, separator) == parts[0] + [separator] + (parts[1] + [separator] + parts[2])
  {
    if |parts| == 3 {
      assert parts[1..][1..] == [parts[2]];
    }
  }

  lemma DateReads(date: seq<string>, c: Civil)
    requires |date| == 3 && ParseInteger(date[0]) == Some(c.year)
    requires ParseInteger(date[1]) == Some(c.month) && ParseInteger(date[2]) == Some(c.day)
    requires 1 <= c.year <= 9_999 && ValidCivil(c)
    ensures Bare(Joined(date, '-')) && ParseDate(Joined(date, '-')) == Some(c)
  {
    hide Bare, ParseInteger, IsBare;
    NumberIsBare(date[0]);
    NumberIsBare(date[1]);
    NumberIsBare(date[2]);
    SignsAreBare();
    BareJoin(date[1], '-', date[2]);
    BareJoin(date[0], '-', date[1] + ['-'] + date[2]);
    JoinedFew(date, '-');
    forall part | part in date ensures '-' !in part {
      var i :| 0 <= i < |date| && date[i] == part;
    }
    JoinedSplits(date, '-');
  }

  lemma ClockReads(clock: seq<string>, h: int, m: int, s: int)
    requires |clock| <= 3 && Shows(clock, 0, h) && Shows(clock, 1, m) && Shows(clock, 2, s)
    requires 0 <= h < 24 && 0 <= m < 60 && 0 <= s < 60
    ensures clock != [] ==> Bare(Joined(clock, ':'))
    ensures ParseClock(Joined(clock, ':')) == Some(h * 3_600 + m * 60 + s)
  {
    if clock == [] {
      hide ParseInteger;
    } else {
      hide *;
      ClockIsBare(clock, h, m, s);
      BareEnds(Joined(clock, ':'));
      JoinedSplits(clock, ':');
      PartsAreRead(Joined(clock, ':'), h, m, s);
    }
  }

  lemma PartsAreRead(time: string, h: int, m: int, s: int)
    requires var clock := Split(time, ':');
      time != [] && |clock| <= 3 && Shows(clock, 0, h) && Shows(clock, 1, m) && Shows(clock, 2, s)
    requires 0 <= h < 24 && 0 <= m < 60 && 0 <= s < 60
    ensures ParseClock(time) == Some(h * 3_600 + m * 60 + s)
  {
    hide ParseInteger, Split;
  }

  lemma ClockIsBare(clock: seq<string>, h: int, m: int, s: int)
    requires 1 <= |clock| <= 3 && Shows(clock, 0, h) && Shows(clock, 1, m) && Shows(clock, 2, s)
    ensures Bare(Joined(clock, ':')) && forall part <- clock :: ':' !in part
  {
    hide Bare, ParseInteger, IsBare, Joined;
    SignsAreBare();
    NumberIsBare(clock[0]);
    if |clock| > 1 {
      NumberIsBare(clock[1]);
      if |clock| > 2 {
        NumberIsBare(clock[2]);
        BareJoin(clock[1], ':', clock[2]);
        BareJoin(clock[0], ':', clock[1] + [':'] + clock[2]);
      } else {
        BareJoin(clock[0], ':', clock[1]);
      }
    }
    JoinedFew(clock, ':');
    forall part | part in clock ensures ':' !in part {
      var i :| 0 <= i < |clock| && clock[i] == part;
    }
  }

  lemma {:induction false} ZuluTakes(s: string, zulu: string)
    requires AllZulu(zulu) && s != [] && !IsZulu(s[|s| - 1])
    ensures TrimZulu(s + zulu) == s
  {
    if zulu == [] {
      assert s + zulu == s;
    } else {
      var n := |zulu| - 1;
      ZuluTakes(s, zulu[..n]);
      assert (s + zulu)[..|s| + n] == s + zulu[..n] && (s + zulu)[|s| + n] == zulu[n];
    }
  }

  lemma {:induction false} ZuluKeeps(s: string) returns (zulu: string)
    ensures AllZulu(zulu) && s == TrimZulu(s) + zulu
  {
    if s != [] && IsZulu(s[|s| - 1]) {
      zulu := ZuluKeeps(s[..|s| - 1]);
      zulu := zulu + [s[|s| - 1]];
    } else {
      zulu := [];
    }
  }

  lemma ZuluIsNoBlank(c: char)
    ensures !(IsZulu(c) && IsWhitespace(c))
  {
  }

  /** Around the date and time, white space and Zulus are ignored. */
  lemma CoreTrims(before: string, core: string, gap: string, zulu: string, after: string)
    requires IsBlank(before) && IsBlank(gap) && AllZulu(zulu) && IsBlank(after)
    requires HasEnds(core) && !IsZulu(core[|core| - 1])
    ensures Trim(TrimZulu(Trim(before + core + gap + zulu + after))) == core
  {
    hide IsWhitespace, IsZulu, Trim, TrimZulu;
    if zulu == [] {
      assert IsBlank(gap + after);
      assert before + core + gap + zulu + after == before + core + (gap + after) && core + [] == core;
      TrimTakes(before, core, gap + after);
      ZuluTakes(core, []);
      assert [] + core + [] == core;
      TrimTakes([], core, []);
    } else {
      var marked := core + gap + zulu;
      ZuluIsNoBlank(zulu[|zulu| - 1]);
      assert marked[0] == core[0] && marked[|marked| - 1] == zulu[|zulu| - 1];
      assert before + core + gap + zulu + after == before + marked + after;
      TrimTakes(before, marked, after);
      if gap != [] {
        ZuluIsNoBlank(gap[|gap| - 1]);
      }
      ZuluTakes(core + gap, zulu);
      assert [] + core + gap == core + gap;
      TrimTakes([], core, gap);
    }
  }

  lemma DateEndsAt(date: string, rest: string)
    requires Bare(date) && (rest == [] || rest[0] == ' ' || rest[0] == 'T')
    ensures DateEnd(date + rest) == |date|
  {
    var text := date + rest;
    assert forall i :: 0 <= i < |date| ==> text[i] == date[i] && IsBare(date[i]);
    assert rest != [] ==> text[|date|] == rest[0];
  }

  lemma ReadsAlone(before: string, date: string, gap: string, zulu: string, after: string)
    requires Bare(date) && IsBlank(before) && IsBlank(gap) && AllZulu(zulu) && IsBlank(after)
    ensures ParseTimestamp(before + date + gap + zulu + after) == Read(date, [])
  {
    BareEnds(date);
    assert date + [] == date;
    hide *;
    CoreTrims(before, date, gap, zulu, after);
    DateEndsAt(date, []);
    ReadsDate(before + date + gap + zulu + after, date);
  }

  lemma ReadsDate(text: string, date: string)
    requires Trim(TrimZulu(Trim(text))) == date && DateEnd(date) == |date|
    ensures ParseTimestamp(text) == Read(date, [])
  {
    assert date[..|date|] == date;
    hide Read, Trim, TrimZulu, DateEnd;
  }

  lemma ReadsBoth(
    before: string, date: string, separator: char, blank: string, clock: string, gap: string, zulu: string,
    after: string
  )
    requires Bare(date) && (Bare(clock) || (clock == [] && separator == 'T' && blank == []))
    requires separator == ' ' || separator == 'T'
    requires IsBlank(before) && IsBlank(blank) && IsBlank(gap) && AllZulu(zulu) && IsBlank(after)
    ensures ParseTimestamp(before + (date + [separator] + blank + clock) + gap + zulu + after) == Read(date, clock)
  {
    var core := date + [separator] + blank + clock;
    CoreHasEnds(date, separator, blank, clock);
    CorePieces(date, separator, blank, clock);
    ClockTrims(blank, clock);
    hide *;
    CoreTrims(before, core, gap, zulu, after);
    ReadsCore(before + core + gap + zulu + after, core, |date|, clock);
  }

  lemma CorePieces(date: string, separator: char, blank: string, clock: string)
    requires Bare(date) && (separator == ' ' || separator == 'T')
    ensures var core := date + [separator] + blank + clock;
      |date| < |core| && DateEnd(core) == |date| && core[..|date|] == date && core[|date| + 1..] == blank + clock
  {
    var rest := [separator] + blank + clock;
    assert rest[0] == separator && date + [separator] + blank + clock == date + rest;
    hide *;
    DateEndsAt(date, rest);
  }

  lemma ReadsCore(text: string, core: string, end: nat, clock: string)
    requires Trim(TrimZulu(Trim(text))) == core && DateEnd(core) == end < |core| && Trim(core[end + 1..]) == clock
    ensures ParseTimestamp(text) == Read(core[..end], clock)
  {
    hide Read, Trim, TrimZulu, DateEnd;
  }

  lemma CoreHasEnds(date: string, separator: char, blank: string, clock: string)
    requires Bare(date) && (Bare(clock) || (clock == [] && separator == 'T' && blank == []))
    ensures var core := date + [separator] + blank + clock; HasEnds(core) && !IsZulu(core[|core| - 1])
  {
    var core := date + [separator] + blank + clock;
    BareEnds(date);
    SignsAreBare();
    hide IsWhitespace, IsZulu;
    assert core[0] == date[0];
    if clock != [] {
      BareEnds(clock);
      assert core[|core| - 1] == clock[|clock| - 1];
    } else {
      assert core[|core| - 1] == 'T';
    }
  }

  lemma ClockTrims(blank: string, clock: string)
    requires IsBlank(blank) && (Bare(clock) || (clock == [] && blank == []))
    ensures Trim(blank + clock) == clock
  {
    if clock != [] {
      BareEnds(clock);
      hide Trim, IsWhitespace, IsZulu;
      TrimTakes(blank, clock, []);
      assert blank + clock + [] == blank + clock;
    }
  }

  lemma MomentOf(c: Civil, h: int, m: int, s: int)
    ensures DaysFromCivil(c) * 86_400_000 + (h * 3_600 + m * 60 + s) * 1_000 == Moment(c, h, m, s)
  {
    hide DaysFromCivil;
  }

  lemma BlankJoins(a: string, b: string)
    requires IsBlank(a) && IsBlank(b)
    ensures IsBlank(a + b)
  {
  }

  /** Whatever spells a moment is read as that moment. */
  lemma SpellingReads(sp: Spelling, c: Civil, h: int, m: int, s: int)
    requires Spells(sp, c, h, m, s)
    ensures ParseTimestamp(Written(sp)) == Some(Moment(c, h, m, s))
  {
    hide ParseDate, ParseClock, DaysFromCivil, ParseTimestamp, Written, Moment, Joined, Bare, IsBlank, AllZulu, Shows,
      ParseInteger, ValidCivil;
    DateReads(sp.date, c);
    ClockReads(sp.clock, h, m, s);
    MomentOf(c, h, m, s);
    WrittenReads(sp);
  }

  lemma WrittenReads(sp: Spelling)
    requires IsBlank(sp.before) && IsBlank(sp.blank) && IsBlank(sp.gap) && AllZulu(sp.zulu) && IsBlank(sp.after)
    requires sp.separator == None || sp.separator == Some(' ') || sp.separator == Some('T')
    requires sp.separator.None? ==> sp.clock == []
    requires Bare(Joined(sp.date, '-')) && (sp.clock == [] || Bare(Joined(sp.clock, ':')))
    ensures ParseTimestamp(Written(sp)) == Read(Joined(sp.date, '-'), Joined(sp.clock, ':'))
  {
    var date, clock := Joined(sp.date, '-'), Joined(sp.clock, ':');
    assert sp.clock == [] ==> clock == [];
    assert IsBlank([' ']) && IsBlank([]);
    hide Read, Bare, ParseTimestamp, IsBlank, AllZulu, Joined;
    if sp.separator.None? {
      assert Written(sp) == sp.before + date + sp.gap + sp.zulu + sp.after;
      ReadsAlone(sp.before, date, sp.gap, sp.zulu, sp.after);
    } else if sp.clock != [] {
      var core := date + [sp.separator.value] + sp.blank + clock;
      assert Written(sp) == sp.before + core + sp.gap + sp.zulu + sp.after;
      ReadsBoth(sp.before, date, sp.separator.value, sp.blank, clock, sp.gap, sp.zulu, sp.after);
    } else if sp.separator == Some('T') {
      var core := date + ['T'] + [] + [];
      BlankJoins(sp.blank, sp.gap);
      assert Written(sp) == sp.before + core + (sp.blank + sp.gap) + sp.zulu + sp.after;
      ReadsBoth(sp.before, date, 'T', [], [], sp.blank + sp.gap, sp.zulu, sp.after);
    } else {
      BlankJoins([' '], sp.blank);
      BlankJoins([' '] + sp.blank, sp.gap);
      assert Written(sp) == sp.before + date + ([' '] + sp.blank + sp.gap) + sp.zulu + sp.after;
      ReadsAlone(sp.before, date, [' '] + sp.blank + sp.gap, sp.zulu, sp.after);
    }
  }

  lemma NothingIsBlank()
    ensures IsBlank([])
  {
  }

  /** The pieces of a text without white space or Zulus around it. */
  function Pieces(core: string, blank: string): Spelling {
    var end := DateEnd(core);
    var time := if end == |core| then [] else Trim(core[end + 1..]);
    Spelling(
      [], Split(core[..end], '-'), if end == |core| then None else Some(core[end]), blank,
      if time == [] then [] else Split(time, ':'), [], [], [])
  }

  lemma PiecesAreWritten(core: string) returns (blank: string, tail: string)
    ensures IsBlank(blank) && IsBlank(tail) && Written(Pieces(core, blank)) + tail == core
  {
    hide IsBlank, Written;
    var end := DateEnd(core);
    if end == |core| {
      blank, tail := [], [];
      NothingIsBlank();
      DateIsWritten(core);
    } else {
      blank, tail := TrimKeeps(core[end + 1..]);
      BothAreWritten(core, blank, tail);
    }
  }

  lemma DateIsWritten(core: string)
    requires DateEnd(core) == |core|
    ensures Written(Pieces(core, [])) + [] == core
  {
    hide Split, Joined, DateEnd, Written;
    SplitJoins(core, '-');
    assert core[..|core|] == core;
    WrittenPlainly(Split(core, '-'), None, [], []);
    assert core + [] + [] + [] == core;
  }

  lemma BothAreWritten(core: string, blank: string, tail: string)
    requires var end := DateEnd(core); end < |core| && core[end + 1..] == blank + Trim(core[end + 1..]) + tail
    ensures Written(Pieces(core, blank)) + tail == core
  {
    hide Split, Trim, DateEnd, Joined, Written;
    var end := DateEnd(core);
    var date, time := core[..end], Trim(core[end + 1..]);
    var clock := if time == [] then [] else Split(time, ':');
    SplitJoins(date, '-');
    SplitJoins(time, ':');
    assert Joined(clock, ':') == time by {
      JoinedNothing();
    }
    WrittenCore(Split(date, '-'), core[end], blank, clock);
    RestIs(core, end, blank, time, tail);
  }

  lemma JoinedNothing()
    ensures Joined([], ':') == []
  {
  }

  lemma RestIs(core: string, end: nat, blank: string, time: string, tail: string)
    requires end < |core| && core[end + 1..] == blank + time + tail
    ensures core[..end] + ([core[end]] + blank + time) + tail == core
  {
  }

  lemma WrittenCore(date: seq<string>, separator: char, blank: string, clock: seq<string>)
    ensures Written(Spelling([], date, Some(separator), blank, clock, [], [], []))
      == Joined(date, '-') + ([separator] + blank + Joined(clock, ':'))
  {
    hide Joined;
  }

  lemma ClockOf(time: string) returns (h: int, m: int, s: int)
    requires ParseClock(time).Some?
    ensures var parts := if time == [] then [] else Split(time, ':');
      |parts| <= 3 && Shows(parts, 0, h) && Shows(parts, 1, m) && Shows(parts, 2, s)
    ensures 0 <= h < 24 && 0 <= m < 60 && 0 <= s < 60 && ParseClock(time) == Some(h * 3_600 + m * 60 + s)
  {
    hide ParseInteger;
    h, m, s := 0, 0, 0;
    if time != [] {
      var parts := Split(time, ':');
      h := ParseInteger(parts[0]).value;
      m := if |parts| < 2 then 0 else ParseInteger(parts[1]).value;
      s := if |parts| < 3 then 0 else ParseInteger(parts[2]).value;
    }
  }

  /** Whatever is read spells the moment it is read as. */
  lemma ReadIsSpelled(text: string) returns (sp: Spelling, c: Civil, h: int, m: int, s: int)
    requires ParseTimestamp(text).Some?
    ensures Spells(sp, c, h, m, s) && Written(sp) == text && ParseTimestamp(text) == Some(Moment(c, h, m, s))
  {
    hide ParseClock, ParseInteger, DaysFromCivil, Trim, TrimZulu, IsBlank, AllZulu, Joined, Moment, Shows, Written,
      Split;
    var once := Trim(text);
    var unmarked := TrimZulu(once);
    var core := Trim(unmarked);
    var end := DateEnd(core);
    c := ParseDate(core[..end]).value;
    h, m, s := ClockOf(if end == |core| then [] else Trim(core[end + 1..]));
    MomentOf(c, h, m, s);
    hide ParseTimestamp, ParseDate, ValidCivil;
    var blank, tail := PiecesAreWritten(core);
    var before, after := TrimKeeps(text);
    var zulu := ZuluKeeps(once);
    var inner, gap := TrimKeeps(unmarked);
    BlankJoins(before, inner);
    BlankJoins(tail, gap);
    NothingIsBlank();
    sp := Pieces(core, blank).(before := before + inner, gap := tail + gap, zulu := zulu, after := after);
    WrittenAround(Pieces(core, blank), before, inner, tail, gap, zulu, after);
  }

  lemma WrittenAround(
    sp: Spelling, before: string, inner: string, tail: string, gap: string, zulu: string, after: string
  )
    requires sp.before == sp.gap == sp.zulu == sp.after == []
    ensures Written(sp.(before := before + inner, gap := tail + gap, zulu := zulu, after := after))
      == before + (inner + (Written(sp) + tail) + gap + zulu) + after
  {
    hide Joined;
  }

  /**
   * The parser reads exactly the spellings of real moments, each as its moment: a date alone, or
   * with an hour, with minutes, with seconds, places left out being zero, under a space or a `T`.
   */
  lemma ReadsExactlyTheSpellings(text: string, ms: int)
    ensures ParseTimestamp(text) == Some(ms) <==>
      exists sp, c, h, m, s :: Spells(sp, c, h, m, s) && Written(sp) == text && Moment(c, h, m, s) == ms
  {
    hide Spells, Written, ParseTimestamp, Moment;
    if ParseTimestamp(text) == Some(ms) {
      var sp, c, h, m, s := ReadIsSpelled(text);
    }
    if exists sp, c, h, m, s :: Spells(sp, c, h, m, s) && Written(sp) == text && Moment(c, h, m, s) == ms {
      var sp, c, h, m, s :| Spells(sp, c, h, m, s) && Written(sp) == text && Moment(c, h, m, s) == ms;
      SpellingReads(sp, c, h, m, s);
    }
  }

  /** In the usual spellings: a date alone, and with an hour, minutes and seconds, with or without a final `Z`. */
  lemma UsualSpellings(c: Civil, h: nat, m: nat, s: nat, separator: char, zulu: string)
    requires ValidCivil(c) && 1 <= c.year <= 9_999 && h < 24 && m < 60 && s < 60
    requires (separator == ' ' || separator == 'T') && (zulu == "" || zulu == "Z")
    ensures ParseTimestamp(DateText(c) + zulu) == Some(Moment(c, 0, 0, 0))
    ensures var hour := DateText(c) + [separator] + Padded(h, 2);
      ParseTimestamp(hour + zulu) == Some(Moment(c, h, 0, 0))
    ensures var minute := DateText(c) + [separator] + Padded(h, 2) + ":" + Padded(m, 2);
      ParseTimestamp(minute + zulu) == Some(Moment(c, h, m, 0))
    ensures var second := DateText(c) + [separator] + Padded(h, 2) + ":" + Padded(m, 2) + ":" + Padded(s, 2);
      ParseTimestamp(second + zulu) == Some(Moment(c, h, m, s))
  {
    assert Shows([], 0, 0) && Shows([], 1, 0) && Shows([], 2, 0) && DateText(c) + [] + zulu == DateText(c) + zulu by {
      hide DateText, ParseInteger;
    }
    hide *;
    ClockShows(h, m, s);
    JoinedClocks(DateText(c), separator, Padded(h, 2), Padded(m, 2), Padded(s, 2), zulu);
    UsualSpelling(c, None, [], 0, 0, 0, zulu);
    UsualSpelling(c, Some(separator), [Padded(h, 2)], h, 0, 0, zulu);
    UsualSpelling(c, Some(separator), [Padded(h, 2), Padded(m, 2)], h, m, 0, zulu);
    UsualSpelling(c, Some(separator), [Padded(h, 2), Padded(m, 2), Padded(s, 2)], h, m, s, zulu);
  }

  lemma ClockShows(h: nat, m: nat, s: nat)
    ensures Shows([Padded(h, 2)], 0, h) && Shows([Padded(h, 2)], 1, 0) && Shows([Padded(h, 2)], 2, 0)
    ensures var two := [Padded(h, 2), Padded(m, 2)]; Shows(two, 0, h) && Shows(two, 1, m) && Shows(two, 2, 0)
    ensures var three := [Padded(h, 2), Padded(m, 2), Padded(s, 2)];
      Shows(three, 0, h) && Shows(three, 1, m) && Shows(three, 2, s)
  {
    PaddedParses(h, 2);
    PaddedParses(m, 2);
    PaddedParses(s, 2);
    hide Padded, ParseInteger;
  }

  lemma JoinedClocks(date: string, separator: char, hour: string, minute: string, second: string, zulu: string)
    ensures date + ([separator] + Joined([hour], ':')) + zulu == date + [separator] + hour + zulu
    ensures date + ([separator] + Joined([hour, minute], ':')) + zulu == date + [separator] + hour + ":" + minute + zulu
    ensures date + ([separator] + Joined([hour, minute, second], ':')) + zulu
      == date + [separator] + hour + ":" + minute + ":" + second + zulu
  {
    JoinedFew([hour], ':');
    JoinedFew([hour, minute], ':');
    JoinedFew([hour, minute, second], ':');
    hide Joined;
  }

  lemma UsualSpelling(c: Civil, separator: Option<char>, clock: seq<string>, h: nat, m: nat, s: nat, zulu: string)
    requires ValidCivil(c) && 1 <= c.year <= 9_999 && h < 24 && m < 60 && s < 60
    requires separator == None || separator == Some(' ') || separator == Some('T')
    requires (separator.None? ==> clock == []) && |clock| <= 3 && (zulu == "" || zulu == "Z")
    requires Shows(clock, 0, h) && Shows(clock, 1, m) && Shows(clock, 2, s)
    ensures ParseTimestamp(
      DateText(c) + (if separator.Some? then [separator.value] + Joined(clock, ':') else []) + zulu)
      == Some(Moment(c, h, m, s))
  {
    hide Padded, ParseInteger, Bare, AllDigits, Moment, ParseTimestamp, IsBlank, AllZulu, Shows, ValidCivil;
    var date := [Padded(c.year, 4), Padded(c.month, 2), Padded(c.day, 2)];
    assert c.month >= 0 && c.day >= 0 by {
      MonthsAndDays(c);
    }
    PaddedParses(c.year, 4);
    PaddedParses(c.month, 2);
    PaddedParses(c.day, 2);
    JoinedFew(date, '-');
    PlainlySpells(date, separator, clock, zulu, c, h, m, s);
    WrittenPlainly(date, separator, clock, zulu);
    assert Joined(date, '-') == DateText(c) by {
      hide Joined, Padded;
    }
    hide *;
    SpellingReads(Spelling([], date, separator, [], clock, [], zulu, []), c, h, m, s);
  }

  lemma PlainlySpells(
    date: seq<string>, separator: Option<char>, clock: seq<string>, zulu: string, c: Civil, h: nat, m: nat, s: nat
  )
    requires ValidCivil(c) && 1 <= c.year <= 9_999 && h < 24 && m < 60 && s < 60
    requires |date| == 3 && ParseInteger(date[0]) == Some(c.year)
    requires ParseInteger(date[1]) == Some(c.month) && ParseInteger(date[2]) == Some(c.day)
    requires separator == None || separator == Some(' ') || separator == Some('T')
    requires (separator.None? ==> clock == []) && |clock| <= 3 && (zulu == "" || zulu == "Z")
    requires Shows(clock, 0, h) && Shows(clock, 1, m) && Shows(clock, 2, s)
    ensures Spells(Spelling([], date, separator, [], clock, [], zulu, []), c, h, m, s)
  {
    hide ParseInteger, Shows, ValidCivil;
  }

  lemma MonthsAndDays(c: Civil)
    requires ValidCivil(c)
    ensures c.month > 0 && c.day > 0
  {
  }

  lemma WrittenPlainly(date: seq<string>, separator: Option<char>, clock: seq<string>, zulu: string)
    ensures Written(Spelling([], date, separator, [], clock, [], zulu, []))
      == Joined(date, '-') + (if separator.Some? then [separator.value] + Joined(clock, ':') else []) + zulu
  {
    hide Joined;
  }
}

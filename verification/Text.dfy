// The few operations on text that the printers and parsers of this project share.
module Text {

  datatype Option<+T> = None | Some(value: T)

  predicate IsDigit(c: char) {
    '0' <= c <= '9'
  }

  predicate AllDigits(s: string) {
    forall i :: 0 <= i < |s| ==> IsDigit(s[i])
  }

  /** The number a run of digits spells. */
  function Value(s: string): nat
    requires AllDigits(s)
  {
    if s == [] then 0 else Value(s[..|s| - 1]) * 10 + (s[|s| - 1] - '0') as nat
  }

  /** A natural number in decimal, without leading zeros. */
  function Digits(n: nat): (s: string)
    ensures |s| > 0 && AllDigits(s) && Value(s) == n
  {
    if n < 10 then
      assert Value(['0' + n as char]) == n;
      ['0' + n as char]
    else
      var front, last := Digits(n / 10), '0' + (n % 10) as char;
      assert (front + [last])[..|front|] == front;
      front + [last]
  }

  function Zeros(k: nat): (s: string)
    ensures |s| == k && AllDigits(s)
  {
    seq(k, _ => '0')
  }

  lemma {:induction false} ZerosAddNothing(k: nat, s: string)
    requires AllDigits(s)
    ensures AllDigits(Zeros(k) + s) && Value(Zeros(k) + s) == Value(s)
  {
    if s == [] {
      if k > 0 {
        ZerosAddNothing(k - 1, s);
        assert Zeros(k) + s == Zeros(k) && Zeros(k - 1) + s == Zeros(k - 1) && Zeros(k)[..k - 1] == Zeros(k - 1);
      }
    } else {
      ZerosAddNothing(k, s[..|s| - 1]);
      assert (Zeros(k) + s)[..k + |s| - 1] == Zeros(k) + s[..|s| - 1];
    }
  }

  /** A sign, or none, and at least one digit: what `parse` accepts for a signed integer. */
  function ParseInteger(s: string): Option<int> {
    var negative := |s| > 0 && s[0] == '-';
    var digits := if |s| > 0 && (s[0] == '-' || s[0] == '+') then s[1..] else s;
    if digits == [] || !AllDigits(digits) then None
    else
      var magnitude: int := Value(digits);
      Some(if negative then -magnitude else magnitude)
  }

  /** The pieces between the separators: one more than there are separators. */
  function Split(s: string, separator: char): (parts: seq<string>)
    ensures |parts| > 0
  {
    if s == [] then [""]
    else
      var rest := Split(s[1..], separator);
      if s[0] == separator then [""] + rest else [[s[0]] + rest[0]] + rest[1..]
  }

  lemma {:induction false} SplitFirst(piece: string, separator: char, rest: string)
    requires separator !in piece
    ensures Split(piece + [separator] + rest, separator) == [piece] + Split(rest, separator)
  {
    var whole := piece + [separator] + rest;
    if piece == [] {
      assert whole[1..] == rest;
    } else {
      SplitFirst(piece[1..], separator, rest);
      assert whole[1..] == piece[1..] + [separator] + rest;
      assert [piece[0]] + piece[1..] == piece;
    }
  }

  lemma {:induction false} SplitWhole(piece: string, separator: char)
    requires separator !in piece
    ensures Split(piece, separator) == [piece]
  {
    if piece != [] {
      SplitWhole(piece[1..], separator);
      assert [piece[0]] + piece[1..] == piece;
    }
  }

  /** The pieces with the separator between them. */
  function Joined(parts: seq<string>, separator: char): string {
    if parts == [] then []
    else if |parts| == 1 then parts[0]
    else parts[0] + [separator] + Joined(parts[1..], separator)
  }

  lemma {:induction false} SplitJoins(s: string, separator: char)
    ensures Joined(Split(s, separator), separator) == s
    ensures forall part <- Split(s, separator) :: separator !in part
  {
    if s != [] {
      SplitJoins(s[1..], separator);
      var rest := Split(s[1..], separator);
      assert [s[0]] + s[1..] == s;
      hide Split;
      if s[0] == separator {
        JoinedGrows("", rest, separator);
        assert Split(s, separator) == [""] + rest by {
          SplitFrom(s, separator);
        }
      } else {
        JoinedExtends(s[0], rest, separator);
        assert Split(s, separator) == [[s[0]] + rest[0]] + rest[1..] by {
          SplitFrom(s, separator);
        }
        assert rest[0] in rest && forall part <- rest[1..] :: part in rest;
      }
    }
  }

  lemma SplitFrom(s: string, separator: char)
    requires s != []
    ensures var rest := Split(s[1..], separator);
      Split(s, separator) == if s[0] == separator then [""] + rest else [[s[0]] + rest[0]] + rest[1..]
  {
  }

  lemma JoinedGrows(part: string, rest: seq<string>, separator: char)
    requires rest != []
    ensures Joined([part] + rest, separator) == part + [separator] + Joined(rest, separator)
  {
    assert ([part] + rest)[1..] == rest;
  }

  lemma JoinedExtends(c: char, parts: seq<string>, separator: char)
    requires parts != []
    ensures Joined([[c] + parts[0]] + parts[1..], separator) == [c] + Joined(parts, separator)
  {
    if |parts| == 1 {
      assert [[c] + parts[0]] + parts[1..] == [[c] + parts[0]];
    } else {
      JoinedGrows([c] + parts[0], parts[1..], separator);
      assert [c] + parts[0] + [separator] + Joined(parts[1..], separator)
        == [c] + (parts[0] + [separator] + Joined(parts[1..], separator));
    }
  }

  lemma {:induction false} JoinedSplits(parts: seq<string>, separator: char)
    requires parts != [] && forall part <- parts :: separator !in part
    ensures Split(Joined(parts, separator), separator) == parts
  {
    if |parts| == 1 {
      SplitWhole(parts[0], separator);
    } else {
      SplitFirst(parts[0], separator, Joined(parts[1..], separator));
      JoinedSplits(parts[1..], separator);
    }
  }

  /** Unicode's `White_Space` property, which trimming goes by. */
  predicate IsWhitespace(c: char) {
    || '\U{0009}' <= c <= '\U{000D}' || c == ' ' || c == '\U{0085}' || c == '\U{00A0}' || c == '\U{1680}'
    || '\U{2000}' <= c <= '\U{200A}' || c == '\U{2028}' || c == '\U{2029}' || c == '\U{202F}' || c == '\U{205F}'
      || c == '\U{3000}'
  }

  function TrimStart(s: string): string {
    if s != [] && IsWhitespace(s[0]) then TrimStart(s[1..]) else s
  }

  function TrimEnd(s: string): string {
    if s != [] && IsWhitespace(s[|s| - 1]) then TrimEnd(s[..|s| - 1]) else s
  }

  function Trim(s: string): string {
    TrimEnd(TrimStart(s))
  }

  // MARK: Trimming

  predicate IsBlank(s: string) {
    forall c <- s :: IsWhitespace(c)
  }

  lemma {:induction false} TrimStartKeeps(s: string) returns (before: string)
    ensures IsBlank(before) && s == before + TrimStart(s)
  {
    hide IsWhitespace;
    if s != [] && IsWhitespace(s[0]) {
      before := TrimStartKeeps(s[1..]);
      before := [s[0]] + before;
    } else {
      before := [];
    }
  }

  lemma {:induction false} TrimEndKeeps(s: string) returns (after: string)
    ensures IsBlank(after) && s == TrimEnd(s) + after
  {
    hide IsWhitespace;
    if s != [] && IsWhitespace(s[|s| - 1]) {
      after := TrimEndKeeps(s[..|s| - 1]);
      after := after + [s[|s| - 1]];
    } else {
      after := [];
    }
  }

  /** Trimming takes white space from the ends and nothing else. */
  lemma TrimKeeps(s: string) returns (before: string, after: string)
    ensures IsBlank(before) && IsBlank(after) && s == before + Trim(s) + after
  {
    before := TrimStartKeeps(s);
    after := TrimEndKeeps(TrimStart(s));
  }

  predicate HasEnds(s: string) {
    s != [] && !IsWhitespace(s[0]) && !IsWhitespace(s[|s| - 1])
  }

  lemma {:induction false} StartTrims(before: string, s: string)
    requires IsBlank(before) && s != [] && !IsWhitespace(s[0])
    ensures TrimStart(before + s) == s
  {
    hide IsWhitespace;
    if before == [] {
      assert before + s == s;
    } else {
      StartTrims(before[1..], s);
      assert (before + s)[1..] == before[1..] + s;
    }
  }

  lemma {:induction false} EndTrims(s: string, after: string)
    requires IsBlank(after) && s != [] && !IsWhitespace(s[|s| - 1])
    ensures TrimEnd(s + after) == s
  {
    hide IsWhitespace;
    if after == [] {
      assert s + after == s;
    } else {
      var n := |after| - 1;
      EndTrims(s, after[..n]);
      assert (s + after)[..|s| + n] == s + after[..n] && (s + after)[|s| + n] == after[n];
    }
  }

  lemma TrimTakes(before: string, s: string, after: string)
    requires IsBlank(before) && IsBlank(after) && HasEnds(s)
    ensures Trim(before + s + after) == s
  {
    hide IsWhitespace, IsBlank;
    assert before + s + after == before + (s + after);
    StartTrims(before, s + after);
    EndTrims(s, after);
  }
}

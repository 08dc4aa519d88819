// Byte strings: little-endian numbers as the struct module packs them, and UTF-8.
module Bytes {
  import opened Text

  type Byte = b: int | 0 <= b < 256
  type Bytes = seq<Byte>

  // MARK: Numbers

  function Size(k: nat): (n: nat)
    ensures n > 0
  {
    if k == 0 then 1 else 256 * Size(k - 1)
  }

  /** The low `k` bytes of a number, the lowest first. */
  function Packed(n: nat, k: nat): (s: Bytes)
    ensures |s| == k
    decreases k
  {
    if k == 0 then [] else [n % 256] + Packed(n / 256, k - 1)
  }

  function Unpacked(s: Bytes): nat {
    if s == [] then 0 else s[0] + 256 * Unpacked(s[1..])
  }

  lemma {:induction false} PackedRoundTrips(n: nat, k: nat)
    requires n < Size(k)
    ensures Unpacked(Packed(n, k)) == n
    decreases k
  {
    if k > 0 {
      PackedRoundTrips(n / 256, k - 1);
      assert Packed(n, k)[1..] == Packed(n / 256, k - 1);
    }
  }

  lemma {:induction false} UnpackedFits(s: Bytes)
    ensures Unpacked(s) < Size(|s|)
  {
    if s != [] {
      UnpackedFits(s[1..]);
    }
  }

  lemma Widths()
    ensures Size(2) == 0x1_0000 && Size(4) == 0x1_0000_0000 && Size(8) == 0x1_0000_0000_0000_0000
  {
    assert Size(1) == 256 && Size(3) == 256 * Size(2) && Size(5) == 256 * Size(4) && Size(6) == 256 * Size(5)
      && Size(7) == 256 * Size(6);
  }

  // MARK: UTF-8

  function Encoded(c: char): (s: Bytes)
    ensures 1 <= |s| <= 4
  {
    var n := c as int;
    if n < 0x80 then [n]
    else if n < 0x800 then [0xC0 + n / 64, 0x80 + n % 64]
    else if n < 0x1_0000 then [0xE0 + n / 4096, 0x80 + n / 64 % 64, 0x80 + n % 64]
    else [0xF0 + n / 262144, 0x80 + n / 4096 % 64, 0x80 + n / 64 % 64, 0x80 + n % 64]
  }

  function Encode(s: string): Bytes {
    if s == [] then [] else Encoded(s[0]) + Encode(s[1..])
  }

  predicate Follower(b: Byte) {
    0x80 <= b < 0xC0
  }

  function High(b: Byte, mark: nat): int {
    b - mark
  }

  function Low(b: Byte): int {
    b - 0x80
  }

  predicate IsScalar(n: int) {
    0 <= n < 0xD800 || 0xE000 <= n < 0x11_0000
  }

  /** The first character and its length, unless it is not well formed: too long, cut short or a surrogate. */
  function FirstDecoded(s: Bytes): (first: Option<(char, nat)>)
    requires s != []
    ensures first.Some? ==> 0 < first.value.1 <= |s|
  {
    if s[0] < 0x80 then Some((s[0] as char, 1))
    else if |s| < 2 || !Follower(s[1]) || s[0] < 0xC2 then None
    else if s[0] < 0xE0 then Some(((High(s[0], 0xC0) * 64 + Low(s[1])) as char, 2))
    else if |s| < 3 || !Follower(s[2]) then None
    else if s[0] < 0xF0 then
      var n := High(s[0], 0xE0) * 4096 + Low(s[1]) * 64 + Low(s[2]);
      if n < 0x800 || !IsScalar(n) then None else Some((n as char, 3))
    else if |s| < 4 || !Follower(s[3]) then None
    else
      var n := High(s[0], 0xF0) * 262144 + Low(s[1]) * 4096 + Low(s[2]) * 64 + Low(s[3]);
      if n < 0x1_0000 || !IsScalar(n) then None else Some((n as char, 4))
  }

  function Decode(s: Bytes): Option<string> {
    if s == [] then Some("")
    else
      match FirstDecoded(s)
      case None => None
      case Some((c, k)) =>
        match Decode(s[k..])
        case None => None
        case Some(rest) => Some([c] + rest)
  }

  lemma FirstRoundTrips(c: char, rest: Bytes)
    ensures FirstDecoded(Encoded(c) + rest) == Some((c, |Encoded(c)|))
  {
    var n := c as int;
    assert n == n / 64 * 64 + n % 64;
    assert n / 64 == n / 4096 * 64 + n / 64 % 64;
    assert n / 4096 == n / 262144 * 64 + n / 4096 % 64;
  }

  lemma {:induction false} TextRoundTrips(s: string)
    ensures Decode(Encode(s)) == Some(s)
  {
    if s != [] {
      FirstRoundTrips(s[0], Encode(s[1..]));
      TextRoundTrips(s[1..]);
      assert Encode(s)[|Encoded(s[0])|..] == Encode(s[1..]);
      assert [s[0]] + s[1..] == s;
    }
  }

  lemma {:induction false} OnlyNulEncodesAsNul(s: string)
    requires '\0' !in s
    ensures 0 !in Encode(s)
  {
    if s != [] {
      assert s[0] as int != 0 by {
        assert s[0] != '\0';
      }
      OnlyNulEncodesAsNul(s[1..]);
    }
  }
}

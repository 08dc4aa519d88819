// The printer of small ELF64 files in tools/test-check-glibc.py, which the parser must invert.
module ElfImage {
  import opened Text
  import opened Bytes
  import opened Elf

  /** A version name, and whether every reference to it is weak. */
  type Version = (string, bool)

  // MARK: The image

  /** The string table: the library's name, then each version's, every one ended by a NUL. */
  function Strtab(versions: seq<Version>, library: Bytes): Bytes {
    if versions == [] then [0] + library + [0]
    else Strtab(versions[..|versions| - 1], library) + Encode(versions[|versions| - 1].0) + [0]
  }

  function NameOffset(versions: seq<Version>, library: Bytes, i: nat): nat
    requires i < |versions|
  {
    |Strtab(versions[..i], library)|
  }

  function NeedBytes(count: nat): (s: Bytes)
    ensures |s| == 16
  {
    Packed(1, 2) + Packed(count, 2) + Packed(1, 4) + Packed(16, 4) + Packed(0, 4)
  }

  function AuxBytes(isWeak: bool, name: nat, next: nat): (s: Bytes)
    ensures |s| == 16
  {
    Packed(0, 4) + Packed(if isWeak then 2 else 0, 2) + Packed(0, 2) + Packed(name, 4) + Packed(next, 4)
  }

  /** The entry for version `i`; the last one is followed by nothing. */
  function AuxOf(versions: seq<Version>, library: Bytes, i: nat): (s: Bytes)
    requires i < |versions|
    ensures |s| == 16
  {
    AuxBytes(versions[i].1, NameOffset(versions, library, i), if i == |versions| - 1 then 0 else 16)
  }

  function AuxRecords(versions: seq<Version>, library: Bytes, n: nat): (s: Bytes)
    requires n <= |versions|
    ensures |s| == 16 * n
  {
    if n == 0 then [] else AuxRecords(versions, library, n - 1) + AuxOf(versions, library, n - 1)
  }

  function SectionBytes(kind: nat, offset: nat, size: nat, link: nat, info: nat): (s: Bytes)
    ensures |s| == 64
  {
    Packed(0, 4) + Packed(kind, 4) + Packed(0, 8) + Packed(0, 8) + Packed(offset, 8) + Packed(size, 8)
    + Packed(link, 4) + Packed(info, 4) + Packed(1, 8) + Packed(0, 8)
  }

  const MAGIC: Bytes := [0x7F, 0x45, 0x4C, 0x46, 2, 1]

  function Header(shoff: nat): (s: Bytes)
    ensures |s| == 64
  {
    MAGIC + Packed(0, 34) + Packed(shoff, 8) + Packed(0, 10) + Packed(64, 2) + Packed(3, 2) + Packed(2, 2)
  }

  function TableAt(versions: seq<Version>, library: Bytes): nat {
    80 + 16 * |versions| + |Strtab(versions, library)|
  }

  function Sections(versions: seq<Version>, library: Bytes): (s: Bytes)
    ensures |s| == 192
  {
    SectionBytes(0, 0, 0, 0, 0)
    + SectionBytes(SHT_GNU_VERNEED, 64, 16 + 16 * |versions|, 2, 1)
    + SectionBytes(SHT_STRTAB, 80 + 16 * |versions|, |Strtab(versions, library)|, 0, 0)
  }

  /** Every number fits the width it is packed into. */
  predicate Fits(versions: seq<Version>, library: Bytes) {
    && |versions| < 0x1_0000
    && (forall i :: 0 <= i < |versions| ==> NameOffset(versions, library, i) < 0x1_0000_0000)
    && TableAt(versions, library) < 0x1_0000_0000_0000_0000
  }

  function Image(versions: seq<Version>, library: Bytes): Bytes {
    Header(TableAt(versions, library)) + NeedBytes(|versions|) + AuxRecords(versions, library, |versions|)
    + Strtab(versions, library) + Sections(versions, library)
  }

  // MARK: Printing it

  method PackInto(buffer: array<Byte>, at: nat, bytes: Bytes)
    requires at + |bytes| <= buffer.Length
    modifies buffer
    ensures buffer[..] == old(buffer[..at]) + bytes + old(buffer[at + |bytes|..])
  {
    for i := 0 to |bytes|
      invariant buffer[..at] == old(buffer[..at]) && buffer[at..at + i] == bytes[..i]
      invariant buffer[at + i..] == old(buffer[at + i..])
    {
      buffer[at + i] := bytes[i];
    }
  }

  /** The image as the test helper builds it, or the error of the first number that does not fit. */
  method MakeElf(versions: seq<Version>, library: Bytes) returns (r: Outcome<Bytes>)
    ensures r == if Fits(versions, library) then Ok(Image(versions, library)) else Raised(StructError)
  {
    hide Header, SectionBytes, NeedBytes, AuxBytes, Encode;
    var strtab: Bytes := [0] + library + [0];
    var nameOffsets: seq<nat> := [];
    for i := 0 to |versions|
      invariant strtab == Strtab(versions[..i], library) && |nameOffsets| == i
      invariant forall j :: 0 <= j < i ==> nameOffsets[j] == NameOffset(versions, library, j)
    {
      nameOffsets := nameOffsets + [|strtab|];
      strtab := strtab + Encode(versions[i].0) + [0];
      assert versions[..i + 1][..i] == versions[..i];
    }
    assert versions[..|versions|] == versions;
    if |versions| >= 0x1_0000 {
      return Raised(StructError);
    }
    var aux: Bytes := [];
    for i := 0 to |versions|
      invariant aux == AuxRecords(versions, library, i)
      invariant forall j :: 0 <= j < i ==> NameOffset(versions, library, j) < 0x1_0000_0000
    {
      if nameOffsets[i] >= 0x1_0000_0000 {
        return Raised(StructError);
      }
      aux := aux + AuxBytes(versions[i].1, nameOffsets[i], if i == |versions| - 1 then 0 else 16);
    }
    var vern := NeedBytes(|versions|) + aux;
    var strOffset := 64 + |vern|;
    var shoff := strOffset + |strtab|;
    if shoff >= 0x1_0000_0000_0000_0000 {
      return Raised(StructError);
    }
    var header := PackedHeader(shoff);
    var sections :=
      SectionBytes(0, 0, 0, 0, 0)
      + SectionBytes(SHT_GNU_VERNEED, 64, |vern|, 2, 1)
      + SectionBytes(SHT_STRTAB, strOffset, |strtab|, 0, 0);
    r := Ok(header + vern + strtab + sections);
    Regroup(header, NeedBytes(|versions|), aux);
  }

  lemma Regroup(a: Bytes, b: Bytes, c: Bytes)
    ensures a + (b + c) == a + b + c
  {
  }

  method PackedHeader(shoff: nat) returns (s: Bytes)
    ensures s == Header(shoff)
  {
    hide Packed;
    ZerosPack(64);
    var header := new Byte[64](_ => 0);
    assert header[..] == Packed(0, 64);
    PackInto(header, 0, [0x7F, 0x45, 0x4C, 0x46]);
    header[4], header[5] := 2, 1;
    ZerosCut(64, 6);
    assert header[..] == MAGIC + Packed(0, 58);
    ZerosCut(58, 34);
    ZerosCut(24, 8);
    Pieces(header[..], MAGIC + Packed(0, 34), Packed(0, 8), Packed(0, 16));
    PackInto(header, 0x28, Packed(shoff, 8));
    ghost var front := MAGIC + Packed(0, 34) + Packed(shoff, 8);
    ZerosCut(16, 10);
    Pieces(header[..], front + Packed(0, 10), Packed(0, 6), []);
    PackInto(header, 0x3A, Packed(64, 2) + Packed(3, 2) + Packed(2, 2));
    s := header[..];
  }

  lemma Pieces(whole: Bytes, a: Bytes, b: Bytes, c: Bytes)
    requires whole == a + b + c
    ensures whole[..|a|] == a && whole[|a| + |b|..] == c
  {
  }

  lemma {:induction false} ZerosPack(k: nat)
    ensures Packed(0, k) == seq(k, _ => 0)
  {
    if k > 0 {
      ZerosPack(k - 1);
    }
  }

  lemma ZerosCut(k: nat, i: nat)
    requires i <= k
    ensures Packed(0, k)[..i] == Packed(0, i) && Packed(0, k)[i..] == Packed(0, k - i)
  {
    ZerosPack(k);
    ZerosPack(i);
    ZerosPack(k - i);
  }
}

// Parsing what is printed: from any list of sections, libraries and versions the highest required and
// the highest weak version come back.
module ElfRoundTrip {
  import opened Text
  import opened Bytes
  import opened Elf
  import opened ElfImage
  import opened ElfLayout

  // MARK: What lists of versions name

  /** The numbers of the glibc versions in a list that are weak, or that are not. */
  function Named(py: Python, versions: seq<Version>, isWeak: bool): seq<string> {
    if versions == [] then []
    else
      (if IsGlibc(py, versions[0].0) && versions[0].1 == isWeak then [versions[0].0[6..]] else [])
      + Named(py, versions[1..], isWeak)
  }

  function Listed(py: Python, versions: seq<Version>): Found {
    Found(Named(py, versions, false), Named(py, versions, true))
  }

  lemma {:induction false} NamedJoins(py: Python, a: seq<Version>, b: seq<Version>, isWeak: bool)
    ensures Named(py, a + b, isWeak) == Named(py, a, isWeak) + Named(py, b, isWeak)
  {
    hide IsGlibc;
    if a == [] {
      assert a + b == b;
    } else {
      NamedJoins(py, a[1..], b, isWeak);
      assert (a + b)[1..] == a[1..] + b && (a + b)[0] == a[0];
    }
  }

  /** A library, whose name is at `file` of the string table, and the versions needed of it. */
  datatype Library = Library(file: nat, versions: seq<Version>)

  function VersionsOf(libraries: seq<Library>): seq<Version> {
    if libraries == [] then [] else libraries[0].versions + VersionsOf(libraries[1..])
  }

  /** The versions of all libraries of all sections. */
  function AllVersions(sections: seq<seq<Library>>): seq<Version> {
    if sections == [] then []
    else AllVersions(sections[..|sections| - 1]) + VersionsOf(sections[|sections| - 1])
  }

  predicate NamesAreWhole(versions: seq<Version>) {
    forall v <- versions :: '\0' !in v.0
  }

  // MARK: The image of a list of sections

  /** The `n` versions of one library, from the one that is `first` of all, one after another. */
  function ReferencesFrom(all: seq<Version>, names: Bytes, first: nat, n: nat): (references: seq<Reference>)
    requires first + n <= |all|
    decreases n
  {
    if n == 0 then []
    else
      var next, flags := if n == 1 then 0 else 16, if all[first].1 then 2 else 0;
      [Reference(0, flags, 0, NameOffset(all, names, first), next, all[first].0)]
      + ReferencesFrom(all, names, first + 1, n - 1)
  }

  /** The libraries of one section, each followed by its versions. */
  function NeedsFrom(all: seq<Version>, names: Bytes, libraries: seq<Library>, first: nat): (needs: seq<Need>)
    requires first + |VersionsOf(libraries)| <= |all|
    decreases libraries
  {
    if libraries == [] then []
    else
      var n := |libraries[0].versions|;
      var next := if |libraries| == 1 then 0 else 16 + 16 * n;
      [Need(1, libraries[0].file, 16, next, ReferencesFrom(all, names, first, n))]
      + NeedsFrom(all, names, libraries[1..], first + n)
  }

  function ReferencesBytes(references: seq<Reference>): (s: Bytes)
    ensures |s| == 16 * |references|
  {
    if references == [] then [] else ReferenceBytes(references[0]) + ReferencesBytes(references[1..])
  }

  function NeedsBytes(needs: seq<Need>): Bytes {
    if needs == [] then []
    else EntryBytes(needs[0]) + ReferencesBytes(needs[0].references) + NeedsBytes(needs[1..])
  }

  lemma {:induction false} VersionsAreThere(sections: seq<seq<Library>>, j: nat)
    requires j < |sections|
    ensures var first, count := |AllVersions(sections[..j])|, |VersionsOf(sections[j])|;
      && first + count <= |AllVersions(sections)|
      && AllVersions(sections)[first..first + count] == VersionsOf(sections[j])
  {
    var n := |sections| - 1;
    if j < n {
      VersionsAreThere(sections[..n], j);
      assert sections[..n][..j] == sections[..j];
    }
  }

  function SectionNeeds(sections: seq<seq<Library>>, names: Bytes, j: nat): seq<Need>
    requires j < |sections|
  {
    VersionsAreThere(sections, j);
    NeedsFrom(AllVersions(sections), names, sections[j], |AllVersions(sections[..j])|)
  }

  /** The first `n` version-need sections, one after another. */
  function Blocks(sections: seq<seq<Library>>, names: Bytes, n: nat): Bytes
    requires n <= |sections|
  {
    if n == 0 then [] else Blocks(sections, names, n - 1) + NeedsBytes(SectionNeeds(sections, names, n - 1))
  }

  function Strings(sections: seq<seq<Library>>, names: Bytes): Bytes {
    Strtab(AllVersions(sections), names)
  }

  /** The empty first section, the version needs, and the string table they share. */
  function PartsOf(sections: seq<seq<Library>>, names: Bytes): (parts: seq<Part>)
    ensures |parts| == |sections| + 2
  {
    var m := |sections|;
    seq(m + 2, i requires 0 <= i < m + 2 =>
      if i == 0 then Plain(0, 0, 0, 0, 0)
      else if i == m + 1 then Plain(64 + |Blocks(sections, names, m)|, |Strings(sections, names)|, 0, SHT_STRTAB, 0)
      else
        var needs := SectionNeeds(sections, names, i - 1);
        Needing(64 + |Blocks(sections, names, i - 1)|, |NeedsBytes(needs)|, m + 1, needs))
  }

  function TableBytes(parts: seq<Part>): (s: Bytes)
    ensures |s| == 64 * |parts|
  {
    if parts == [] then [] else TableBytes(parts[..|parts| - 1]) + PartBytes(parts[|parts| - 1])
  }

  function TableOffset(sections: seq<seq<Library>>, names: Bytes): nat {
    64 + |Blocks(sections, names, |sections|)| + |Strings(sections, names)|
  }

  function HeadBytes(table: nat, count: nat, strings: nat): (s: Bytes)
    ensures |s| == 64
  {
    MAGIC + Packed(0, 34) + Packed(table, 8) + Packed(0, 10) + Packed(64, 2) + Packed(count, 2) + Packed(strings, 2)
  }

  function Linked(sections: seq<seq<Library>>, names: Bytes): Bytes {
    HeadBytes(TableOffset(sections, names), |sections| + 2, |sections| + 1)
    + Blocks(sections, names, |sections|) + Strings(sections, names) + TableBytes(PartsOf(sections, names))
  }

  /** Every number fits the width it is packed into. */
  predicate AllFit(sections: seq<seq<Library>>, names: Bytes) {
    && |sections| + 2 < 0x1_0000 && TableOffset(sections, names) < 0x1_0000_0000_0000_0000
    && (forall libraries <- sections :: |libraries| < 0x1_0000_0000 && LibrariesFit(libraries))
    && forall k :: 0 <= k < |AllVersions(sections)| ==> NameOffset(AllVersions(sections), names, k) < 0x1_0000_0000
  }

  predicate LibrariesFit(libraries: seq<Library>) {
    forall library <- libraries :: library.file < 0x1_0000_0000 && |library.versions| < 0x1_0000
  }

  // MARK: Everything is where the table says

  lemma HoldsWithin(data: Bytes, base: nat, inner: Bytes, at: nat, bytes: Bytes)
    requires Holds(data, base, inner) && Holds(inner, at, bytes)
    ensures Holds(data, base + at, bytes)
  {
    forall i | 0 <= i < |bytes| ensures data[base + at + i] == bytes[i] {
      assert data[base..base + |inner|][at + i] == inner[at + i] && inner[at..at + |bytes|][i] == bytes[i];
    }
  }

  lemma HoldsMiddle(before: Bytes, bytes: Bytes, after: Bytes)
    ensures Holds(before + bytes + after, |before|, bytes)
  {
  }

  lemma HoldsBoth(data: Bytes, at: nat, a: Bytes, b: Bytes)
    requires Holds(data, at, a + b)
    ensures Holds(data, at, a) && Holds(data, at + |a|, b)
  {
    assert (a + b)[..|a|] == a && (a + b)[|a|..] == b;
    HoldsWithin(data, at, a + b, 0, a);
    HoldsWithin(data, at, a + b, |a|, b);
  }

  /** Every name is in the string table, at its offset. */
  predicate HoldsNames(data: Bytes, strings: nat, all: seq<Version>, names: Bytes) {
    forall k :: 0 <= k < |all| ==>
      Holds(data, strings + NameOffset(all, names, k), Encode(all[k].0) + [0]) && '\0' !in all[k].0
      && NameOffset(all, names, k) < 0x1_0000_0000
  }

  lemma {:induction false} ReferencesAreHeld(
    data: Bytes, strings: nat, at: nat, all: seq<Version>, names: Bytes, first: nat, n: nat
  )
    requires first + n <= |all| && HoldsNames(data, strings, all, names)
    requires Holds(data, at, ReferencesBytes(ReferencesFrom(all, names, first, n)))
    ensures HoldsReferences(data, strings, at, ReferencesFrom(all, names, first, n))
    ensures |ReferencesFrom(all, names, first, n)| == n
    decreases n
  {
    hide NameOffset, Encode, ReferenceBytes, Holds;
    if n > 0 {
      var references := ReferencesFrom(all, names, first, n);
      HoldsBoth(data, at, ReferenceBytes(references[0]), ReferencesBytes(references[1..]));
      assert references[1..] == ReferencesFrom(all, names, first + 1, n - 1);
      if n == 1 {
        assert references[1..] == [];
      } else {
        ReferencesAreHeld(data, strings, at + 16, all, names, first + 1, n - 1);
      }
    }
  }

  lemma {:induction false} NeedsAreHeld(
    data: Bytes, strings: nat, at: nat, all: seq<Version>, names: Bytes, libraries: seq<Library>, first: nat
  )
    requires first + |VersionsOf(libraries)| <= |all| && HoldsNames(data, strings, all, names)
    requires LibrariesFit(libraries)
    requires Holds(data, at, NeedsBytes(NeedsFrom(all, names, libraries, first)))
    ensures HoldsNeeds(data, strings, at, NeedsFrom(all, names, libraries, first))
    ensures |NeedsFrom(all, names, libraries, first)| == |libraries|
    decreases libraries
  {
    hide *;
    if libraries != [] {
      var n := |libraries[0].versions|;
      FirstNeedIsHeld(data, strings, at, all, names, libraries, first);
      var needs := NeedsFrom(all, names, libraries, first);
      if |libraries| > 1 {
        NeedsAreHeld(data, strings, at + 16 + 16 * n, all, names, libraries[1..], first + n);
      } else {
        NoMoreNeeds(data, strings, all, names, first + n);
      }
      NeedsAreHeldOn(data, strings, at, needs);
    } else {
      NoMoreNeeds(data, strings, all, names, first);
    }
  }

  lemma NoMoreNeeds(data: Bytes, strings: nat, all: seq<Version>, names: Bytes, first: nat)
    ensures VersionsOf([]) == [] && (first <= |all| ==> NeedsFrom(all, names, [], first) == [])
    ensures forall at: nat :: HoldsNeeds(data, strings, at, [])
  {
  }

  lemma NeedsAreHeldOn(data: Bytes, strings: nat, at: nat, needs: seq<Need>)
    requires needs != [] && NeedFits(needs[0]) && Holds(data, at, EntryBytes(needs[0]))
    requires HoldsReferences(data, strings, at + needs[0].aux, needs[0].references)
    requires HoldsNeeds(data, strings, at + needs[0].next, needs[1..])
    ensures HoldsNeeds(data, strings, at, needs)
  {
  }

  lemma FirstNeedIsHeld(
    data: Bytes, strings: nat, at: nat, all: seq<Version>, names: Bytes, libraries: seq<Library>, first: nat
  )
    requires libraries != [] && first + |VersionsOf(libraries)| <= |all| && HoldsNames(data, strings, all, names)
    requires LibrariesFit(libraries) && Holds(data, at, NeedsBytes(NeedsFrom(all, names, libraries, first)))
    ensures var n, needs := |libraries[0].versions|, NeedsFrom(all, names, libraries, first);
      && first + n + |VersionsOf(libraries[1..])| <= |all| && LibrariesFit(libraries[1..])
      && needs != [] && needs[1..] == NeedsFrom(all, names, libraries[1..], first + n)
      && NeedFits(needs[0]) && needs[0].aux == 16 && needs[0].next == (if |libraries| == 1 then 0 else 16 + 16 * n)
      && Holds(data, at, EntryBytes(needs[0])) && HoldsReferences(data, strings, at + 16, needs[0].references)
      && Holds(data, at + 16 + 16 * n, NeedsBytes(needs[1..]))
  {
    hide HoldsNames, EntryBytes, Holds, ReferencesFrom, HoldsReferences, ReferencesBytes;
    var needs, n := NeedsFrom(all, names, libraries, first), |libraries[0].versions|;
    assert needs[1..] == NeedsFrom(all, names, libraries[1..], first + n);
    var entry, references, rest := EntryBytes(needs[0]), ReferencesBytes(needs[0].references), NeedsBytes(needs[1..]);
    assert libraries[0] in libraries && LibrariesFit(libraries[1..]);
    assert NeedsBytes(needs) == entry + (references + rest);
    HoldsBoth(data, at, entry, references + rest);
    HoldsBoth(data, at + 16, references, rest);
    ReferencesAreHeld(data, strings, at + 16, all, names, first, n);
  }

  lemma {:induction false} BlockIsHeld(sections: seq<seq<Library>>, names: Bytes, n: nat, j: nat)
    requires j < n <= |sections|
    ensures Holds(Blocks(sections, names, n), |Blocks(sections, names, j)|,
      NeedsBytes(SectionNeeds(sections, names, j)))
  {
    hide NeedsBytes, SectionNeeds;
    var before, last := Blocks(sections, names, n - 1), NeedsBytes(SectionNeeds(sections, names, n - 1));
    if j == n - 1 {
      HoldsMiddle(before, last, []);
      assert before + last + [] == before + last;
    } else {
      BlockIsHeld(sections, names, n - 1, j);
      HoldsMiddle([], before, last);
      assert [] + before + last == before + last;
      HoldsWithin(before + last, 0, before, |Blocks(sections, names, j)|, NeedsBytes(SectionNeeds(sections, names, j)));
    }
  }

  lemma {:induction false} HeadIsHeld(parts: seq<Part>, i: nat)
    requires i < |parts|
    ensures Holds(TableBytes(parts), 64 * i, PartBytes(parts[i]))
  {
    hide PartBytes;
    var n := |parts| - 1;
    var before := TableBytes(parts[..n]);
    if i == n {
      HoldsMiddle(before, PartBytes(parts[n]), []);
      assert before + PartBytes(parts[n]) + [] == before + PartBytes(parts[n]);
    } else {
      HeadIsHeld(parts[..n], i);
      HoldsMiddle([], before, PartBytes(parts[n]));
      assert [] + before + PartBytes(parts[n]) == before + PartBytes(parts[n]);
      HoldsWithin(TableBytes(parts), 0, before, 64 * i, PartBytes(parts[i]));
    }
  }

  lemma {:induction false} NameIsHeld(versions: seq<Version>, names: Bytes, k: nat)
    requires k < |versions|
    ensures Holds(Strtab(versions, names), NameOffset(versions, names, k), Encode(versions[k].0) + [0])
  {
    hide Encode;
    var n := |versions| - 1;
    var before, last := Strtab(versions[..n], names), Encode(versions[n].0) + [0];
    assert Strtab(versions, names) == before + last;
    if k == n {
      HoldsMiddle(before, last, []);
      assert before + last + [] == before + last;
    } else {
      NameIsHeld(versions[..n], names, k);
      assert versions[..n][..k] == versions[..k];
      HoldsMiddle([], before, last);
      assert [] + before + last == before + last;
      HoldsWithin(before + last, 0, before, NameOffset(versions, names, k), Encode(versions[k].0) + [0]);
    }
  }

  function FileOf(sections: seq<seq<Library>>, names: Bytes): File {
    File(TableOffset(sections, names), 64, PartsOf(sections, names))
  }

  lemma HeadReads(table: nat, count: nat, strings: nat)
    ensures var head := HeadBytes(table, count, strings);
      && Holds(head, 0, MAGIC) && Holds(head, 0x28, Packed(table, 8))
      && Holds(head, 0x3A, Packed(64, 2)) && Holds(head, 0x3C, Packed(count, 2))
  {
    hide Packed, Holds;
    var a, b, c, d, e := MAGIC + Packed(0, 34), Packed(table, 8), Packed(0, 10), Packed(64, 2), Packed(count, 2);
    var f := Packed(strings, 2);
    assert |a| == 40;
    assert HeadBytes(table, count, strings) == a + b + c + d + e + f;
    hide HeadBytes;
    SixPieces(a, b, c, d, e, f);
    HoldsMiddle([], MAGIC, Packed(0, 34));
    assert [] + MAGIC + Packed(0, 34) == a;
    HoldsWithin(a + b + c + d + e + f, 0, a, 0, MAGIC);
  }

  lemma SixPieces(a: Bytes, b: Bytes, c: Bytes, d: Bytes, e: Bytes, f: Bytes)
    ensures var data := a + b + c + d + e + f;
      && Holds(data, 0, a) && Holds(data, |a|, b) && Holds(data, |a| + |b| + |c|, d)
      && Holds(data, |a| + |b| + |c| + |d|, e)
  {
    hide Holds;
    FourPieces(a, b, c, d + e + f);
    FourPieces(a + b + c, d, e, f);
    assert a + b + c + (d + e + f) == a + b + c + d + e + f;
  }

  /** Where the header, the version needs, the names and the section table of the image are. */
  lemma ImageHolds(sections: seq<seq<Library>>, names: Bytes)
    ensures var data, blocks, strings := Linked(sections, names), Blocks(sections, names, |sections|),
      Strings(sections, names);
      && |data| >= 64
      && Holds(data, 0, HeadBytes(TableOffset(sections, names), |sections| + 2, |sections| + 1))
      && Holds(data, 64, blocks) && Holds(data, 64 + |blocks|, strings)
      && Holds(data, TableOffset(sections, names), TableBytes(PartsOf(sections, names)))
  {
    hide Blocks, Strings, TableBytes, PartsOf, HeadBytes, Holds;
    var head := HeadBytes(TableOffset(sections, names), |sections| + 2, |sections| + 1);
    var blocks, strings := Blocks(sections, names, |sections|), Strings(sections, names);
    var table := TableBytes(PartsOf(sections, names));
    assert |head| == 64 && TableOffset(sections, names) == 64 + |blocks| + |strings|;
    assert Linked(sections, names) == head + blocks + strings + table;
    hide *;
    FourPieces(head, blocks, strings, table);
  }

  lemma FourPieces(a: Bytes, b: Bytes, c: Bytes, d: Bytes)
    ensures var data := a + b + c + d;
      && Holds(data, 0, a) && Holds(data, |a|, b) && Holds(data, |a| + |b|, c) && Holds(data, |a| + |b| + |c|, d)
      && |data| >= |a|
  {
    hide Holds;
    HoldsMiddle([], a, b + c + d);
    HoldsMiddle(a, b, c + d);
    HoldsMiddle(a + b, c, d);
    HoldsMiddle(a + b + c, d, []);
    assert a + b + c + d == [] + a + (b + c + d) && a + b + c + d == a + b + (c + d)
      && a + b + c + d == a + b + c + d + [];
  }

  lemma NamesAreHeld(data: Bytes, strings: nat, all: seq<Version>, names: Bytes)
    requires NamesAreWhole(all) && Holds(data, strings, Strtab(all, names))
    requires forall k :: 0 <= k < |all| ==> NameOffset(all, names, k) < 0x1_0000_0000
    ensures HoldsNames(data, strings, all, names)
  {
    hide NameOffset, Encode, Holds, Strtab;
    forall k | 0 <= k < |all| ensures
      Holds(data, strings + NameOffset(all, names, k), Encode(all[k].0) + [0]) && '\0' !in all[k].0
    {
      NameIsHeld(all, names, k);
      HoldsWithin(data, strings, Strtab(all, names), NameOffset(all, names, k), Encode(all[k].0) + [0]);
      assert all[k] in all;
    }
  }

  lemma AllNamesAreHeld(sections: seq<seq<Library>>, names: Bytes)
    requires AllFit(sections, names) && NamesAreWhole(AllVersions(sections))
    ensures var strings := 64 + |Blocks(sections, names, |sections|)|;
      HoldsNames(Linked(sections, names), strings, AllVersions(sections), names)
  {
    hide *;
    ImageHolds(sections, names);
    StringsFit(sections, names);
    var strings := 64 + |Blocks(sections, names, |sections|)|;
    NamesAreHeld(Linked(sections, names), strings, AllVersions(sections), names);
  }

  lemma StringsFit(sections: seq<seq<Library>>, names: Bytes)
    requires AllFit(sections, names)
    ensures Strings(sections, names) == Strtab(AllVersions(sections), names)
    ensures var all := AllVersions(sections); forall k :: 0 <= k < |all| ==> NameOffset(all, names, k) < 0x1_0000_0000
  {
    hide AllVersions, NameOffset, Strtab, TableOffset, LibrariesFit;
  }

  lemma SectionIsPrinted(sections: seq<seq<Library>>, names: Bytes, j: nat)
    requires AllFit(sections, names) && NamesAreWhole(AllVersions(sections)) && j < |sections|
    ensures var strings, at := 64 + |Blocks(sections, names, |sections|)|, 64 + |Blocks(sections, names, j)|;
      HoldsNeeds(Linked(sections, names), strings, at, SectionNeeds(sections, names, j))
    ensures |SectionNeeds(sections, names, j)| < 0x1_0000_0000
  {
    hide *;
    var strings, at := 64 + |Blocks(sections, names, |sections|)|, |Blocks(sections, names, j)|;
    var all, first := AllVersions(sections), |AllVersions(sections[..j])|;
    SectionFits(sections, names, j);
    VersionsAreThere(sections, j);
    ImageHolds(sections, names);
    BlockIsHeld(sections, names, |sections|, j);
    AllNamesAreHeld(sections, names);
    var needs := NeedsBytes(SectionNeeds(sections, names, j));
    HoldsWithin(Linked(sections, names), 64, Blocks(sections, names, |sections|), at, needs);
    NeedsAreHeld(Linked(sections, names), strings, 64 + at, all, names, sections[j], first);
  }

  lemma SectionFits(sections: seq<seq<Library>>, names: Bytes, j: nat)
    requires AllFit(sections, names) && j < |sections|
    ensures LibrariesFit(sections[j]) && |sections[j]| < 0x1_0000_0000
    ensures var all, first := AllVersions(sections), |AllVersions(sections[..j])|;
      first + |VersionsOf(sections[j])| <= |all|
        && SectionNeeds(sections, names, j) == NeedsFrom(all, names, sections[j], first)
  {
    hide LibrariesFit, Blocks, Strings, NameOffset;
    assert sections[j] in sections;
    VersionsAreThere(sections, j);
  }

  /** The table has an entry for each part. */
  lemma PartIsListed(sections: seq<seq<Library>>, names: Bytes, i: nat)
    requires i < |sections| + 2
    ensures Holds(Linked(sections, names), TableOffset(sections, names) + 64 * i,
      PartBytes(PartsOf(sections, names)[i]))
  {
    ImageHolds(sections, names);
    hide *;
    var parts := PartsOf(sections, names);
    HeadIsHeld(parts, i);
    HoldsWithin(Linked(sections, names), TableOffset(sections, names), TableBytes(parts), 64 * i, PartBytes(parts[i]));
  }

  lemma PartsFit(sections: seq<seq<Library>>, names: Bytes, i: nat)
    requires AllFit(sections, names) && i < |sections| + 2
    requires 0 < i <= |sections| ==> |SectionNeeds(sections, names, i - 1)| < 0x1_0000_0000
    requires 0 < i <= |sections| ==> |Blocks(sections, names, i - 1)| <= |Blocks(sections, names, |sections|)|
    ensures PartFits(PartsOf(sections, names)[i])
  {
    hide SectionNeeds, Blocks, NeedsBytes, Strings, AllVersions, NameOffset, LibrariesFit;
  }

  lemma BlocksGrow(sections: seq<seq<Library>>, names: Bytes, j: nat, n: nat)
    requires j <= n <= |sections|
    ensures |Blocks(sections, names, j)| <= |Blocks(sections, names, n)|
  {
    hide NeedsBytes, SectionNeeds;
    if j < n {
      BlocksGrow(sections, names, j, n - 1);
    }
  }

  lemma PartIsPrinted(sections: seq<seq<Library>>, names: Bytes, i: nat)
    requires AllFit(sections, names) && NamesAreWhole(AllVersions(sections)) && i < |sections| + 2
    ensures HoldsPart(Linked(sections, names), FileOf(sections, names), i)
  {
    hide *;
    var data, parts := Linked(sections, names), PartsOf(sections, names);
    PartIsListed(sections, names, i);
    PartIsAsSaid(sections, names, i);
    if 0 < i <= |sections| {
      SectionIsPrinted(sections, names, i - 1);
      BlocksGrow(sections, names, i - 1, |sections|);
    }
    PartsFit(sections, names, i);
    PartIsHeldThen(data, FileOf(sections, names), i);
  }

  lemma PartIsHeldThen(data: Bytes, f: File, i: nat)
    requires i < |f.parts| && PartFits(f.parts[i]) && Holds(data, f.table + f.entry * i, PartBytes(f.parts[i]))
    requires f.parts[i].Needing? ==>
      && f.parts[i].link < |f.parts|
      && HoldsNeeds(data, f.parts[f.parts[i].link].offset, f.parts[i].offset, f.parts[i].needs)
    ensures HoldsPart(data, f, i)
  {
    hide PartFits, Holds, PartBytes, HoldsNeeds;
  }

  lemma PartIsAsSaid(sections: seq<seq<Library>>, names: Bytes, i: nat)
    requires i < |sections| + 2
    ensures var f, m := FileOf(sections, names), |sections|;
      && f == File(TableOffset(sections, names), 64, PartsOf(sections, names)) && |f.parts| == m + 2
      && (f.parts[i].Needing? <==> 0 < i <= m)
      && f.parts[m + 1].offset == 64 + |Blocks(sections, names, m)|
      && (0 < i <= m ==>
            && f.parts[i].link == m + 1 && f.parts[i].offset == 64 + |Blocks(sections, names, i - 1)|
            && f.parts[i].needs == SectionNeeds(sections, names, i - 1))
  {
    hide SectionNeeds, Blocks, NeedsBytes, Strings;
  }

  lemma ImageIsFile(sections: seq<seq<Library>>, names: Bytes)
    requires AllFit(sections, names) && NamesAreWhole(AllVersions(sections))
    requires |Linked(sections, names)| < INDEX_LIMIT
    ensures IsFile(Linked(sections, names), FileOf(sections, names))
  {
    var data, f := Linked(sections, names), FileOf(sections, names);
    ImageHasHead(sections, names);
    TableFits(sections, names);
    assert f.table == TableOffset(sections, names) && f.entry == 64 && |f.parts| == |sections| + 2;
    hide Linked, Packed, Holds, HoldsPart, TableOffset, FileOf, NamesAreWhole, AllVersions, AllFit;
    forall i | 0 <= i < |f.parts| ensures HoldsPart(data, f, i) {
      PartIsPrinted(sections, names, i);
    }
  }

  lemma ImageHasHead(sections: seq<seq<Library>>, names: Bytes)
    ensures var data, table := Linked(sections, names), TableOffset(sections, names);
      && |data| >= 64 && Holds(data, 0, MAGIC) && Holds(data, 0x28, Packed(table, 8))
      && Holds(data, 0x3A, Packed(64, 2)) && Holds(data, 0x3C, Packed(|sections| + 2, 2))
  {
    hide *;
    var data, table := Linked(sections, names), TableOffset(sections, names);
    var head := HeadBytes(table, |sections| + 2, |sections| + 1);
    ImageHolds(sections, names);
    HeadReads(table, |sections| + 2, |sections| + 1);
    HoldsWithin(data, 0, head, 0, MAGIC);
    HoldsWithin(data, 0, head, 0x28, Packed(table, 8));
    HoldsWithin(data, 0, head, 0x3A, Packed(64, 2));
    HoldsWithin(data, 0, head, 0x3C, Packed(|sections| + 2, 2));
  }

  lemma TableFits(sections: seq<seq<Library>>, names: Bytes)
    requires AllFit(sections, names)
    ensures TableOffset(sections, names) < 0x1_0000_0000_0000_0000 && |sections| + 2 < 0x1_0000
  {
  }

  // MARK: What is found in it

  lemma {:induction false} ReferencesName(py: Python, all: seq<Version>, names: Bytes, first: nat, n: nat, isWeak: bool)
    requires first + n <= |all|
    ensures Glibc(py, ReferencesFrom(all, names, first, n), isWeak) == Named(py, all[first..first + n], isWeak)
    decreases n
  {
    hide NameOffset, IsGlibc;
    if n > 0 {
      ReferencesName(py, all, names, first + 1, n - 1, isWeak);
      assert all[first..first + n][1..] == all[first + 1..first + n];
    }
  }

  lemma {:induction false} NeedsName(
    py: Python, all: seq<Version>, names: Bytes, libraries: seq<Library>, first: nat, isWeak: bool
  )
    requires var count := |VersionsOf(libraries)|;
      first + count <= |all| && all[first..first + count] == VersionsOf(libraries)
    ensures Glibc(py, ReferencesOf(NeedsFrom(all, names, libraries, first)), isWeak)
      == Named(py, VersionsOf(libraries), isWeak)
    decreases libraries
  {
    hide Glibc, ReferencesFrom;
    if libraries == [] {
      hide NeedsFrom;
      NothingIsNamed(py, all, names, first, isWeak);
    } else {
      var n, rest := |libraries[0].versions|, VersionsOf(libraries[1..]);
      var needs := NeedsFrom(all, names, libraries, first);
      assert all[first..first + n] == libraries[0].versions && all[first + n..first + n + |rest|] == rest by {
        Slices(all, first, libraries[0].versions, rest);
      }
      ReferencesName(py, all, names, first, n, isWeak);
      NeedsName(py, all, names, libraries[1..], first + n, isWeak);
      assert needs[1..] == NeedsFrom(all, names, libraries[1..], first + n);
      GlibcJoins(py, needs[0].references, ReferencesOf(needs[1..]), isWeak);
      NamedJoins(py, libraries[0].versions, rest, isWeak);
    }
  }

  lemma Slices<T>(all: seq<T>, first: nat, a: seq<T>, b: seq<T>)
    requires first + |a| + |b| <= |all| && all[first..first + |a + b|] == a + b
    ensures all[first..first + |a|] == a && all[first + |a|..first + |a| + |b|] == b
  {
    var slice := all[first..first + |a + b|];
    assert all[first..first + |a|] == slice[..|a|] && all[first + |a|..first + |a| + |b|] == slice[|a|..];
  }

  lemma NothingIsNamed(py: Python, all: seq<Version>, names: Bytes, first: nat, isWeak: bool)
    requires first <= |all|
    ensures VersionsOf([]) == [] && NeedsFrom(all, names, [], first) == [] && ReferencesOf([]) == []
    ensures Glibc(py, [], isWeak) == Named(py, [], isWeak) == []
  {
  }

  lemma {:induction false} PartsName(py: Python, sections: seq<seq<Library>>, names: Bytes, n: nat, isWeak: bool)
    requires n <= |sections|
    ensures Glibc(py, AllReferences(PartsOf(sections, names)[..n + 1]), isWeak)
      == Named(py, AllVersions(sections[..n]), isWeak)
    decreases n
  {
    hide Glibc, Named, SectionNeeds, Blocks, NeedsBytes, Strings;
    var parts := PartsOf(sections, names);
    if n == 0 {
      assert parts[..1][..0] == [] && sections[..0] == [];
      assert AllReferences(parts[..1]) == [];
      NothingIsNamed(py, [], names, 0, isWeak);
    } else {
      PartsName(py, sections, names, n - 1, isWeak);
      assert parts[..n + 1][..n] == parts[..n] && sections[..n][..n - 1] == sections[..n - 1];
      var before, needs := AllReferences(parts[..n]), SectionNeeds(sections, names, n - 1);
      SectionNames(py, sections, names, n - 1, isWeak);
      GlibcJoins(py, before, ReferencesOf(needs), isWeak);
      NamedJoins(py, AllVersions(sections[..n - 1]), VersionsOf(sections[n - 1]), isWeak);
      assert AllReferences(parts[..n + 1]) == before + ReferencesOf(needs);
    }
  }

  lemma SectionNames(py: Python, sections: seq<seq<Library>>, names: Bytes, j: nat, isWeak: bool)
    requires j < |sections|
    ensures Glibc(py, ReferencesOf(SectionNeeds(sections, names, j)), isWeak)
      == Named(py, VersionsOf(sections[j]), isWeak)
  {
    hide Glibc, Named, NeedsFrom;
    VersionsAreThere(sections, j);
    NeedsName(py, AllVersions(sections), names, sections[j], |AllVersions(sections[..j])|, isWeak);
  }

  lemma ImageNames(py: Python, sections: seq<seq<Library>>, names: Bytes)
    ensures FoundIn(py, AllReferences(PartsOf(sections, names))) == Listed(py, AllVersions(sections))
  {
    var parts, m := PartsOf(sections, names), |sections|;
    PartsName(py, sections, names, m, false);
    PartsName(py, sections, names, m, true);
    assert sections[..m] == sections;
    StringsNameNothing(sections, names);
    hide Glibc, Named, AllVersions, PartsOf, AllReferences;
  }

  lemma StringsNameNothing(sections: seq<seq<Library>>, names: Bytes)
    ensures AllReferences(PartsOf(sections, names)) == AllReferences(PartsOf(sections, names)[..|sections| + 1])
  {
    var parts, m := PartsOf(sections, names), |sections|;
    assert parts[m + 1].Plain? && parts[..|parts| - 1] == parts[..m + 1];
    hide PartsOf;
    assert AllReferences(parts) == AllReferences(parts[..m + 1]) + ReferencesIn(parts[m + 1]);
  }

  /**
   * Whatever version-need sections are printed, each of any libraries and each of those with any
   * versions, with names that hold no NUL and numbers that fit their fields: parsing finds the
   * highest of exactly the versions of all of them, the required ones and the weak ones apart.
   */
  lemma LinkedFilesRoundTrip(py: Python, sections: seq<seq<Library>>, names: Bytes)
    requires AllFit(sections, names) && NamesAreWhole(AllVersions(sections))
    requires |Linked(sections, names)| < INDEX_LIMIT
    ensures Needs(py, Linked(sections, names)) == HighestOf(py, Listed(py, AllVersions(sections)))
  {
    hide *;
    ImageIsFile(sections, names);
    FilesAreRead(py, Linked(sections, names), FileOf(sections, names));
    ImageNames(py, sections, names);
    FileHasParts(sections, names);
  }

  lemma FileHasParts(sections: seq<seq<Library>>, names: Bytes)
    ensures FileOf(sections, names).parts == PartsOf(sections, names)
  {
    hide PartsOf;
  }

  // MARK: The printer's own images

  function OneLibrary(versions: seq<Version>): seq<seq<Library>> {
    [[Library(1, versions)]]
  }

  lemma OneSection(versions: seq<Version>)
    ensures VersionsOf([Library(1, versions)]) == versions && AllVersions(OneLibrary(versions)) == versions
    ensures OneLibrary(versions)[..0] == [] && AllVersions([]) == []
  {
    var libraries := [Library(1, versions)];
    assert libraries[1..] == [] && versions + [] == versions && VersionsOf(libraries) == versions;
    assert OneLibrary(versions)[..0] == [] && OneLibrary(versions)[0] == libraries;
    hide VersionsOf;
    assert [] + versions == versions;
  }

  lemma {:induction false} ReferencesAreAux(versions: seq<Version>, library: Bytes, i: nat)
    requires i <= |versions|
    ensures var n := |versions|;
      && |ReferencesFrom(versions, library, i, n - i)| == n - i
      && AuxRecords(versions, library, i) + ReferencesBytes(ReferencesFrom(versions, library, i, n - i))
        == AuxRecords(versions, library, n)
    decreases |versions| - i
  {
    hide NameOffset, Packed;
    if i < |versions| {
      ReferencesAreAux(versions, library, i + 1);
      var references := ReferencesFrom(versions, library, i, |versions| - i);
      assert references[1..] == ReferencesFrom(versions, library, i + 1, |versions| - i - 1);
      assert ReferenceBytes(references[0]) == AuxOf(versions, library, i);
      hide AuxOf, ReferenceBytes, ReferencesFrom;
      var aux, rest := AuxRecords(versions, library, i), ReferencesBytes(references[1..]);
      assert aux + (AuxOf(versions, library, i) + rest) == aux + AuxOf(versions, library, i) + rest;
    } else {
      assert AuxRecords(versions, library, i) + [] == AuxRecords(versions, library, i);
    }
  }

  lemma OneBlock(versions: seq<Version>, library: Bytes)
    ensures Blocks(OneLibrary(versions), library, 1) == NeedBytes(|versions|)
      + AuxRecords(versions, library, |versions|)
  {
    var sections, n := OneLibrary(versions), |versions|;
    var references := ReferencesFrom(versions, library, 0, n);
    var need := Need(1, 1, 16, 0, references);
    OneSection(versions);
    ReferencesAreAux(versions, library, 0);
    assert AuxRecords(versions, library, 0) == [] && [] + ReferencesBytes(references) == ReferencesBytes(references);
    assert EntryBytes(need) == NeedBytes(n) by {
      hide Packed;
    }
    hide AuxRecords, ReferencesFrom, ReferencesBytes, EntryBytes, VersionsOf, AllVersions;
    OneNeed(versions, library);
    assert [need][1..] == [] && NeedsBytes([]) == [];
    assert NeedsBytes([need]) == EntryBytes(need) + ReferencesBytes(references) + [];
    assert Blocks(sections, library, 0) == [];
  }

  lemma OneNeed(versions: seq<Version>, library: Bytes)
    ensures SectionNeeds(OneLibrary(versions), library, 0)
      == [Need(1, 1, 16, 0, ReferencesFrom(versions, library, 0, |versions|))]
  {
    OneSection(versions);
    var libraries := [Library(1, versions)];
    VersionsAreThere(OneLibrary(versions), 0);
    hide ReferencesFrom, AllVersions;
    assert libraries[1..] == [] && VersionsOf([]) == [];
    assert NeedsFrom(versions, library, [], |versions|) == [];
    assert NeedsFrom(versions, library, libraries, 0)
      == [Need(1, 1, 16, 0, ReferencesFrom(versions, library, 0, |versions|))] + [];
  }

  lemma OneTable(versions: seq<Version>, library: Bytes)
    requires |Blocks(OneLibrary(versions), library, 1)| == 16 + 16 * |versions|
    requires Strings(OneLibrary(versions), library) == Strtab(versions, library)
    ensures TableBytes(PartsOf(OneLibrary(versions), library)) == Sections(versions, library)
  {
    hide SectionBytes, Strtab, SectionNeeds, NeedsBytes, Strings;
    var sections, parts := OneLibrary(versions), PartsOf(OneLibrary(versions), library);
    var needs := SectionNeeds(sections, library, 0);
    OneNeed(versions, library);
    assert Blocks(sections, library, 0) == [] && Blocks(sections, library, 1) == [] + NeedsBytes(needs);
    hide Blocks;
    assert parts[0] == Plain(0, 0, 0, 0, 0) && parts[1] == Needing(64, 16 + 16 * |versions|, 2, needs);
    assert parts[2] == Plain(80 + 16 * |versions|, |Strtab(versions, library)|, 0, SHT_STRTAB, 0);
    hide PartsOf;
    assert parts[..2][..1] == parts[..1] && parts[..1][..0] == [] && parts[..2][1] == parts[1] && TableBytes([]) == [];
    assert TableBytes(parts[..1]) == [] + PartBytes(parts[0]);
    assert TableBytes(parts[..2]) == TableBytes(parts[..1]) + PartBytes(parts[1]);
  }

  /** One library in one section is what the printer of small files prints. */
  lemma PrinterPrintsOne(versions: seq<Version>, library: Bytes)
    ensures AllVersions(OneLibrary(versions)) == versions
    ensures Linked(OneLibrary(versions), library) == Image(versions, library)
    ensures Fits(versions, library) ==> AllFit(OneLibrary(versions), library)
  {
    hide *;
    OneSection(versions);
    OneBlock(versions, library);
    OneFits(versions, library);
    OneTable(versions, library);
    OneImage(versions, library);
  }

  lemma OneFits(versions: seq<Version>, library: Bytes)
    requires |Blocks(OneLibrary(versions), library, 1)| == 16 + 16 * |versions|
    requires AllVersions(OneLibrary(versions)) == versions
    ensures Strings(OneLibrary(versions), library) == Strtab(versions, library)
    ensures TableOffset(OneLibrary(versions), library) == TableAt(versions, library)
    ensures Fits(versions, library) ==> AllFit(OneLibrary(versions), library)
  {
    hide Strtab, Blocks, AllVersions, NameOffset;
    assert |OneLibrary(versions)| == 1;
  }

  lemma OneImage(versions: seq<Version>, library: Bytes)
    requires Blocks(OneLibrary(versions), library, 1) == NeedBytes(|versions|)
      + AuxRecords(versions, library, |versions|)
    requires Strings(OneLibrary(versions), library) == Strtab(versions, library)
    requires TableOffset(OneLibrary(versions), library) == TableAt(versions, library)
    requires TableBytes(PartsOf(OneLibrary(versions), library)) == Sections(versions, library)
    ensures Linked(OneLibrary(versions), library) == Image(versions, library)
  {
    hide Strtab, Blocks, TableBytes, Sections, TableOffset, TableAt, PartsOf, NeedBytes, AuxRecords, Strings;
    assert |OneLibrary(versions)| == 1;
    OneHead(TableAt(versions, library));
    hide HeadBytes, Header, OneLibrary;
    Regroup(Header(TableAt(versions, library)), NeedBytes(|versions|), AuxRecords(versions, library, |versions|));
  }

  lemma OneHead(table: nat)
    ensures HeadBytes(table, 3, 2) == Header(table)
  {
    hide Packed;
  }

  /**
   * Whatever versions are printed, with names that hold no NUL and numbers that fit their fields,
   * parsing finds the highest of exactly those: the required ones and the weak ones apart.
   */
  lemma RoundTrip(py: Python, versions: seq<Version>, library: Bytes)
    ensures Fits(versions, library) && NamesAreWhole(versions) && |Image(versions, library)| < INDEX_LIMIT ==>
      Needs(py, Image(versions, library)) == HighestOf(py, Listed(py, versions))
  {
    hide *;
    PrinterPrintsOne(versions, library);
    if Fits(versions, library) && NamesAreWhole(versions) && |Image(versions, library)| < INDEX_LIMIT {
      LinkedFilesRoundTrip(py, OneLibrary(versions), library);
    }
  }

  // MARK: Numbers, not text

  /** Python reads no longer numbers. */
  const INT_MAX_DIGITS: nat := 4_300

  /** int() and isdigit agree with the decimal system on ASCII digits. */
  ghost predicate ReadsDecimal(py: Python) {
    && (forall c :: IsDigit(c) ==> py.isDigit(c))
    && (forall s :: 0 < |s| <= INT_MAX_DIGITS && AllDigits(s) ==> py.toInt(s) == Some(Value(s)))
  }

  datatype Release = Release(major: nat, minor: nat)

  predicate IsReadable(release: Release) {
    |Digits(release.major)| <= INT_MAX_DIGITS && |Digits(release.minor)| <= INT_MAX_DIGITS
  }

  function TextOf(release: Release): string {
    Digits(release.major) + ['.'] + Digits(release.minor)
  }

  predicate Older(a: Release, b: Release) {
    a.major < b.major || (a.major == b.major && a.minor < b.minor)
  }

  function Newest(releases: seq<Release>): (newest: Option<Release>)
    ensures newest.Some? ==> newest.value in releases
  {
    if releases == [] then None
    else
      var n := |releases| - 1;
      match Newest(releases[..n])
      case None => Some(releases[n])
      case Some(best) => Some(if Older(best, releases[n]) then releases[n] else best)
  }

  function Texts(releases: seq<Release>): (s: seq<string>)
    ensures |s| == |releases|
  {
    if releases == [] then [] else Texts(releases[..|releases| - 1]) + [TextOf(releases[|releases| - 1])]
  }

  lemma KeyOf(py: Python, release: Release)
    requires ReadsDecimal(py) && IsReadable(release)
    ensures VersionKey(py, TextOf(release)) == Ok([release.major, release.minor])
  {
    var major, minor := Digits(release.major), Digits(release.minor);
    assert '.' !in major && '.' !in minor by {
      assert !IsDigit('.');
    }
    SplitFirst(major, '.', minor);
    SplitWhole(minor, '.');
    assert [major] + [minor] == [major, minor] && [major, minor][1..] == [minor] && [minor][1..] == [];
    assert py.toInt(minor) == Some(release.minor) && py.toInt(major) == Some(release.major);
    var last: seq<int> := [release.minor];
    assert Numbers(py, []) == Ok([]) && last + [] == last;
    assert Numbers(py, [minor]) == Ok(last);
    assert Numbers(py, [major, minor]) == Ok([release.major] + last);
    assert Split(TextOf(release), '.') == [major, minor] && [release.major] + last == [release.major, release.minor];
  }

  lemma {:induction false} HighestIsNewest(py: Python, releases: seq<Release>)
    requires ReadsDecimal(py) && forall r <- releases :: IsReadable(r)
    ensures Highest(py, Texts(releases)) == Ok(match Newest(releases) case None => None case Some(r) => Some(TextOf(r)))
  {
    hide TextOf, IsReadable, VersionKey, Less;
    if releases != [] {
      var n := |releases| - 1;
      var front, last := releases[..n], releases[n];
      HighestIsNewest(py, front);
      KeyOf(py, last);
      assert Texts(releases)[..n] == Texts(front) && Texts(releases)[n] == TextOf(last);
      if Newest(front).Some? {
        var best := Newest(front).value;
        assert best in releases;
        KeyOf(py, best);
        OlderIsLess(best, last);
      }
    }
  }

  lemma OlderIsLess(a: Release, b: Release)
    ensures Less([a.major, a.minor], [b.major, b.minor]) == Older(a, b)
  {
    var x: seq<int>, y: seq<int> := [a.major, a.minor], [b.major, b.minor];
    var u: seq<int>, v: seq<int> := [a.minor], [b.minor];
    assert x[1..] == u && y[1..] == v && u[1..] == [] && v[1..] == [];
    assert Less(u, v) == (a.minor < b.minor);
  }

  /** A binary linked against glibc releases, each required or weak. */
  function LinkedTo(releases: seq<(Release, bool)>): seq<Version> {
    if releases == [] then []
    else
      var n := |releases| - 1;
      LinkedTo(releases[..n]) + [("GLIBC_" + TextOf(releases[n].0), releases[n].1)]
  }

  function OfKind(releases: seq<(Release, bool)>, isWeak: bool): (kept: seq<Release>)
    ensures forall r <- kept :: (r, isWeak) in releases
  {
    if releases == [] then []
    else
      var n := |releases| - 1;
      OfKind(releases[..n], isWeak) + if releases[n].1 == isWeak then [releases[n].0] else []
  }

  lemma {:induction false} LinkedNamed(py: Python, releases: seq<(Release, bool)>, isWeak: bool)
    requires ReadsDecimal(py)
    ensures NamesAreWhole(LinkedTo(releases))
    ensures Named(py, LinkedTo(releases), isWeak) == Texts(OfKind(releases, isWeak))
  {
    if releases != [] {
      hide TextOf, IsGlibc, Texts, NamesAreWhole;
      var n := |releases| - 1;
      var version := ("GLIBC_" + TextOf(releases[n].0), releases[n].1);
      LinkedNamed(py, releases[..n], isWeak);
      assert LinkedTo(releases) == LinkedTo(releases[..n]) + [version];
      hide LinkedTo, OfKind, Named;
      NamedJoins(py, LinkedTo(releases[..n]), [version], isWeak);
      OneRelease(py, releases, isWeak);
      OneMoreWhole(py, LinkedTo(releases[..n]), releases[n].0, releases[n].1);
    }
  }

  lemma OneRelease(py: Python, releases: seq<(Release, bool)>, isWeak: bool)
    requires ReadsDecimal(py) && releases != []
    ensures var n := |releases| - 1;
      Texts(OfKind(releases[..n], isWeak)) + Named(py, [("GLIBC_" + TextOf(releases[n].0), releases[n].1)], isWeak)
      == Texts(OfKind(releases, isWeak))
  {
    var n := |releases| - 1;
    LinkIsGlibc(py, releases[n].0);
    hide TextOf, IsGlibc;
    var version := ("GLIBC_" + TextOf(releases[n].0), releases[n].1);
    assert [version][1..] == [] && Named(py, [], isWeak) == [];
    assert Named(py, [version], isWeak) == if releases[n].1 == isWeak then [TextOf(releases[n].0)] else [];
    hide Named, OfKind, Texts;
    KindGrows(releases, isWeak);
  }

  lemma KindGrows(releases: seq<(Release, bool)>, isWeak: bool)
    requires releases != []
    ensures var n := |releases| - 1;
      Texts(OfKind(releases, isWeak))
      == Texts(OfKind(releases[..n], isWeak)) + if releases[n].1 == isWeak then [TextOf(releases[n].0)] else []
  {
    hide Texts;
    var n := |releases| - 1;
    if releases[n].1 == isWeak {
      TextsGrow(OfKind(releases[..n], isWeak), releases[n].0);
    } else {
      assert OfKind(releases, isWeak) == OfKind(releases[..n], isWeak);
    }
  }

  lemma TextsGrow(releases: seq<Release>, last: Release)
    ensures Texts(releases + [last]) == Texts(releases) + [TextOf(last)]
  {
    hide TextOf;
    assert (releases + [last])[..|releases|] == releases;
  }

  lemma OneMoreWhole(py: Python, versions: seq<Version>, release: Release, isWeak: bool)
    requires ReadsDecimal(py) && NamesAreWhole(versions)
    ensures NamesAreWhole(versions + [("GLIBC_" + TextOf(release), isWeak)])
  {
    LinkIsGlibc(py, release);
    hide TextOf;
  }

  lemma LinkIsGlibc(py: Python, release: Release)
    requires ReadsDecimal(py)
    ensures var name := "GLIBC_" + TextOf(release); IsGlibc(py, name) && name[6..] == TextOf(release) && '\0' !in name
  {
    var name := "GLIBC_" + TextOf(release);
    assert IsDigit(name[6]);
    assert forall c <- TextOf(release) :: IsDigit(c) || c == '.';
  }

  /** For any list of releases the newest required and the newest weak one come back, by number and not by text. */
  lemma NewestReleasesComeBack(py: Python, releases: seq<(Release, bool)>, library: Bytes)
    requires ReadsDecimal(py) && forall r <- releases :: IsReadable(r.0)
    ensures Fits(LinkedTo(releases), library) && |Image(LinkedTo(releases), library)| < INDEX_LIMIT ==>
      var required, weak := Newest(OfKind(releases, false)), Newest(OfKind(releases, true));
      Needs(py, Image(LinkedTo(releases), library)) == Ok((
        if required.Some? then Some(TextOf(required.value)) else None,
        if weak.Some? then Some(TextOf(weak.value)) else None))
  {
    hide Image, Fits, Needs, Highest, LinkedTo, Named;
    LinkedNamed(py, releases, false);
    LinkedNamed(py, releases, true);
    RoundTrip(py, LinkedTo(releases), library);
    HighestIsNewest(py, OfKind(releases, false));
    HighestIsNewest(py, OfKind(releases, true));
  }
}

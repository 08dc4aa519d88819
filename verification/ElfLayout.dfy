// What the parser of Elf reads from any file that lists version needs, wherever in the file the
// sections, the entries of a section and the versions of an entry lie.
module ElfLayout {
  import opened Text
  import opened Bytes
  import opened Elf
  import opened ElfImage

  // MARK: Files

  predicate Holds(data: Bytes, at: nat, bytes: Bytes) {
    at + |bytes| <= |data| && data[at..at + |bytes|] == bytes
  }

  /** A version a library is needed in, whose name is at `nameAt` of the string table; `next` leads to the next one. */
  datatype Reference = Reference(hash: nat, flags: nat, other: nat, nameAt: nat, next: nat, name: string)

  /** A library and the versions needed of it, which start `aux` further on; `next` leads to the next library. */
  datatype Need = Need(version: nat, file: nat, aux: nat, next: nat, references: seq<Reference>)

  /** A section: version needs, whose names are in section `link`, or anything else. */
  datatype Part =
    | Needing(offset: nat, size: nat, link: nat, needs: seq<Need>)
    | Plain(offset: nat, size: nat, link: nat, kind: nat, info: nat)

  /** The section table is at `table`, an entry `entry` bytes long. */
  datatype File = File(table: nat, entry: nat, parts: seq<Part>)

  function HeadAt(f: File, i: nat): nat {
    f.table + f.entry * i
  }

  function ReferenceBytes(r: Reference): (s: Bytes)
    ensures |s| == 16
  {
    Packed(r.hash, 4) + Packed(r.flags, 2) + Packed(r.other, 2) + Packed(r.nameAt, 4) + Packed(r.next, 4)
  }

  function EntryBytes(n: Need): (s: Bytes)
    ensures |s| == 16
  {
    Packed(n.version, 2) + Packed(|n.references|, 2) + Packed(n.file, 4) + Packed(n.aux, 4) + Packed(n.next, 4)
  }

  function PartBytes(p: Part): (s: Bytes)
    ensures |s| == 64
  {
    match p
    case Needing(offset, size, link, needs) => SectionBytes(SHT_GNU_VERNEED, offset, size, link, |needs|)
    case Plain(offset, size, link, kind, info) => SectionBytes(kind, offset, size, link, info)
  }

  predicate ReferenceFits(r: Reference) {
    && r.hash < 0x1_0000_0000 && r.flags < 0x1_0000 && r.other < 0x1_0000
    && r.nameAt < 0x1_0000_0000 && r.next < 0x1_0000_0000 && '\0' !in r.name
  }

  predicate NeedFits(n: Need) {
    && n.version < 0x1_0000 && |n.references| < 0x1_0000
    && n.file < 0x1_0000_0000 && n.aux < 0x1_0000_0000 && n.next < 0x1_0000_0000
  }

  predicate PartFits(p: Part) {
    && p.offset < 0x1_0000_0000_0000_0000 && p.link < 0x1_0000_0000
    && match p
       case Needing(_, _, _, needs) => |needs| < 0x1_0000_0000
       case Plain(_, _, _, kind, info) => kind < 0x1_0000_0000 && kind != SHT_GNU_VERNEED && info < 0x1_0000_0000
  }

  /** The versions of one library, one after another along their `next`, each with its name. */
  predicate HoldsReferences(data: Bytes, strings: nat, at: nat, references: seq<Reference>)
    decreases references
  {
    references == [] || (
      var first := references[0];
      && ReferenceFits(first) && Holds(data, at, ReferenceBytes(first))
      && Holds(data, strings + first.nameAt, Encode(first.name) + [0])
      && HoldsReferences(data, strings, at + first.next, references[1..]))
  }

  /** The libraries of one section, along their `next`. */
  predicate HoldsNeeds(data: Bytes, strings: nat, at: nat, needs: seq<Need>)
    decreases needs
  {
    needs == [] || (
      var first := needs[0];
      && NeedFits(first) && Holds(data, at, EntryBytes(first))
      && HoldsReferences(data, strings, at + first.aux, first.references)
      && HoldsNeeds(data, strings, at + first.next, needs[1..]))
  }

  predicate HoldsPart(data: Bytes, f: File, i: nat)
    requires i < |f.parts|
  {
    var part := f.parts[i];
    && PartFits(part) && Holds(data, HeadAt(f, i), PartBytes(part))
    && (part.Needing? ==>
          part.link < |f.parts| && HoldsNeeds(data, f.parts[part.link].offset, part.offset, part.needs))
  }

  /** The bytes are such a file. Whatever else they hold does not matter. */
  predicate IsFile(data: Bytes, f: File) {
    && 64 <= |data| < INDEX_LIMIT && f.table < 0x1_0000_0000_0000_0000 && f.entry < 0x1_0000 && |f.parts| < 0x1_0000
    && Holds(data, 0, MAGIC) && Holds(data, 0x28, Packed(f.table, 8))
    && Holds(data, 0x3A, Packed(f.entry, 2)) && Holds(data, 0x3C, Packed(|f.parts|, 2))
    && forall i :: 0 <= i < |f.parts| ==> HoldsPart(data, f, i)
  }

  // MARK: What a file names

  function ReferencesOf(needs: seq<Need>): seq<Reference> {
    if needs == [] then [] else needs[0].references + ReferencesOf(needs[1..])
  }

  function ReferencesIn(part: Part): seq<Reference> {
    if part.Needing? then ReferencesOf(part.needs) else []
  }

  /** All version references of a file, section after section and library after library. */
  function AllReferences(parts: seq<Part>): seq<Reference> {
    if parts == [] then []
    else AllReferences(parts[..|parts| - 1]) + ReferencesIn(parts[|parts| - 1])
  }

  /** The numbers of the glibc versions among them whose weak flag, the second bit, is as asked. */
  function Glibc(py: Python, references: seq<Reference>, isWeak: bool): seq<string> {
    if references == [] then []
    else
      var first := references[0];
      (if IsGlibc(py, first.name) && (first.flags / 2 % 2 == 1) == isWeak then [first.name[6..]] else [])
      + Glibc(py, references[1..], isWeak)
  }

  function FoundIn(py: Python, references: seq<Reference>): Found {
    Found(Glibc(py, references, false), Glibc(py, references, true))
  }

  function Joint(a: Found, b: Found): Found {
    Found(a.required + b.required, a.weak + b.weak)
  }

  lemma {:induction false} GlibcJoins(py: Python, a: seq<Reference>, b: seq<Reference>, isWeak: bool)
    ensures Glibc(py, a + b, isWeak) == Glibc(py, a, isWeak) + Glibc(py, b, isWeak)
  {
    hide IsGlibc;
    if a == [] {
      assert a + b == b;
    } else {
      GlibcJoins(py, a[1..], b, isWeak);
      assert (a + b)[1..] == a[1..] + b && (a + b)[0] == a[0];
    }
  }

  lemma FoundJoins(py: Python, before: Found, a: seq<Reference>, b: seq<Reference>)
    ensures Joint(Joint(before, FoundIn(py, a)), FoundIn(py, b)) == Joint(before, FoundIn(py, a + b))
  {
    hide Glibc;
    GlibcJoins(py, a, b, false);
    GlibcJoins(py, a, b, true);
  }

  lemma OneIsNoted(py: Python, before: Found, r: Reference)
    ensures Noted(py, before, r.name, r.flags / 2 % 2 == 1) == Joint(before, FoundIn(py, [r]))
  {
    hide IsGlibc;
    assert [r][1..] == [] && Glibc(py, [], false) == [] && Glibc(py, [], true) == [];
  }

  // MARK: Reading it

  lemma FieldOf(record: Bytes, before: Bytes, n: nat, k: nat, after: Bytes)
    requires record == before + Packed(n, k) + after && n < Size(k)
    ensures Field(record, |before|, k) == n
  {
    PackedRoundTrips(n, k);
    assert record[|before|..|before| + k] == Packed(n, k);
  }

  lemma ReferenceReads(r: Reference)
    requires ReferenceFits(r)
    ensures var record := ReferenceBytes(r);
      Field(record, 8, 4) == r.nameAt && Field(record, 12, 4) == r.next && IsWeak(record) == (r.flags / 2 % 2 == 1)
  {
    hide Packed, Unpacked, Field;
    Widths();
    var record, hash, flags, other := ReferenceBytes(r), Packed(r.hash, 4), Packed(r.flags, 2), Packed(r.other, 2);
    FieldOf(record, hash, r.flags, 2, other + Packed(r.nameAt, 4) + Packed(r.next, 4));
    FieldOf(record, hash + flags + other, r.nameAt, 4, Packed(r.next, 4));
    FieldOf(record, hash + flags + other + Packed(r.nameAt, 4), r.next, 4, []);
  }

  lemma EntryReads(n: Need)
    requires NeedFits(n)
    ensures var record := EntryBytes(n);
      Field(record, 2, 2) == |n.references| && Field(record, 8, 4) == n.aux && Field(record, 12, 4) == n.next
  {
    hide Packed, Unpacked, Field;
    Widths();
    var record, version, count, file := EntryBytes(n), Packed(n.version, 2), Packed(|n.references|, 2),
      Packed(n.file, 4);
    FieldOf(record, version, |n.references|, 2, file + Packed(n.aux, 4) + Packed(n.next, 4));
    FieldOf(record, version + count + file, n.aux, 4, Packed(n.next, 4));
    FieldOf(record, version + count + file + Packed(n.aux, 4), n.next, 4, []);
  }

  lemma SectionReads(kind: nat, offset: nat, size: nat, link: nat, info: nat)
    requires kind < 0x1_0000_0000 && link < 0x1_0000_0000 && info < 0x1_0000_0000 && offset < 0x1_0000_0000_0000_0000
    ensures var record := SectionBytes(kind, offset, size, link, info);
      Field(record, 4, 4) == kind && Field(record, 24, 8) == offset && Field(record, 40, 4) == link
        && Field(record, 44, 4) == info
  {
    hide Packed, Unpacked, Field;
    Widths();
    var record := SectionBytes(kind, offset, size, link, info);
    var a := Packed(0, 4) + Packed(kind, 4) + Packed(0, 8) + Packed(0, 8);
    var b := Packed(offset, 8) + Packed(size, 8);
    var c := Packed(1, 8) + Packed(0, 8);
    assert record == a + b + Packed(link, 4) + Packed(info, 4) + c;
    FieldOf(record, Packed(0, 4), kind, 4, Packed(0, 8) + Packed(0, 8) + b + Packed(link, 4) + Packed(info, 4) + c);
    FieldOf(record, a, offset, 8, Packed(size, 8) + Packed(link, 4) + Packed(info, 4) + c);
    FieldOf(record, a + b, link, 4, Packed(info, 4) + c);
    FieldOf(record, a + b + Packed(link, 4), info, 4, c);
  }

  lemma {:induction false} NulAtTheEnd(data: Bytes, at: nat, name: Bytes)
    requires 0 !in name && at + |name| < |data| && data[at..at + |name|] == name && data[at + |name|] == 0
    ensures NulFrom(data, at) == Some(at + |name|)
    decreases |name|
  {
    if name != [] {
      assert data[at] == name[0];
      NulAtTheEnd(data, at + 1, name[1..]);
    }
  }

  /** A name that is there, and ended by a NUL, is read. */
  lemma NameReads(data: Bytes, at: nat, name: string)
    requires Holds(data, at, Encode(name) + [0]) && '\0' !in name
    ensures StringAt(data, at) == Ok(name)
  {
    hide Encode, Decode, NulFrom;
    OnlyNulEncodesAsNul(name);
    TextRoundTrips(name);
    var bytes := Encode(name);
    var held := data[at..at + |bytes| + 1];
    assert held == bytes + [0] && held[..|bytes|] == bytes && held[|bytes|] == 0;
    assert data[at..at + |bytes|] == held[..|bytes|];
    NulAtTheEnd(data, at, bytes);
  }

  lemma {:induction false} ReferencesAreRead(
    py: Python, data: Bytes, strings: nat, at: nat, references: seq<Reference>, before: Found
  )
    requires |data| < INDEX_LIMIT && HoldsReferences(data, strings, at, references)
    ensures WalkAux(py, data, strings, at, |references|, before) == Ok(Joint(before, FoundIn(py, references)))
    decreases references
  {
    hide StringAt, Noted, IsWeak, Field, ReferenceBytes, Encode, Glibc, ReferenceFits;
    if references == [] {
      NothingIsFound(py, before);
    } else {
      var first := references[0];
      ReferenceReads(first);
      assert Record(data, at, 16) == Ok(ReferenceBytes(first));
      assert '\0' !in first.name by {
        FitsIsWhole(first);
      }
      NameReads(data, strings + first.nameAt, first.name);
      OneIsNoted(py, before, first);
      var noted := Noted(py, before, first.name, first.flags / 2 % 2 == 1);
      ReferencesAreRead(py, data, strings, at + first.next, references[1..], noted);
      FoundJoins(py, before, [first], references[1..]);
      assert [first] + references[1..] == references;
    }
  }

  lemma FitsIsWhole(r: Reference)
    requires ReferenceFits(r)
    ensures '\0' !in r.name
  {
  }

  lemma NothingIsFound(py: Python, before: Found)
    ensures Joint(before, FoundIn(py, [])) == before && FoundIn(py, []) == Found([], [])
  {
  }

  lemma {:induction false} NeedsAreRead(
    py: Python, data: Bytes, strings: nat, at: nat, needs: seq<Need>, before: Found
  )
    requires |data| < INDEX_LIMIT && HoldsNeeds(data, strings, at, needs)
    ensures WalkNeeds(py, data, strings, at, |needs|, before) == Ok(Joint(before, FoundIn(py, ReferencesOf(needs))))
    decreases needs
  {
    hide WalkAux, Field, EntryBytes, HoldsReferences, FoundIn, Joint;
    if needs == [] {
      NothingIsFound(py, before);
    } else {
      var first := needs[0];
      EntryReads(first);
      assert Record(data, at, 16) == Ok(EntryBytes(first));
      ReferencesAreRead(py, data, strings, at + first.aux, first.references, before);
      var more := Joint(before, FoundIn(py, first.references));
      NeedsAreRead(py, data, strings, at + first.next, needs[1..], more);
      FoundJoins(py, before, first.references, ReferencesOf(needs[1..]));
    }
  }

  lemma HeaderReads(data: Bytes, f: File)
    requires IsFile(data, f)
    ensures IsElf(data) && SectionTable(data) == f.table && SectionSize(data) == f.entry
    ensures SectionCount(data) == |f.parts|
  {
    hide Packed, Unpacked, HoldsPart;
    Widths();
    PackedRoundTrips(f.table, 8);
    PackedRoundTrips(f.entry, 2);
    PackedRoundTrips(|f.parts|, 2);
    assert data[..6] == data[0..6] == MAGIC;
  }

  lemma PartIsAt(data: Bytes, f: File, i: nat)
    requires IsFile(data, f) && i < |f.parts|
    ensures |data| >= 64 && SectionAt(data, i) == Ok(PartBytes(f.parts[i]))
  {
    hide *;
    IsLongEnough(data, f);
    PartIsHeld(data, f, i);
    HeaderReads(data, f);
    RecordIsAt(data, HeadAt(f, i), PartBytes(f.parts[i]));
    SectionIsRecord(data, f, i);
  }

  lemma PartIsHeld(data: Bytes, f: File, i: nat)
    requires IsFile(data, f) && i < |f.parts|
    ensures HoldsPart(data, f, i) && Holds(data, HeadAt(f, i), PartBytes(f.parts[i]))
  {
    hide PartFits, Holds, PartBytes, HoldsNeeds;
  }

  lemma RecordIsAt(data: Bytes, at: nat, bytes: Bytes)
    requires |data| < INDEX_LIMIT && Holds(data, at, bytes) && bytes != []
    ensures Record(data, at, |bytes|) == Ok(bytes)
  {
  }

  lemma SectionIsRecord(data: Bytes, f: File, i: nat)
    requires |data| >= 64 && SectionTable(data) == f.table && SectionSize(data) == f.entry
    ensures SectionAt(data, i) == Record(data, HeadAt(f, i), 64)
  {
    hide Field, Record, SectionTable, SectionSize;
    assert i * f.entry == f.entry * i;
  }

  lemma PartReads(part: Part)
    requires PartFits(part)
    ensures var record := PartBytes(part);
      && Field(record, 24, 8) == part.offset && Field(record, 40, 4) == part.link
      && (part.Needing? <==> Field(record, 4, 4) == SHT_GNU_VERNEED)
      && (part.Needing? ==> Field(record, 44, 4) == |part.needs|)
  {
    hide Field, SectionBytes;
    match part {
      case Needing(offset, size, link, needs) => SectionReads(SHT_GNU_VERNEED, offset, size, link, |needs|);
      case Plain(offset, size, link, kind, info) => SectionReads(kind, offset, size, link, info);
    }
  }

  lemma {:induction false} PartsAreRead(py: Python, data: Bytes, f: File, n: nat)
    requires IsFile(data, f) && n <= |f.parts|
    ensures |data| >= 64 && WalkSections(py, data, n) == Ok(FoundIn(py, AllReferences(f.parts[..n])))
  {
    hide WalkSection, FoundIn, IsFile;
    assert |data| >= 64 by {
      IsLongEnough(data, f);
    }
    if n == 0 {
      NothingIsFound(py, Found([], []));
      assert f.parts[..0] == [];
    } else {
      PartsAreRead(py, data, f, n - 1);
      PartIsWalked(py, data, f, n - 1, FoundIn(py, AllReferences(f.parts[..n - 1])));
      OneMorePart(py, f.parts, n);
    }
  }

  lemma IsLongEnough(data: Bytes, f: File)
    requires IsFile(data, f)
    ensures 64 <= |data| < INDEX_LIMIT
  {
  }

  lemma OneMorePart(py: Python, parts: seq<Part>, n: nat)
    requires 0 < n <= |parts|
    ensures Joint(FoundIn(py, AllReferences(parts[..n - 1])), FoundIn(py, ReferencesIn(parts[n - 1])))
      == FoundIn(py, AllReferences(parts[..n]))
  {
    hide Glibc;
    var before := AllReferences(parts[..n - 1]);
    assert parts[..n][..n - 1] == parts[..n - 1] && parts[..n][n - 1] == parts[n - 1];
    assert AllReferences(parts[..n]) == before + ReferencesIn(parts[n - 1]);
    GlibcJoins(py, before, ReferencesIn(parts[n - 1]), false);
    GlibcJoins(py, before, ReferencesIn(parts[n - 1]), true);
  }

  lemma PartIsWalked(py: Python, data: Bytes, f: File, i: nat, before: Found)
    requires IsFile(data, f) && i < |f.parts|
    ensures |data| >= 64 && WalkSection(py, data, i, before) == Ok(Joint(before, FoundIn(py, ReferencesIn(f.parts[i]))))
  {
    hide SectionAt, Field, WalkNeeds, PartBytes, FoundIn, Joint, PartFits, HoldsNeeds;
    var part := f.parts[i];
    PartIsHeld(data, f, i);
    PartIsAt(data, f, i);
    PartReads(part);
    if part.Needing? {
      PartIsHeld(data, f, part.link);
      PartIsAt(data, f, part.link);
      PartReads(f.parts[part.link]);
      NeedsAreRead(py, data, f.parts[part.link].offset, part.offset, part.needs, before);
    } else {
      NothingIsFound(py, before);
    }
  }

  /**
   * Of every file, however its sections, the libraries of a section and the versions of a library
   * are laid out and chained, exactly the glibc versions of all of them are found, those with the
   * weak flag apart from the others, and the highest of each is the answer.
   */
  lemma FilesAreRead(py: Python, data: Bytes, f: File)
    requires IsFile(data, f)
    ensures Needs(py, data) == HighestOf(py, FoundIn(py, AllReferences(f.parts)))
  {
    hide WalkSections, IsFile;
    HeaderReads(data, f);
    PartsAreRead(py, data, f, |f.parts|);
    assert f.parts[..|f.parts|] == f.parts;
  }

  /** The command accepts it exactly when every version is a number and none it insists on is above the baseline. */
  lemma FilesAreAcceptedWithinTheBaseline(py: Python, data: Bytes, f: File, maximum: string)
    requires IsFile(data, f) && VersionKey(py, maximum).Ok?
    ensures ExitStatus(py, data, maximum) == Some(0) <==>
      && (forall v <- Glibc(py, AllReferences(f.parts), true) :: VersionKey(py, v).Ok?)
      && forall v <- Glibc(py, AllReferences(f.parts), false) :: VersionKey(py, v).Ok? && !Higher(py, v, maximum)
  {
    hide WalkSections, ExitStatus, IsFile, Glibc;
    HeaderReads(data, f);
    PartsAreRead(py, data, f, |f.parts|);
    assert f.parts[..|f.parts|] == f.parts;
    AcceptedWithinTheBaseline(py, data, maximum);
  }
}

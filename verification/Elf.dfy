// The glibc versions a Linux binary asks for: the parser of tools/check-glibc.py, which walks the
// version-need records of an ELF64 file (section 10.7 of the LSB Core Specification), and the
// printer of such files in tools/test-check-glibc.py.
module Elf {
  import opened Text
  import opened Bytes

  datatype Error = ValueError | StructError | OverflowError
  datatype Outcome<+T> = Ok(value: T) | Raised(error: Error)

  /** What Python says of text: str.isdigit of one character, and int(). */
  datatype Python = Python(isDigit: char -> bool, toInt: string -> Option<int>)

  const SHT_GNU_VERNEED := 0x6FFF_FFFE
  const SHT_STRTAB := 3
  const INDEX_LIMIT := 0x8000_0000_0000_0000

  // MARK: Reading one thing

  /** The bytes that unpack_from reads; an offset beyond the platform's index type overflows. */
  function Record(data: Bytes, at: nat, size: nat): (record: Outcome<Bytes>)
    ensures record.Ok? ==> |record.value| == size
  {
    if at >= INDEX_LIMIT then Raised(OverflowError)
    else if at + size > |data| then Raised(StructError)
    else Ok(data[at..at + size])
  }

  function Field(record: Bytes, at: nat, size: nat): nat
    requires at + size <= |record|
  {
    Unpacked(record[at..at + size])
  }

  function NulFrom(data: Bytes, at: nat): (end: Option<nat>)
    ensures end.Some? ==> at <= end.value < |data| && data[end.value] == 0
    decreases |data| - at
  {
    if at >= |data| then None else if data[at] == 0 then Some(at) else NulFrom(data, at + 1)
  }

  function StringAt(data: Bytes, at: nat): Outcome<string> {
    match NulFrom(data, at)
    case None => Raised(ValueError)
    case Some(end) =>
      match Decode(data[at..end])
      case None => Raised(ValueError)
      case Some(text) => Ok(text)
  }

  // MARK: Versions

  datatype Found = Found(required: seq<string>, weak: seq<string>)

  predicate IsGlibc(py: Python, version: string) {
    "GLIBC_" <= version && |version| > 6 && py.isDigit(version[6])
  }

  /** "GLIBC_" and a digit, and whatever follows. */
  lemma GlibcStartsWithADigit(py: Python, version: string)
    ensures IsGlibc(py, version) <==>
      exists digit: char, rest: string :: version == "GLIBC_" + [digit] + rest && py.isDigit(digit)
  {
    if IsGlibc(py, version) {
      assert version == "GLIBC_" + [version[6]] + version[7..];
    }
  }

  function Noted(py: Python, found: Found, version: string, isWeak: bool): Found {
    if !IsGlibc(py, version) then found
    else if isWeak then found.(weak := found.weak + [version[6..]])
    else found.(required := found.required + [version[6..]])
  }

  function Numbers(py: Python, parts: seq<string>): Outcome<seq<int>> {
    if parts == [] then Ok([])
    else
      match py.toInt(parts[0])
      case None => Raised(ValueError)
      case Some(n) =>
        match Numbers(py, parts[1..])
        case Raised(e) => Raised(e)
        case Ok(rest) => Ok([n] + rest)
  }

  function VersionKey(py: Python, version: string): Outcome<seq<int>> {
    Numbers(py, Split(version, '.'))
  }

  /** The order of tuples: the first difference decides, and a prefix comes first. */
  predicate Less(a: seq<int>, b: seq<int>) {
    b != [] && (a == [] || a[0] < b[0] || (a[0] == b[0] && Less(a[1..], b[1..])))
  }

  /** max() with version_key: the first of the highest, or the error of the first bad one. */
  function Highest(py: Python, versions: seq<string>): Outcome<Option<string>> {
    if versions == [] then Ok(None)
    else
      var n := |versions| - 1;
      match Highest(py, versions[..n])
      case Raised(e) => Raised(e)
      case Ok(best) =>
        match VersionKey(py, versions[n])
        case Raised(e) => Raised(e)
        case Ok(key) =>
          Ok(Some(if best.Some? && !Higher(py, versions[n], best.value) then best.value else versions[n]))
  }

  predicate Higher(py: Python, a: string, b: string) {
    VersionKey(py, a).Ok? && VersionKey(py, b).Ok? && Less(VersionKey(py, b).value, VersionKey(py, a).value)
  }

  // MARK: Walking the file

  predicate IsElf(data: Bytes) {
    |data| >= 64 && data[..6] == [0x7F, 0x45, 0x4C, 0x46, 2, 1]
  }

  function WalkAux(py: Python, data: Bytes, strings: nat, aux: nat, n: nat, found: Found): Outcome<Found>
    decreases n
  {
    if n == 0 then Ok(found)
    else
      match Record(data, aux, 16)
      case Raised(e) => Raised(e)
      case Ok(record) =>
        match StringAt(data, strings + Field(record, 8, 4))
        case Raised(e) => Raised(e)
        case Ok(version) =>
          WalkAux(py, data, strings, aux + Field(record, 12, 4), n - 1, Noted(py, found, version, IsWeak(record)))
  }

  predicate IsWeak(aux: Bytes)
    requires |aux| == 16
  {
    Field(aux, 4, 2) / 2 % 2 == 1
  }

  function WalkNeeds(py: Python, data: Bytes, strings: nat, entry: nat, n: nat, found: Found): Outcome<Found>
    decreases n
  {
    if n == 0 then Ok(found)
    else
      match Record(data, entry, 16)
      case Raised(e) => Raised(e)
      case Ok(record) =>
        match WalkAux(py, data, strings, entry + Field(record, 8, 4), Field(record, 2, 2), found)
        case Raised(e) => Raised(e)
        case Ok(more) => WalkNeeds(py, data, strings, entry + Field(record, 12, 4), n - 1, more)
  }

  function SectionTable(data: Bytes): nat
    requires |data| >= 64
  {
    Field(data, 0x28, 8)
  }

  function SectionSize(data: Bytes): nat
    requires |data| >= 64
  {
    Field(data, 0x3A, 2)
  }

  function SectionCount(data: Bytes): nat
    requires |data| >= 64
  {
    Field(data, 0x3C, 2)
  }

  function SectionAt(data: Bytes, index: nat): Outcome<Bytes>
    requires |data| >= 64
  {
    Record(data, SectionTable(data) + index * SectionSize(data), 64)
  }

  function WalkSection(py: Python, data: Bytes, index: nat, found: Found): Outcome<Found>
    requires |data| >= 64
  {
    match SectionAt(data, index)
    case Raised(e) => Raised(e)
    case Ok(section) =>
      if Field(section, 4, 4) != SHT_GNU_VERNEED then Ok(found)
      else
        match SectionAt(data, Field(section, 40, 4))
        case Raised(e) => Raised(e)
        case Ok(strings) => WalkNeeds(py, data, Field(strings, 24, 8), Field(section, 24, 8), Field(section, 44, 4),
          found)
  }

  /** What the first `n` sections name. */
  function WalkSections(py: Python, data: Bytes, n: nat): Outcome<Found>
    requires |data| >= 64
  {
    if n == 0 then Ok(Found([], []))
    else
      match WalkSections(py, data, n - 1)
      case Raised(e) => Raised(e)
      case Ok(found) => WalkSection(py, data, n - 1, found)
  }

  function HighestOf(py: Python, found: Found): Outcome<(Option<string>, Option<string>)> {
    match Highest(py, found.required)
    case Raised(e) => Raised(e)
    case Ok(required) =>
      match Highest(py, found.weak)
      case Raised(e) => Raised(e)
      case Ok(weak) => Ok((required, weak))
  }

  function Needs(py: Python, data: Bytes): Outcome<(Option<string>, Option<string>)> {
    if !IsElf(data) then Raised(ValueError)
    else
      match WalkSections(py, data, SectionCount(data))
      case Raised(e) => Raised(e)
      case Ok(found) => HighestOf(py, found)
  }

  lemma {:induction false} ErrorsStay(py: Python, data: Bytes, n: nat, m: nat)
    requires |data| >= 64 && n <= m && WalkSections(py, data, n).Raised?
    ensures WalkSections(py, data, m) == WalkSections(py, data, n)
  {
    if n < m {
      ErrorsStay(py, data, n, m - 1);
    }
  }

  /**
   * The walk as the script does it. Every read is in range, whatever the bytes, and every loop is
   * bounded by a count in the file, so each file ends in a result or in one of three errors.
   */
  method GlibcNeeds(py: Python, data: Bytes) returns (r: Outcome<(Option<string>, Option<string>)>)
    ensures r == Needs(py, data)
  {
    if |data| < 64 || data[..4] != [0x7F, 0x45, 0x4C, 0x46] || data[4] != 2 || data[5] != 1 {
      assert !IsElf(data) by {
        if |data| >= 64 {
          assert data[..6][..4] == data[..4] && data[..6][4] == data[4] && data[..6][5] == data[5];
        }
      }
      return Raised(ValueError);
    }
    assert data[..6] == data[..4] + [data[4], data[5]];
    var found := Found([], []);
    var total := SectionCount(data);
    for index := 0 to total
      invariant WalkSections(py, data, index) == Ok(found)
    {
      var section := SectionAt(data, index);
      if section.Raised? {
        ErrorsStay(py, data, index + 1, total);
        return Raised(section.error);
      }
      if Field(section.value, 4, 4) != SHT_GNU_VERNEED {
        continue;
      }
      var strings := SectionAt(data, Field(section.value, 40, 4));
      if strings.Raised? {
        ErrorsStay(py, data, index + 1, total);
        return Raised(strings.error);
      }
      var more := WalkEntries(py, data, Field(strings.value, 24, 8), Field(section.value, 24, 8),
        Field(section.value, 44, 4), found);
      if more.Raised? {
        ErrorsStay(py, data, index + 1, total);
        return Raised(more.error);
      }
      found := more.value;
    }
    r := HighestOf(py, found);
  }

  method WalkEntries(
    py: Python, data: Bytes, strings: nat, offset: nat, count: nat, before: Found
  ) returns (r: Outcome<Found>)
    ensures r == WalkNeeds(py, data, strings, offset, count, before)
  {
    hide Record, StringAt, IsWeak, Noted, Field;
    var entry: nat := offset;
    var found := before;
    for i := 0 to count
      invariant WalkNeeds(py, data, strings, entry, count - i, found)
        == WalkNeeds(py, data, strings, offset, count, before)
    {
      var need := Record(data, entry, 16);
      if need.Raised? {
        return Raised(need.error);
      }
      var aux: nat := entry + Field(need.value, 8, 4);
      var auxCount := Field(need.value, 2, 2);
      ghost var start: nat := aux;
      ghost var first := found;
      for j := 0 to auxCount
        invariant WalkAux(py, data, strings, aux, auxCount - j, found)
          == WalkAux(py, data, strings, start, auxCount, first)
      {
        var record := Record(data, aux, 16);
        if record.Raised? {
          return Raised(record.error);
        }
        var version := StringAt(data, strings + Field(record.value, 8, 4));
        if version.Raised? {
          return Raised(version.error);
        }
        found := Noted(py, found, version.value, IsWeak(record.value));
        aux := aux + Field(record.value, 12, 4);
      }
      entry := entry + Field(need.value, 12, 4);
    }
    r := Ok(found);
  }

  // MARK: The highest version

  lemma {:induction false} LessIsAnOrder(a: seq<int>, b: seq<int>, c: seq<int>)
    ensures !Less(a, a)
    ensures Less(a, b) && Less(b, c) ==> Less(a, c)
    ensures Less(a, b) || Less(b, a) || a == b
    decreases |a| + |b| + |c|
  {
    if a != [] && b != [] {
      LessIsAnOrder(a[1..], b[1..], if c == [] then [] else c[1..]);
      assert a == [a[0]] + a[1..] && b == [b[0]] + b[1..];
    } else if a != [] {
      LessIsAnOrder(a[1..], [], []);
    }
  }

  /** What `max` returns is one of the versions, none is higher, and one bad version spoils the lot. */
  lemma {:induction false} HighestIsHighest(py: Python, versions: seq<string>)
    ensures Highest(py, versions).Ok? <==> forall v <- versions :: VersionKey(py, v).Ok?
    ensures Highest(py, versions).Raised? ==> Highest(py, versions).error == ValueError
    ensures Highest(py, versions).Ok? ==> (Highest(py, versions).value.None? <==> versions == [])
    ensures Highest(py, versions).Ok? && versions != [] ==>
      Highest(py, versions).value.value in versions && forall v <- versions ::
        !Higher(py, v, Highest(py, versions).value.value)
  {
    if versions != [] {
      var n := |versions| - 1;
      HighestIsHighest(py, versions[..n]);
      KeyErrors(py, Split(versions[n], '.'));
      hide Higher, VersionKey;
      assert versions == versions[..n] + [versions[n]];
      if Highest(py, versions).Ok? {
        var top := Highest(py, versions).value.value;
        forall v | v in versions ensures !Higher(py, v, top) {
          KeysAreOrdered(py, v, top, top);
          if n > 0 {
            KeysAreOrdered(py, v, versions[n], Highest(py, versions[..n]).value.value);
          }
        }
      }
    }
  }

  lemma KeysAreOrdered(py: Python, a: string, b: string, c: string)
    ensures !Higher(py, a, a)
    ensures Higher(py, a, b) && Higher(py, b, c) ==> Higher(py, a, c)
    ensures Higher(py, a, b) && !Higher(py, c, b) && VersionKey(py, c).Ok? ==> Higher(py, a, c)
  {
    if VersionKey(py, a).Ok? {
      LessIsAnOrder(VersionKey(py, a).value, [], []);
    }
    if VersionKey(py, a).Ok? && VersionKey(py, b).Ok? {
      var ka, kb := VersionKey(py, a).value, VersionKey(py, b).value;
      LessIsAnOrder(ka, kb, ka);
      if VersionKey(py, c).Ok? {
        var kc := VersionKey(py, c).value;
        LessIsAnOrder(kc, kb, ka);
        LessIsAnOrder(kb, kc, ka);
      }
    }
  }

  lemma {:induction false} KeyErrors(py: Python, parts: seq<string>)
    ensures Numbers(py, parts).Raised? ==> Numbers(py, parts).error == ValueError
  {
    if parts != [] {
      KeyErrors(py, parts[1..]);
    }
  }

  // MARK: The error nobody catches

  /** A version-need section with entries that starts beyond the index type. */
  predicate HugeSection(data: Bytes, index: nat)
    requires |data| >= 64
  {
    var section := SectionAt(data, index);
    && section.Ok? && Field(section.value, 4, 4) == SHT_GNU_VERNEED && Field(section.value, 44, 4) > 0
    && SectionAt(data, Field(section.value, 40, 4)).Ok? && Field(section.value, 24, 8) >= INDEX_LIMIT
  }

  /** Larger than any address space these binaries run in. */
  const MEMORY_LIMIT := 0x4000_0000_0000_0000

  lemma FieldFits(record: Bytes, at: nat, size: nat)
    requires at + size <= |record| && size in {2, 4, 8}
    ensures Field(record, at,
      size) < if size == 2 then 0x1_0000 else if size == 4 then 0x1_0000_0000 else 0x1_0000_0000_0000_0000
  {
    UnpackedFits(record[at..at + size]);
    Widths();
  }

  lemma {:induction false} AuxNeverOverflows(py: Python, data: Bytes, strings: nat, aux: nat, n: nat, found: Found)
    requires |data| < MEMORY_LIMIT && aux < INDEX_LIMIT
    ensures WalkAux(py, data, strings, aux, n, found) != Raised(OverflowError)
    decreases n
  {
    hide Field, StringAt, Noted;
    if n > 0 && Record(data, aux, 16).Ok? {
      var record := Record(data, aux, 16).value;
      FieldFits(record, 12, 4);
      StringNeverOverflows(data, strings + Field(record, 8, 4));
      if StringAt(data, strings + Field(record, 8, 4)).Ok? {
        AuxNeverOverflows(py, data, strings, aux + Field(record, 12, 4), n - 1,
                          Noted(py, found, StringAt(data, strings + Field(record, 8, 4)).value, IsWeak(record)));
      }
    }
  }

  lemma StringNeverOverflows(data: Bytes, at: nat)
    ensures StringAt(data, at) != Raised(OverflowError)
  {
  }

  lemma {:induction false} NeedsOverflowAtTheStart(
    py: Python, data: Bytes, strings: nat, entry: nat, n: nat, found: Found
  )
    requires |data| < MEMORY_LIMIT
    ensures WalkNeeds(py, data, strings, entry, n, found) == Raised(OverflowError) <==> n > 0 && entry >= INDEX_LIMIT
    decreases n
  {
    hide Field, WalkAux;
    if n > 0 && Record(data, entry, 16).Ok? {
      var record := Record(data, entry, 16).value;
      FieldFits(record, 8, 4);
      FieldFits(record, 12, 4);
      AuxNeverOverflows(py, data, strings, entry + Field(record, 8, 4), Field(record, 2, 2), found);
      var walked := WalkAux(py, data, strings, entry + Field(record, 8, 4), Field(record, 2, 2), found);
      if walked.Ok? {
        NeedsOverflowAtTheStart(py, data, strings, entry + Field(record, 12, 4), n - 1, walked.value);
      }
    }
  }

  lemma SectionsNeverOverflow(data: Bytes, index: nat)
    requires 64 <= |data| && SectionTable(data) < MEMORY_LIMIT && index < 0x1_0000_0000
    ensures SectionAt(data, index) != Raised(OverflowError)
  {
    FieldFits(data, 0x3A, 2);
    hide Field;
    Products(index, SectionSize(data), 0x1_0000_0000, 0x1_0000);
  }

  lemma Products(a: nat, b: nat, c: nat, d: nat)
    requires a <= c && b <= d
    ensures a * b <= c * d
  {
    assert a * b <= c * b <= c * d;
  }

  lemma SectionOverflows(py: Python, data: Bytes, index: nat, found: Found)
    requires 64 <= |data| < MEMORY_LIMIT && SectionTable(data) < MEMORY_LIMIT && index < 0x1_0000_0000
    ensures WalkSection(py, data, index, found) == Raised(OverflowError) <==> HugeSection(data, index)
  {
    SectionsNeverOverflow(data, index);
    hide Field, Record, WalkNeeds;
    if SectionAt(data, index).Ok? {
      var section := SectionAt(data, index).value;
      FieldFits(section, 40, 4);
      SectionsNeverOverflow(data, Field(section, 40, 4));
      if SectionAt(data, Field(section, 40, 4)).Ok? {
        var strings := SectionAt(data, Field(section, 40, 4)).value;
        NeedsOverflowAtTheStart(py, data, Field(strings, 24, 8), Field(section, 24, 8), Field(section, 44, 4), found);
      }
    }
  }

  lemma {:induction false} WalkOverflows(py: Python, data: Bytes, n: nat)
    requires 64 <= |data| < MEMORY_LIMIT && SectionTable(data) < MEMORY_LIMIT && n <= 0x1_0000_0000
    ensures WalkSections(py, data, n) == Raised(OverflowError) <==>
      exists i :: 0 <= i < n && WalkSections(py, data, i).Ok? && HugeSection(data, i)
  {
    hide HugeSection, WalkSection, SectionTable;
    if n > 0 {
      WalkOverflows(py, data, n - 1);
      if WalkSections(py, data, n - 1).Ok? {
        SectionOverflows(py, data, n - 1, WalkSections(py, data, n - 1).value);
      } else {
        forall i | 0 <= i < n && WalkSections(py, data, i).Ok? ensures i < n - 1 {
        }
      }
    }
  }

  /** The offsets that make the parser fail with an error its caller does not catch. */
  predicate HugeOffset(py: Python, data: Bytes)
    requires |data| >= 64
  {
    SectionCount(data) > 0 &&
    (SectionTable(data) >= INDEX_LIMIT || exists i ::
      0 <= i < SectionCount(data) && WalkSections(py, data, i).Ok? && HugeSection(data, i))
  }

  /**
   * A damaged file is meant to end in an error the command reports. It does, unless the file puts
   * the section table, or a version-need section the walk comes to, at 2^63 or beyond.
   */
  lemma OverflowsExactlyAtHugeOffsets(py: Python, data: Bytes)
    requires |data| < MEMORY_LIMIT
    ensures Needs(py, data) == Raised(OverflowError) <==> IsElf(data) && HugeOffset(py, data)
  {
    if IsElf(data) {
      var n := SectionCount(data);
      FieldFits(data, 0x3C, 2);
      if WalkSections(py, data, n).Ok? {
        HighestIsHighest(py, WalkSections(py, data, n).value.required);
        HighestIsHighest(py, WalkSections(py, data, n).value.weak);
      }
      hide Field, HugeSection, WalkNeeds, Highest;
      if n > 0 && SectionTable(data) >= MEMORY_LIMIT {
        assert SectionAt(data, 0).Raised? && WalkSections(py, data, 0).Ok? && WalkSections(py, data, 1).Raised?;
        ErrorsStay(py, data, 1, n);
        forall i | 0 <= i < n && WalkSections(py, data, i).Ok? ensures !HugeSection(data, i) {
          NotHugeBeyondMemory(py, data, i);
        }
      } else if n > 0 {
        WalkOverflows(py, data, n);
      }
    }
  }

  lemma NotHugeBeyondMemory(py: Python, data: Bytes, i: nat)
    requires 64 <= |data| < MEMORY_LIMIT <= SectionTable(data)
    requires WalkSections(py, data, 1).Raised? && WalkSections(py, data, i).Ok? && SectionAt(data, 0).Raised?
    ensures !HugeSection(data, i)
  {
    if i > 0 {
      ErrorsStay(py, data, 1, i);
    }
  }

  /** A header and nothing else, with one section at the very end of the address space. */
  const STRAY_HEADER: Bytes :=
    [0x7F, 0x45, 0x4C, 0x46, 2, 1] + Packed(0, 34) + Packed(INDEX_LIMIT, 8) + Packed(0, 12) + Packed(1, 2)
      + Packed(0, 2)

  lemma StrayHeaderIsATraceback(py: Python, maximum: string)
    ensures IsElf(STRAY_HEADER) && ExitStatus(py, STRAY_HEADER, maximum) == None
  {
    var data := STRAY_HEADER;
    hide Packed, Unpacked;
    Widths();
    PackedRoundTrips(INDEX_LIMIT, 8);
    PackedRoundTrips(1, 2);
    assert data[0x28..0x30] == Packed(INDEX_LIMIT, 8) && data[0x3C..0x3E] == Packed(1, 2);
    assert SectionTable(data) == INDEX_LIMIT && SectionCount(data) == 1;
    assert 0 * SectionSize(data) == 0 && SectionAt(data, 0) == Raised(OverflowError);
    assert WalkSections(py, data, 0).Ok? && WalkSections(py, data, 1) == Raised(OverflowError);
  }

  // MARK: The verdict of the command

  /** The exit status of the command for a file it could read; nothing stands for a traceback. */
  function ExitStatus(py: Python, data: Bytes, maximum: string): Option<nat> {
    match Needs(py, data)
    case Raised(e) => if e == OverflowError then None else Some(1)
    case Ok((None, _)) => Some(0)
    case Ok((Some(required), _)) =>
      if VersionKey(py, maximum).Raised? then None
      else if Higher(py, required, maximum) then Some(1)
      else Some(0)
  }

  /** What is not a 64-bit little-endian ELF file, by its length or its first six bytes, is reported as an error. */
  lemma OnlyElfIsRead(py: Python, data: Bytes, maximum: string)
    requires |data| < 64 || data[0] != 0x7F || data[1] != 0x45 || data[2] != 0x4C || data[3] != 0x46
      || data[4] != 2 || data[5] != 1
    ensures Needs(py, data) == Raised(ValueError) && ExitStatus(py, data, maximum) == Some(1)
  {
    if |data| >= 64 {
      var magic := data[..6];
      assert magic[0] == data[0] && magic[1] == data[1] && magic[2] == data[2] && magic[3] == data[3];
      assert magic[4] == data[4] && magic[5] == data[5];
    }
  }

  /** The command accepts a file exactly when it can be read and every version it insists on is within the baseline. */
  lemma AcceptedWithinTheBaseline(py: Python, data: Bytes, maximum: string)
    requires VersionKey(py, maximum).Ok?
    ensures IsElf(data) ==> (ExitStatus(py, data, maximum) == Some(0) <==>
      var walked := WalkSections(py, data, SectionCount(data));
      && walked.Ok?
      && (forall v <- walked.value.weak :: VersionKey(py, v).Ok?)
      && (forall v <- walked.value.required :: VersionKey(py, v).Ok? && !Higher(py, v, maximum)))
    ensures !IsElf(data) ==> ExitStatus(py, data, maximum) == Some(1)
  {
    if !IsElf(data) {
      return;
    }
    var walked := WalkSections(py, data, SectionCount(data));
    if walked.Ok? {
      HighestIsHighest(py, walked.value.required);
      HighestIsHighest(py, walked.value.weak);
      if Highest(py, walked.value.required).Ok? && walked.value.required != [] {
        var top := Highest(py, walked.value.required).value.value;
        forall v | v in walked.value.required ensures Higher(py, v, maximum) ==> Higher(py, top, maximum) {
          KeysAreOrdered(py, v, maximum, top);
          KeysAreOrdered(py, v, top, maximum);
        }
      }
    }
  }
}

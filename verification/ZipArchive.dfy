/** The check that a rendered workbook is a complete ZIP archive: section 4.3.16 (end of central
    directory), 4.3.12 (central file headers) and 4.3.7 (local file headers) of PKWARE's
    APPNOTE.TXT. Decoding names as UTF-8 is the parameter `decode`. */
module ZipArchive {
  import opened JsText

  type Byte = b: int | 0 <= b < 0x100

  const LOCAL_SIGNATURE := 0x04034b50
  const CENTRAL_SIGNATURE := 0x02014b50
  const END_SIGNATURE := 0x06054b50
  const MAX_EXPORT_BYTES := 50 * 1024 * 1024

  /** Required parts of a workbook. */
  const CONTENT_TYPES: Text := Lit("[Content_Types].xml")
  const RELATIONSHIPS: Text := Lit("_rels/.rels")
  const WORKBOOK: Text := Lit("xl/workbook.xml")

  type Decoder = seq<Byte> -> Text

  function LittleEndian(bytes: seq<Byte>): nat {
    if |bytes| == 0 then 0 else bytes[0] as nat + 0x100 * LittleEndian(bytes[1..])
  }

  function U16(b: seq<Byte>, at: nat): nat
    requires at + 2 <= |b|
  {
    LittleEndian(b[at..at + 2])
  }

  function U32(b: seq<Byte>, at: nat): nat
    requires at + 4 <= |b|
  {
    LittleEndian(b[at..at + 4])
  }

  // ---- what a complete archive is -----------------------------------------------------------------

  /** Where the search for the end record stops: it ends within 22 bytes and a longest comment. */
  function SearchFloor(size: nat): nat {
    if size <= 65_557 then 0 else size - 65_557
  }

  /** The last place that looks like an end record. */
  ghost predicate LastEndRecord(b: seq<Byte>, end: nat) {
    && SearchFloor(|b|) <= end
    && end + 22 <= |b|
    && U32(b, end) == END_SIGNATURE
    && forall k :: end < k && k + 22 <= |b| ==> U32(b, k) != END_SIGNATURE
  }

  function Entries(b: seq<Byte>, end: nat): nat
    requires end + 22 <= |b|
  {
    U16(b, end + 10)
  }

  function DirectoryStart(b: seq<Byte>, end: nat): nat
    requires end + 22 <= |b|
  {
    U32(b, end + 16)
  }

  /** A single-disk archive whose directory ends where the end record begins, and whose comment
      ends where the bytes do. */
  ghost predicate GoodEndRecord(b: seq<Byte>, end: nat) {
    && end + 22 <= |b|
    && end + 22 + U16(b, end + 20) == |b|
    && 1 <= Entries(b, end) <= 4_096
    && U32(b, end + 4) == 0
    && U16(b, end + 8) == Entries(b, end)
    && DirectoryStart(b, end) + U32(b, end + 12) == end
  }

  function NextHeader(b: seq<Byte>, offset: nat): nat
    requires offset + 46 <= |b|
  {
    offset + 46 + U16(b, offset + 28) + U16(b, offset + 30) + U16(b, offset + 32)
  }

  function LocalHeader(b: seq<Byte>, offset: nat): nat
    requires offset + 46 <= |b|
  {
    U32(b, offset + 42)
  }

  function NameBytes(b: seq<Byte>, offset: nat): seq<Byte>
    requires offset + 46 <= |b| && NextHeader(b, offset) <= |b|
  {
    b[offset + 46..offset + 46 + U16(b, offset + 28)]
  }

  function LocalDataStart(b: seq<Byte>, local: nat): nat
    requires local + 30 <= |b|
  {
    local + 30 + U16(b, local + 26) + U16(b, local + 28)
  }

  function LocalNameBytes(b: seq<Byte>, local: nat): seq<Byte>
    requires local + 30 <= |b| && LocalDataStart(b, local) <= |b|
  {
    b[local + 30..local + 30 + U16(b, local + 26)]
  }

  /** The central header fits before the end record; the local header it names, and the compressed
      data after that, lie before the directory. */
  ghost predicate HeaderInPlace(b: seq<Byte>, offset: nat, start: nat, end: nat) {
    && start <= end <= |b|
    && offset + 46 <= end
    && U32(b, offset) == CENTRAL_SIGNATURE
    && NextHeader(b, offset) <= end
    && LocalHeader(b, offset) + 30 <= start
    && U32(b, LocalHeader(b, offset)) == LOCAL_SIGNATURE
    && LocalDataStart(b, LocalHeader(b, offset)) + U32(b, offset + 20) <= start
  }

  ghost predicate GoodHeader(b: seq<Byte>, offset: nat, start: nat, end: nat, decode: Decoder) {
    && HeaderInPlace(b, offset, start, end)
    && decode(NameBytes(b, offset)) == decode(LocalNameBytes(b, LocalHeader(b, offset)))
  }

  /** `offsets` are the places, in order, of central headers that follow each other without gap
      from the directory's start; the last offset is where the next one would be. */
  ghost predicate Chain(b: seq<Byte>, offsets: seq<nat>, start: nat, end: nat, decode: Decoder) {
    && |offsets| > 0
    && offsets[0] == start
    && forall i :: 0 <= i < |offsets| - 1 ==>
      && GoodHeader(b, offsets[i], start, end, decode)
      && offsets[i + 1] == NextHeader(b, offsets[i])
  }

  /** The decoded name of the `i`-th header. */
  ghost function NameAt(b: seq<Byte>, offsets: seq<nat>, i: nat, start: nat, end: nat, decode: Decoder): Text
    requires Chain(b, offsets, start, end, decode) && i < |offsets| - 1
  {
    assert GoodHeader(b, offsets[i], start, end, decode);
    decode(NameBytes(b, offsets[i]))
  }

  ghost predicate DistinctNames(b: seq<Byte>, offsets: seq<nat>, start: nat, end: nat, decode: Decoder)
    requires Chain(b, offsets, start, end, decode)
  {
    forall i, j :: 0 <= i < j < |offsets| - 1 ==>
      NameAt(b, offsets, i, start, end, decode) != NameAt(b, offsets, j, start, end, decode)
  }

  ghost predicate HasPart(b: seq<Byte>, offsets: seq<nat>, start: nat, end: nat, decode: Decoder, part: Text)
    requires Chain(b, offsets, start, end, decode)
  {
    exists i :: 0 <= i < |offsets| - 1 && NameAt(b, offsets, i, start, end, decode) == part
  }

  /** The directory's headers tile exactly the range from its start to the end record. */
  ghost predicate GoodDirectory(b: seq<Byte>, end: nat, offsets: seq<nat>, decode: Decoder) {
    && GoodEndRecord(b, end)
    && var start := DirectoryStart(b, end);
      && Chain(b, offsets, start, end, decode)
      && |offsets| == Entries(b, end) + 1
      && offsets[|offsets| - 1] == end
      && DistinctNames(b, offsets, start, end, decode)
      && HasPart(b, offsets, start, end, decode, CONTENT_TYPES)
      && HasPart(b, offsets, start, end, decode, RELATIONSHIPS)
      && HasPart(b, offsets, start, end, decode, WORKBOOK)
  }

  ghost predicate HasDirectory(b: seq<Byte>, end: nat, decode: Decoder) {
    exists offsets :: GoodDirectory(b, end, offsets, decode)
  }

  ghost predicate CompleteArchive(b: seq<Byte>, decode: Decoder) {
    && 22 <= |b| <= MAX_EXPORT_BYTES
    && U32(b, 0) == LOCAL_SIGNATURE
    && exists end: nat :: LastEndRecord(b, end) && HasDirectory(b, end, decode)
  }

  // ---- there is only one way to read an archive ----------------------------------------------------

  lemma OneEndRecord(b: seq<Byte>, e: nat, f: nat)
    requires LastEndRecord(b, e) && LastEndRecord(b, f)
    ensures e == f
  {
  }

  lemma {:induction false} ChainsAgree(
      b: seq<Byte>, s: seq<nat>, t: seq<nat>, i: nat, start: nat, end: nat, decode: Decoder)
    requires Chain(b, s, start, end, decode) && Chain(b, t, start, end, decode)
    requires i < |s| && i < |t|
    ensures s[i] == t[i]
  {
    if i > 0 {
      ChainsAgree(b, s, t, i - 1, start, end, decode);
      assert GoodHeader(b, s[i - 1], start, end, decode);
    }
  }

  lemma ChainGrows(b: seq<Byte>, s: seq<nat>, start: nat, end: nat, decode: Decoder)
    requires Chain(b, s, start, end, decode) && GoodHeader(b, s[|s| - 1], start, end, decode)
    ensures Chain(b, s + [NextHeader(b, s[|s| - 1])], start, end, decode)
  {
    var t := s + [NextHeader(b, s[|s| - 1])];
    forall i | 0 <= i < |t| - 1
      ensures GoodHeader(b, t[i], start, end, decode) && t[i + 1] == NextHeader(b, t[i])
    {
      assert t[i] == s[i];
      assert i < |s| - 1 ==> GoodHeader(b, s[i], start, end, decode);
    }
  }

  /** Two names of a chain that are equal are equal in every longer chain. */
  lemma NamesAgree(b: seq<Byte>, s: seq<nat>, t: seq<nat>, i: nat, start: nat, end: nat, decode: Decoder)
    requires Chain(b, s, start, end, decode) && Chain(b, t, start, end, decode)
    requires i < |s| - 1 && i < |t| - 1
    ensures NameAt(b, s, i, start, end, decode) == NameAt(b, t, i, start, end, decode)
  {
    ChainsAgree(b, s, t, i, start, end, decode);
  }

  // ---- the check --------------------------------------------------------------------------------------

  function ReadUInt16(bytes: array<Byte>, at: nat): (r: nat)
    requires at + 2 <= bytes.Length
    reads bytes
    ensures r == U16(bytes[..], at)
  {
    assert bytes[at..at + 2] == bytes[..][at..at + 2];
    LittleEndian(bytes[at..at + 2])
  }

  function ReadUInt32(bytes: array<Byte>, at: nat): (r: nat)
    requires at + 4 <= bytes.Length
    reads bytes
    ensures r == U32(bytes[..], at)
  {
    assert bytes[at..at + 4] == bytes[..][at..at + 4];
    LittleEndian(bytes[at..at + 4])
  }

  /** The backward search for the end record. */
  method FindEndRecord(bytes: array<Byte>) returns (end: int)
    requires bytes.Length >= 22
    ensures end <= bytes.Length - 22
    ensures end >= SearchFloor(bytes.Length) ==> LastEndRecord(bytes[..], end)
    ensures end < SearchFloor(bytes.Length) ==> forall e :: !LastEndRecord(bytes[..], e)
  {
    end := bytes.Length - 22;
    while end >= SearchFloor(bytes.Length) && ReadUInt32(bytes, end) != END_SIGNATURE
      invariant SearchFloor(bytes.Length) - 1 <= end <= bytes.Length - 22
      invariant forall k: nat :: end < k && k + 22 <= bytes.Length ==> U32(bytes[..], k) != END_SIGNATURE
    {
      end := end - 1;
    }
  }

  /** The tests of one central header's signatures and places, in order. */
  method CheckPlaces(bytes: array<Byte>, offset: nat, start: nat, end: nat)
    returns (ok: bool, next: nat, nameLength: nat, local: nat, localNameLength: nat)
    requires start <= end <= bytes.Length
    ensures ok <==> HeaderInPlace(bytes[..], offset, start, end)
    ensures ok ==> next == NextHeader(bytes[..], offset) && nameLength == U16(bytes[..], offset + 28)
    ensures ok ==> local == LocalHeader(bytes[..], offset) && localNameLength == U16(bytes[..], local + 26)
  {
    ok, next, nameLength, local, localNameLength := false, 0, 0, 0, 0;
    if offset + 46 > end || ReadUInt32(bytes, offset) != CENTRAL_SIGNATURE {
      return;
    }
    nameLength := ReadUInt16(bytes, offset + 28);
    next := offset + 46 + nameLength + ReadUInt16(bytes, offset + 30) + ReadUInt16(bytes, offset + 32);
    local := ReadUInt32(bytes, offset + 42);
    if next > end || local + 30 > start || ReadUInt32(bytes, local) != LOCAL_SIGNATURE {
      return;
    }
    localNameLength := ReadUInt16(bytes, local + 26);
    var localDataStart := local + 30 + localNameLength + ReadUInt16(bytes, local + 28);
    ok := localDataStart + ReadUInt32(bytes, offset + 20) <= start;
  }

  method ReadName(bytes: array<Byte>, at: nat, length: nat, decode: Decoder) returns (name: Text)
    requires at + length <= bytes.Length
    ensures name == decode(bytes[..][at..at + length])
  {
    assert bytes[at..at + length] == bytes[..][at..at + length];
    name := decode(bytes[at..at + length]);
  }

  lemma NamesInBounds(b: seq<Byte>, offset: nat, start: nat, end: nat)
    requires HeaderInPlace(b, offset, start, end)
    ensures offset + 46 + U16(b, offset + 28) <= |b|
    ensures LocalHeader(b, offset) + 30 + U16(b, LocalHeader(b, offset) + 26) <= |b|
  {
  }

  /** The tests of one central header; `name` is its decoded name. */
  method CheckHeader(bytes: array<Byte>, offset: nat, start: nat, end: nat, decode: Decoder)
    returns (ok: bool, name: Text, next: nat)
    requires start <= end <= bytes.Length
    ensures ok <==> GoodHeader(bytes[..], offset, start, end, decode)
    ensures ok ==> name == decode(NameBytes(bytes[..], offset)) && next == NextHeader(bytes[..], offset)
  {
    name := [];
    var nameLength, local, localNameLength;
    ok, next, nameLength, local, localNameLength := CheckPlaces(bytes, offset, start, end);
    if ok {
      NamesInBounds(bytes[..], offset, start, end);
      name := ReadName(bytes, offset + 46, nameLength, decode);
      var localName := ReadName(bytes, local + 30, localNameLength, decode);
      ok := name == localName;
    }
  }

  /** A directory that has been read up to `offset` without finding a fault. */
  ghost predicate ReadSoFar(
      b: seq<Byte>, offsets: seq<nat>, names: set<Text>, start: nat, end: nat, decode: Decoder)
  {
    && Chain(b, offsets, start, end, decode)
    && DistinctNames(b, offsets, start, end, decode)
    && forall name :: name in names <==> HasPart(b, offsets, start, end, decode, name)
  }

  /** A chain and the same chain with one more header. */
  predicate OneLonger(s: seq<nat>, t: seq<nat>) {
    |t| == |s| + 1 && |s| > 0 && t[..|s|] == s
  }

  lemma LongerNames(b: seq<Byte>, s: seq<nat>, t: seq<nat>, i: nat, start: nat, end: nat, decode: Decoder)
    requires Chain(b, s, start, end, decode) && Chain(b, t, start, end, decode) && OneLonger(s, t)
    requires i < |t| - 1
    ensures i < |s| - 1 ==> NameAt(b, t, i, start, end, decode) == NameAt(b, s, i, start, end, decode)
    ensures GoodHeader(b, s[|s| - 1], start, end, decode)
    ensures i == |s| - 1 ==> NameAt(b, t, i, start, end, decode) == decode(NameBytes(b, s[|s| - 1]))
  {
    assert t[i] == s[i] && t[|s| - 1] == s[|s| - 1];
    assert GoodHeader(b, t[|s| - 1], start, end, decode);
  }

  lemma LongerParts(b: seq<Byte>, s: seq<nat>, t: seq<nat>, start: nat, end: nat, decode: Decoder, name: Text)
    requires Chain(b, s, start, end, decode) && Chain(b, t, start, end, decode) && OneLonger(s, t)
    ensures GoodHeader(b, s[|s| - 1], start, end, decode)
    ensures HasPart(b, t, start, end, decode, name)
       <==> HasPart(b, s, start, end, decode, name) || name == decode(NameBytes(b, s[|s| - 1]))
  {
    forall i: nat | i < |t| - 1
      ensures i < |s| - 1 ==> NameAt(b, t, i, start, end, decode) == NameAt(b, s, i, start, end, decode)
      ensures GoodHeader(b, s[|s| - 1], start, end, decode)
      ensures i == |s| - 1 ==> NameAt(b, t, i, start, end, decode) == decode(NameBytes(b, s[|s| - 1]))
    {
      LongerNames(b, s, t, i, start, end, decode);
    }
    LongerNames(b, s, t, |s| - 1, start, end, decode);
    if HasPart(b, s, start, end, decode, name) {
      var i :| 0 <= i < |s| - 1 && NameAt(b, s, i, start, end, decode) == name;
      assert NameAt(b, t, i, start, end, decode) == name;
    }
  }

  lemma LongerDistinct(b: seq<Byte>, s: seq<nat>, t: seq<nat>, start: nat, end: nat, decode: Decoder)
    requires Chain(b, s, start, end, decode) && Chain(b, t, start, end, decode) && OneLonger(s, t)
    requires DistinctNames(b, s, start, end, decode) && GoodHeader(b, s[|s| - 1], start, end, decode)
    requires !HasPart(b, s, start, end, decode, decode(NameBytes(b, s[|s| - 1])))
    ensures DistinctNames(b, t, start, end, decode)
  {
    forall i: nat, j: nat | i < j < |t| - 1
      ensures NameAt(b, t, i, start, end, decode) != NameAt(b, t, j, start, end, decode)
    {
      LongerNames(b, s, t, i, start, end, decode);
      LongerNames(b, s, t, j, start, end, decode);
    }
  }

  lemma ReadOneMore(b: seq<Byte>, offsets: seq<nat>, names: set<Text>, start: nat, end: nat, decode: Decoder)
    requires ReadSoFar(b, offsets, names, start, end, decode)
    requires var last := offsets[|offsets| - 1];
      GoodHeader(b, last, start, end, decode) && decode(NameBytes(b, last)) !in names
    ensures var last := offsets[|offsets| - 1];
      ReadSoFar(b, offsets + [NextHeader(b, last)], names + {decode(NameBytes(b, last))}, start, end, decode)
  {
    var more := offsets + [NextHeader(b, offsets[|offsets| - 1])];
    ChainGrows(b, offsets, start, end, decode);
    assert OneLonger(offsets, more);
    LongerDistinct(b, offsets, more, start, end, decode);
    forall name {
      LongerParts(b, offsets, more, start, end, decode, name);
    }
  }

  /** A chain that cannot be continued, though headers are missing, refutes the archive. */
  lemma BrokenHeader(b: seq<Byte>, end: nat, s: seq<nat>, decode: Decoder)
    requires GoodEndRecord(b, end) && |s| <= Entries(b, end)
    requires Chain(b, s, DirectoryStart(b, end), end, decode)
    requires !GoodHeader(b, s[|s| - 1], DirectoryStart(b, end), end, decode)
    ensures !HasDirectory(b, end, decode)
  {
    forall t | GoodDirectory(b, end, t, decode) ensures false {
      ChainsAgree(b, s, t, |s| - 1, DirectoryStart(b, end), end, decode);
    }
  }

  lemma NameRepeats(b: seq<Byte>, s: seq<nat>, names: set<Text>, t: seq<nat>, start: nat, end: nat, decode: Decoder)
    requires ReadSoFar(b, s, names, start, end, decode)
    requires Chain(b, t, start, end, decode) && |t| > |s|
    requires GoodHeader(b, s[|s| - 1], start, end, decode) && decode(NameBytes(b, s[|s| - 1])) in names
    ensures !DistinctNames(b, t, start, end, decode)
  {
    var name := decode(NameBytes(b, s[|s| - 1]));
    var i :| 0 <= i < |s| - 1 && NameAt(b, s, i, start, end, decode) == name;
    NamesAgree(b, s, t, i, start, end, decode);
    ChainsAgree(b, s, t, |s| - 1, start, end, decode);
    assert NameAt(b, t, |s| - 1, start, end, decode) == name;
  }

  /** A name met for the second time refutes the archive. */
  lemma RepeatedName(b: seq<Byte>, end: nat, s: seq<nat>, names: set<Text>, decode: Decoder)
    requires GoodEndRecord(b, end) && |s| <= Entries(b, end)
    requires ReadSoFar(b, s, names, DirectoryStart(b, end), end, decode)
    requires var last := s[|s| - 1];
      GoodHeader(b, last, DirectoryStart(b, end), end, decode) && decode(NameBytes(b, last)) in names
    ensures !HasDirectory(b, end, decode)
  {
    forall t | GoodDirectory(b, end, t, decode) ensures false {
      NameRepeats(b, s, names, t, DirectoryStart(b, end), end, decode);
    }
  }

  predicate HasRequiredParts(names: set<Text>) {
    CONTENT_TYPES in names && RELATIONSHIPS in names && WORKBOOK in names
  }

  lemma SameChain(b: seq<Byte>, s: seq<nat>, t: seq<nat>, start: nat, end: nat, decode: Decoder)
    requires Chain(b, s, start, end, decode) && Chain(b, t, start, end, decode) && |s| == |t|
    ensures s == t
  {
    forall i: nat | i < |s| ensures s[i] == t[i] {
      ChainsAgree(b, s, t, i, start, end, decode);
    }
  }

  lemma FullChain(b: seq<Byte>, end: nat, s: seq<nat>, names: set<Text>, decode: Decoder)
    requires GoodEndRecord(b, end) && |s| == Entries(b, end) + 1
    requires ReadSoFar(b, s, names, DirectoryStart(b, end), end, decode)
    ensures GoodDirectory(b, end, s, decode) <==> s[|s| - 1] == end && HasRequiredParts(names)
  {
  }

  /** A chain of full length is the only one, so it decides. */
  lemma FullChainDecides(b: seq<Byte>, end: nat, s: seq<nat>, names: set<Text>, decode: Decoder)
    requires GoodEndRecord(b, end) && |s| == Entries(b, end) + 1
    requires ReadSoFar(b, s, names, DirectoryStart(b, end), end, decode)
    ensures HasDirectory(b, end, decode) <==> s[|s| - 1] == end && HasRequiredParts(names)
  {
    FullChain(b, end, s, names, decode);
    forall t | GoodDirectory(b, end, t, decode) ensures s == t {
      SameChain(b, s, t, DirectoryStart(b, end), end, decode);
    }
  }

  /** Reading the directory has come to `offset`, after the headers at `offsets`. */
  ghost predicate Reading(
      b: seq<Byte>, end: nat, offsets: seq<nat>, offset: nat, names: set<Text>, decode: Decoder)
  {
    && GoodEndRecord(b, end)
    && |offsets| > 0 && offsets[|offsets| - 1] == offset
    && ReadSoFar(b, offsets, names, DirectoryStart(b, end), end, decode)
  }

  lemma ReadingOn(b: seq<Byte>, end: nat, offsets: seq<nat>, offset: nat, names: set<Text>, decode: Decoder)
    requires Reading(b, end, offsets, offset, names, decode)
    requires GoodHeader(b, offset, DirectoryStart(b, end), end, decode) && decode(NameBytes(b, offset)) !in names
    ensures Reading(b, end, offsets + [NextHeader(b, offset)], NextHeader(b, offset),
      names + {decode(NameBytes(b, offset))}, decode)
  {
    ReadOneMore(b, offsets, names, DirectoryStart(b, end), end, decode);
  }

  /** The loop over the central headers. */
  method CheckDirectory(bytes: array<Byte>, end: nat, decode: Decoder) returns (ok: bool)
    requires GoodEndRecord(bytes[..], end)
    ensures ok <==> HasDirectory(bytes[..], end, decode)
  {
    ghost var b := bytes[..];
    var entries := ReadUInt16(bytes, end + 10);
    var start := ReadUInt32(bytes, end + 16);
    var names: set<Text> := {};
    var offset: nat := start;
    ghost var offsets := [offset];
    var index := 0;
    while index < entries
      invariant 0 <= index <= entries
      invariant |offsets| == index + 1
      invariant Reading(b, end, offsets, offset, names, decode)
    {
      var good, name, next := CheckHeader(bytes, offset, start, end, decode);
      if !good {
        BrokenHeader(b, end, offsets, decode);
        return false;
      }
      if name in names {
        RepeatedName(b, end, offsets, names, decode);
        return false;
      }
      ReadingOn(b, end, offsets, offset, names, decode);
      names := names + {name};
      offset := next;
      offsets := offsets + [next];
      index := index + 1;
    }
    FullChainDecides(b, end, offsets, names, decode);
    return offset == end && HasRequiredParts(names);
  }

  method CompleteWorkbookArchive(bytes: array<Byte>, decode: Decoder) returns (ok: bool)
    ensures ok <==> CompleteArchive(bytes[..], decode)
  {
    if bytes.Length < 22 || bytes.Length > MAX_EXPORT_BYTES || ReadUInt32(bytes, 0) != LOCAL_SIGNATURE {
      return false;
    }
    var end := FindEndRecord(bytes);
    if end < SearchFloor(bytes.Length) {
      return false;
    }
    forall e | LastEndRecord(bytes[..], e) ensures e == end {
      OneEndRecord(bytes[..], e, end);
    }
    if end + 22 + ReadUInt16(bytes, end + 20) != bytes.Length {
      return false;
    }
    var entries := ReadUInt16(bytes, end + 10);
    var directoryLength := ReadUInt32(bytes, end + 12);
    var directoryStart := ReadUInt32(bytes, end + 16);
    if
      || entries == 0
      || entries > 4_096
      || ReadUInt32(bytes, end + 4) != 0
      || ReadUInt16(bytes, end + 8) != entries
      || directoryStart + directoryLength != end
    {
      return false;
    }
    ok := CheckDirectory(bytes, end, decode);
  }
}

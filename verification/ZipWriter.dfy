/** Archives as the format's sections 4.3.7, 4.3.12 and 4.3.16 describe them, and which of them the
    check accepts. */
module ZipWriter {
  import opened JsText
  import opened ZipArchive

  /** One member of an archive. The fields that the check does not look at (versions, flags, times,
      checksums, sizes and attributes) are arbitrary bytes; `descriptor` may follow the data. */
  datatype Entry = Entry(
    name: seq<Byte>,
    localFields: seq<Byte>,
    localExtra: seq<Byte>,
    data: seq<Byte>,
    descriptor: seq<Byte>,
    versionToChecksum: seq<Byte>,
    uncompressedSize: seq<Byte>,
    diskToAttributes: seq<Byte>,
    extra: seq<Byte>,
    comment: seq<Byte>)

  /** The entry's fields have the widths that the format gives them. */
  predicate Fits(e: Entry) {
    && |e.localFields| == 22 && |e.versionToChecksum| == 16
    && |e.uncompressedSize| == 4 && |e.diskToAttributes| == 8
    && |e.name| < 0x1_0000 && |e.localExtra| < 0x1_0000
    && |e.extra| < 0x1_0000 && |e.comment| < 0x1_0000
    && |e.data| < 0x1_0000_0000
  }

  // ---- the format ------------------------------------------------------------------------------------

  /** The `width` lowest bytes of `n`, lowest first. */
  function Bytes(n: nat, width: nat): (r: seq<Byte>)
    ensures |r| == width
  {
    if width == 0 then [] else [n % 0x100] + Bytes(n / 0x100, width - 1)
  }

  function Le16(n: nat): (r: seq<Byte>)
    ensures |r| == 2
  {
    Bytes(n, 2)
  }

  function Le32(n: nat): (r: seq<Byte>)
    ensures |r| == 4
  {
    Bytes(n, 4)
  }

  /** Section 4.3.7. */
  function LocalRecord(e: Entry): seq<Byte> {
    Le32(LOCAL_SIGNATURE) + e.localFields + Le16(|e.name|) + Le16(|e.localExtra|)
    + e.name + e.localExtra + e.data + e.descriptor
  }

  /** Section 4.3.12. */
  function CentralHeader(e: Entry, local: nat): seq<Byte> {
    Le32(CENTRAL_SIGNATURE) + e.versionToChecksum + Le32(|e.data|) + e.uncompressedSize
    + Le16(|e.name|) + Le16(|e.extra|) + Le16(|e.comment|) + e.diskToAttributes + Le32(local)
    + e.name + e.extra + e.comment
  }

  /** Section 4.3.16. */
  function EndRecord(entries: nat, length: nat, start: nat, comment: seq<Byte>): seq<Byte> {
    Le32(END_SIGNATURE) + Le32(0) + Le16(entries) + Le16(entries) + Le32(length) + Le32(start)
    + Le16(|comment|) + comment
  }

  /** How the three kinds of records are written. */
  datatype Writer = Writer(
    local: Entry -> seq<Byte>, central: (Entry, nat) -> seq<Byte>, end: (nat, nat, nat, seq<Byte>) -> seq<Byte>)

  const FORMAT := Writer(LocalRecord, CentralHeader, EndRecord)

  function Locals(w: Writer, entries: seq<Entry>): seq<Byte> {
    if |entries| == 0 then [] else Locals(w, entries[..|entries| - 1]) + w.local(entries[|entries| - 1])
  }

  function Centrals(w: Writer, entries: seq<Entry>): seq<Byte> {
    if |entries| == 0 then []
    else
      var before := entries[..|entries| - 1];
      Centrals(w, before) + w.central(entries[|entries| - 1], |Locals(w, before)|)
  }

  function Written(w: Writer, entries: seq<Entry>, comment: seq<Byte>): seq<Byte> {
    Locals(w, entries) + Centrals(w, entries)
    + w.end(|entries|, |Centrals(w, entries)|, |Locals(w, entries)|, comment)
  }

  /** Where the records of a written archive stand. */
  function LocalAt(w: Writer, entries: seq<Entry>, i: nat): nat
    requires i <= |entries|
  {
    |Locals(w, entries[..i])|
  }

  function CentralAt(w: Writer, entries: seq<Entry>, i: nat): nat
    requires i <= |entries|
  {
    |Locals(w, entries)| + |Centrals(w, entries[..i])|
  }

  function End(w: Writer, entries: seq<Entry>): nat {
    |Locals(w, entries)| + |Centrals(w, entries)|
  }

  // ---- standing somewhere ------------------------------------------------------------------------------

  /** `part` stands at `at` in `b`. */
  ghost predicate Stands(b: seq<Byte>, at: nat, part: seq<Byte>) {
    at + |part| <= |b| && b[at..at + |part|] == part
  }

  lemma StandsParts(b: seq<Byte>, at: nat, p: seq<Byte>, q: seq<Byte>)
    requires Stands(b, at, p + q)
    ensures Stands(b, at, p) && Stands(b, at + |p|, q)
  {
    assert p == (p + q)[..|p|] && q == (p + q)[|p|..];
  }

  lemma StandsWithin(b: seq<Byte>, at: nat, part: seq<Byte>, k: nat, inner: seq<Byte>)
    requires Stands(b, at, part) && Stands(part, k, inner)
    ensures Stands(b, at + k, inner)
  {
    forall x | 0 <= x < |inner| ensures b[at + k + x] == inner[x] {
      assert inner[x] == part[k..k + |inner|][x] == part[k + x] == b[at..at + |part|][k + x];
    }
  }

  lemma StandsInFront(p: seq<Byte>, q: seq<Byte>, at: nat, part: seq<Byte>)
    requires Stands(p, at, part)
    ensures Stands(p + q, at, part)
  {
  }

  lemma StandsBehind(p: seq<Byte>, q: seq<Byte>)
    ensures Stands(p + q, |p|, q)
  {
  }

  lemma ThreeParts(p: seq<Byte>, q: seq<Byte>, r: seq<Byte>)
    ensures Stands(p + q + r, 0, p) && Stands(p + q + r, |p|, q) && Stands(p + q + r, |p| + |q|, r)
  {
  }

  // ---- reading back single records -----------------------------------------------------------------------

  /** A local record that can be read at `at`, and ends before `limit`. */
  ghost predicate LocalReads(b: seq<Byte>, at: nat, e: Entry, limit: nat) {
    && at + 30 <= |b| && U32(b, at) == LOCAL_SIGNATURE
    && LocalDataStart(b, at) + |e.data| <= limit <= |b|
    && LocalNameBytes(b, at) == e.name
  }

  /** A central header that can be read at `at`, names `local`, and ends at `next`. */
  ghost predicate CentralReads(b: seq<Byte>, at: nat, e: Entry, local: nat, next: nat) {
    && at + 46 <= |b| && U32(b, at) == CENTRAL_SIGNATURE
    && U32(b, at + 20) == |e.data| && LocalHeader(b, at) == local
    && NextHeader(b, at) == next <= |b|
    && NameBytes(b, at) == e.name
  }

  /** An end record that can be read at `at`, with its comment up to the end. */
  ghost predicate EndReads(b: seq<Byte>, at: nat, entries: nat, length: nat, start: nat, comment: seq<Byte>) {
    && at + 22 + |comment| <= |b| && U32(b, at) == END_SIGNATURE && U32(b, at + 4) == 0
    && U16(b, at + 8) == Entries(b, at) == entries
    && U32(b, at + 12) == length && DirectoryStart(b, at) == start && U16(b, at + 20) == |comment|
  }

  ghost predicate FaithfulLocal(local: Entry -> seq<Byte>) {
    forall e, b, at: nat :: Fits(e) && Stands(b, at, local(e)) ==> LocalReads(b, at, e, at + |local(e)|)
  }

  ghost predicate FaithfulCentral(central: (Entry, nat) -> seq<Byte>) {
    forall e, local: nat, b, at: nat :: Fits(e) && local < 0x1_0000_0000 && Stands(b, at, central(e, local)) ==>
      CentralReads(b, at, e, local, at + |central(e, local)|)
  }

  predicate EndFits(entries: nat, length: nat, start: nat, comment: seq<Byte>) {
    entries < 0x1_0000 && length < 0x1_0000_0000 && start < 0x1_0000_0000 && |comment| < 0x1_0000
  }

  ghost predicate FaithfulEnd(end: (nat, nat, nat, seq<Byte>) -> seq<Byte>) {
    forall entries: nat, length: nat, start: nat, comment, b, at: nat ::
      EndFits(entries, length, start, comment) && Stands(b, at, end(entries, length, start, comment)) ==>
        && EndReads(b, at, entries, length, start, comment)
        && |end(entries, length, start, comment)| == 22 + |comment|
  }

  /** Whatever the writer writes can be read wherever it stands. */
  ghost predicate Faithful(w: Writer) {
    FaithfulLocal(w.local) && FaithfulCentral(w.central) && FaithfulEnd(w.end)
  }

  /** How many numbers `width` bytes can tell apart. */
  function Capacity(width: nat): (r: nat)
    ensures r > 0
  {
    if width == 0 then 1 else 0x100 * Capacity(width - 1)
  }

  lemma {:induction false} BytesReadBack(n: nat, width: nat)
    requires n < Capacity(width)
    ensures LittleEndian(Bytes(n, width)) == n
  {
    if width > 0 {
      BytesReadBack(n / 0x100, width - 1);
      assert Bytes(n, width)[1..] == Bytes(n / 0x100, width - 1);
    }
  }

  lemma Capacities()
    ensures Capacity(2) == 0x1_0000 && Capacity(4) == 0x1_0000_0000
  {
    assert Capacity(1) == 0x100;
    assert Capacity(3) == 0x100_0000;
  }

  lemma ReadsLe16(b: seq<Byte>, at: nat, n: nat)
    requires Stands(b, at, Le16(n)) && n < 0x1_0000
    ensures U16(b, at) == n
  {
    Capacities();
    BytesReadBack(n, 2);
  }

  lemma ReadsLe32(b: seq<Byte>, at: nat, n: nat)
    requires Stands(b, at, Le32(n)) && n < 0x1_0000_0000
    ensures U32(b, at) == n
  {
    Capacities();
    BytesReadBack(n, 4);
  }

  lemma ReadsLocal(b: seq<Byte>, at: nat, e: Entry)
    requires Fits(e) && Stands(b, at, LocalRecord(e))
    ensures LocalReads(b, at, e, at + |LocalRecord(e)|)
  {
    var p1 := Le32(LOCAL_SIGNATURE);
    var p2 := p1 + e.localFields;
    var p3 := p2 + Le16(|e.name|);
    var p4 := p3 + Le16(|e.localExtra|);
    var p5 := p4 + e.name;
    var p6 := p5 + e.localExtra;
    var p7 := p6 + e.data;
    StandsParts(b, at, p7, e.descriptor);
    StandsParts(b, at, p6, e.data);
    StandsParts(b, at, p5, e.localExtra);
    StandsParts(b, at, p4, e.name);
    StandsParts(b, at, p3, Le16(|e.localExtra|));
    StandsParts(b, at, p2, Le16(|e.name|));
    StandsParts(b, at, p1, e.localFields);
    ReadsLe32(b, at, LOCAL_SIGNATURE);
    ReadsLe16(b, at + 26, |e.name|);
    ReadsLe16(b, at + 28, |e.localExtra|);
  }

  lemma ReadsCentral(b: seq<Byte>, at: nat, e: Entry, local: nat)
    requires Fits(e) && local < 0x1_0000_0000 && Stands(b, at, CentralHeader(e, local))
    ensures CentralReads(b, at, e, local, at + |CentralHeader(e, local)|)
  {
    var p1 := Le32(CENTRAL_SIGNATURE);
    var p2 := p1 + e.versionToChecksum;
    var p3 := p2 + Le32(|e.data|);
    var p4 := p3 + e.uncompressedSize;
    var p5 := p4 + Le16(|e.name|);
    var p6 := p5 + Le16(|e.extra|);
    var p7 := p6 + Le16(|e.comment|);
    var p8 := p7 + e.diskToAttributes;
    var p9 := p8 + Le32(local);
    var p10 := p9 + e.name;
    StandsParts(b, at, p10 + e.extra, e.comment);
    StandsParts(b, at, p10, e.extra);
    StandsParts(b, at, p9, e.name);
    StandsParts(b, at, p8, Le32(local));
    StandsParts(b, at, p7, e.diskToAttributes);
    StandsParts(b, at, p6, Le16(|e.comment|));
    StandsParts(b, at, p5, Le16(|e.extra|));
    StandsParts(b, at, p4, Le16(|e.name|));
    StandsParts(b, at, p3, e.uncompressedSize);
    StandsParts(b, at, p2, Le32(|e.data|));
    StandsParts(b, at, p1, e.versionToChecksum);
    ReadsLe32(b, at, CENTRAL_SIGNATURE);
    ReadsLe32(b, at + 20, |e.data|);
    ReadsLe16(b, at + 28, |e.name|);
    ReadsLe16(b, at + 30, |e.extra|);
    ReadsLe16(b, at + 32, |e.comment|);
    ReadsLe32(b, at + 42, local);
  }

  lemma ReadsEnd(b: seq<Byte>, at: nat, entries: nat, length: nat, start: nat, comment: seq<Byte>)
    requires Stands(b, at, EndRecord(entries, length, start, comment))
    requires entries < 0x1_0000 && length < 0x1_0000_0000 && start < 0x1_0000_0000 && |comment| < 0x1_0000
    ensures EndReads(b, at, entries, length, start, comment)
    ensures |EndRecord(entries, length, start, comment)| == 22 + |comment|
  {
    var p1 := Le32(END_SIGNATURE);
    var p2 := p1 + Le32(0);
    var p3 := p2 + Le16(entries);
    var p4 := p3 + Le16(entries);
    var p5 := p4 + Le32(length);
    var p6 := p5 + Le32(start);
    StandsParts(b, at, p6 + Le16(|comment|), comment);
    StandsParts(b, at, p6, Le16(|comment|));
    StandsParts(b, at, p5, Le32(start));
    StandsParts(b, at, p4, Le32(length));
    StandsParts(b, at, p3, Le16(entries));
    StandsParts(b, at, p2, Le16(entries));
    StandsParts(b, at, p1, Le32(0));
    ReadsLe32(b, at, END_SIGNATURE);
    ReadsLe32(b, at + 4, 0);
    ReadsLe16(b, at + 8, entries);
    ReadsLe16(b, at + 10, entries);
    ReadsLe32(b, at + 12, length);
    ReadsLe32(b, at + 16, start);
    ReadsLe16(b, at + 20, |comment|);
  }

  lemma LocalIsFaithful(local: Entry -> seq<Byte>)
    requires forall e :: local(e) == LocalRecord(e)
    ensures FaithfulLocal(local)
  {
    forall e, b, at: nat | Fits(e) && Stands(b, at, local(e)) ensures LocalReads(b, at, e, at + |local(e)|) {
      ReadsLocal(b, at, e);
    }
  }

  lemma CentralIsFaithful(central: (Entry, nat) -> seq<Byte>)
    requires forall e, n: nat :: central(e, n) == CentralHeader(e, n)
    ensures FaithfulCentral(central)
  {
    forall e, n: nat, b, at: nat | Fits(e) && n < 0x1_0000_0000 && Stands(b, at, central(e, n))
      ensures CentralReads(b, at, e, n, at + |central(e, n)|)
    {
      ReadsCentral(b, at, e, n);
    }
  }

  lemma EndIsFaithful(end: (nat, nat, nat, seq<Byte>) -> seq<Byte>)
    requires forall n: nat, length: nat, start: nat, comment ::
      end(n, length, start, comment) == EndRecord(n, length, start, comment)
    ensures FaithfulEnd(end)
  {
    forall n: nat, length: nat, start: nat, comment, b, at: nat |
      EndFits(n, length, start, comment) && Stands(b, at, end(n, length, start, comment))
      ensures EndReads(b, at, n, length, start, comment)
      ensures |end(n, length, start, comment)| == 22 + |comment|
    {
      ReadsEnd(b, at, n, length, start, comment);
    }
  }

  /** The format's own records can be read wherever they stand. */
  lemma FormatIsFaithful()
    ensures Faithful(FORMAT)
  {
    LocalIsFaithful(FORMAT.local);
    CentralIsFaithful(FORMAT.central);
    EndIsFaithful(FORMAT.end);
  }

  // ---- reading back whole archives ------------------------------------------------------------------------

  lemma {:induction false} LocalStands(w: Writer, entries: seq<Entry>, i: nat, n: nat)
    requires i < n <= |entries|
    ensures Stands(Locals(w, entries[..n]), LocalAt(w, entries, i), w.local(entries[i]))
    decreases n
  {
    assert entries[..n][..n - 1] == entries[..n - 1];
    if i < n - 1 {
      LocalStands(w, entries, i, n - 1);
      StandsInFront(Locals(w, entries[..n - 1]), w.local(entries[n - 1]), LocalAt(w, entries, i), w.local(entries[i]));
    } else {
      StandsBehind(Locals(w, entries[..i]), w.local(entries[i]));
    }
  }

  lemma {:induction false} CentralStands(w: Writer, entries: seq<Entry>, i: nat, n: nat)
    requires i < n <= |entries|
    ensures var header := w.central(entries[i], LocalAt(w, entries, i));
      && Stands(Centrals(w, entries[..n]), |Centrals(w, entries[..i])|, header)
      && |Centrals(w, entries[..i + 1])| == |Centrals(w, entries[..i])| + |header| <= |Centrals(w, entries[..n])|
    decreases n
  {
    assert entries[..n][..n - 1] == entries[..n - 1];
    var last := w.central(entries[n - 1], LocalAt(w, entries, n - 1));
    if i < n - 1 {
      CentralStands(w, entries, i, n - 1);
      StandsInFront(Centrals(w, entries[..n - 1]), last, |Centrals(w, entries[..i])|,
        w.central(entries[i], LocalAt(w, entries, i)));
    } else {
      StandsBehind(Centrals(w, entries[..i]), last);
    }
  }

  /** What is written fits: every entry, the count, the comment and the places. */
  ghost predicate Fit(w: Writer, entries: seq<Entry>, comment: seq<Byte>) {
    && (forall i :: 0 <= i < |entries| ==> Fits(entries[i]))
    && |entries| < 0x1_0000 && |comment| < 0x1_0000
    && |Written(w, entries, comment)| < 0x1_0000_0000
  }

  lemma EntryLocalReads(w: Writer, entries: seq<Entry>, b: seq<Byte>, i: nat)
    requires Faithful(w) && i < |entries| && Fits(entries[i]) && Stands(b, 0, Locals(w, entries))
    ensures LocalReads(b, LocalAt(w, entries, i), entries[i], |Locals(w, entries)|)
  {
    assert entries[..|entries|] == entries;
    LocalStands(w, entries, i, |entries|);
    StandsWithin(b, 0, Locals(w, entries), LocalAt(w, entries, i), w.local(entries[i]));
    assert LocalReads(b, LocalAt(w, entries, i), entries[i], LocalAt(w, entries, i) + |w.local(entries[i])|);
  }

  lemma EntryCentralReads(w: Writer, entries: seq<Entry>, b: seq<Byte>, i: nat)
    requires Faithful(w) && i < |entries| && Fits(entries[i]) && LocalAt(w, entries, i) < 0x1_0000_0000
    requires Stands(b, |Locals(w, entries)|, Centrals(w, entries))
    ensures CentralReads(b, CentralAt(w, entries, i), entries[i], LocalAt(w, entries, i), CentralAt(w, entries, i + 1))
    ensures CentralAt(w, entries, i + 1) <= End(w, entries)
  {
    var header := w.central(entries[i], LocalAt(w, entries, i));
    assert entries[..|entries|] == entries;
    CentralStands(w, entries, i, |entries|);
    StandsWithin(b, |Locals(w, entries)|, Centrals(w, entries), |Centrals(w, entries[..i])|, header);
  }

  lemma EntryReads(w: Writer, entries: seq<Entry>, comment: seq<Byte>, i: nat)
    requires Faithful(w) && Fit(w, entries, comment) && i < |entries|
    ensures var b := Written(w, entries, comment);
      && LocalReads(b, LocalAt(w, entries, i), entries[i], |Locals(w, entries)|)
      && CentralReads(b, CentralAt(w, entries, i), entries[i], LocalAt(w, entries, i), CentralAt(w, entries, i + 1))
      && CentralAt(w, entries, i + 1) <= End(w, entries) <= |b|
  {
    var b, locals, centrals := Written(w, entries, comment), Locals(w, entries), Centrals(w, entries);
    ThreeParts(locals, centrals, w.end(|entries|, |centrals|, |locals|, comment));
    EntryLocalReads(w, entries, b, i);
    EntryCentralReads(w, entries, b, i);
  }

  lemma HeaderReads(b: seq<Byte>, at: nat, e: Entry, local: nat, next: nat, start: nat, end: nat, decode: Decoder)
    requires CentralReads(b, at, e, local, next) && LocalReads(b, local, e, start)
    requires start <= at && next <= end <= |b|
    ensures GoodHeader(b, at, start, end, decode)
  {
    NextIsLater(b, at);
  }

  lemma NextIsLater(b: seq<Byte>, at: nat)
    requires at + 46 <= |b|
    ensures NextHeader(b, at) >= at + 46
  {
  }

  function Offsets(w: Writer, entries: seq<Entry>): (r: seq<nat>)
    ensures |r| == |entries| + 1 && forall i :: 0 <= i <= |entries| ==> r[i] == CentralAt(w, entries, i)
  {
    seq(|entries| + 1, i requires 0 <= i <= |entries| => CentralAt(w, entries, i))
  }

  ghost predicate HeaderStands(b: seq<Byte>, w: Writer, entries: seq<Entry>, i: nat, decode: Decoder) {
    && i < |entries|
    && GoodHeader(b, CentralAt(w, entries, i), |Locals(w, entries)|, End(w, entries), decode)
    && NameBytes(b, CentralAt(w, entries, i)) == entries[i].name
    && NextHeader(b, CentralAt(w, entries, i)) == CentralAt(w, entries, i + 1)
  }

  lemma WrittenHeader(w: Writer, entries: seq<Entry>, comment: seq<Byte>, i: nat, decode: Decoder)
    requires Faithful(w) && Fit(w, entries, comment) && i < |entries|
    ensures HeaderStands(Written(w, entries, comment), w, entries, i, decode)
  {
    EntryReads(w, entries, comment, i);
    HeaderReads(Written(w, entries, comment), CentralAt(w, entries, i), entries[i], LocalAt(w, entries, i),
      CentralAt(w, entries, i + 1), |Locals(w, entries)|, End(w, entries), decode);
  }

  lemma ChainOfHeaders(b: seq<Byte>, w: Writer, entries: seq<Entry>, decode: Decoder)
    requires forall i :: 0 <= i < |entries| ==> HeaderStands(b, w, entries, i, decode)
    ensures Chain(b, Offsets(w, entries), |Locals(w, entries)|, End(w, entries), decode)
    ensures forall i :: 0 <= i < |entries| ==>
      NameAt(b, Offsets(w, entries), i, |Locals(w, entries)|, End(w, entries), decode) == decode(entries[i].name)
  {
    forall i | 0 <= i < |entries|
      ensures GoodHeader(b, Offsets(w, entries)[i], |Locals(w, entries)|, End(w, entries), decode)
      ensures NextHeader(b, Offsets(w, entries)[i]) == Offsets(w, entries)[i + 1]
      ensures NameBytes(b, Offsets(w, entries)[i]) == entries[i].name
    {
      assert HeaderStands(b, w, entries, i, decode);
    }
  }

  /** What reading the bytes of a written archive gives. */
  ghost predicate Readable(b: seq<Byte>, w: Writer, entries: seq<Entry>, comment: seq<Byte>, decode: Decoder) {
    && var end, start := End(w, entries), |Locals(w, entries)|;
      && end + 22 + |comment| == |b|
      && EndReads(b, end, |entries|, |Centrals(w, entries)|, start, comment)
      && Chain(b, Offsets(w, entries), start, end, decode)
      && forall i :: 0 <= i < |entries| ==>
           NameAt(b, Offsets(w, entries), i, start, end, decode) == decode(entries[i].name)
  }

  lemma WrittenEnd(w: Writer, entries: seq<Entry>, comment: seq<Byte>)
    requires Faithful(w) && Fit(w, entries, comment)
    ensures var b := Written(w, entries, comment);
      && End(w, entries) + 22 + |comment| == |b|
      && EndReads(b, End(w, entries), |entries|, |Centrals(w, entries)|, |Locals(w, entries)|, comment)
  {
    var locals, centrals := Locals(w, entries), Centrals(w, entries);
    ThreeParts(locals, centrals, w.end(|entries|, |centrals|, |locals|, comment));
  }

  lemma WrittenIsReadable(w: Writer, entries: seq<Entry>, comment: seq<Byte>, decode: Decoder)
    requires Faithful(w) && Fit(w, entries, comment)
    ensures Readable(Written(w, entries, comment), w, entries, comment, decode)
    ensures |entries| > 0 ==> U32(Written(w, entries, comment), 0) == LOCAL_SIGNATURE
  {
    WrittenEnd(w, entries, comment);
    forall i: nat | i < |entries| ensures HeaderStands(Written(w, entries, comment), w, entries, i, decode) {
      WrittenHeader(w, entries, comment, i, decode);
    }
    ChainOfHeaders(Written(w, entries, comment), w, entries, decode);
    if |entries| > 0 {
      EntryReads(w, entries, comment, 0);
      assert entries[..0] == [];
    }
  }

  // ---- which written archives are accepted -------------------------------------------------------------------

  ghost predicate Named(entries: seq<Entry>, decode: Decoder, name: Text) {
    exists i :: 0 <= i < |entries| && decode(entries[i].name) == name
  }

  /** The members' names decide about the directory. */
  ghost predicate GoodNames(entries: seq<Entry>, decode: Decoder) {
    && (forall i, j :: 0 <= i < j < |entries| ==> decode(entries[i].name) != decode(entries[j].name))
    && Named(entries, decode, CONTENT_TYPES)
    && Named(entries, decode, RELATIONSHIPS)
    && Named(entries, decode, WORKBOOK)
  }

  lemma NamesOfChain(
      entries: seq<Entry>, b: seq<Byte>, s: seq<nat>, start: nat, end: nat, decode: Decoder, name: Text)
    requires Chain(b, s, start, end, decode) && |s| == |entries| + 1
    requires forall i :: 0 <= i < |entries| ==> NameAt(b, s, i, start, end, decode) == decode(entries[i].name)
    ensures HasPart(b, s, start, end, decode, name) <==> Named(entries, decode, name)
  {
    if i: nat :| i < |entries| && decode(entries[i].name) == name {
      assert NameAt(b, s, i, start, end, decode) == name;
    }
  }

  lemma ReadableNames(b: seq<Byte>, entries: seq<Entry>, s: seq<nat>, start: nat, end: nat, decode: Decoder)
    requires Chain(b, s, start, end, decode) && |s| == |entries| + 1
    requires forall i :: 0 <= i < |entries| ==> NameAt(b, s, i, start, end, decode) == decode(entries[i].name)
    ensures GoodNames(entries, decode)
       <==> && DistinctNames(b, s, start, end, decode)
            && HasPart(b, s, start, end, decode, CONTENT_TYPES)
            && HasPart(b, s, start, end, decode, RELATIONSHIPS)
            && HasPart(b, s, start, end, decode, WORKBOOK)
  {
    NamesOfChain(entries, b, s, start, end, decode, CONTENT_TYPES);
    NamesOfChain(entries, b, s, start, end, decode, RELATIONSHIPS);
    NamesOfChain(entries, b, s, start, end, decode, WORKBOOK);
  }

  lemma DirectoryIff(
      b: seq<Byte>, entries: seq<Entry>, s: seq<nat>, start: nat, end: nat, comment: seq<Byte>, decode: Decoder)
    requires 1 <= |entries| <= 4_096 && |s| == |entries| + 1 && s[|entries|] == end && start <= end
    requires end + 22 + |comment| == |b| && EndReads(b, end, |entries|, end - start, start, comment)
    requires Chain(b, s, start, end, decode)
    requires forall i :: 0 <= i < |entries| ==> NameAt(b, s, i, start, end, decode) == decode(entries[i].name)
    ensures GoodDirectory(b, end, s, decode) <==> GoodNames(entries, decode)
  {
    ReadableNames(b, entries, s, start, end, decode);
  }

  lemma ReadableDirectoryIff(b: seq<Byte>, w: Writer, entries: seq<Entry>, comment: seq<Byte>, decode: Decoder)
    requires Readable(b, w, entries, comment, decode) && 1 <= |entries| <= 4_096
    ensures GoodDirectory(b, End(w, entries), Offsets(w, entries), decode) <==> GoodNames(entries, decode)
  {
    assert entries[..|entries|] == entries;
    DirectoryIff(b, entries, Offsets(w, entries), |Locals(w, entries)|, End(w, entries), comment, decode);
  }

  lemma OnlyDirectory(b: seq<Byte>, end: nat, s: seq<nat>, decode: Decoder)
    requires end + 22 <= |b| && |s| == Entries(b, end) + 1
    requires Chain(b, s, DirectoryStart(b, end), end, decode)
    ensures HasDirectory(b, end, decode) <==> GoodDirectory(b, end, s, decode)
  {
    forall t | GoodDirectory(b, end, t, decode) ensures s == t {
      SameChain(b, s, t, DirectoryStart(b, end), end, decode);
    }
  }

  /** With the end record found, the directory before it decides. */
  lemma EndRecordDecides(b: seq<Byte>, end: nat, decode: Decoder)
    requires LastEndRecord(b, end)
    ensures CompleteArchive(b, decode)
       <==> |b| <= MAX_EXPORT_BYTES && U32(b, 0) == LOCAL_SIGNATURE && HasDirectory(b, end, decode)
  {
    forall e | LastEndRecord(b, e) ensures e == end {
      OneEndRecord(b, e, end);
    }
  }

  lemma NoDirectory(b: seq<Byte>, end: nat, decode: Decoder)
    requires end + 22 <= |b| && !(1 <= Entries(b, end) <= 4_096)
    ensures !HasDirectory(b, end, decode)
  {
  }

  /** The archive is complete exactly when the members are few enough and well named. */
  lemma ReadableAcceptedIff(b: seq<Byte>, w: Writer, entries: seq<Entry>, comment: seq<Byte>, decode: Decoder)
    requires Readable(b, w, entries, comment, decode) && LastEndRecord(b, End(w, entries))
    requires |entries| > 0 ==> U32(b, 0) == LOCAL_SIGNATURE
    ensures CompleteArchive(b, decode)
       <==> 1 <= |entries| <= 4_096 && |b| <= MAX_EXPORT_BYTES && GoodNames(entries, decode)
  {
    EndRecordDecides(b, End(w, entries), decode);
    if 1 <= |entries| <= 4_096 {
      ReadableDirectoryIff(b, w, entries, comment, decode);
      OnlyDirectory(b, End(w, entries), Offsets(w, entries), decode);
    } else {
      NoDirectory(b, End(w, entries), decode);
    }
  }

  /** Nothing after the end record, in its comment, looks like an end record. */
  ghost predicate QuietComment(w: Writer, entries: seq<Entry>, comment: seq<Byte>) {
    var b := Written(w, entries, comment);
    forall k :: End(w, entries) < k && k + 22 <= |b| ==> U32(b, k) != END_SIGNATURE
  }

  /** Completeness, with its converse: a written archive whose comment does not look like an end
      record is accepted exactly when it has 1 to 4096 members with distinct names, the three
      required ones among them, and is not too large. */
  lemma WrittenAcceptedIff(w: Writer, entries: seq<Entry>, comment: seq<Byte>, decode: Decoder)
    requires Faithful(w) && Fit(w, entries, comment) && QuietComment(w, entries, comment)
    ensures CompleteArchive(Written(w, entries, comment), decode)
       <==> && 1 <= |entries| <= 4_096 && |Written(w, entries, comment)| <= MAX_EXPORT_BYTES
            && GoodNames(entries, decode)
  {
    WrittenIsReadable(w, entries, comment, decode);
    ReadableAcceptedIff(Written(w, entries, comment), w, entries, comment, decode);
  }

  /** In the format, without a comment, nothing else is asked. */
  lemma FormatAcceptedIff(entries: seq<Entry>, decode: Decoder)
    requires Fit(FORMAT, entries, [])
    ensures CompleteArchive(Written(FORMAT, entries, []), decode)
       <==> && 1 <= |entries| <= 4_096 && |Written(FORMAT, entries, [])| <= MAX_EXPORT_BYTES
            && GoodNames(entries, decode)
  {
    FormatIsFaithful();
    WrittenEnd(FORMAT, entries, []);
    WrittenAcceptedIff(FORMAT, entries, [], decode);
  }

  // ---- the format's constants --------------------------------------------------------------------------------

  /** The bytes that the three kinds of records start with: `PK` and two numbers. */
  lemma SignatureBytes(e: Entry, local: nat, entries: nat, length: nat, start: nat, comment: seq<Byte>)
    ensures [0x50, 0x4B, 3, 4] <= LocalRecord(e)
    ensures [0x50, 0x4B, 1, 2] <= CentralHeader(e, local)
    ensures [0x50, 0x4B, 5, 6, 0, 0, 0, 0] <= EndRecord(entries, length, start, comment)
  {
    FourBytes(0x04034b50);
    FourBytes(0x02014b50);
    FourBytes(0x06054b50);
    FourBytes(0);
    assert LocalRecord(e)[..4] == Le32(LOCAL_SIGNATURE);
    assert CentralHeader(e, local)[..4] == Le32(CENTRAL_SIGNATURE);
    assert EndRecord(entries, length, start, comment)[..8] == Le32(END_SIGNATURE) + Le32(0);
  }

  lemma FourBytes(n: nat)
    ensures Le32(n) == [n % 0x100, n / 0x100 % 0x100, n / 0x100 / 0x100 % 0x100, n / 0x100 / 0x100 / 0x100 % 0x100]
  {
    assert Bytes(n, 4) == [n % 0x100] + Bytes(n / 0x100, 3);
    assert Bytes(n / 0x100, 3) == [n / 0x100 % 0x100] + Bytes(n / 0x100 / 0x100, 2);
    assert Bytes(n / 0x100 / 0x100, 2) == [n / 0x100 / 0x100 % 0x100] + Bytes(n / 0x100 / 0x100 / 0x100, 1);
    assert Bytes(n / 0x100 / 0x100 / 0x100, 1) == [n / 0x100 / 0x100 / 0x100 % 0x100] + Bytes(n / 0x100 / 0x100 / 0x100 / 0x100, 0);
  }

  predicate HasMember(entries: seq<Entry>, decode: Decoder, name: string) {
    exists i :: 0 <= i < |entries| && decode(entries[i].name) == Lit(name)
  }

  /** What is asked of a written archive without a comment, with names and numbers written out. */
  lemma AcceptedWrittenOut(entries: seq<Entry>, decode: Decoder)
    requires Fit(FORMAT, entries, [])
    ensures CompleteArchive(Written(FORMAT, entries, []), decode)
       <==> && 1 <= |entries| <= 4096 && |Written(FORMAT, entries, [])| <= 52_428_800
            && (forall i, j :: 0 <= i < j < |entries| ==> decode(entries[i].name) != decode(entries[j].name))
            && HasMember(entries, decode, "[Content_Types].xml") && HasMember(entries, decode, "_rels/.rels")
            && HasMember(entries, decode, "xl/workbook.xml")
  {
    FormatAcceptedIff(entries, decode);
  }
}

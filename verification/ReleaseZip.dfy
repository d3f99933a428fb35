/** The deterministic ZIP writer of the Windows release package, and the strict
    reader that its archives satisfy (PKWARE APPNOTE.TXT sections 4.3.7, 4.3.12
    and 4.3.16). */
module ReleaseZip {
  import opened Prelude
  import opened Bytes
  import Crc32

  const LOCAL_HEADER_SIG: nat := 0x04034b50
  const CENTRAL_HEADER_SIG: nat := 0x02014b50
  const EOCD_SIG: nat := 0x06054b50
  const LOCAL_HEADER_BYTES: nat := 30
  const CENTRAL_HEADER_BYTES: nat := 46
  const EOCD_BYTES: nat := 22
  const VERSION_NEEDED: nat := 20
  const VERSION_MADE_BY: nat := 3 * 256 + 20
  const UTF8_NAMES: nat := 0x0800
  const METHOD_DEFLATE: nat := 8
  const DOS_EPOCH_DATE: nat := 33
  const DOS_EPOCH_TIME: nat := 0
  const MAX_ZIP_ENTRIES: nat := 0xffff
  const MAX_ZIP_BYTES: nat := 0xffffffff
  const MAX_NAME_BYTES: nat := 0xffff

  datatype ZipEntry = ZipEntry(path: string, data: seq<Byte>, mode: nat)

  /** Everything the writer borrows from the host library. */
  datatype Codec = Codec(
    utf8: string -> seq<Byte>,
    fromUtf8: seq<Byte> -> string,
    deflate: seq<Byte> -> seq<Byte>,
    inflate: seq<Byte> -> seq<Byte>)

  datatype ZipError = FieldOverflow | BadArchive | TooManyEntries | EntryTooLarge(path: string)

  datatype CompressedEntry = CompressedEntry(entry: ZipEntry, name: seq<Byte>, compressed: seq<Byte>, crc: nat)

  function Compress(codec: Codec, entry: ZipEntry): CompressedEntry {
    CompressedEntry(entry, codec.utf8(entry.path), codec.deflate(entry.data), Crc32.Value(entry.data))
  }

  function CompressAll(codec: Codec, entries: seq<ZipEntry>): (cs: seq<CompressedEntry>)
    ensures |cs| == |entries| && forall i :: 0 <= i < |entries| ==> cs[i] == Compress(codec, entries[i])
  {
    seq(|entries|, i requires 0 <= i < |entries| => Compress(codec, entries[i]))
  }

  // ---- Fields in a buffer ----

  function Field(buffer: seq<Byte>, offset: nat, width: nat): nat
    requires offset + width <= |buffer|
  {
    FromLittleEndian(buffer[offset..offset + width])
  }

  /** writeUInt16LE and writeUInt32LE: a value too wide for the field throws and
      leaves the buffer alone. */
  method WriteUInt(h: array<Byte>, value: nat, offset: nat, width: nat) returns (ok: bool)
    requires offset + width <= h.Length
    modifies h
    ensures ok <==> value < Pow256(width)
    ensures ok ==> Field(h[..], offset, width) == value
    ensures forall o: nat, w: nat :: o + w <= offset ==> Field(h[..], o, w) == Field(old(h[..]), o, w)
  {
    ok := value < Pow256(width);
    if !ok {
      return;
    }
    var bytes := LittleEndian(value, width);
    for k := 0 to width
      invariant h[offset..offset + k] == bytes[..k]
      invariant forall i :: 0 <= i < h.Length && !(offset <= i < offset + k) ==> h[i] == old(h[i])
    {
      h[offset + k] := bytes[k];
    }
    FieldRoundTrip(value, width);
    assert h[..][offset..offset + width] == bytes;
    forall o: nat, w: nat | o + w <= offset
      ensures Field(h[..], o, w) == Field(old(h[..]), o, w)
    {
      assert h[..][o..o + w] == old(h[..])[o..o + w];
    }
  }

  lemma FieldLimits()
    ensures Pow256(2) == 0x1_0000 && Pow256(4) == 0x1_0000_0000
  {
    assert Pow256(4) == 256 * (256 * Pow256(2));
  }

  lemma Parted(h: seq<Byte>, name: seq<Byte>)
    ensures (h + name)[..|h|] == h && (h + name)[|h|..] == name
  {}

  // ---- The three records ----

  /** What the header fields of an entry can hold. */
  predicate EntryFits(c: CompressedEntry) {
    && c.crc <= 0xffffffff && |c.compressed| <= MAX_ZIP_BYTES && |c.entry.data| <= MAX_ZIP_BYTES
    && |c.name| <= MAX_NAME_BYTES
  }

  /** The nine fields that a local and a central header share, from `at` on. */
  ghost predicate EntryFieldsAt(h: seq<Byte>, at: nat, c: CompressedEntry) {
    && at + 24 <= |h|
    && Field(h, at, 2) == VERSION_NEEDED
    && Field(h, at + 2, 2) == UTF8_NAMES
    && Field(h, at + 4, 2) == METHOD_DEFLATE
    && Field(h, at + 6, 2) == DOS_EPOCH_TIME
    && Field(h, at + 8, 2) == DOS_EPOCH_DATE
    && Field(h, at + 10, 4) == c.crc
    && Field(h, at + 14, 4) == |c.compressed|
    && Field(h, at + 18, 4) == |c.entry.data|
    && Field(h, at + 22, 2) == |c.name|
  }

  /** Section 4.3.7: a local file header. */
  ghost predicate IsLocalHeader(h: seq<Byte>, c: CompressedEntry) {
    && |h| == LOCAL_HEADER_BYTES
    && Field(h, 0, 4) == LOCAL_HEADER_SIG
    && EntryFieldsAt(h, 4, c)
    && Field(h, 28, 2) == 0
  }

  /** A local record that announces `c` and carries its stream. */
  ghost predicate IsLocal(part: seq<Byte>, c: CompressedEntry) {
    && |part| == LocalLength(c)
    && IsLocalHeader(part[..LOCAL_HEADER_BYTES], c)
    && part[LOCAL_HEADER_BYTES..] == c.name + c.compressed
  }

  function LocalLength(c: CompressedEntry): nat {
    LOCAL_HEADER_BYTES + |c.name| + |c.compressed|
  }

  /** The writes at `at` to `at + 22`, the same calls in both header functions. */
  method WriteEntryFields(h: array<Byte>, at: nat, c: CompressedEntry) returns (ok: bool)
    requires at + 24 <= h.Length
    modifies h
    ensures ok <==> EntryFits(c)
    ensures ok ==> EntryFieldsAt(h[..], at, c)
    ensures forall o: nat, w: nat :: o + w <= at ==> Field(h[..], o, w) == Field(old(h[..]), o, w)
  {
    FieldLimits();
    ok := WriteUInt(h, VERSION_NEEDED, at, 2);
    ok := WriteUInt(h, UTF8_NAMES, at + 2, 2);
    ok := WriteUInt(h, METHOD_DEFLATE, at + 4, 2);
    ok := WriteUInt(h, DOS_EPOCH_TIME, at + 6, 2);
    ok := WriteUInt(h, DOS_EPOCH_DATE, at + 8, 2);
    ok := WriteUInt(h, c.crc, at + 10, 4);
    if !ok { return; }
    ok := WriteUInt(h, |c.compressed|, at + 14, 4);
    if !ok { return; }
    ok := WriteUInt(h, |c.entry.data|, at + 18, 4);
    if !ok { return; }
    ok := WriteUInt(h, |c.name|, at + 22, 2);
  }

  method LocalHeader(c: CompressedEntry) returns (r: Result<seq<Byte>, ZipError>)
    ensures r.Success? <==> EntryFits(c)
    ensures r.Success? ==> |r.value| == LOCAL_HEADER_BYTES + |c.name|
    ensures r.Success? ==> IsLocalHeader(r.value[..LOCAL_HEADER_BYTES], c) && r.value[LOCAL_HEADER_BYTES..] == c.name
    ensures r.Failure? ==> r.error == FieldOverflow
  {
    var h := new Byte[LOCAL_HEADER_BYTES](_ => 0);
    FieldLimits();
    var ok := WriteUInt(h, LOCAL_HEADER_SIG, 0, 4);
    ok := WriteEntryFields(h, 4, c);
    if !ok { return Failure(FieldOverflow); }
    ok := WriteUInt(h, 0, 28, 2);
    Parted(h[..], c.name);
    return Success(h[..] + c.name);
  }

  /** `((0o100000 | mode) << 16) >>> 0`: the low sixteen bits of the mode with
      the regular-file bit set, in the high half of the word. */
  function StoredMode(mode: nat): (stored: nat)
    ensures 0x8000 <= stored <= 0xffff && (stored == mode % 0x10000 || stored == mode % 0x10000 + 0x8000)
  {
    var low := mode % 0x10000;
    if low >= 0x8000 then low else low + 0x8000
  }

  /** Section 4.3.12: a central directory header. */
  ghost predicate IsCentralHeader(h: seq<Byte>, c: CompressedEntry, local: nat) {
    && |h| == CENTRAL_HEADER_BYTES
    && Field(h, 0, 4) == CENTRAL_HEADER_SIG
    && Field(h, 4, 2) == VERSION_MADE_BY
    && EntryFieldsAt(h, 6, c)
    && Field(h, 30, 2) == 0
    && Field(h, 32, 2) == 0
    && Field(h, 34, 2) == 0
    && Field(h, 36, 2) == 0
    && Field(h, 38, 4) == StoredMode(c.entry.mode) * 0x10000
    && Field(h, 42, 4) == local
  }

  /** A directory record that describes `c` and points at `local`. */
  ghost predicate IsCentral(part: seq<Byte>, c: CompressedEntry, local: nat) {
    && |part| == CentralLength(c)
    && IsCentralHeader(part[..CENTRAL_HEADER_BYTES], c, local)
    && part[CENTRAL_HEADER_BYTES..] == c.name
  }

  function CentralLength(c: CompressedEntry): nat {
    CENTRAL_HEADER_BYTES + |c.name|
  }

  method CentralHeader(c: CompressedEntry, localOffset: nat) returns (r: Result<seq<Byte>, ZipError>)
    ensures r.Success? <==> EntryFits(c) && localOffset <= MAX_ZIP_BYTES
    ensures r.Success? ==> IsCentral(r.value, c, localOffset)
    ensures r.Failure? ==> r.error == FieldOverflow
  {
    var h := new Byte[CENTRAL_HEADER_BYTES](_ => 0);
    FieldLimits();
    var ok := WriteUInt(h, CENTRAL_HEADER_SIG, 0, 4);
    ok := WriteUInt(h, VERSION_MADE_BY, 4, 2);
    ok := WriteEntryFields(h, 6, c);
    if !ok { return Failure(FieldOverflow); }
    ok := WriteUInt(h, 0, 30, 2);
    ok := WriteUInt(h, 0, 32, 2);
    ok := WriteUInt(h, 0, 34, 2);
    ok := WriteUInt(h, 0, 36, 2);
    ok := WriteUInt(h, StoredMode(c.entry.mode) * 0x10000, 38, 4);
    ok := WriteUInt(h, localOffset, 42, 4);
    if !ok { return Failure(FieldOverflow); }
    Parted(h[..], c.name);
    return Success(h[..] + c.name);
  }

  /** Section 4.3.16: the eight fields of an end record without a comment. */
  ghost predicate IsEnd(h: seq<Byte>, count: nat, cdSize: nat, cdOffset: nat) {
    && |h| == EOCD_BYTES
    && Field(h, 0, 4) == EOCD_SIG
    && Field(h, 4, 2) == 0
    && Field(h, 6, 2) == 0
    && Field(h, 8, 2) == count
    && Field(h, 10, 2) == count
    && Field(h, 12, 4) == cdSize
    && Field(h, 16, 4) == cdOffset
    && Field(h, 20, 2) == 0
  }

  method EndOfCentralDirectory(count: nat, cdSize: nat, cdOffset: nat) returns (r: Result<seq<Byte>, ZipError>)
    ensures r.Success? <==> count <= MAX_ZIP_ENTRIES && cdSize <= MAX_ZIP_BYTES && cdOffset <= MAX_ZIP_BYTES
    ensures r.Success? ==> IsEnd(r.value, count, cdSize, cdOffset)
    ensures r.Failure? ==> r.error == FieldOverflow
  {
    var h := new Byte[EOCD_BYTES](_ => 0);
    FieldLimits();
    var ok := WriteUInt(h, EOCD_SIG, 0, 4);
    ok := WriteUInt(h, 0, 4, 2);
    ok := WriteUInt(h, 0, 6, 2);
    ok := WriteUInt(h, count, 8, 2);
    if !ok { return Failure(FieldOverflow); }
    ok := WriteUInt(h, count, 10, 2);
    ok := WriteUInt(h, cdSize, 12, 4);
    if !ok { return Failure(FieldOverflow); }
    ok := WriteUInt(h, cdOffset, 16, 4);
    if !ok { return Failure(FieldOverflow); }
    ok := WriteUInt(h, 0, 20, 2);
    return Success(h[..]);
  }

  // ---- The writer ----

  function LocalLengths(cs: seq<CompressedEntry>): (lengths: seq<nat>)
    ensures |lengths| == |cs| && forall i :: 0 <= i < |cs| ==> lengths[i] == LocalLength(cs[i])
  {
    seq(|cs|, i requires 0 <= i < |cs| => LocalLength(cs[i]))
  }

  function CentralLengths(cs: seq<CompressedEntry>): (lengths: seq<nat>)
    ensures |lengths| == |cs| && forall i :: 0 <= i < |cs| ==> lengths[i] == CentralLength(cs[i])
  {
    seq(|cs|, i requires 0 <= i < |cs| => CentralLength(cs[i]))
  }

  function LocalStarts(cs: seq<CompressedEntry>): (starts: seq<nat>)
    ensures |starts| == |cs| + 1 && starts[0] == 0
  {
    Running(0, LocalLengths(cs))
  }

  /** Where the directory starts: right behind the last local record. */
  function DirectoryStart(cs: seq<CompressedEntry>): nat {
    LocalStarts(cs)[|cs|]
  }

  function CentralStarts(cs: seq<CompressedEntry>): (starts: seq<nat>)
    ensures |starts| == |cs| + 1 && starts[0] == DirectoryStart(cs)
  {
    Running(DirectoryStart(cs), CentralLengths(cs))
  }

  /** Exactly the archives that the classic, pre-Zip64 fields can describe. */
  ghost predicate Representable(cs: seq<CompressedEntry>) {
    && |cs| <= MAX_ZIP_ENTRIES
    && (forall c :: c in cs ==> EntryFits(c))
    && DirectoryStart(cs) <= MAX_ZIP_BYTES
    && CentralStarts(cs)[|cs|] - DirectoryStart(cs) <= MAX_ZIP_BYTES
  }

  ghost predicate LocalAt(bytes: seq<Byte>, from: nat, to: nat, c: CompressedEntry) {
    from <= to <= |bytes| && IsLocal(bytes[from..to], c)
  }

  ghost predicate CentralAt(bytes: seq<Byte>, from: nat, to: nat, c: CompressedEntry, local: nat) {
    from <= to <= |bytes| && IsCentral(bytes[from..to], c, local)
  }

  /** A finished archive. The local records tile the file from its start, the
      directory records follow without a gap, the end record closes it, and every
      directory record points at its own local record. */
  ghost predicate Tiles(cs: seq<CompressedEntry>, bytes: seq<Byte>) {
    var n, local, at := |cs|, LocalStarts(cs), CentralStarts(cs);
    && at[n] + EOCD_BYTES == |bytes|
    && (forall i :: 0 <= i < n ==> LocalAt(bytes, local[i], local[i + 1], cs[i]))
    && (forall i :: 0 <= i < n ==> CentralAt(bytes, at[i], at[i + 1], cs[i], local[i]))
    && local[n] <= at[n]
    && IsEnd(bytes[at[n]..], n, at[n] - local[n], local[n])
  }

  ghost predicate AreLocals(parts: seq<seq<Byte>>, cs: seq<CompressedEntry>) {
    |parts| == |cs| && forall i :: 0 <= i < |cs| ==> IsLocal(parts[i], cs[i])
  }

  ghost predicate AreCentrals(parts: seq<seq<Byte>>, cs: seq<CompressedEntry>, offsets: seq<nat>) {
    |parts| == |cs| <= |offsets| && forall i :: 0 <= i < |cs| ==> IsCentral(parts[i], cs[i], offsets[i])
  }

  method BuildLocals(cs: seq<CompressedEntry>) returns (r: Result<seq<seq<Byte>>, ZipError>)
    ensures r.Success? <==> forall c :: c in cs ==> EntryFits(c)
    ensures r.Success? ==> AreLocals(r.value, cs)
    ensures r.Failure? ==> r.error == FieldOverflow
  {
    var locals := [];
    for i := 0 to |cs|
      invariant |locals| == i
      invariant forall k :: 0 <= k < i ==> EntryFits(cs[k]) && IsLocal(locals[k], cs[k])
    {
      var header := LocalHeader(cs[i]);
      if header.Failure? {
        return Failure(header.error);
      }
      LocalRecord(header.value, cs[i]);
      locals := locals + [header.value + cs[i].compressed];
    }
    return Success(locals);
  }

  lemma LocalRecord(header: seq<Byte>, c: CompressedEntry)
    requires |header| == LOCAL_HEADER_BYTES + |c.name|
    requires IsLocalHeader(header[..LOCAL_HEADER_BYTES], c) && header[LOCAL_HEADER_BYTES..] == c.name
    ensures IsLocal(header + c.compressed, c)
  {
    var part := header + c.compressed;
    assert part[..LOCAL_HEADER_BYTES] == header[..LOCAL_HEADER_BYTES];
    assert part[LOCAL_HEADER_BYTES..] == header[LOCAL_HEADER_BYTES..] + c.compressed;
  }

  /** The reduce that carries each local record's offset. */
  method RunningOffsets(locals: seq<seq<Byte>>) returns (offsets: seq<nat>)
    ensures offsets == Running(0, Lengths(locals))
  {
    offsets := [0];
    for i := 0 to |locals|
      invariant |offsets| == i + 1 && offsets[0] == 0
      invariant forall k :: 0 <= k < i ==> offsets[k + 1] == offsets[k] + |locals[k]|
    {
      offsets := offsets + [offsets[|offsets| - 1] + |locals[i]|];
    }
    RunningOnly(0, Lengths(locals), offsets);
  }

  method BuildCentrals(cs: seq<CompressedEntry>, offsets: seq<nat>) returns (r: Result<seq<seq<Byte>>, ZipError>)
    requires |offsets| == |cs| + 1
    ensures r.Success? <==> (forall i :: 0 <= i < |cs| ==> EntryFits(cs[i]) && offsets[i] <= MAX_ZIP_BYTES)
    ensures r.Success? ==> AreCentrals(r.value, cs, offsets)
    ensures r.Failure? ==> r.error == FieldOverflow
  {
    var centrals := [];
    for i := 0 to |cs|
      invariant |centrals| == i
      invariant forall k :: 0 <= k < i ==> EntryFits(cs[k]) && offsets[k] <= MAX_ZIP_BYTES
      invariant forall k :: 0 <= k < i ==> IsCentral(centrals[k], cs[k], offsets[k])
    {
      var header := CentralHeader(cs[i], offsets[i]);
      if header.Failure? {
        return Failure(header.error);
      }
      centrals := centrals + [header.value];
    }
    return Success(centrals);
  }

  /** Header, directory and end record for entries already compressed. */
  method Assemble(cs: seq<CompressedEntry>) returns (r: Result<seq<Byte>, ZipError>)
    ensures r.Success? <==> Representable(cs)
    ensures r.Success? ==> Tiles(cs, r.value)
    ensures r.Failure? ==> r.error == FieldOverflow
  {
    var locals :- BuildLocals(cs);
    var offsets := RunningOffsets(locals);
    LengthsAgree(cs, locals);
    OffsetsFit(cs);
    var centrals :- BuildCentrals(cs, offsets);
    CentralLengthsAgree(cs, centrals);
    var end :- EndOfCentralDirectory(|cs|, |Flatten(centrals)|, offsets[|offsets| - 1]);
    PartsTile(cs, locals, centrals, end);
    return Success(Flatten(locals) + Flatten(centrals) + end);
  }

  method BuildZipBytes(codec: Codec, entries: seq<ZipEntry>) returns (r: Result<seq<Byte>, ZipError>)
    ensures r.Success? <==> Representable(CompressAll(codec, entries))
    ensures r.Success? ==> Tiles(CompressAll(codec, entries), r.value)
    ensures r.Success? && Inverts(codec, entries) ==> ReadZip(codec, r.value) == Success(AsMembers(entries))
    ensures r.Failure? ==> r.error == FieldOverflow
  {
    r := Assemble(CompressAll(codec, entries));
    if r.Success? && Inverts(codec, entries) {
      TiledReads(codec, entries, r.value);
    }
  }

  lemma LengthsAgree(cs: seq<CompressedEntry>, locals: seq<seq<Byte>>)
    requires AreLocals(locals, cs)
    ensures Running(0, Lengths(locals)) == LocalStarts(cs) && |Flatten(locals)| == DirectoryStart(cs)
  {
    forall i | 0 <= i < |cs|
      ensures Lengths(locals)[i] == LocalLengths(cs)[i]
    {
      assert IsLocal(locals[i], cs[i]);
    }
    assert Lengths(locals) == LocalLengths(cs);
    FlattenLength(0, locals);
  }

  lemma CentralLengthsAgree(cs: seq<CompressedEntry>, centrals: seq<seq<Byte>>)
    requires AreCentrals(centrals, cs, LocalStarts(cs))
    ensures Running(DirectoryStart(cs), Lengths(centrals)) == CentralStarts(cs)
    ensures CentralStarts(cs)[|cs|] == DirectoryStart(cs) + |Flatten(centrals)|
  {
    forall i | 0 <= i < |cs|
      ensures Lengths(centrals)[i] == CentralLengths(cs)[i]
    {
      assert IsCentral(centrals[i], cs[i], LocalStarts(cs)[i]);
    }
    assert Lengths(centrals) == CentralLengths(cs);
    FlattenLength(DirectoryStart(cs), centrals);
  }

  /** No local offset is wider than the directory's own. */
  lemma OffsetsFit(cs: seq<CompressedEntry>)
    ensures DirectoryStart(cs) <= MAX_ZIP_BYTES ==> forall i :: 0 <= i < |cs| ==> LocalStarts(cs)[i] <= MAX_ZIP_BYTES
  {
    forall i | 0 <= i < |cs|
      ensures LocalStarts(cs)[i] <= DirectoryStart(cs)
    {
      RunningGrows(0, LocalLengths(cs), i, |cs|);
    }
  }

  lemma PartsTile(cs: seq<CompressedEntry>, locals: seq<seq<Byte>>, centrals: seq<seq<Byte>>, end: seq<Byte>)
    requires AreLocals(locals, cs) && AreCentrals(centrals, cs, LocalStarts(cs))
    requires IsEnd(end, |cs|, |Flatten(centrals)|, DirectoryStart(cs))
    ensures Tiles(cs, Flatten(locals) + Flatten(centrals) + end)
  {
    var before, middle := Flatten(locals), Flatten(centrals);
    LengthsAgree(cs, locals);
    CentralLengthsAgree(cs, centrals);
    forall i | 0 <= i < |cs|
      ensures LocalAt(before + middle + end, LocalStarts(cs)[i], LocalStarts(cs)[i + 1], cs[i])
    {
      LocalLies(cs[i], locals, middle, end, i);
    }
    forall i | 0 <= i < |cs|
      ensures CentralAt(before + middle + end, CentralStarts(cs)[i], CentralStarts(cs)[i + 1], cs[i],
        LocalStarts(cs)[i])
    {
      PartsLie(before, centrals, end, i);
    }
    Parted(before + middle, end);
  }

  lemma LocalLies(c: CompressedEntry, locals: seq<seq<Byte>>, middle: seq<Byte>, end: seq<Byte>, i: nat)
    requires i < |locals| && IsLocal(locals[i], c)
    ensures var starts := Running(0, Lengths(locals));
      LocalAt(Flatten(locals) + middle + end, starts[i], starts[i + 1], c)
  {
    PartsLie([], locals, middle + end, i);
    Nest(Flatten(locals), middle, end);
    assert [] + Flatten(locals) == Flatten(locals);
  }

  // ---- The reader ----

  /** What a strict reader recovers for one member. */
  datatype Member = Member(path: string, data: seq<Byte>, crc: nat, mode: nat)

  function Slice(bytes: seq<Byte>, at: nat, length: nat): Result<seq<Byte>, ZipError> {
    if at + length <= |bytes| then Success(bytes[at..at + length]) else Failure(BadArchive)
  }

  /** The local record at `at` must repeat its central record's fields and name
      and is followed at once by the compressed stream. */
  function ReadLocal(bytes: seq<Byte>, at: nat, name: seq<Byte>, crc: nat, packed: nat, size: nat)
    : Result<seq<Byte>, ZipError>
  {
    var h :- Slice(bytes, at, LOCAL_HEADER_BYTES);
    if !(&& Field(h, 0, 4) == LOCAL_HEADER_SIG && Field(h, 6, 2) == UTF8_NAMES && Field(h, 8, 2) == METHOD_DEFLATE
         && Field(h, 14, 4) == crc && Field(h, 18, 4) == packed && Field(h, 22, 4) == size
         && Field(h, 26, 2) == |name| && Field(h, 28, 2) == 0) then Failure(BadArchive) else
    var localName :- Slice(bytes, at + LOCAL_HEADER_BYTES, |name|);
    if localName != name then Failure(BadArchive) else
    Slice(bytes, at + LOCAL_HEADER_BYTES + |name|, packed)
  }

  /** What a directory record says about its member. */
  datatype Directory = Directory(crc: nat, packed: nat, size: nat, nameLength: nat, mode: nat)

  function ParseCentral(h: seq<Byte>, local: nat): Result<Directory, ZipError>
    requires |h| == CENTRAL_HEADER_BYTES
  {
    if && Field(h, 0, 4) == CENTRAL_HEADER_SIG && Field(h, 8, 2) == UTF8_NAMES && Field(h, 10, 2) == METHOD_DEFLATE
       && Field(h, 30, 2) == 0 && Field(h, 32, 2) == 0 && Field(h, 42, 4) == local
    then Success(Directory(Field(h, 16, 4), Field(h, 20, 4), Field(h, 24, 4), Field(h, 28, 2),
      Field(h, 38, 4) / 0x10000))
    else Failure(BadArchive)
  }

  /** A member and the lengths that say where the next records start. */
  datatype Found = Found(member: Member, nameLength: nat, packed: nat)

  /** The central record at `at`, whose local record must start at `local`. */
  function ReadMember(codec: Codec, bytes: seq<Byte>, at: nat, local: nat): Result<Found, ZipError> {
    var h :- Slice(bytes, at, CENTRAL_HEADER_BYTES);
    var d :- ParseCentral(h, local);
    var name :- Slice(bytes, at + CENTRAL_HEADER_BYTES, d.nameLength);
    var stream :- ReadLocal(bytes, local, name, d.crc, d.packed, d.size);
    var data := codec.inflate(stream);
    if |data| != d.size || Crc32.Value(data) != d.crc then Failure(BadArchive) else
    Success(Found(Member(codec.fromUtf8(name), data, d.crc, d.mode), d.nameLength, d.packed))
  }

  /** `count` central records from `at`, ending exactly at `end`; their local
      records start at `local` and leave no gap before `directory`. */
  function Walk(read: (nat, nat) -> Result<Found, ZipError>, at: nat, end: nat, local: nat, directory: nat, count: nat)
    : Result<seq<Member>, ZipError>
    decreases count
  {
    if count == 0 then (if at == end && local == directory then Success([]) else Failure(BadArchive)) else
    var found :- read(at, local);
    var rest :- Walk(read, at + CENTRAL_HEADER_BYTES + found.nameLength, end,
      local + LOCAL_HEADER_BYTES + found.nameLength + found.packed, directory, count - 1);
    Success([found.member] + rest)
  }

  /** The end record closes the file, the directory ends at the end record, and
      the local records fill everything before the directory. */
  function ReadZip(codec: Codec, bytes: seq<Byte>): Result<seq<Member>, ZipError> {
    if |bytes| < EOCD_BYTES then Failure(BadArchive) else
    var at := |bytes| - EOCD_BYTES;
    var end :- ReadEnd(bytes[at..]);
    if end.cdOffset + end.cdSize != at then Failure(BadArchive) else
    Walk(Reader(codec, bytes), end.cdOffset, at, 0, end.cdOffset, end.count)
  }

  function Reader(codec: Codec, bytes: seq<Byte>): (nat, nat) -> Result<Found, ZipError> {
    (at: nat, local: nat) => ReadMember(codec, bytes, at, local)
  }

  datatype End = End(count: nat, cdSize: nat, cdOffset: nat)

  function ReadEnd(h: seq<Byte>): Result<End, ZipError>
    requires |h| == EOCD_BYTES
  {
    if Field(h, 0, 4) == EOCD_SIG && Field(h, 10, 2) == Field(h, 8, 2) && Field(h, 20, 2) == 0
    then Success(End(Field(h, 8, 2), Field(h, 12, 4), Field(h, 16, 4)))
    else Failure(BadArchive)
  }

  // ---- Round trip ----

  function AsMember(e: ZipEntry): Member {
    Member(e.path, e.data, Crc32.Value(e.data), StoredMode(e.mode))
  }

  function AsMembers(entries: seq<ZipEntry>): (members: seq<Member>)
    ensures |members| == |entries| && forall i :: 0 <= i < |entries| ==> members[i] == AsMember(entries[i])
  {
    seq(|entries|, i requires 0 <= i < |entries| => AsMember(entries[i]))
  }

  /** The library really inverts on these entries. */
  ghost predicate Inverts(codec: Codec, entries: seq<ZipEntry>) {
    forall e :: e in entries ==>
      codec.fromUtf8(codec.utf8(e.path)) == e.path && codec.inflate(codec.deflate(e.data)) == e.data
  }

  lemma LocalReads(c: CompressedEntry, bytes: seq<Byte>, from: nat, to: nat)
    requires LocalAt(bytes, from, to, c)
    ensures ReadLocal(bytes, from, c.name, c.crc, |c.compressed|, |c.entry.data|) == Success(c.compressed)
    ensures to == from + LocalLength(c)
  {
    var part := bytes[from..to];
    var names := from + LOCAL_HEADER_BYTES;
    var stream := names + |c.name|;
    SliceOfSlice(bytes, from, to, from, names);
    SliceOfSlice(bytes, from, to, names, to);
    assert part[LOCAL_HEADER_BYTES..] == bytes[names..to];
    SliceOfSlice(bytes, names, to, names, stream);
    SliceOfSlice(bytes, names, to, stream, to);
    Parted(c.name, c.compressed);
  }

  lemma CentralParses(h: seq<Byte>, c: CompressedEntry, local: nat)
    requires IsCentralHeader(h, c, local)
    ensures ParseCentral(h, local)
      == Success(Directory(c.crc, |c.compressed|, |c.entry.data|, |c.name|, StoredMode(c.entry.mode)))
  {}

  /** One directory record with its local record in place reads as its entry. */
  lemma MemberReads(codec: Codec, c: CompressedEntry, bytes: seq<Byte>, from: nat, to: nat, local: nat)
    requires CentralAt(bytes, from, to, c, local)
    requires ReadLocal(bytes, local, c.name, c.crc, |c.compressed|, |c.entry.data|) == Success(c.compressed)
    requires codec.fromUtf8(c.name) == c.entry.path && codec.inflate(c.compressed) == c.entry.data
    requires c.crc == Crc32.Value(c.entry.data)
    ensures Reader(codec, bytes)(from, local) == Success(Found(AsMember(c.entry), |c.name|, |c.compressed|))
    ensures to == from + CentralLength(c)
  {
    var part := bytes[from..to];
    CentralParses(part[..CENTRAL_HEADER_BYTES], c, local);
    assert bytes[from..from + CENTRAL_HEADER_BYTES] == part[..CENTRAL_HEADER_BYTES];
    assert bytes[from + CENTRAL_HEADER_BYTES..to] == part[CENTRAL_HEADER_BYTES..] == c.name;
  }

  /** A member reads from a directory record at `at` and a local record at
      `local`, and reports the lengths that lead to the next two records. */
  ghost predicate EntryReads(read: (nat, nat) -> Result<Found, ZipError>, m: Member, at: nat, nextAt: nat, local: nat,
      nextLocal: nat)
  {
    var r := read(at, local);
    && r.Success? && r.value.member == m
    && nextAt == at + CENTRAL_HEADER_BYTES + r.value.nameLength
    && nextLocal == local + LOCAL_HEADER_BYTES + r.value.nameLength + r.value.packed
  }

  /** From entry `i` on, the directory walk recovers the remaining entries and
      lands exactly on the end record and on the directory's own start. */
  lemma {:induction false} WalkReads(read: (nat, nat) -> Result<Found, ZipError>, members: seq<Member>,
      local: seq<nat>, at: seq<nat>, i: nat)
    requires |local| == |at| == |members| + 1 && i <= |members|
    requires forall k :: 0 <= k < |members| ==> EntryReads(read, members[k], at[k], at[k + 1], local[k], local[k + 1])
    ensures var n := |members|;
      Walk(read, at[i], at[n], local[i], local[n], n - i) == Success(members[i..])
    decreases |members| - i
  {
    if i < |members| {
      WalkReads(read, members, local, at, i + 1);
      assert members[i..] == [members[i]] + members[i + 1..];
    }
  }

  lemma EntryIsRead(codec: Codec, entries: seq<ZipEntry>, bytes: seq<Byte>, i: nat)
    requires Tiles(CompressAll(codec, entries), bytes) && Inverts(codec, entries) && i < |entries|
    ensures var cs := CompressAll(codec, entries);
      EntryReads(Reader(codec, bytes), AsMembers(entries)[i], CentralStarts(cs)[i], CentralStarts(cs)[i + 1],
        LocalStarts(cs)[i], LocalStarts(cs)[i + 1])
  {
    var cs := CompressAll(codec, entries);
    assert entries[i] in entries;
    LocalReads(cs[i], bytes, LocalStarts(cs)[i], LocalStarts(cs)[i + 1]);
    MemberReads(codec, cs[i], bytes, CentralStarts(cs)[i], CentralStarts(cs)[i + 1], LocalStarts(cs)[i]);
  }

  /** A tiled archive reads back as its entries, in order, with no byte left over. */
  lemma TiledReads(codec: Codec, entries: seq<ZipEntry>, bytes: seq<Byte>)
    requires Tiles(CompressAll(codec, entries), bytes) && Inverts(codec, entries)
    ensures ReadZip(codec, bytes) == Success(AsMembers(entries))
  {
    var cs, members := CompressAll(codec, entries), AsMembers(entries);
    var local, at := LocalStarts(cs), CentralStarts(cs);
    forall i | 0 <= i < |members|
      ensures EntryReads(Reader(codec, bytes), members[i], at[i], at[i + 1], local[i], local[i + 1])
    {
      EntryIsRead(codec, entries, bytes, i);
    }
    WalkReads(Reader(codec, bytes), members, local, at, 0);
    assert members[0..] == members;
  }

  // ---- The archive is a function of its entries ----

  lemma {:induction false} LittleEndianOnly(a: seq<Byte>, b: seq<Byte>)
    requires |a| == |b| && FromLittleEndian(a) == FromLittleEndian(b)
    ensures a == b
    decreases |a|
  {
    if a != [] {
      LittleEndianOnly(a[1..], b[1..]);
      assert a == [a[0]] + a[1..] && b == [b[0]] + b[1..];
    }
  }

  /** `a` and `b` agree up to `to` once they agree up to `from` and in one field. */
  lemma FieldExtends(a: seq<Byte>, b: seq<Byte>, from: nat, width: nat)
    requires |a| == |b| && from + width <= |a| && a[..from] == b[..from]
    requires Field(a, from, width) == Field(b, from, width)
    ensures a[..from + width] == b[..from + width]
  {
    LittleEndianOnly(a[from..from + width], b[from..from + width]);
    assert a[..from + width] == a[..from] + a[from..from + width];
    assert b[..from + width] == b[..from] + b[from..from + width];
  }

  lemma EntryFieldsExtend(a: seq<Byte>, b: seq<Byte>, at: nat, c: CompressedEntry)
    requires |a| == |b| && EntryFieldsAt(a, at, c) && EntryFieldsAt(b, at, c) && a[..at] == b[..at]
    ensures a[..at + 24] == b[..at + 24]
  {
    FieldExtends(a, b, at, 2);
    FieldExtends(a, b, at + 2, 2);
    FieldExtends(a, b, at + 4, 2);
    FieldExtends(a, b, at + 6, 2);
    FieldExtends(a, b, at + 8, 2);
    FieldExtends(a, b, at + 10, 4);
    FieldExtends(a, b, at + 14, 4);
    FieldExtends(a, b, at + 18, 4);
    FieldExtends(a, b, at + 22, 2);
  }

  lemma LocalOnly(a: seq<Byte>, b: seq<Byte>, c: CompressedEntry)
    requires IsLocal(a, c) && IsLocal(b, c)
    ensures a == b
  {
    var h, k := a[..LOCAL_HEADER_BYTES], b[..LOCAL_HEADER_BYTES];
    FieldExtends(h, k, 0, 4);
    EntryFieldsExtend(h, k, 4, c);
    FieldExtends(h, k, 28, 2);
    assert h == h[..30] && k == k[..30];
    assert a == h + a[LOCAL_HEADER_BYTES..] && b == k + b[LOCAL_HEADER_BYTES..];
  }

  lemma CentralOnly(a: seq<Byte>, b: seq<Byte>, c: CompressedEntry, local: nat)
    requires IsCentral(a, c, local) && IsCentral(b, c, local)
    ensures a == b
  {
    var h, k := a[..CENTRAL_HEADER_BYTES], b[..CENTRAL_HEADER_BYTES];
    FieldExtends(h, k, 0, 4);
    FieldExtends(h, k, 4, 2);
    EntryFieldsExtend(h, k, 6, c);
    FieldExtends(h, k, 30, 2);
    FieldExtends(h, k, 32, 2);
    FieldExtends(h, k, 34, 2);
    FieldExtends(h, k, 36, 2);
    FieldExtends(h, k, 38, 4);
    FieldExtends(h, k, 42, 4);
    assert h == h[..46] && k == k[..46];
    assert a == h + a[CENTRAL_HEADER_BYTES..] && b == k + b[CENTRAL_HEADER_BYTES..];
  }

  lemma EndOnly(a: seq<Byte>, b: seq<Byte>, count: nat, cdSize: nat, cdOffset: nat)
    requires IsEnd(a, count, cdSize, cdOffset) && IsEnd(b, count, cdSize, cdOffset)
    ensures a == b
  {
    FieldExtends(a, b, 0, 4);
    FieldExtends(a, b, 4, 2);
    FieldExtends(a, b, 6, 2);
    FieldExtends(a, b, 8, 2);
    FieldExtends(a, b, 10, 2);
    FieldExtends(a, b, 12, 4);
    FieldExtends(a, b, 16, 4);
    FieldExtends(a, b, 20, 2);
    assert a == a[..22] && b == b[..22];
  }

  ghost predicate AgreeTo(a: seq<Byte>, b: seq<Byte>, n: nat) {
    n <= |a| && n <= |b| && a[..n] == b[..n]
  }

  lemma PieceExtends(a: seq<Byte>, b: seq<Byte>, from: nat, to: nat)
    requires |a| == |b| && from <= to <= |a| && AgreeTo(a, b, from) && a[from..to] == b[from..to]
    ensures AgreeTo(a, b, to)
  {
    assert a[..to] == a[..from] + a[from..to] && b[..to] == b[..from] + b[from..to];
  }

  lemma {:induction false} LocalsOnly(cs: seq<CompressedEntry>, a: seq<Byte>, b: seq<Byte>, n: nat)
    requires Tiles(cs, a) && Tiles(cs, b) && n <= |cs|
    ensures AgreeTo(a, b, LocalStarts(cs)[n])
  {
    if n > 0 {
      LocalsOnly(cs, a, b, n - 1);
      var from, to := LocalStarts(cs)[n - 1], LocalStarts(cs)[n];
      assert LocalAt(a, from, LocalStarts(cs)[n - 1 + 1], cs[n - 1]) && LocalAt(b, from, to, cs[n - 1]);
      LocalOnly(a[from..to], b[from..to], cs[n - 1]);
      PieceExtends(a, b, from, to);
    }
  }

  lemma {:induction false} CentralsOnly(cs: seq<CompressedEntry>, a: seq<Byte>, b: seq<Byte>, n: nat)
    requires Tiles(cs, a) && Tiles(cs, b) && n <= |cs|
    ensures AgreeTo(a, b, CentralStarts(cs)[n])
  {
    if n == 0 {
      LocalsOnly(cs, a, b, |cs|);
    } else {
      CentralsOnly(cs, a, b, n - 1);
      var from, to, local := CentralStarts(cs)[n - 1], CentralStarts(cs)[n], LocalStarts(cs)[n - 1];
      assert CentralAt(a, from, CentralStarts(cs)[n - 1 + 1], cs[n - 1], local)
        && CentralAt(b, from, to, cs[n - 1], local);
      CentralOnly(a[from..to], b[from..to], cs[n - 1], local);
      PieceExtends(a, b, from, to);
    }
  }

  /** The release archive is deterministic: tiling fixes every byte of it. */
  lemma OneArchive(cs: seq<CompressedEntry>, a: seq<Byte>, b: seq<Byte>)
    requires Tiles(cs, a) && Tiles(cs, b)
    ensures a == b
  {
    CentralsOnly(cs, a, b, |cs|);
    var from := CentralStarts(cs)[|cs|];
    EndOnly(a[from..], b[from..], |cs|, from - DirectoryStart(cs), DirectoryStart(cs));
    assert a == a[..from] + a[from..] && b == b[..from] + b[from..];
  }

  // ---- The caller's guard ----

  method AssertZipLimits(entries: seq<ZipEntry>) returns (r: Result<(), ZipError>)
    ensures r.Success? <==> WithinLimits(entries)
    ensures r.Failure? ==> (r.error == TooManyEntries <==> |entries| > MAX_ZIP_ENTRIES)
    ensures r.Failure? && |entries| <= MAX_ZIP_ENTRIES ==>
      exists i: nat :: FirstOversized(entries, i) && r.error == EntryTooLarge(entries[i].path)
  {
    if |entries| > MAX_ZIP_ENTRIES {
      return Failure(TooManyEntries);
    }
    for i := 0 to |entries|
      invariant forall k :: 0 <= k < i ==> |entries[k].data| <= MAX_ZIP_BYTES
    {
      if |entries[i].data| > MAX_ZIP_BYTES {
        assert FirstOversized(entries, i);
        return Failure(EntryTooLarge(entries[i].path));
      }
    }
    return Success(());
  }

  ghost predicate FirstOversized(entries: seq<ZipEntry>, i: nat) {
    i < |entries| && |entries[i].data| > MAX_ZIP_BYTES && forall k :: 0 <= k < i ==> |entries[k].data| <= MAX_ZIP_BYTES
  }

  predicate WithinLimits(entries: seq<ZipEntry>) {
    |entries| <= MAX_ZIP_ENTRIES && forall i :: 0 <= i < |entries| ==> |entries[i].data| <= MAX_ZIP_BYTES
  }

  /** The guard is necessary: nothing it refuses could have been written. */
  lemma LimitsNecessary(codec: Codec, entries: seq<ZipEntry>)
    requires Representable(CompressAll(codec, entries))
    ensures WithinLimits(entries)
  {
    forall i | 0 <= i < |entries|
      ensures |entries[i].data| <= MAX_ZIP_BYTES
    {
      assert CompressAll(codec, entries)[i] in CompressAll(codec, entries);
    }
  }

  /** It is not sufficient: one empty file whose name takes 65536 bytes passes
      the guard, and writing it throws. */
  lemma LimitsMissLongNames(codec: Codec, path: string)
    requires |codec.utf8(path)| == MAX_NAME_BYTES + 1
    ensures var entries := [ZipEntry(path, [], 0x1a4)];
      WithinLimits(entries) && !Representable(CompressAll(codec, entries))
  {
    var cs := CompressAll(codec, [ZipEntry(path, [], 0x1a4)]);
    assert cs[0] in cs && !EntryFits(cs[0]);
  }
}

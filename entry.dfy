/**
 * One archive member (the `Entry` class of src/zip.js): its metadata, the
 * two ways it is created for the buffered builder, the DOS date and time
 * words, and the encoders of its local file header and its central
 * directory file header (sections 4.3.7 and 4.3.12 of the PKWARE .ZIP File
 * Format Specification, APPNOTE.TXT).
 *
 * Each encoder writes a fixed-size buffer through `DataView`; several fields
 * (compression method, versions, CRC-32, external attributes) are written
 * with the big-endian default, and the contracts state the bytes that result
 * and what a little-endian ZIP reader recovers from them.
 */
module Entries {
  import opened Seqs
  import opened Bytes
  import opened Wrappers

  const LocalFileHeaderLength: int := 30
  const CentralDirectoryFileHeaderLength: int := 46

  /** General purpose bit 11: the name is UTF-8 (APPNOTE.TXT section 4.4.4). */
  const Utf8NameFlag: int := 0x0800
  /** General purpose bit 3: crc and sizes follow in a data descriptor. */
  const DataDescriptorFlag: int := 0x0008

  /** Compression method as the source stores it, then writes big-endian. */
  const DeflateMethod: int := 0x0800
  const StoredMethod: int := 0

  /** External attributes as the source stores them, then writes big-endian. */
  const FileAttributes: int := 0x0000_A481
  const FolderAttributes: int := 0x0000_ED41

  /** The signature that opens every local file header. */
  const LocalFileHeaderSignature: seq<byte> := [0x50, 0x4B, 0x03, 0x04]

  /** The character '/' in UTF-8. */
  const Slash: byte := 0x2F

  /**
   * The values of a `Date`'s local getters: `getFullYear()`, `getMonth()`
   * (zero-based), `getDate()`, `getHours()`, `getMinutes()`, `getSeconds()`.
   */
  datatype DateTime = DateTime(fullYear: int, month: int, date: int, hours: int, minutes: int, seconds: int)

  /**
   * An archive member.  `encodedName` is the UTF-8 name; `compressedData` is
   * present only for an entry made from a whole buffer and not yet purged.
   * `localFileHeaderOffset` is 0 until it is assigned: the source leaves the
   * property undefined, which `setUint32` stores as 0.
   */
  datatype Entry = Entry(
    encodedName: seq<byte>,
    timeStamp: DateTime,
    uncompressedByteSize: int,
    compressedByteSize: int,
    crc32: int,
    compressionMethod: int,
    externalFileAttributes: int,
    localFileHeaderOffset: int,
    compressedData: Option<seq<byte>>)

  predicate ValidDate(t: DateTime)
  {
    1980 <= t.fullYear <= 2107 && 0 <= t.month <= 11 && 1 <= t.date <= 31
  }

  predicate ValidTime(t: DateTime)
  {
    0 <= t.hours <= 23 && 0 <= t.minutes <= 59 && 0 <= t.seconds <= 59
  }

  /**
   * The `dateWord` getter.  JavaScript's `<<` wraps at 32 bits, but the word
   * is only ever stored through `setUint16`, which keeps it modulo 2^16, so
   * the unbounded value below gives the same stored bytes for every input.
   * On the DOS range it decodes back as a ZIP reader does (APPNOTE.TXT section 4.4.6).
   */
  function DateWord(t: DateTime): (w: int)
    ensures ValidDate(t) ==>
      && 0 <= w < TWO16
      && w / 0x200 + 1980 == t.fullYear
      && (w / 0x20) % 0x10 == t.month + 1
      && w % 0x20 == t.date
  {
    var w := (t.fullYear - 1980) * 0x200 + (t.month + 1) * 0x20 + t.date;
    if ValidDate(t) then
      DateFields(w, t.fullYear - 1980, t.month + 1, t.date);
      w
    else w
  }

  /** The `timeWord` getter: seconds are kept with a two-second granularity. */
  function TimeWord(t: DateTime): (w: int)
    ensures ValidTime(t) ==>
      && 0 <= w < TWO16
      && w / 0x800 == t.hours
      && (w / 0x20) % 0x40 == t.minutes
      && w % 0x20 == t.seconds / 2
      && 2 * (w % 0x20) <= t.seconds < 2 * (w % 0x20) + 2
  {
    var w := t.hours * 0x800 + t.minutes * 0x20 + t.seconds / 2;
    if ValidTime(t) then
      TimeFields(w, t.hours, t.minutes, t.seconds / 2);
      w
    else w
  }

  /** The DOS date word gives back year, month and day. */
  lemma DateFields(w: int, year: int, month: int, day: int)
    requires 0 <= year < 0x80 && 0 <= month < 0x10 && 0 <= day < 0x20
    requires w == year * 0x200 + month * 0x20 + day
    ensures 0 <= w < TWO16 && w / 0x200 == year && (w / 0x20) % 0x10 == month && w % 0x20 == day
  {
    assert w / 0x20 == year * 0x10 + month;
  }

  /** The DOS time word gives back hours, minutes and halved seconds. */
  lemma TimeFields(w: int, hours: int, minutes: int, halves: int)
    requires 0 <= hours < 0x20 && 0 <= minutes < 0x40 && 0 <= halves < 0x20
    requires w == hours * 0x800 + minutes * 0x20 + halves
    ensures 0 <= w < TWO16 && w / 0x800 == hours && (w / 0x20) % 0x40 == minutes && w % 0x20 == halves
  {
    assert w / 0x20 == hours * 0x40 + minutes;
  }

  /** The twenty bytes `commonHeaders` writes, as a ZIP reader reads them. */
  ghost predicate CommonFields(s: seq<byte>, off: int, e: Entry)
    requires 0 <= off && off + 20 <= |s|
  {
    && GetBE16(s, off) == e.compressionMethod % TWO16
    && GetLE16(s, off + 2) == TimeWord(e.timeStamp) % TWO16
    && GetLE16(s, off + 4) == DateWord(e.timeStamp) % TWO16
    && FieldAt(s, off + 6, BE32(e.crc32))
    && GetLE32(s, off + 10) == e.compressedByteSize % TWO32
    && GetLE32(s, off + 14) == e.uncompressedByteSize % TWO32
    && GetLE16(s, off + 18) == |e.encodedName| % TWO16
  }

  /**
   * `commonHeaders(dv, offsetStart)`: method (big-endian), time, date,
   * crc32 (big-endian), compressed size, uncompressed size, name length.
   */
  function CommonHeaders(e: Entry): (r: seq<byte>)
    ensures |r| == 20
  {
    BE16(e.compressionMethod) + LE16(TimeWord(e.timeStamp)) + LE16(DateWord(e.timeStamp))
    + BE32(e.crc32) + LE32(e.compressedByteSize) + LE32(e.uncompressedByteSize)
    + LE16(|e.encodedName|)
  }

  /** A reader recovers each common field from the bytes `CommonHeaders` writes. */
  lemma CommonHeadersLayout(e: Entry)
    ensures CommonFields(CommonHeaders(e), 0, e)
  {
    FieldWhole(CommonHeaders(e));
    CommonFieldsAt(CommonHeaders(e), 0, e);
  }

  /** The common fields are found wherever their twenty bytes are placed. */
  lemma CommonFieldsAt(s: seq<byte>, off: int, e: Entry)
    requires FieldAt(s, off, CommonHeaders(e))
    ensures CommonFields(s, off, e)
  {
    var compression, time, date := BE16(e.compressionMethod), LE16(TimeWord(e.timeStamp)), LE16(DateWord(e.timeStamp));
    var crc, compressed, uncompressed := BE32(e.crc32), LE32(e.compressedByteSize), LE32(e.uncompressedByteSize);
    var nameLength := LE16(|e.encodedName|);
    var front := compression + time + date + crc;
    Pieces4(front, compressed, uncompressed, nameLength);
    Pieces4(compression, time, date, crc);
    var common := CommonHeaders(e);
    FieldNested(s, off, common, 0, front, off);
    FieldNested(s, off, front, 0, compression, off);
    FieldNested(s, off, front, 2, time, off + 2);
    FieldNested(s, off, front, 4, date, off + 4);
    FieldNested(s, off, front, 6, crc, off + 6);
    FieldNested(s, off, common, 10, compressed, off + 10);
    FieldNested(s, off, common, 14, uncompressed, off + 14);
    FieldNested(s, off, common, 18, nameLength, off + 18);
    GetBE16At(s, off, e.compressionMethod);
    GetLE16At(s, off + 2, TimeWord(e.timeStamp));
    GetLE16At(s, off + 4, DateWord(e.timeStamp));
    GetLE32At(s, off + 10, e.compressedByteSize);
    GetLE32At(s, off + 14, e.uncompressedByteSize);
    GetLE16At(s, off + 18, |e.encodedName|);
  }

  /** The general purpose flag of a local file header. */
  function LocalFlag(stream: bool): int
  {
    if stream then Utf8NameFlag + DataDescriptorFlag else Utf8NameFlag
  }

  /**
   * `localFileHeader({ stream })`: 30 fixed bytes, then the name.  The
   * version needed is written big-endian as 0x1400, so a reader sees 20
   * (version 2.0).
   */
  function LocalFileHeader(e: Entry, stream: bool): (r: seq<byte>)
    ensures |r| == LocalFileHeaderLength + |e.encodedName|
  {
    var head := LE32(0x0403_4B50) + BE16(0x1400) + LE16(LocalFlag(stream));
    head + CommonHeaders(e) + LE16(0) + e.encodedName
  }

  /**
   * A local file header read field by field: signature, version needed 20,
   * the flag (bit 11, and bit 3 when streaming), the common fields, a zero
   * extra field length, the name.
   */
  lemma LocalFileHeaderLayout(e: Entry, stream: bool)
    ensures var r := LocalFileHeader(e, stream);
      && FieldAt(r, 0, LocalFileHeaderSignature)
      && r[4..6] == [0x14, 0x00] && GetLE16(r, 4) == 20
      && GetLE16(r, 6) == (if stream then 0x0808 else 0x0800)
      && CommonFields(r, 8, e)
      && r[28..30] == [0, 0]
      && FieldAt(r, LocalFileHeaderLength, e.encodedName)
  {
    var r := LocalFileHeader(e, stream);
    var signature, version, flag := LE32(0x0403_4B50), BE16(0x1400), LE16(LocalFlag(stream));
    var head := signature + version + flag;
    Pieces4(head, CommonHeaders(e), LE16(0), e.encodedName);
    Pieces3(signature, version, flag);
    FieldNested(r, 0, head, 0, signature, 0);
    FieldNested(r, 0, head, 4, version, 4);
    FieldNested(r, 0, head, 6, flag, 6);
    assert signature == LocalFileHeaderSignature;
    assert version == [0x14, 0x00];
    GetLE16At(r, 4, 0x0014);
    GetLE16At(r, 6, LocalFlag(stream));
    CommonFieldsAt(r, 8, e);
    assert LE16(0) == [0, 0];
  }

  /**
   * `centralDirectoryFileHeader()`: 46 fixed bytes, then the name.  The
   * version made by is written big-endian as 0x1404 (a reader sees 0x0414),
   * the version needed as 0x1400 (a reader sees 20); the flag never carries
   * bit 3; comment, disk and internal attributes are zero.
   */
  function CentralDirectoryFileHeader(e: Entry): (r: seq<byte>)
    ensures |r| == CentralDirectoryFileHeaderLength + |e.encodedName|
  {
    var head := LE32(0x0201_4B50) + BE16(0x1404) + BE16(0x1400) + LE16(Utf8NameFlag);
    var zeros := LE16(0) + LE16(0) + LE16(0) + LE16(0);
    var tail := BE32(e.externalFileAttributes) + LE32(e.localFileHeaderOffset);
    head + CommonHeaders(e) + zeros + tail + e.encodedName
  }

  /**
   * A central directory file header read field by field: signature,
   * versions, flag 0x0800, the common fields, eight zero bytes, the external
   * attributes as written big-endian, the local header offset, the name.
   */
  lemma CentralDirectoryFileHeaderLayout(e: Entry)
    ensures var r := CentralDirectoryFileHeader(e);
      && r[..4] == [0x50, 0x4B, 0x01, 0x02]
      && GetLE16(r, 4) == 0x0414 && GetLE16(r, 6) == 20
      && GetLE16(r, 8) == 0x0800
      && CommonFields(r, 10, e)
      && r[30..38] == [0, 0, 0, 0, 0, 0, 0, 0]
      && r[38..42] == BE32(e.externalFileAttributes)
      && GetLE32(r, 42) == e.localFileHeaderOffset % TWO32
      && r[CentralDirectoryFileHeaderLength..] == e.encodedName
  {
    var head := LE32(0x0201_4B50) + BE16(0x1404) + BE16(0x1400) + LE16(Utf8NameFlag);
    var zeros := LE16(0) + LE16(0) + LE16(0) + LE16(0);
    var tail := BE32(e.externalFileAttributes) + LE32(e.localFileHeaderOffset);
    CentralDirectoryFields(e, head, CommonHeaders(e), zeros, tail, CentralDirectoryFileHeader(e));
  }

  lemma CentralDirectoryFields(e: Entry, head: seq<byte>, common: seq<byte>, zeros: seq<byte>,
                               tail: seq<byte>, r: seq<byte>)
    requires head == LE32(0x0201_4B50) + BE16(0x1404) + BE16(0x1400) + LE16(Utf8NameFlag)
    requires common == CommonHeaders(e)
    requires zeros == LE16(0) + LE16(0) + LE16(0) + LE16(0)
    requires tail == BE32(e.externalFileAttributes) + LE32(e.localFileHeaderOffset)
    requires r == head + common + zeros + tail + e.encodedName
    ensures r[..4] == [0x50, 0x4B, 0x01, 0x02]
    ensures GetLE16(r, 4) == 0x0414 && GetLE16(r, 6) == 20
    ensures GetLE16(r, 8) == 0x0800
    ensures CommonFields(r, 10, e)
    ensures r[30..38] == [0, 0, 0, 0, 0, 0, 0, 0]
    ensures r[38..42] == BE32(e.externalFileAttributes)
    ensures GetLE32(r, 42) == e.localFileHeaderOffset % TWO32
    ensures r[CentralDirectoryFileHeaderLength..] == e.encodedName
  {
    var signature, made, needed, flag := LE32(0x0201_4B50), BE16(0x1404), BE16(0x1400), LE16(Utf8NameFlag);
    var attributes, offset := BE32(e.externalFileAttributes), LE32(e.localFileHeaderOffset);
    Pieces5(head, common, zeros, tail, e.encodedName);
    Pieces4(signature, made, needed, flag);
    Pieces2(attributes, offset);
    FieldNested(r, 0, head, 0, signature, 0);
    FieldNested(r, 0, head, 4, made, 4);
    FieldNested(r, 0, head, 6, needed, 6);
    FieldNested(r, 0, head, 8, flag, 8);
    FieldNested(r, 38, tail, 0, attributes, 38);
    FieldNested(r, 38, tail, 4, offset, 42);
    assert signature == [0x50, 0x4B, 0x01, 0x02];
    GetLE16At(r, 4, 0x0414);
    GetLE16At(r, 6, 0x0014);
    GetLE16At(r, 8, Utf8NameFlag);
    CommonFieldsAt(r, 10, e);
    assert zeros == [0, 0, 0, 0, 0, 0, 0, 0];
    GetLE32At(r, 42, e.localFileHeaderOffset);
  }

  /**
   * The upper half of the external attributes as a little-endian reader
   * reads them: where a reader takes the attributes as Unix ones, the mode.
   */
  function UpperAttributes(attributes: int): int
  {
    GetLE32(BE32(attributes), 0) / TWO16
  }

  /**
   * Written big-endian, the stored constants read little-endian as method 8
   * (deflate) and 0 (stored), and as external attributes whose upper half is
   * 0x81A4 or 0x41ED (the Unix mode bits 0100644, a regular file rw-r--r--,
   * and 040755, a directory rwxr-xr-x) and whose lower half is zero.  The
   * attributes are host-dependent (APPNOTE.TXT section 4.4.15), and the host
   * byte of the version made by that these headers carry is 4, not 3 (Unix).
   */
  lemma ConstantsAsRead()
    ensures GetLE16(BE16(DeflateMethod), 0) == 8 && GetLE16(BE16(StoredMethod), 0) == 0
    ensures UpperAttributes(FileAttributes) == 0x81A4 && GetLE32(BE32(FileAttributes), 0) % TWO16 == 0
    ensures UpperAttributes(FolderAttributes) == 0x41ED && GetLE32(BE32(FolderAttributes), 0) % TWO16 == 0
  {
    assert BE16(DeflateMethod) == [0x08, 0x00];
    assert BE16(StoredMethod) == [0x00, 0x00];
    assert BE32(FileAttributes) == [0x00, 0x00, 0xA4, 0x81];
    assert BE32(FolderAttributes) == [0x00, 0x00, 0xED, 0x41];
  }

  /**
   * `Entry.addFolder(name)`: a stored, empty member whose name gains a
   * trailing '/'.  Written big-endian, its attributes' upper half reads as
   * 0x41ED (the Unix mode bits 040755) and its method as 0 (stored).
   */
  function FolderEntry(name: seq<byte>, timeStamp: DateTime): (e: Entry)
    ensures e.encodedName == name + [Slash] && e.timeStamp == timeStamp
    ensures e.uncompressedByteSize == 0 && e.compressedByteSize == 0 && e.crc32 == 0
    ensures e.compressionMethod == StoredMethod && e.externalFileAttributes == FolderAttributes
    ensures e.localFileHeaderOffset == 0 && e.compressedData.None?
  {
    Entry(name + [Slash], timeStamp, 0, 0, 0, StoredMethod, FolderAttributes, 0, None)
  }

  /**
   * `Entry.addFile(name, blob)` given the whole gzip member `gzip` that the
   * compression stream produced for the blob (RFC 1952: a 10-byte header,
   * the deflate body, then CRC-32 and ISIZE in 8 bytes) and the blob's size.
   *
   * The trailer view `new DataView(buffer, L - 8, 8)` raises RangeError when
   * the buffer is shorter than 8 bytes.  Otherwise the crc32 is the trailer's
   * first four bytes read big-endian, the body is `slice(10, L - 8)` and the
   * compressed size is `L - 18` (negative for a buffer shorter than 18 bytes,
   * where the slice is empty).
   */
  function FileEntry(name: seq<byte>, timeStamp: DateTime, blobSize: nat, gzip: seq<byte>): (r: Result<Entry>)
    ensures r.Failure? <==> |gzip| < 8
    ensures r.Failure? ==> r.fault == RangeError
    ensures r.Ok? ==>
      && r.value.encodedName == name && r.value.timeStamp == timeStamp
      && r.value.uncompressedByteSize == blobSize
      && r.value.compressionMethod == DeflateMethod
      && r.value.externalFileAttributes == FileAttributes
      && r.value.localFileHeaderOffset == 0
      && BE32(r.value.crc32) == gzip[|gzip| - 8..|gzip| - 4]
      && r.value.compressedData.Some?
    ensures r.Ok? ==> r.value.compressedByteSize == |gzip| - 18
    ensures |gzip| >= 18 ==>
      && r.value.compressedData.value == gzip[10..|gzip| - 8]
      && |r.value.compressedData.value| == r.value.compressedByteSize
    ensures 8 <= |gzip| < 18 ==>
      r.value.compressedData.value == [] && r.value.compressedByteSize < 0
  {
    var size := |gzip|;
    if size < 8 then Failure(RangeError)
    else
      var crc := GetBE32(gzip, size - 8);
      BE32OfGetBE32(gzip, size - 8);
      var body := if size - 8 >= 10 then gzip[10..size - 8] else [];
      Ok(Entry(name, timeStamp, blobSize, size - 18, crc, DeflateMethod, FileAttributes, 0, Some(body)))
  }

  /**
   * What a ZIP reader checks when it follows a central directory record to
   * offset `off`: a local file header signature there, and the same name
   * 30 bytes further on.
   */
  ghost predicate LocalHeaderAt(s: seq<byte>, off: int, name: seq<byte>)
  {
    FieldAt(s, off, LocalFileHeaderSignature) && FieldAt(s, off + LocalFileHeaderLength, name)
  }

  /** A local file header placed in a byte sequence is found there by a reader. */
  lemma LocalHeaderFound(s: seq<byte>, off: int, e: Entry, stream: bool)
    requires FieldAt(s, off, LocalFileHeader(e, stream))
    ensures LocalHeaderAt(s, off, e.encodedName)
  {
    var h := LocalFileHeader(e, stream);
    LocalFileHeaderLayout(e, stream);
    FieldNested(s, off, h, 0, LocalFileHeaderSignature, off);
    FieldNested(s, off, h, LocalFileHeaderLength, e.encodedName, off + LocalFileHeaderLength);
  }

  /** Appending bytes never disturbs a local file header already written. */
  lemma LocalHeaderKept(s: seq<byte>, more: seq<byte>, off: int, name: seq<byte>)
    requires LocalHeaderAt(s, off, name)
    ensures LocalHeaderAt(s + more, off, name)
  {
    FieldLeft(s, more, off, LocalFileHeaderSignature);
    FieldLeft(s, more, off + LocalFileHeaderLength, name);
  }
}

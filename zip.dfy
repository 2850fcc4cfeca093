/**
 * The buffered archive builder (the default export of src/zip.js) and the
 * end-of-central-directory record (section 4.3.16 of the PKWARE .ZIP
 * File Format Specification, APPNOTE.TXT).
 *
 * The builder keeps an ordered list of entries.  `Write` lays out, entry by
 * entry, the local file header and the compressed body with a running
 * offset, then one central directory header per entry, then the end record.
 * `ArchiveParts` states that layout over a list of entries as the list of
 * parts `write` hands to the Blob constructor; the lemmas locate every
 * record in their concatenation.
 */
module Zip {
  import opened Bytes
  import opened Wrappers
  import opened Entries
  import opened Seqs

  const EndOfCentralDirectoryRecordLength: int := 22

  /**
   * The exported `endOfCentralDirectoryRecord(entriesCount, size, offset)`:
   * the disk numbers and the comment length are written big-endian, which
   * for zero makes no difference.
   */
  function EndOfCentralDirectoryRecord(entriesCount: int, size: int, offset: int): (r: seq<byte>)
    ensures |r| == EndOfCentralDirectoryRecordLength
  {
    LE32(0x0605_4B50) + BE16(0) + BE16(0) + LE16(entriesCount) + LE16(entriesCount)
    + LE32(size) + LE32(offset) + BE16(0)
  }

  /**
   * The end record read field by field: its signature, disk numbers 0, the
   * entry count twice, the directory's size and offset, no comment.
   */
  lemma EndOfCentralDirectoryRecordLayout(entriesCount: int, size: int, offset: int)
    ensures var r := EndOfCentralDirectoryRecord(entriesCount, size, offset);
      && r[..4] == [0x50, 0x4B, 0x05, 0x06]
      && GetLE16(r, 4) == 0 && GetLE16(r, 6) == 0
      && GetLE16(r, 8) == entriesCount % TWO16 && GetLE16(r, 10) == entriesCount % TWO16
      && GetLE32(r, 12) == size % TWO32
      && GetLE32(r, 16) == offset % TWO32
      && GetLE16(r, 20) == 0
  {
    var r := EndOfCentralDirectoryRecord(entriesCount, size, offset);
    var signature, count := LE32(0x0605_4B50), LE16(entriesCount);
    var head := signature + BE16(0) + BE16(0) + count;
    Pieces5(head, count, LE32(size), LE32(offset), BE16(0));
    Pieces4(signature, BE16(0), BE16(0), count);
    FieldNested(r, 0, head, 0, signature, 0);
    FieldNested(r, 0, head, 4, BE16(0), 4);
    FieldNested(r, 0, head, 6, BE16(0), 6);
    FieldNested(r, 0, head, 8, count, 8);
    assert signature == [0x50, 0x4B, 0x05, 0x06];
    GetLE16At(r, 8, entriesCount);
    GetLE16At(r, 10, entriesCount);
    GetLE32At(r, 12, size);
    GetLE32At(r, 16, offset);
    FieldValues(r, 4, BE16(0));
    FieldValues(r, 6, BE16(0));
    FieldValues(r, 20, BE16(0));
    assert BE16(0) == [0, 0];
  }

  /** The body `write` pushes after an entry's local header: none when the entry holds no data. */
  function DataParts(e: Entry): (r: seq<seq<byte>>)
    ensures Concat(r) == if e.compressedData.Some? then e.compressedData.value else []
  {
    if e.compressedData.Some? then
      ConcatSingle(e.compressedData.value);
      [e.compressedData.value]
    else []
  }

  /** Bytes taken by the local records of `es`: header, name and body. */
  function LocalSpan(es: seq<Entry>): (r: nat)
    ensures r >= LocalFileHeaderLength * |es|
  {
    if |es| == 0 then 0
    else LocalSpan(es[..|es| - 1]) + LocalFileHeaderLength + |es[|es| - 1].encodedName|
         + |Concat(DataParts(es[|es| - 1]))|
  }

  /** Bytes taken by the central directory records of `es`. */
  function CentralDirectorySize(es: seq<Entry>): (r: nat)
    ensures r >= CentralDirectoryFileHeaderLength * |es|
  {
    if |es| == 0 then 0
    else CentralDirectorySize(es[..|es| - 1]) + CentralDirectoryFileHeaderLength + |es[|es| - 1].encodedName|
  }

  /** The parts pushed for each entry of `es` in turn, `record` giving those of one entry. */
  function Records(es: seq<Entry>, record: Entry -> seq<seq<byte>>): seq<seq<byte>>
  {
    if |es| == 0 then [] else Records(es[..|es| - 1], record) + record(es[|es| - 1])
  }

  /** One local record as `write` pushes it: the local file header, then the body. */
  function LocalRecord(e: Entry): seq<seq<byte>>
  {
    [LocalFileHeader(e, false)] + DataParts(e)
  }

  /** One central directory record. */
  function CentralRecord(e: Entry): seq<seq<byte>>
  {
    [CentralDirectoryFileHeader(e)]
  }

  /** The parts `write` pushes for the local records of `es`. */
  function LocalParts(es: seq<Entry>): seq<seq<byte>>
  {
    Records(es, LocalRecord)
  }

  /** The parts `write` pushes for the central directory of `es`. */
  function CentralParts(es: seq<Entry>): seq<seq<byte>>
  {
    Records(es, CentralRecord)
  }

  /** What `write` does to one entry: record its offset and, when purging, drop its body. */
  function Place(e: Entry, offset: int, purge: bool): Entry
  {
    e.(localFileHeaderOffset := offset, compressedData := if purge then None else e.compressedData)
  }

  /** The entries as `write` leaves them, each placed at the running offset. */
  function Placed(es: seq<Entry>, purge: bool): (r: seq<Entry>)
    ensures |r| == |es|
  {
    if |es| == 0 then []
    else Placed(es[..|es| - 1], purge) + [Place(es[|es| - 1], LocalSpan(es[..|es| - 1]), purge)]
  }

  /** The parts of the archive `write` produces from the entry list `es`. */
  function ArchiveParts(es: seq<Entry>, purge: bool): seq<seq<byte>>
  {
    LocalParts(es) + CentralParts(Placed(es, purge))
    + [EndOfCentralDirectoryRecord(|es|, CentralDirectorySize(es), LocalSpan(es))]
  }

  /**
   * Entry i is placed at the sum of the local record sizes of the entries
   * before it; nothing but its offset and (when purging) its body changes.
   */
  lemma {:induction false} PlacedEntries(es: seq<Entry>, purge: bool)
    ensures |Placed(es, purge)| == |es|
    ensures forall i :: 0 <= i < |es| ==> Placed(es, purge)[i] == Place(es[i], LocalSpan(es[..i]), purge)
  {
    if |es| > 0 {
      var init := es[..|es| - 1];
      PlacedEntries(init, purge);
      forall i | 0 <= i < |es|
        ensures Placed(es, purge)[i] == Place(es[i], LocalSpan(es[..i]), purge)
      {
        if i < |es| - 1 {
          PrefixPrefix(es, |es| - 1, i);
        } else {
          assert es[..i] == init;
        }
      }
    }
  }

  /** Placing entries keeps their names, so the central directory size is unchanged. */
  lemma {:induction false} PlacedCentralDirectorySize(es: seq<Entry>, purge: bool)
    ensures CentralDirectorySize(Placed(es, purge)) == CentralDirectorySize(es)
  {
    if |es| > 0 {
      var init := es[..|es| - 1];
      PlacedCentralDirectorySize(init, purge);
      PlacedEntries(init, purge);
      SnocPrefix(Placed(init, purge), Place(es[|es| - 1], LocalSpan(init), purge));
    }
  }

  /** The placed prefix is the prefix placed. */
  lemma PlacedPrefix(es: seq<Entry>, purge: bool, i: int)
    requires 0 <= i <= |es|
    ensures Placed(es, purge)[..i] == Placed(es[..i], purge)
  {
    PlacedEntries(es, purge);
    PlacedEntries(es[..i], purge);
    forall k | 0 <= k < i
      ensures Placed(es, purge)[k] == Placed(es[..i], purge)[k]
    {
      PrefixPrefix(es, i, k);
    }
  }

  /** Appending an entry places it after the local records of the others. */
  lemma PlacedSnoc(es: seq<Entry>, e: Entry, purge: bool)
    ensures Placed(es + [e], purge) == Placed(es, purge) + [Place(e, LocalSpan(es), purge)]
  {
    SnocPrefix(es, e);
  }

  /** Appending an entry appends its local file header and its body. */
  lemma LocalPartsSnoc(es: seq<Entry>, e: Entry)
    ensures LocalParts(es + [e]) == LocalParts(es) + [LocalFileHeader(e, false)] + DataParts(e)
  {
    SnocPrefix(es, e);
    assert LocalRecord(e) == [LocalFileHeader(e, false)] + DataParts(e);
  }

  /** Appending an entry appends its central directory file header. */
  lemma CentralPartsSnoc(es: seq<Entry>, e: Entry)
    ensures CentralParts(es + [e]) == CentralParts(es) + [CentralDirectoryFileHeader(e)]
  {
    SnocPrefix(es, e);
  }

  /** The local records of `es` take `LocalSpan(es)` bytes. */
  lemma {:induction false} LocalPartsLength(es: seq<Entry>)
    ensures |Concat(LocalParts(es))| == LocalSpan(es)
  {
    if |es| > 0 {
      var init, last := es[..|es| - 1], es[|es| - 1];
      LocalPartsLength(init);
      SplitLast(es);
      LocalPartsSnoc(init, last);
      ConcatSplit(LocalParts(init), LocalFileHeader(last, false), DataParts(last));
    }
  }

  /** The central directory records of `es` take `CentralDirectorySize(es)` bytes. */
  lemma {:induction false} CentralPartsLength(es: seq<Entry>)
    ensures |Concat(CentralParts(es))| == CentralDirectorySize(es)
  {
    if |es| > 0 {
      var init, last := es[..|es| - 1], es[|es| - 1];
      CentralPartsLength(init);
      SplitLast(es);
      CentralPartsSnoc(init, last);
      AppendEmpty(CentralParts(init) + [CentralDirectoryFileHeader(last)]);
      ConcatSplit(CentralParts(init), CentralDirectoryFileHeader(last), []);
    }
  }

  lemma {:induction false} RecordsAppend(a: seq<Entry>, b: seq<Entry>, record: Entry -> seq<seq<byte>>)
    ensures Records(a + b, record) == Records(a, record) + Records(b, record)
  {
    if |b| == 0 {
      AppendEmpty(a);
      AppendEmpty(Records(a, record));
    } else {
      var init, last := b[..|b| - 1], b[|b| - 1];
      AppendInit(a, b);
      RecordsAppend(a, init, record);
      Assoc(Records(a, record), Records(init, record), record(last));
    }
  }

  /** The parts of entry i lie between those of the entries before and after it. */
  lemma RecordsSplit(es: seq<Entry>, i: int, record: Entry -> seq<seq<byte>>)
    requires 0 <= i < |es|
    ensures Records(es, record) == Records(es[..i], record) + record(es[i]) + Records(es[i + 1..], record)
  {
    var pre, x, post := es[..i], es[i], es[i + 1..];
    SplitAt(es, i);
    var a, b, c := Records(pre, record), record(x), Records(post, record);
    RecordsAppend(pre + [x], post, record);
    RecordsAppend(pre, [x], record);
    RecordsSingle(x, record);
    assert Records(pre + [x], record) == a + b;
  }

  lemma RecordsSingle(x: Entry, record: Entry -> seq<seq<byte>>)
    ensures Records([x], record) == record(x)
  {
    TakeNone([x]);
    AppendEmpty(record(x));
  }

  /**
   * The archive is the local records, the central directory and the end
   * record, in that order; the end record gives the entry count, the
   * directory's size and its offset.
   */
  lemma ArchiveLayout(es: seq<Entry>, purge: bool)
    ensures Concat(ArchiveParts(es, purge)) ==
      Concat(LocalParts(es)) + Concat(CentralParts(Placed(es, purge)))
      + EndOfCentralDirectoryRecord(|es|, CentralDirectorySize(es), LocalSpan(es))
    ensures |Concat(LocalParts(es))| == LocalSpan(es)
    ensures |Concat(CentralParts(Placed(es, purge)))| == CentralDirectorySize(es)
  {
    var local, central := LocalParts(es), CentralParts(Placed(es, purge));
    PlacedCentralDirectorySize(es, purge);
    LocalPartsLength(es);
    CentralPartsLength(Placed(es, purge));
    var eocd := EndOfCentralDirectoryRecord(|es|, CentralDirectorySize(es), LocalSpan(es));
    ConcatSnoc(local + central, eocd);
    ConcatAppend(local, central);
  }

  /** The archive's length is the central directory's offset plus its size plus the 22-byte end record. */
  lemma ArchiveLength(es: seq<Entry>, purge: bool)
    ensures |Concat(ArchiveParts(es, purge))| == LocalSpan(es) + CentralDirectorySize(es) + EndOfCentralDirectoryRecordLength
  {
    ArchiveLayout(es, purge);
  }

  /**
   * Entry i's local record, its header then its body, follows the local
   * records of the entries before it, which take exactly the offset that
   * `write` records for entry i.
   */
  lemma LocalRecordAt(es: seq<Entry>, purge: bool, i: int)
    requires 0 <= i < |es|
    ensures Placed(es, purge)[i].localFileHeaderOffset == LocalSpan(es[..i])
    ensures |Concat(LocalParts(es[..i]))| == LocalSpan(es[..i])
    ensures Concat(ArchiveParts(es, purge)) ==
      Concat(LocalParts(es[..i])) + (LocalFileHeader(es[i], false) + Concat(DataParts(es[i])))
      + Concat(LocalParts(es[i + 1..]) + CentralParts(Placed(es, purge))
               + [EndOfCentralDirectoryRecord(|es|, CentralDirectorySize(es), LocalSpan(es))])
  {
    var h, d := LocalFileHeader(es[i], false), DataParts(es[i]);
    var pre, rest := LocalParts(es[..i]), LocalParts(es[i + 1..]);
    var central := CentralParts(Placed(es, purge));
    var eocd := [EndOfCentralDirectoryRecord(|es|, CentralDirectorySize(es), LocalSpan(es))];
    RecordsSplit(es, i, LocalRecord);
    Assoc(pre + ([h] + d), rest, central);
    Assoc(pre + ([h] + d), rest + central, eocd);
    ConcatPartsAt(pre, [h] + d, rest + central + eocd);
    ConcatCons(h, d);
    LocalPartsLength(es[..i]);
    PlacedEntries(es, purge);
  }

  /**
   * Entry i's central directory file header follows the local records and
   * the central headers of the entries before it, and its offset field
   * points back at entry i's local file header.
   */
  lemma CentralRecordAt(es: seq<Entry>, purge: bool, i: int)
    requires 0 <= i < |es|
    ensures var p := Placed(es, purge);
      && Concat(ArchiveParts(es, purge)) ==
         Concat(LocalParts(es)) + Concat(CentralParts(p[..i])) + CentralDirectoryFileHeader(p[i])
         + Concat(CentralParts(p[i + 1..]) + [EndOfCentralDirectoryRecord(|es|, CentralDirectorySize(es), LocalSpan(es))])
      && |Concat(LocalParts(es))| == LocalSpan(es)
      && |Concat(CentralParts(p[..i]))| == CentralDirectorySize(es[..i])
  {
    var p := Placed(es, purge);
    var h := CentralDirectoryFileHeader(p[i]);
    var eocd := [EndOfCentralDirectoryRecord(|es|, CentralDirectorySize(es), LocalSpan(es))];
    var before, after := CentralParts(p[..i]), CentralParts(p[i + 1..]);
    RecordsSplit(p, i, CentralRecord);
    Assoc(LocalParts(es), before + [h], after);
    Assoc(LocalParts(es), before, [h]);
    Assoc(LocalParts(es) + before + [h], after, eocd);
    ConcatSplit(LocalParts(es) + before, h, after + eocd);
    ConcatAppend(LocalParts(es), before);
    LocalPartsLength(es);
    CentralPartsLength(p[..i]);
    PlacedPrefix(es, purge, i);
    PlacedCentralDirectorySize(es[..i], purge);
  }

  /** Entry i's central record points back at its local file header. */
  lemma CentralRecordOffset(es: seq<Entry>, purge: bool, i: int)
    requires 0 <= i < |es|
    ensures var h := CentralDirectoryFileHeader(Placed(es, purge)[i]);
      && GetLE32(h, 42) == LocalSpan(es[..i]) % TWO32
      && h[CentralDirectoryFileHeaderLength..] == es[i].encodedName
  {
    PlacedEntries(es, purge);
    CentralDirectoryFileHeaderLayout(Placed(es, purge)[i]);
  }

  /** A folder scope: children added through it are named `path + "/" + child`. */
  datatype Scope = Scope(path: seq<byte>)

  /** The builder: `entries` in insertion order, and what the last `write` recorded. */
  class ZipArchive {
    var entries: seq<Entry>
    var centralDirectoryOffset: int
    var centralDirectorySize: int

    /**
     * A new, empty archive.  The two central directory fields are undefined
     * until `write`, which `setUint32` would store as 0.
     */
    constructor ()
      ensures entries == [] && centralDirectoryOffset == 0 && centralDirectorySize == 0
    {
      entries := [];
      centralDirectoryOffset := 0;
      centralDirectorySize := 0;
    }

    /**
     * `addFile(name, blob)`: one file entry appended at the end; when the
     * gzip member is too short for its trailer the fault propagates and the
     * list is unchanged.
     */
    method AddFile(name: seq<byte>, timeStamp: DateTime, blobSize: nat, gzip: seq<byte>) returns (r: Result<Entry>)
      modifies this
      ensures r == FileEntry(name, timeStamp, blobSize, gzip)
      ensures entries == if r.Ok? then old(entries) + [r.value] else old(entries)
      ensures centralDirectoryOffset == old(centralDirectoryOffset) && centralDirectorySize == old(centralDirectorySize)
    {
      r := FileEntry(name, timeStamp, blobSize, gzip);
      if r.Ok? {
        entries := entries + [r.value];
      }
    }

    /**
     * `addFolder(name)`: one folder entry appended at the end, and the scope
     * through which children get `name + "/"` as a prefix.
     */
    method AddFolder(name: seq<byte>, timeStamp: DateTime) returns (folder: Entry, scope: Scope)
      modifies this
      ensures folder == FolderEntry(name, timeStamp) && scope == Scope(name)
      ensures entries == old(entries) + [folder]
      ensures centralDirectoryOffset == old(centralDirectoryOffset) && centralDirectorySize == old(centralDirectorySize)
    {
      folder := FolderEntry(name, timeStamp);
      entries := entries + [folder];
      scope := Scope(name);
    }

    /** The scope's `addFile(childName, childBlob)`. */
    method ScopeAddFile(scope: Scope, childName: seq<byte>, timeStamp: DateTime, blobSize: nat, gzip: seq<byte>)
      returns (r: Result<Entry>)
      modifies this
      ensures r == FileEntry(scope.path + [Slash] + childName, timeStamp, blobSize, gzip)
      ensures entries == if r.Ok? then old(entries) + [r.value] else old(entries)
      ensures centralDirectoryOffset == old(centralDirectoryOffset) && centralDirectorySize == old(centralDirectorySize)
    {
      r := AddFile(scope.path + [Slash] + childName, timeStamp, blobSize, gzip);
    }

    /** The scope's `addFolder(childName)`: nesting goes on with the longer path. */
    method ScopeAddFolder(scope: Scope, childName: seq<byte>, timeStamp: DateTime) returns (folder: Entry, inner: Scope)
      modifies this
      ensures folder == FolderEntry(scope.path + [Slash] + childName, timeStamp)
      ensures inner == Scope(scope.path + [Slash] + childName)
      ensures entries == old(entries) + [folder]
      ensures centralDirectoryOffset == old(centralDirectoryOffset) && centralDirectorySize == old(centralDirectorySize)
    {
      folder, inner := AddFolder(scope.path + [Slash] + childName, timeStamp);
    }

    /**
     * The method `endOfCentralDirectoryRecord()`, which reads the count from
     * `entries` and the size and offset from the fields `write` sets; it
     * gives the same bytes as the exported function.
     */
    function EndOfCentralDirectoryRecord(): (r: seq<byte>)
      reads this
      ensures r == _default.EndOfCentralDirectoryRecord(|entries|, centralDirectorySize, centralDirectoryOffset)
    {
      LE32(0x0605_4B50) + LE16(0) + LE16(0) + LE16(|entries|) + LE16(|entries|)
      + LE32(centralDirectorySize) + LE32(centralDirectoryOffset) + BE16(0)
    }

    /**
     * `write(purge)`: the archive blob, made of the parts laid out by
     * `ArchiveParts`.  Each entry gets its local header offset; with `purge`
     * its body is dropped; the central directory's offset and size are
     * recorded.  The two loops of `write` are `PushLocalRecords` and
     * `PushCentralDirectory`.
     */
    method Write(purge: bool) returns (zip: seq<byte>)
      modifies this
      ensures entries == Placed(old(entries), purge)
      ensures centralDirectoryOffset == LocalSpan(old(entries))
      ensures centralDirectorySize == CentralDirectorySize(old(entries))
      ensures zip == Concat(ArchiveParts(old(entries), purge))
    {
      ghost var es := entries;
      var files, blobs, totalBytes := PushLocalRecords(entries, purge);
      entries := files;
      centralDirectoryOffset := totalBytes;
      var size;
      blobs, size := PushCentralDirectory(entries, blobs);
      PlacedCentralDirectorySize(es, purge);
      centralDirectorySize := size;
      blobs := blobs + [EndOfCentralDirectoryRecord()];
      zip := Concat(blobs);
    }
  }

  /**
   * The first loop of `write`: each entry is placed at the running offset,
   * and its local file header and body are pushed.
   */
  method PushLocalRecords(es: seq<Entry>, purge: bool) returns (files: seq<Entry>, blobs: seq<seq<byte>>, totalBytes: int)
    ensures files == Placed(es, purge)
    ensures blobs == LocalParts(es)
    ensures totalBytes == LocalSpan(es)
  {
    files := es;
    blobs := [];
    totalBytes := 0;
    var i := 0;
    while i < |files|
      invariant LocalPass(es, purge, i, files, blobs, totalBytes)
    {
      ghost var blobs0, total0 := blobs, totalBytes;
      var file := files[i];
      var localFileHeader := LocalFileHeader(file, false);
      file := file.(localFileHeaderOffset := totalBytes);
      blobs := blobs + [localFileHeader];
      totalBytes := totalBytes + |localFileHeader|;
      if file.compressedData.Some? {
        blobs := blobs + [file.compressedData.value];
        totalBytes := totalBytes + |file.compressedData.value|;
        if purge {
          file := file.(compressedData := None);
        }
      }
      LocalPassStep(es, purge, i, files, blobs0, total0, file, blobs, totalBytes);
      files := files[i := file];
      i := i + 1;
    }
    LocalPassDone(es, purge, files, blobs, totalBytes);
  }

  /** The second loop of `write`: one central directory header per entry is pushed. */
  method PushCentralDirectory(files: seq<Entry>, blobs0: seq<seq<byte>>) returns (blobs: seq<seq<byte>>, size: int)
    ensures blobs == blobs0 + CentralParts(files)
    ensures size == CentralDirectorySize(files)
  {
    blobs := blobs0;
    size := 0;
    var j := 0;
    while j < |files|
      invariant 0 <= j <= |files|
      invariant blobs == blobs0 + CentralParts(files[..j])
      invariant size == CentralDirectorySize(files[..j])
    {
      var centralDirectoryFileHeader := CentralDirectoryFileHeader(files[j]);
      PrefixSnoc(files, j);
      CentralPartsSnoc(files[..j], files[j]);
      Assoc(blobs0, CentralParts(files[..j]), [centralDirectoryFileHeader]);
      blobs := blobs + [centralDirectoryFileHeader];
      size := size + |centralDirectoryFileHeader|;
      j := j + 1;
    }
    TakeAll(files);
  }

  /**
   * What the first loop of `write` has done after `i` entries: those are
   * placed, their local records pushed, and the running offset is the span
   * of those records.
   */
  ghost predicate LocalPass(es: seq<Entry>, purge: bool, i: int, files: seq<Entry>,
                            blobs: seq<seq<byte>>, totalBytes: int)
  {
    && 0 <= i <= |es| == |files|
    && files[..i] == Placed(es[..i], purge)
    && files[i..] == es[i..]
    && blobs == LocalParts(es[..i])
    && totalBytes == LocalSpan(es[..i])
  }

  /** One turn of the first loop: entry i is placed and its local record pushed. */
  lemma LocalPassStep(es: seq<Entry>, purge: bool, i: int, files: seq<Entry>,
                      blobs0: seq<seq<byte>>, total0: int, file: Entry, blobs: seq<seq<byte>>, total: int)
    requires LocalPass(es, purge, i, files, blobs0, total0) && i < |files|
    requires var f := files[i];
      && file == Place(f, total0, purge)
      && blobs == blobs0 + [LocalFileHeader(f, false)] + DataParts(f)
      && total == total0 + |LocalFileHeader(f, false)| + |Concat(DataParts(f))|
    ensures LocalPass(es, purge, i + 1, files[i := file], blobs, total)
  {
    DropNext(files, i);
    DropNext(es, i);
    PrefixSnoc(es, i);
    LocalPartsSnoc(es[..i], es[i]);
    PlacedSnoc(es[..i], es[i], purge);
    UpdateAt(files, i, file);
    DropNext(files, i);
    DropNext(es, i);
  }

  lemma LocalPassDone(es: seq<Entry>, purge: bool, files: seq<Entry>, blobs: seq<seq<byte>>, totalBytes: int)
    requires LocalPass(es, purge, |files|, files, blobs, totalBytes)
    ensures files == Placed(es, purge) && blobs == LocalParts(es) && totalBytes == LocalSpan(es)
  {
    TakeAll(es);
    TakeAll(files);
  }

  /**
   * The nesting of the folder test: `addFolder(outer)`, then
   * `addFolder(inner)` in its scope, then `addFile(leaf, …)` in that one
   * (the test uses 'test', 'ext' and 'two.txt').
   */
  method NestedFolders(outer: seq<byte>, inner: seq<byte>, leaf: seq<byte>, timeStamp: DateTime,
                       blobSize: nat, gzip: seq<byte>) returns (count: nat, names: seq<seq<byte>>)
    requires |gzip| >= 8
    ensures count == 3
    ensures names == [outer + [Slash], outer + [Slash] + inner + [Slash], outer + [Slash] + inner + [Slash] + leaf]
  {
    var zip := new ZipArchive();
    var folder, scope := zip.AddFolder(outer, timeStamp);
    var folder2, scope2 := zip.ScopeAddFolder(scope, inner, timeStamp);
    var file := zip.ScopeAddFile(scope2, leaf, timeStamp, blobSize, gzip);
    count := |zip.entries|;
    names := [zip.entries[0].encodedName, zip.entries[1].encodedName, zip.entries[2].encodedName];
  }
}

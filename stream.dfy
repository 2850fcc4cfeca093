/**
 * The streaming writer (src/stream.js): entries are written to a file
 * stream as they are added, so a file's sizes and checksum are known only
 * after its body and go into a data descriptor (section 4.3.9 of the PKWARE
 * .ZIP File Format Specification, APPNOTE.TXT); `Close` appends the central
 * directory and the end record.
 *
 * The write stream is a `Sink` that only ever appends; its `bytesWritten`
 * is the length of what it holds.  A file's compressed stream is given as
 * the list of chunks the gzip compression stream yields (RFC 1952: a 10-byte
 * header, the deflate body, then CRC-32 and ISIZE in 8 bytes), and the
 * file's size and modification time are given as values.
 */
module Stream {
  import opened Seqs
  import opened Bytes
  import opened Wrappers
  import opened Entries
  import opened Zip

  const HeaderBytes: int := 10
  const TrailingBytes: int := 8
  const DataDescriptorLength: int := 16

  /** The append-only write stream. */
  class Sink {
    var data: seq<byte>

    constructor ()
      ensures data == []
    {
      data := [];
    }

    /** `bytesWritten` */
    function BytesWritten(): nat
      reads this
    {
      |data|
    }

    /** `write(chunk)`: the chunk goes after everything written before. */
    method Write(chunk: seq<byte>)
      modifies this
      ensures data == old(data) + chunk
    {
      data := data + chunk;
    }
  }

  /**
   * A relative index as `slice` and `subarray` take it: a negative index
   * counts back from the end, and the result is clamped to the array.
   */
  function RelativeIndex(length: nat, index: int): (r: nat)
    ensures r <= length
  {
    if index < 0 then (if length + index > 0 then length + index else 0)
    else if index < length then index else length
  }

  /**
   * What `addFile` takes from the held piece `s` with `n` trailing bytes:
   * `slice(-n)` is its last min(n, |s|) bytes, and when `s` has at least `n`
   * bytes, `subarray(0, |s| - n)` and `slice(-n)` split it exactly.  Shorter
   * than `n`, the written part overlaps the footer.
   */
  lemma FooterSplit(s: seq<byte>, n: int)
    requires n > 0
    ensures var footer := s[RelativeIndex(|s|, -n)..];
      && |footer| == (if n < |s| then n else |s|)
      && footer == s[|s| - |footer|..]
    ensures |s| >= n ==> s[..RelativeIndex(|s|, |s| - n)] + s[RelativeIndex(|s|, -n)..] == s
    ensures |s| < n ==> s[..RelativeIndex(|s|, |s| - n)] == s[..if 2 * |s| > n then 2 * |s| - n else 0]
  {
    SplitTake(s, RelativeIndex(|s|, -n));
  }

  /**
   * The pieces the chunk loop of `addFile` holds in `previousChunk`, in
   * order: the first chunk past its 10 header bytes when it is longer than
   * that, then every later chunk whole.
   */
  function Held(chunks: seq<seq<byte>>): seq<seq<byte>>
  {
    if |chunks| == 0 then []
    else (if |chunks[0]| > HeaderBytes then [chunks[0][HeaderBytes..]] else []) + chunks[1..]
  }

  /** The pieces the loop has written: each held piece once the next chunk arrives. */
  function Streamed(chunks: seq<seq<byte>>): seq<seq<byte>>
  {
    var held := Held(chunks);
    if |held| == 0 then [] else held[..|held| - 1]
  }

  /** `previousChunk` after the loop has seen `chunks`. */
  function PreviousChunk(chunks: seq<seq<byte>>): Option<seq<byte>>
  {
    var held := Held(chunks);
    if |held| == 0 then None else Some(held[|held| - 1])
  }

  /** What `addFile` takes from a compressed stream: the body it writes and the crc32 it reads. */
  datatype Unwrapped = Unwrapped(body: seq<byte>, crc32: int)

  /**
   * The chunk loop of `addFile` and what follows it, on the chunks of one
   * compressed stream.  With no held piece, `previousChunk.slice` is a
   * TypeError; a footer of fewer than 4 bytes makes `getUint32(0)` a
   * RangeError.  Otherwise the crc32 is the footer's first four bytes read
   * big-endian and the last held piece is written up to `length - 8`.
   */
  function Unwrap(chunks: seq<seq<byte>>): Result<Unwrapped>
  {
    match PreviousChunk(chunks)
    case None => Failure(TypeError)
    case Some(last) =>
      var footer := last[RelativeIndex(|last|, -TrailingBytes)..];
      if |footer| < 4 then Failure(RangeError)
      else
        Ok(Unwrapped(Concat(Streamed(chunks)) + last[..RelativeIndex(|last|, |last| - TrailingBytes)],
                     GetBE32(footer, 0)))
  }

  /**
   * The faults of `Unwrap` in terms of the chunks: a TypeError exactly when
   * no chunk reaches past the gzip header, a RangeError exactly when the
   * last chunk (or the first past its header, when it is the only one)
   * has fewer than 4 bytes.  Otherwise at least one held byte, the start of
   * the trailer, is never written.
   */
  lemma UnwrapFaults(chunks: seq<seq<byte>>)
    ensures Unwrap(chunks) == Failure(TypeError) <==> |chunks| == 0 || (|chunks| == 1 && |chunks[0]| <= HeaderBytes)
    ensures Unwrap(chunks) == Failure(RangeError) <==>
      || (|chunks| == 1 && HeaderBytes < |chunks[0]| < HeaderBytes + 4)
      || (|chunks| > 1 && |chunks[|chunks| - 1]| < 4)
    ensures Unwrap(chunks).Ok? ==> |Unwrap(chunks).value.body| < |Concat(Held(chunks))|
  {
    HeldLast(chunks);
    if PreviousChunk(chunks).Some? {
      HeldSplit(chunks);
      ConcatSnoc(Streamed(chunks), PreviousChunk(chunks).value);
    }
  }

  /** Which chunks leave a held piece, and which piece is held last. */
  lemma HeldLast(chunks: seq<seq<byte>>)
    ensures |Held(chunks)| == 0 <==> |chunks| == 0 || (|chunks| == 1 && |chunks[0]| <= HeaderBytes)
    ensures |chunks| == 1 && |chunks[0]| > HeaderBytes ==> Held(chunks) == [chunks[0][HeaderBytes..]]
    ensures |chunks| > 1 ==> |Held(chunks)| > 0 && Held(chunks)[|Held(chunks)| - 1] == chunks[|chunks| - 1]
  {
  }

  /**
   * Every held piece is written once the next chunk arrives, and the one
   * still held at the end is `previousChunk`: the two together are exactly
   * the held pieces, in order.
   */
  lemma StreamedPrevious(chunks: seq<seq<byte>>)
    ensures PreviousChunk(chunks).None? <==> |Held(chunks)| == 0
    ensures PreviousChunk(chunks).Some? ==> Streamed(chunks) + [PreviousChunk(chunks).value] == Held(chunks)
  {
  }

  /** The header bytes and the held pieces make up the whole stream. */
  lemma HeldConcat(chunks: seq<seq<byte>>)
    requires |chunks| > 0 && |chunks[0]| >= HeaderBytes
    ensures Concat(chunks) == chunks[0][..HeaderBytes] + Concat(Held(chunks))
  {
    var c, rest := chunks[0], chunks[1..];
    var first := if |c| > HeaderBytes then [c[HeaderBytes..]] else [];
    assert chunks == [c] + rest;
    ConcatCons(c, rest);
    ConcatAppend(first, rest);
    if |c| > HeaderBytes {
      ConcatSingle(c[HeaderBytes..]);
    } else {
      TakeNone(first);
    }
    SplitTake(c, HeaderBytes);
    Assoc(c[..HeaderBytes], Concat(first), Concat(rest));
  }

  /**
   * The chunks of a whole gzip member whose first chunk holds the whole
   * 10-byte header and whose last chunk (past the header, when it is the
   * only one) holds the whole 8-byte trailer.
   */
  predicate Framed(chunks: seq<seq<byte>>)
  {
    && |chunks| > 0 && |chunks[0]| >= HeaderBytes
    && if |chunks| == 1 then |chunks[0]| >= HeaderBytes + TrailingBytes
       else |chunks[|chunks| - 1]| >= TrailingBytes
  }

  /**
   * On such chunks `addFile` writes exactly the deflate body, bytes 10 to
   * length - 8 of the stream.
   */
  lemma UnwrapStripsGzipFrame(chunks: seq<seq<byte>>)
    requires Framed(chunks)
    ensures var g := Concat(chunks);
      && |g| >= HeaderBytes + TrailingBytes
      && Unwrap(chunks).Ok?
      && Unwrap(chunks).value.body == g[HeaderBytes..|g| - TrailingBytes]
  {
    var middle, last := FramedPieces(chunks);
    StripFrame(chunks[0][..HeaderBytes], middle, last, Concat(chunks), Unwrap(chunks).value.body);
  }

  /** On such chunks the compressed size `addFile` records is the stream's length less 18. */
  lemma UnwrapBodySize(chunks: seq<seq<byte>>)
    requires Framed(chunks)
    ensures Unwrap(chunks).Ok? && |Unwrap(chunks).value.body| == |Concat(chunks)| - HeaderBytes - TrailingBytes
  {
    UnwrapStripsGzipFrame(chunks);
  }

  /**
   * On such chunks `addFile` takes as crc32 the first four bytes of the
   * stream's trailer, read big-endian.
   */
  lemma UnwrapReadsCrc(chunks: seq<seq<byte>>)
    requires Framed(chunks)
    ensures var g := Concat(chunks);
      && |g| >= HeaderBytes + TrailingBytes
      && Unwrap(chunks).Ok?
      && Unwrap(chunks).value.crc32 == GetBE32(g, |g| - TrailingBytes)
  {
    var middle, last := FramedPieces(chunks);
    TrailerCrc(chunks[0][..HeaderBytes], middle, last, Concat(chunks), Unwrap(chunks).value.crc32);
  }

  /** The first four bytes of the last 8 of `last`, read big-endian, are the first four of the last 8 of `g`. */
  lemma TrailerCrc(header: seq<byte>, middle: seq<byte>, last: seq<byte>, g: seq<byte>, crc32: int)
    requires |header| == HeaderBytes && |last| >= TrailingBytes && g == header + middle + last
    requires crc32 == GetBE32(last[|last| - TrailingBytes..], 0)
    ensures |g| >= HeaderBytes + TrailingBytes && crc32 == GetBE32(g, |g| - TrailingBytes)
  {
    var trailer := last[|last| - TrailingBytes..];
    assert FieldAt(g, |g| - TrailingBytes, trailer);
    FieldBE32(g, |g| - TrailingBytes, trailer);
  }

  /**
   * The stream is its header bytes, the pieces written in the loop and the
   * piece held last, which holds the trailer; `Unwrap` writes the pieces and
   * the held one without its trailer, and reads the crc32 from the trailer.
   */
  lemma FramedPieces(chunks: seq<seq<byte>>) returns (middle: seq<byte>, last: seq<byte>)
    requires Framed(chunks)
    ensures |last| >= TrailingBytes && Concat(chunks) == chunks[0][..HeaderBytes] + middle + last
    ensures Unwrap(chunks) == Ok(Unwrapped(middle + last[..|last| - TrailingBytes],
                                           GetBE32(last[|last| - TrailingBytes..], 0)))
  {
    GzipPieces(chunks);
    UnwrapTrailer(chunks);
    middle, last := Concat(Streamed(chunks)), PreviousChunk(chunks).value;
  }

  /**
   * A stream whose last chunk holds the whole trailer is its header bytes,
   * the pieces written in the loop, and the piece held last, which holds
   * the trailer.
   */
  lemma GzipPieces(chunks: seq<seq<byte>>)
    requires Framed(chunks)
    ensures PreviousChunk(chunks).Some? && |PreviousChunk(chunks).value| >= TrailingBytes
    ensures Concat(chunks) == chunks[0][..HeaderBytes] + Concat(Streamed(chunks)) + PreviousChunk(chunks).value
  {
    HeldLast(chunks);
    HeldConcat(chunks);
    HeldSplit(chunks);
    ConcatSnoc(Streamed(chunks), PreviousChunk(chunks).value);
  }

  /** The held pieces are those written, then the one held last. */
  lemma HeldSplit(chunks: seq<seq<byte>>)
    requires PreviousChunk(chunks).Some?
    ensures Held(chunks) == Streamed(chunks) + [PreviousChunk(chunks).value]
  {
    SplitLast(Held(chunks));
  }

  /** What `Unwrap` gives when the last held piece holds a whole trailer. */
  lemma UnwrapTrailer(chunks: seq<seq<byte>>)
    requires PreviousChunk(chunks).Some? && |PreviousChunk(chunks).value| >= TrailingBytes
    ensures var last := PreviousChunk(chunks).value;
      Unwrap(chunks) == Ok(Unwrapped(Concat(Streamed(chunks)) + last[..|last| - TrailingBytes],
                                     GetBE32(last[|last| - TrailingBytes..], 0)))
  {
  }

  /** The bytes between a 10-byte header and an 8-byte trailer. */
  lemma StripFrame<T>(header: seq<T>, middle: seq<T>, last: seq<T>, g: seq<T>, body: seq<T>)
    requires |header| == HeaderBytes && |last| >= TrailingBytes && g == header + middle + last
    requires body == middle + last[..|last| - TrailingBytes]
    ensures |g| >= HeaderBytes + TrailingBytes
    ensures body == g[HeaderBytes..|g| - TrailingBytes]
  {
  }


  /**
   * The 16-byte data descriptor `addFile` writes after the body: signature,
   * the crc32 written big-endian (so its bytes are the gzip trailer's),
   * compressed and uncompressed size.
   */
  function DataDescriptor(crc32: int, compressedSize: int, uncompressedSize: int): (r: seq<byte>)
    ensures |r| == DataDescriptorLength
  {
    LE32(0x0807_4B50) + BE32(crc32) + LE32(compressedSize) + LE32(uncompressedSize)
  }

  /** The data descriptor read field by field. */
  lemma DataDescriptorLayout(crc32: int, compressedSize: int, uncompressedSize: int)
    ensures var r := DataDescriptor(crc32, compressedSize, uncompressedSize);
      && r[..4] == [0x50, 0x4B, 0x07, 0x08]
      && FieldAt(r, 4, BE32(crc32))
      && GetLE32(r, 8) == compressedSize % TWO32
      && GetLE32(r, 12) == uncompressedSize % TWO32
  {
    var signature := LE32(0x0807_4B50);
    var r := DataDescriptor(crc32, compressedSize, uncompressedSize);
    Pieces4(signature, BE32(crc32), LE32(compressedSize), LE32(uncompressedSize));
    assert signature == [0x50, 0x4B, 0x07, 0x08];
    GetLE32At(r, 8, compressedSize);
    GetLE32At(r, 12, uncompressedSize);
  }

  /**
   * The CRC-32 a ZIP reader takes from the data descriptor is the one a gzip
   * reader takes from the trailer of the stream `g`, when the crc32 was read
   * big-endian from there as `addFile` does: both readers read it
   * little-endian from the same four bytes.
   */
  lemma DescriptorCrc(g: seq<byte>, crc32: int, compressedSize: int, uncompressedSize: int)
    requires |g| >= TrailingBytes && crc32 == GetBE32(g, |g| - TrailingBytes)
    ensures GetLE32(DataDescriptor(crc32, compressedSize, uncompressedSize), 4) == GetLE32(g, |g| - TrailingBytes)
  {
    BE32OfGetBE32(g, |g| - TrailingBytes);
    DataDescriptorLayout(crc32, compressedSize, uncompressedSize);
    SameLE32(DataDescriptor(crc32, compressedSize, uncompressedSize), 4, g, |g| - TrailingBytes, BE32(crc32));
  }


  /**
   * The entry `addFile` starts with: deflated, a regular file, and crc32 and
   * sizes zero until the body has been written.
   */
  function StreamFileEntry(path: seq<byte>, timeStamp: DateTime, offset: int): (e: Entry)
    ensures e.encodedName == path && e.timeStamp == timeStamp && e.localFileHeaderOffset == offset
    ensures e.crc32 == 0 && e.uncompressedByteSize == 0 && e.compressedByteSize == 0
    ensures e.compressionMethod == DeflateMethod && e.externalFileAttributes == FileAttributes
    ensures e.compressedData.None?
  {
    Entry(path, timeStamp, 0, 0, 0, DeflateMethod, FileAttributes, offset, None)
  }

  /** The entry `addFile` pushes: the sizes and crc32 known once the body is written. */
  function CompletedEntry(e: Entry, size: nat, u: Unwrapped): (r: Entry)
    ensures r.encodedName == e.encodedName && r.localFileHeaderOffset == e.localFileHeaderOffset
    ensures r.uncompressedByteSize == size && r.compressedByteSize == |u.body| && r.crc32 == u.crc32
    ensures r.timeStamp == e.timeStamp && r.compressionMethod == e.compressionMethod
    ensures r.externalFileAttributes == e.externalFileAttributes && r.compressedData == e.compressedData
  {
    e.(uncompressedByteSize := size, compressedByteSize := |u.body|, crc32 := u.crc32)
  }

  /** Every entry's local file header is where its offset says, name included. */
  ghost predicate HeadersAt(data: seq<byte>, es: seq<Entry>)
  {
    forall i :: 0 <= i < |es| ==> LocalHeaderAt(data, es[i].localFileHeaderOffset, es[i].encodedName)
  }

  /** Appending bytes keeps every local header where it was. */
  lemma HeadersKept(data: seq<byte>, more: seq<byte>, es: seq<Entry>)
    requires HeadersAt(data, es)
    ensures HeadersAt(data + more, es)
  {
    forall i | 0 <= i < |es|
      ensures LocalHeaderAt(data + more, es[i].localFileHeaderOffset, es[i].encodedName)
    {
      LocalHeaderKept(data, more, es[i].localFileHeaderOffset, es[i].encodedName);
    }
  }

  /**
   * A new entry whose local header is written at the end of the stream joins
   * the located entries.
   */
  lemma HeadersPush(data: seq<byte>, es: seq<Entry>, e: Entry, stream: bool, pushed: Entry)
    requires HeadersAt(data, es)
    requires e.localFileHeaderOffset == |data|
    requires pushed.localFileHeaderOffset == e.localFileHeaderOffset && pushed.encodedName == e.encodedName
    ensures HeadersAt(data + LocalFileHeader(e, stream), es)
    ensures HeadersAt(data + LocalFileHeader(e, stream), es + [pushed])
  {
    var h := LocalFileHeader(e, stream);
    Pieces2(data, h);
    LocalHeaderFound(data + h, |data|, e, stream);
    HeadersKept(data, h, es);
  }

  /** The same, when a body and a data descriptor follow the local header. */
  lemma HeadersPushFile(data: seq<byte>, es: seq<Entry>, e: Entry, pushed: Entry, body: seq<byte>, descriptor: seq<byte>)
    requires HeadersAt(data, es)
    requires e.localFileHeaderOffset == |data|
    requires pushed.localFileHeaderOffset == e.localFileHeaderOffset && pushed.encodedName == e.encodedName
    ensures HeadersAt(data + LocalFileHeader(e, true) + body + descriptor, es + [pushed])
  {
    var h := LocalFileHeader(e, true);
    HeadersPush(data, es, e, true, pushed);
    HeadersKept(data + h, body, es + [pushed]);
    HeadersKept(data + h + body, descriptor, es + [pushed]);
  }

  /** One more central directory header written by `close`. */
  lemma CentralStep(es: seq<Entry>, j: int)
    requires 0 <= j < |es|
    ensures Concat(CentralParts(es[..j + 1])) == Concat(CentralParts(es[..j])) + CentralDirectoryFileHeader(es[j])
  {
    PrefixSnoc(es, j);
    CentralPartsSnoc(es[..j], es[j]);
    ConcatSnoc(CentralParts(es[..j]), CentralDirectoryFileHeader(es[j]));
  }

  /** One turn of the chunk loop of `addFile`: the piece held so far is written, the chunk is held. */
  lemma ChunkStep(chunks: seq<seq<byte>>, k: int)
    requires 0 <= k < |chunks|
    ensures Held(chunks[..k + 1]) ==
      if k == 0 then (if |chunks[0]| > HeaderBytes then [chunks[0][HeaderBytes..]] else [])
      else Held(chunks[..k]) + [chunks[k]]
    ensures Concat(Streamed(chunks[..k + 1])) ==
      Concat(Streamed(chunks[..k])) + (if PreviousChunk(chunks[..k]).Some? then PreviousChunk(chunks[..k]).value else [])
  {
    var c := chunks[0];
    var first := if |c| > HeaderBytes then [c[HeaderBytes..]] else [];
    if k == 0 {
      AppendEmpty(first);
    } else {
      DropSnoc(chunks, k);
      Assoc(first, chunks[..k][1..], [chunks[k]]);
      var held := Held(chunks[..k]);
      if |held| > 0 {
        SplitLast(held);
        ConcatSnoc(held[..|held| - 1], held[|held| - 1]);
        SnocPrefix(held, chunks[k]);
      }
    }
  }


  /** The streaming writer: the write stream and the entries written so far. */
  class ZipStream {
    const zip: Sink
    var entries: seq<Entry>

    /** Every entry's local header is in the stream where its offset says. */
    ghost predicate Valid()
      reads this, zip
    {
      HeadersAt(zip.data, entries)
    }

    /** `new ZipStream(file)`: an empty write stream and no entries. */
    constructor ()
      ensures fresh(zip) && zip.data == [] && entries == []
      ensures Valid()
    {
      zip := new Sink();
      entries := [];
    }

    /**
     * `addFolder(dir)` when `dir` exists and is a directory (otherwise
     * nothing happens): a folder entry placed at `bytesWritten`, its local
     * header written, the entry pushed.
     */
    method AddFolder(dir: seq<byte>, isDirectory: bool, timeStamp: DateTime)
      requires Valid()
      modifies this, zip
      ensures Valid()
      ensures var folder := FolderEntry(dir, timeStamp).(localFileHeaderOffset := old(|zip.data|));
        if isDirectory then
          && zip.data == old(zip.data) + LocalFileHeader(folder, false)
          && entries == old(entries) + [folder]
        else zip.data == old(zip.data) && entries == old(entries)
    {
      if isDirectory {
        var folder := FolderEntry(dir, timeStamp).(localFileHeaderOffset := zip.BytesWritten());
        var localFileHeader := LocalFileHeader(folder, false);
        HeadersPush(zip.data, entries, folder, false, folder);
        zip.Write(localFileHeader);
        entries := entries + [folder];
      }
    }

    /**
     * `addFile(path)` for a file of `size` bytes whose compressed stream
     * yields `chunks`: a local header with the data descriptor flag and zero
     * crc32 and sizes, then the body, then the data descriptor; the entry is
     * pushed with its real crc32 and sizes.  On a fault, what was written so
     * far stays in the stream and no entry is pushed.
     */
    method AddFile(path: seq<byte>, timeStamp: DateTime, size: nat, chunks: seq<seq<byte>>) returns (fault: Option<Fault>)
      requires Valid()
      modifies this, zip
      ensures Valid()
      ensures var file := StreamFileEntry(path, timeStamp, old(|zip.data|));
        var header := LocalFileHeader(file, true);
        match Unwrap(chunks)
        case Failure(f) =>
          && fault == Some(f)
          && zip.data == old(zip.data) + header + Concat(Streamed(chunks))
          && entries == old(entries)
        case Ok(u) =>
          && fault == None
          && zip.data == old(zip.data) + header + u.body + DataDescriptor(u.crc32, |u.body|, size)
          && entries == old(entries) + [CompletedEntry(file, size, u)]
    {
      var file := StreamFileEntry(path, timeStamp, zip.BytesWritten());
      var localFileHeader := LocalFileHeader(file, true);
      ghost var data0, file0 := zip.data, file;
      HeadersPush(data0, entries, file0, true, file0);
      zip.Write(localFileHeader);
      ghost var data1 := zip.data;

      var start := zip.BytesWritten();
      var previousChunk := PassChunks(chunks);
      ghost var streamed := Concat(Streamed(chunks));
      HeadersKept(data1, streamed, entries);

      file := file.(uncompressedByteSize := size);
      if previousChunk.None? {
        assert Unwrap(chunks) == Failure(TypeError);
        return Some(TypeError);
      }
      var last := previousChunk.value;
      var footer := last[RelativeIndex(|last|, -TrailingBytes)..];
      if |footer| < 4 {
        assert Unwrap(chunks) == Failure(RangeError);
        return Some(RangeError);
      }
      file := file.(crc32 := GetBE32(footer, 0));
      var tail := last[..RelativeIndex(|last|, |last| - TrailingBytes)];
      zip.Write(tail);
      ghost var u := Unwrapped(streamed + tail, file.crc32);
      assert Unwrap(chunks) == Ok(u);
      Assoc(data1, streamed, tail);
      file := file.(compressedByteSize := zip.BytesWritten() - start);
      var descriptor := DataDescriptor(file.crc32, file.compressedByteSize, file.uncompressedByteSize);
      zip.Write(descriptor);
      HeadersPushFile(data0, entries, file0, file, u.body, descriptor);
      entries := entries + [file];
      fault := None;
    }

    /**
     * The chunk loop of `addFile`: each chunk is held until the next one
     * arrives, which writes it; the gzip header is cut from the first.
     */
    method PassChunks(chunks: seq<seq<byte>>) returns (previousChunk: Option<seq<byte>>)
      modifies zip
      ensures previousChunk == PreviousChunk(chunks)
      ensures zip.data == old(zip.data) + Concat(Streamed(chunks))
    {
      ghost var data0 := zip.data;
      var header: Option<seq<byte>> := None;
      previousChunk := None;
      var k := 0;
      while k < |chunks|
        invariant 0 <= k <= |chunks|
        invariant header.Some? <==> k > 0
        invariant previousChunk == PreviousChunk(chunks[..k])
        invariant zip.data == data0 + Concat(Streamed(chunks[..k]))
      {
        var chunk := chunks[k];
        ChunkStep(chunks, k);
        if previousChunk.Some? {
          Assoc(data0, Concat(Streamed(chunks[..k])), previousChunk.value);
          zip.Write(previousChunk.value);
        }
        if header.None? {
          header := Some(chunk[..RelativeIndex(|chunk|, HeaderBytes)]);
          if |chunk| > HeaderBytes {
            previousChunk := Some(chunk[HeaderBytes..]);
          }
        } else {
          previousChunk := Some(chunk);
        }
        k := k + 1;
      }
      TakeAll(chunks);
    }

    /**
     * `close()`: the central directory, one header per entry in order from
     * the current `bytesWritten`, then the end record with the count, the
     * directory's size and its offset.
     */
    method Close()
      requires Valid()
      modifies zip
      ensures Valid()
      ensures zip.data == old(zip.data) + Concat(CentralParts(entries))
              + Zip.EndOfCentralDirectoryRecord(|entries|, CentralDirectorySize(entries), old(|zip.data|))
      ensures |zip.data| == old(|zip.data|) + CentralDirectorySize(entries) + EndOfCentralDirectoryRecordLength
    {
      var centralDirectoryOffset := zip.BytesWritten();
      ghost var data0 := zip.data;
      var es := entries;
      var j := 0;
      while j < |es|
        invariant 0 <= j <= |es|
        invariant zip.data == data0 + Concat(CentralParts(es[..j]))
      {
        CentralStep(es, j);
        Assoc(data0, Concat(CentralParts(es[..j])), CentralDirectoryFileHeader(es[j]));
        zip.Write(CentralDirectoryFileHeader(es[j]));
        j := j + 1;
      }
      TakeAll(es);
      ghost var directory := Concat(CentralParts(es));
      assert zip.data == data0 + directory;
      CentralPartsLength(es);
      var centralDirectorySize := zip.BytesWritten() - centralDirectoryOffset;
      assert centralDirectorySize == CentralDirectorySize(es);
      var record := Zip.EndOfCentralDirectoryRecord(|es|, centralDirectorySize, centralDirectoryOffset);
      HeadersKept(data0, directory, es);
      HeadersKept(data0 + directory, record, es);
      zip.Write(record);
      assert zip.data == data0 + directory + record;
    }
  }
}

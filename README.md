# minzip: a verified model of the ZIP writer

This project models the two ZIP writers of minzip and proves facts about the bytes they produce.

- **The buffered builder** is `src/zip.js`. Its `Entry` class builds each member and its headers. The default class keeps an ordered entry list and `write()` lays out the whole archive.
- **The streaming writer** is `src/stream.js`. It appends each member to a write stream as the member is added. It cuts the gzip wrapper off the compression stream's output chunk by chunk and writes a data descriptor after each file.

The format is the PKWARE .ZIP File Format Specification (APPNOTE.TXT):

- local file header: section 4.3.7
- data descriptor: section 4.3.9
- central directory file header: section 4.3.12
- end of central directory record: section 4.3.16
- general purpose flag: section 4.4.4
- DOS date and time: section 4.4.6

The gzip member follows RFC 1952: a 10-byte header, the deflate body, then CRC-32 and ISIZE in 8 bytes.

Files:

- `wrappers.dfy` (`Wrappers`): `Option` and `Result`. A `Result` fails with a `RangeError` or a `TypeError`, the two exceptions the modelled core can raise.
- `seqs.dfy` (`Seqs`): sequence facts and `FieldAt`, which says that a piece sits at an offset of a sequence.
- `bytes.dfy` (`Bytes`): the `DataView` writes `setUint16` and `setUint32`.
  - Both reduce the value modulo 2^16 or 2^32.
  - Both are big-endian unless the third argument is `true`.
  - The little-endian readers are what a ZIP reader recovers.
  - `Concat` joins the parts of a `Blob`.
- `entry.dfy` (`Entries`): the `Entry` value, `dateWord` and `timeWord`, `commonHeaders`, the two header encoders, and `Entry.addFolder` / `Entry.addFile`.
- `zip.dfy` (`Zip`): the end record, the layout of the archive that `write()` produces, and the class `ZipArchive`. The class has `entries` and the two central directory fields that `write()` sets.
- `stream.dfy` (`Stream`): an append-only `Sink` standing for the write stream, the chunk loop and trailer handling of `addFile`, the data descriptor, and the class `ZipStream`.

Several fields are written with `DataView`'s big-endian default:

- the compression method;
- the versions;
- the CRC-32;
- the external attributes;
- some zero fields.

The model keeps the bytes that result, and the lemmas state what a little-endian reader makes of them:

- Method `0x0800` is stored as `08 00`, which a reader takes as 8 (deflate).
- The upper half of the attributes holds 0x81A4 for a file and 0x41ED for a folder, the Unix mode bits 0100644 and 040755. The host byte written in the version made by is 4, and APPNOTE.TXT section 4.4.15 makes the attributes depend on the host.
- The CRC-32 is read big-endian from the gzip trailer and written big-endian again, so the trailer's four bytes reach the archive unchanged.

## Model

| member | source | states |
|---|---|---|
| Bytes.WritersReadBack | src/zip.js:83-91 | A 16-bit or 32-bit write in either byte order, read back in the same order, gives the value modulo 2^16 or 2^32. |
| Bytes.BigEndianReversed | src/zip.js:84-87 | A big-endian write stores the bytes of the little-endian write in reverse order. |
| Bytes.GetLE32OfBE32 | src/zip.js:78 | A little-endian reader sees a big-endian 32-bit field as the byte-swapped value. |
| Bytes.BE32OfGetBE32 | src/zip.js:33-35 | Reading four bytes big-endian and writing the value big-endian gives back the same four bytes. So the crc copied from a gzip trailer is stored verbatim. |
| Bytes.FieldValues | src/zip.js:83-91 | A 16-bit or 32-bit field reads the same wherever its bytes are placed. |
| Bytes.LE16 | src/zip.js:85-86 | `setUint16(…, true)`: two bytes, low byte first. `WritersReadBack` reads the value back modulo 2^16. |
| Bytes.BE16 | src/zip.js:84 | `setUint16(…)` in the default big-endian order: two bytes, high byte first. `BigEndianReversed` relates it to `LE16`. |
| Bytes.LE32 | src/zip.js:88-89 | `setUint32(…, true)`: four bytes, low byte first. `WritersReadBack` reads the value back modulo 2^32. |
| Bytes.BE32 | src/zip.js:87 | `setUint32(…)` in the default big-endian order: four bytes, high byte first. `BigEndianReversed` relates it to `LE32`. |
| Bytes.GetBE32 | src/zip.js:35 | `getUint32(0)` reads four bytes big-endian into a value below 2^32. `BE32OfGetBE32` makes `BE32` its inverse. |
| Bytes.ConcatAppend | src/zip.js:194 | The bytes of a blob made of two part lists are the bytes of the first list followed by those of the second. |
| Entries.DateWord | src/zip.js:93-98 | For years 1980..2107, months 0..11 and days 1..31, the word is below 2^16 and decodes as a ZIP reader does: year - 1980 in bits 9..15, month + 1 in bits 5..8, day in bits 0..4. |
| Entries.TimeWord | src/zip.js:100-105 | For valid clock values, the word is below 2^16. It decodes to the hours, the minutes and half the seconds (rounded down), so the stored time is within two seconds of the true one. |
| Entries.CommonHeaders | src/zip.js:83-91 | `commonHeaders` fills 20 bytes. `CommonHeadersLayout` gives each field's value as a reader sees it. |
| Entries.CommonHeadersLayout | src/zip.js:83-91 | The 20 common bytes give, as a reader sees them: the method (big-endian), time, date, the crc32's big-endian bytes, compressed and uncompressed size modulo 2^32, and the name length. |
| Entries.CommonFieldsAt | src/zip.js:57 | The common fields read the same at whatever offset a header places them. |
| Entries.LocalFileHeader | src/zip.js:47-60 | The local file header is 30 bytes plus the name. |
| Entries.LocalFileHeaderLayout | src/zip.js:47-60 | The local file header in order: signature `50 4B 03 04`; bytes `14 00` (version 20); flag 0x0800, or 0x0808 when streaming; the common fields at 8; a zero extra length; the name at 30. |
| Entries.CentralDirectoryFileHeader | src/zip.js:66-81 | The central directory file header is 46 bytes plus the name. |
| Entries.CentralDirectoryFileHeaderLayout | src/zip.js:66-81 | The central directory file header in order: signature `50 4B 01 02`; versions 0x0414 and 20; flag 0x0800; the common fields at 10; zero bytes 30..37; the attributes' big-endian bytes at 38; the local header offset modulo 2^32 at 42 (little-endian); the name at 46. |
| Entries.ConstantsAsRead | src/zip.js:31-32 | Written big-endian, methods 0x0800 and 0 read as 8 and 0. Attributes 0xA481 and 0xED41 have an upper half of 0x81A4 and 0x41ED (the Unix mode bits 0100644 and 040755) and a zero lower half. |
| Entries.FolderEntry | src/zip.js:5-17 | The folder entry is named `name + "/"`, has zero sizes and crc, is stored, has the folder attributes, and holds no data. |
| Entries.FileEntry | src/zip.js:19-41 | A RangeError exactly when the gzip buffer is shorter than 8 bytes. Otherwise the crc32's big-endian bytes are trailer bytes 0..4. The compressed size is L-18 for every L ≥ 8. From 18 bytes on, the data is bytes 10..L-8 and its length is that size; below that, the data is empty and the size is negative. |
| Entries.LocalHeaderFound | src/stream.js:60-67 | A local header written at an offset shows its signature there and the entry's name 30 bytes on. |
| Zip.EndOfCentralDirectoryRecord | src/zip.js:202-214 | The end record is 22 bytes. |
| Zip.EndOfCentralDirectoryRecordLayout | src/zip.js:202-214 | The end record: signature `50 4B 05 06`, zero disk numbers, the entry count at 8 and at 10, the directory size at 12, the directory offset at 16, and no comment. |
| Zip.ZipArchive.EndOfCentralDirectoryRecord | src/zip.js:150-162 | The method gives the same bytes as the exported function on the entry count and the fields set by `write`. |
| Zip.DataParts | src/zip.js:177-183 | After its header, an entry contributes its compressed data, or nothing when it holds none. |
| Zip.LocalSpan | src/zip.js:171-185 | `totalBytes` after the first loop, the central directory offset: at least 30 bytes per entry. `LocalPartsLength` equates it with the local records' length. |
| Zip.CentralDirectorySize | src/zip.js:186-192 | `centralDirectorySize` after the second loop: at least 46 bytes per entry. `CentralPartsLength` equates it with the directory's length. |
| Zip.Placed | src/zip.js:172-184 | The entries as the first loop leaves them, one per entry. `PlacedEntries` gives each one's offset and data. |
| Zip.ArchiveParts | src/zip.js:169-195 | The blob parts `write` collects. `ArchiveLayout` and `ArchiveLength` state their order and length. |
| Zip.PlacedEntries | src/zip.js:172-184 | After `write`, entry i has local header offset Σ_{j<i}(30 + name_j + data_j) and keeps everything else, except that its data is dropped when purging. |
| Zip.PlacedCentralDirectorySize | src/zip.js:186-192 | Placing the entries leaves the central directory size unchanged. |
| Zip.LocalPartsLength | src/zip.js:172-184 | The local records take exactly Σ(30 + name + data) bytes. |
| Zip.CentralPartsLength | src/zip.js:186-192 | The central directory takes exactly Σ(46 + name) bytes. |
| Zip.ArchiveLayout | src/zip.js:169-195 | The archive is the local records, then the central directory of the placed entries, then the end record with the count, the directory's size and its offset. |
| Zip.ArchiveLength | src/zip.js:169-195 | The archive's length is the directory offset plus the directory size plus 22. |
| Zip.LocalRecordAt | src/zip.js:172-184 | Entry i's header and body follow the local records of the entries before it. Those records take exactly the offset recorded for entry i. |
| Zip.CentralRecordAt | src/zip.js:186-192 | Entry i's central header follows the local records and the central headers of entries 0..i-1, so the headers appear in entry order. |
| Zip.CentralRecordOffset | src/zip.js:79 | Entry i's central header carries the offset of its local header and its name. |
| Zip.ZipArchive.constructor | src/zip.js:111-113 | A new builder has no entries. |
| Zip.ZipArchive.AddFile | src/zip.js:121-125 | On success, exactly one file entry is appended at the end. A fault leaves the list unchanged. |
| Zip.ZipArchive.AddFolder | src/zip.js:132-144 | Exactly one folder entry is appended at the end, and the returned scope has the folder's name. |
| Zip.ZipArchive.ScopeAddFile | src/zip.js:136-138 | A scope's file is added under `name + "/" + child`. |
| Zip.ZipArchive.ScopeAddFolder | src/zip.js:139-141 | A scope's folder is added under `name + "/" + child`, and its scope has that path. |
| Zip.ZipArchive.Write | src/zip.js:169-195 | `write` returns the laid-out archive. It leaves the entries placed, and records the directory offset as Σ(30 + name + data) and the directory size as Σ(46 + name). |
| Zip.PushLocalRecords | src/zip.js:170-185 | The first loop of `write` places every entry, pushes the local records, and ends with the offset sum. |
| Zip.PushCentralDirectory | src/zip.js:186-192 | The second loop pushes one central header per entry in order, and its size is the directory size. |
| Zip.LocalPassStep | src/zip.js:172-184 | One turn of the first loop keeps the loop's invariant: i entries placed, their records pushed, and the running total equal to their span. |
| Zip.NestedFolders | test/node/zip.test.js:27-33 | A folder, a folder in its scope and a file in that scope give three entries, named `a/`, `a/b/`, `a/b/c`, in that order. |
| Stream.Sink.constructor | src/stream.js:9 | A fresh write stream holds nothing. |
| Stream.Sink.Write | src/stream.js:65-67 | A write appends the chunk after everything written before. |
| Stream.FooterSplit | src/stream.js:97-103 | `slice(-n)` is the last min(n, L) bytes of the held piece. When it has at least n bytes, `subarray(0, L - n)` and `slice(-n)` split it exactly; when shorter, the written part is clamped and overlaps the footer. |
| Stream.Held | src/stream.js:81-95 | The pieces the chunk loop holds in `previousChunk`, in order. `HeldLast` and `HeldConcat` state which they are. |
| Stream.Streamed | src/stream.js:82-86 | The pieces the loop writes, each once the next chunk arrives. `StreamedPrevious` and `ChunkStep` relate it to the loop. |
| Stream.PreviousChunk | src/stream.js:87-94 | `previousChunk` after the loop. `StreamedPrevious` relates it to the held pieces. |
| Stream.StreamedPrevious | src/stream.js:81-95 | Nothing is held exactly when `previousChunk` is unset. Otherwise the written pieces followed by `previousChunk` are exactly the held pieces. |
| Stream.Unwrap | src/stream.js:81-104 | The loop and the footer read on a chunk list: a fault, or the body written and the crc32 read. `UnwrapFaults`, `UnwrapStripsGzipFrame`, `UnwrapBodySize` and `UnwrapReadsCrc` state what it gives. |
| Stream.HeldLast | src/stream.js:81-95 | After the loop, nothing is held exactly when there is no chunk, or only one that does not reach past the 10 header bytes. Otherwise the last chunk is held, or the first chunk past its header when it is the only one. |
| Stream.HeldConcat | src/stream.js:81-95 | The header bytes followed by the held pieces are the whole stream. |
| Stream.ChunkStep | src/stream.js:81-95 | One turn of the loop writes exactly the piece held before it, and holds the new chunk (the first one without its header). |
| Stream.GzipPieces | src/stream.js:81-95 | On a framed stream, the stream is the header, then what the loop wrote, then the held piece. |
| Stream.UnwrapFaults | src/stream.js:96-104 | A TypeError exactly when there is no chunk, or only one that does not reach past the header. A RangeError exactly when the footer has fewer than 4 bytes. Otherwise some held bytes are never written. |
| Stream.UnwrapStripsGzipFrame | src/stream.js:73-104 | With the header in the first chunk and the trailer in the last held one, the bytes written are exactly the stream's bytes 10..L-8. |
| Stream.UnwrapBodySize | src/stream.js:80-105 | The compressed size recorded there is the stream's length less 18. |
| Stream.UnwrapReadsCrc | src/stream.js:97-100 | The crc32 is the first four trailer bytes of the whole stream, read big-endian. |
| Stream.FramedPieces | src/stream.js:81-104 | On a framed stream, the written body and the crc come from one split of the stream into header, body and held piece. |
| Stream.DataDescriptor | src/stream.js:107-113 | The data descriptor is 16 bytes. |
| Stream.DataDescriptorLayout | src/stream.js:107-113 | The data descriptor: signature `50 4B 07 08`, the crc32's big-endian bytes, the compressed size and the uncompressed size (little-endian). |
| Stream.DescriptorCrc | src/stream.js:97-111 | The CRC-32 a ZIP reader takes from the descriptor is the one a gzip reader takes from the trailer. |
| Stream.StreamFileEntry | src/stream.js:49-60 | The streamed file's entry is named by its path, deflated, a regular file, placed at the current length, with zero crc and sizes. |
| Stream.CompletedEntry | src/stream.js:96-105 | The pushed entry keeps the name, offset, timestamp, method, attributes and (empty) data, and gets the stat size, the body length and the trailer's crc32. |
| Stream.HeadersPush | src/stream.js:60-67 | An entry whose header is written at the current end joins the entries whose headers are where their offsets say. |
| Stream.HeadersKept | src/stream.js:81-118 | Appending keeps every earlier local header in place. |
| Stream.CentralStep | src/stream.js:125-131 | One turn of the loop in `close` appends one entry's central header. |
| Stream.ZipStream.constructor | src/stream.js:8-11 | The stream starts empty, with no entries. |
| Stream.ZipStream.AddFolder | src/stream.js:13-34 | For a directory, the folder's header is written at the current length and the entry is pushed. There is no body and no descriptor. Otherwise nothing changes. Every header stays where its offset says. |
| Stream.ZipStream.AddFile | src/stream.js:48-120 | The streaming header (flag 0x0808, zero crc and sizes) is written at the current length, then the body, then the descriptor, and the completed entry is pushed. On a fault, what was written stays and no entry is pushed. |
| Stream.ZipStream.PassChunks | src/stream.js:73-95 | The loop appends exactly the written pieces and ends holding the last piece. |
| Stream.ZipStream.Close | src/stream.js:122-137 | One central header per entry in order, then the end record with the count, Σ(46 + name) and the offset where the directory began. The stream grows by exactly that size plus 22. |

## Left out

- The compression stream and CRC-32 computation are inputs. The gzip member is given as bytes (`Entry.addFile`) or as the list of chunks the compression stream yields (`ZipStream.addFile`).
- `TextEncoder` is left out: names are given as their UTF-8 bytes.
- `Date`, `stats.mtime` and `stats.size` are values passed in: the local calendar fields in a `DateTime`, and the size as a number.
- `existsSync`, `statSync`, `readdir` and `createReadStream` are left out. `ZipStream.addFolder` takes whether the path is a directory as a flag. Its recursion over the directory's children is not modelled, because it is a sequence of `AddFolder`/`AddFile` calls on paths the file system supplies.
- `createWriteStream` is the append-only `Sink`. The final `zip.close()` of the file stream is left out.
- `async`/`await` and the write callbacks are left out. Every write is a synchronous append, in the order the code awaits them.
- `Blob`, `ArrayBuffer` and `Uint8Array` are byte sequences, and a blob of parts is their concatenation.
- Entries are values, so aliasing is not modelled. A caller of the buffered builder holds the same `Entry` object that `write` later changes. `addFolder` also merges the scope's functions into the returned entry with `Object.assign`. The model returns the scope beside the entry instead.
- The header and trailer are not reassembled across chunk boundaries. The chunk loop does not do this: it takes the header only from the first chunk and the trailer only from the last held piece. The lemmas about the stripped body and the crc require a framed stream for this reason, and `UnwrapFaults` gives the faults of every other input. RFC 1952 does not align the 10-byte header or the 8-byte trailer with chunk boundaries, so this loop mis-frames a stream whose header or trailer straddles chunks. The model follows the code:
  - a `TypeError` when nothing is held: no chunk, or a single chunk of at most 10 bytes;
  - a `RangeError` when the footer has fewer than 4 bytes;
  - in `Entry.addFile`, a `RangeError` below 8 bytes and a negative compressed size below 18 bytes.
- Sink errors, source errors and use after `close` are not modelled, because the code performs no such checks.

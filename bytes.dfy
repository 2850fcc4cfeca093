/**
 * Byte sequences and the fixed-width integer writes and reads that the ZIP
 * writer performs through `DataView`.
 *
 * `DataView.setUint16(off, v, littleEndian)` first reduces `v` modulo 2^16
 * (ToUint16) and then stores the two bytes in the requested order; when the
 * third argument is omitted the order is big-endian.  `setUint32` does the
 * same modulo 2^32.  The writers below return the bytes so stored; the
 * readers are what a ZIP reader (which reads every field little-endian)
 * recovers from them.
 */
module Bytes {

  import opened Seqs

  type byte = b: int | 0 <= b < 0x100

  const TWO16: int := 0x1_0000
  const TWO32: int := 0x1_0000_0000

  /** `setUint16(off, v, true)` */
  function LE16(v: int): (r: seq<byte>)
    ensures |r| == 2
  {
    var w := v % TWO16;
    [w % 0x100, w / 0x100]
  }

  /** `setUint16(off, v)`: the big-endian default */
  function BE16(v: int): (r: seq<byte>)
    ensures |r| == 2
  {
    var w := v % TWO16;
    [w / 0x100, w % 0x100]
  }

  /** `setUint32(off, v, true)` */
  function LE32(v: int): (r: seq<byte>)
    ensures |r| == 4
  {
    var w := v % TWO32;
    ByteSplit(w);
    [w % 0x100, (w / 0x100) % 0x100, (w / 0x1_0000) % 0x100, w / 0x100_0000]
  }

  /** `setUint32(off, v)`: the big-endian default */
  function BE32(v: int): (r: seq<byte>)
    ensures |r| == 4
  {
    var w := v % TWO32;
    ByteSplit(w);
    [w / 0x100_0000, (w / 0x1_0000) % 0x100, (w / 0x100) % 0x100, w % 0x100]
  }

  /** Each writer stores the value modulo its width, read back in the order it was written. */
  lemma WritersReadBack(v: int)
    ensures GetLE16(LE16(v), 0) == v % TWO16 && GetBE16(BE16(v), 0) == v % TWO16
    ensures GetLE32(LE32(v), 0) == v % TWO32 && GetBE32(BE32(v), 0) == v % TWO32
  {
    ByteSplit(v % TWO32);
  }

  /** The big-endian writers store the bytes of the little-endian ones in reverse order. */
  lemma BigEndianReversed(v: int)
    ensures BE16(v) == [LE16(v)[1], LE16(v)[0]]
    ensures BE32(v) == [LE32(v)[3], LE32(v)[2], LE32(v)[1], LE32(v)[0]]
  {
  }

  /** The little-endian 16-bit field at `off`, as a ZIP reader sees it. */
  function GetLE16(s: seq<byte>, off: int): (v: int)
    requires 0 <= off && off + 2 <= |s|
    ensures 0 <= v < TWO16
  {
    s[off] as int + 0x100 * s[off + 1] as int
  }

  /** `getUint16(off)`: the big-endian default */
  function GetBE16(s: seq<byte>, off: int): (v: int)
    requires 0 <= off && off + 2 <= |s|
    ensures 0 <= v < TWO16
  {
    0x100 * s[off] as int + s[off + 1] as int
  }

  /** The little-endian 32-bit field at `off`, as a ZIP reader sees it. */
  function GetLE32(s: seq<byte>, off: int): (v: int)
    requires 0 <= off && off + 4 <= |s|
    ensures 0 <= v < TWO32
  {
    s[off] as int + 0x100 * s[off + 1] as int + 0x1_0000 * s[off + 2] as int + 0x100_0000 * s[off + 3] as int
  }

  /** `getUint32(off)`: the big-endian default */
  function GetBE32(s: seq<byte>, off: int): (v: int)
    requires 0 <= off && off + 4 <= |s|
    ensures 0 <= v < TWO32
  {
    0x100_0000 * s[off] as int + 0x1_0000 * s[off + 1] as int + 0x100 * s[off + 2] as int + s[off + 3] as int
  }

  /** The four bytes of a 32-bit value recombine to that value. */
  lemma ByteSplit(w: int)
    requires 0 <= w < TWO32
    ensures w % 0x100 + 0x100 * ((w / 0x100) % 0x100) + 0x1_0000 * ((w / 0x1_0000) % 0x100)
            + 0x100_0000 * (w / 0x100_0000) == w
    ensures w / 0x100_0000 < 0x100
  {
    var a := w / 0x100;
    var b := a / 0x100;
    var c := b / 0x100;
    assert w == a * 0x100 + w % 0x100;
    assert a == b * 0x100 + a % 0x100;
    assert b == c * 0x100 + b % 0x100;
    assert w / 0x1_0000 == b;
    assert w / 0x100_0000 == c;
  }

  /**
   * Reading four bytes big-endian and writing the value back big-endian
   * reproduces the bytes: the checksum copied from a gzip trailer reaches the
   * archive verbatim.
   */
  lemma BE32OfGetBE32(s: seq<byte>, off: int)
    requires 0 <= off && off + 4 <= |s|
    ensures BE32(GetBE32(s, off)) == s[off..off + 4]
  {
    var w := GetBE32(s, off);
    BytesOfWord(s[off], s[off + 1], s[off + 2], s[off + 3], w);
    assert BE32(w) == [s[off], s[off + 1], s[off + 2], s[off + 3]];
  }

  /** The bytes of a 32-bit word made of four bytes, most significant first. */
  lemma BytesOfWord(a: byte, b: byte, c: byte, d: byte, w: int)
    requires w == 0x100_0000 * a + 0x1_0000 * b + 0x100 * c + d
    ensures w % TWO32 == w && w / 0x100_0000 == a && (w / 0x1_0000) % 0x100 == b
    ensures (w / 0x100) % 0x100 == c && w % 0x100 == d
  {
    assert w / 0x100 == 0x1_0000 * a + 0x100 * b + c;
    assert w / 0x1_0000 == 0x100 * a + b;
  }

  /**
   * The little-endian value of big-endian-written bytes is the byte-swapped
   * value: what a ZIP reader makes of a field the writer stored big-endian.
   */
  lemma GetLE32OfBE32(v: int)
    ensures GetLE32(BE32(v), 0) ==
      (v % TWO32) / 0x100_0000 + 0x100 * ((v % TWO32 / 0x1_0000) % 0x100)
      + 0x1_0000 * ((v % TWO32 / 0x100) % 0x100) + 0x100_0000 * (v % TWO32 % 0x100)
  {
  }

  /** A reader gets the same value from bytes wherever they sit. */
  lemma FieldValues(s: seq<byte>, off: int, p: seq<byte>)
    requires FieldAt(s, off, p)
    ensures |p| >= 2 ==> GetLE16(s, off) == GetLE16(p, 0) && GetBE16(s, off) == GetBE16(p, 0)
    ensures |p| >= 4 ==> GetLE32(s, off) == GetLE32(p, 0) && GetBE32(s, off) == GetBE32(p, 0)
  {
    if |p| >= 2 {
      FieldIndex(s, off, p, 0);
      FieldIndex(s, off, p, 1);
    }
    if |p| >= 4 {
      FieldIndex(s, off, p, 2);
      FieldIndex(s, off, p, 3);
    }
  }

  /** Only the big-endian 32-bit read of `FieldValues`. */
  lemma FieldBE32(s: seq<byte>, off: int, p: seq<byte>)
    requires FieldAt(s, off, p) && |p| >= 4
    ensures GetBE32(s, off) == GetBE32(p, 0)
  {
    FieldIndex(s, off, p, 0);
    FieldIndex(s, off, p, 1);
    FieldIndex(s, off, p, 2);
    FieldIndex(s, off, p, 3);
  }

  /** The same four bytes in two places read the same. */
  lemma SameLE32(s: seq<byte>, off: int, t: seq<byte>, at: int, p: seq<byte>)
    requires FieldAt(s, off, p) && FieldAt(t, at, p) && |p| == 4
    ensures GetLE32(s, off) == GetLE32(t, at)
  {
    FieldValues(s, off, p);
    FieldValues(t, at, p);
  }

  lemma GetLE16At(s: seq<byte>, off: int, v: int)
    requires FieldAt(s, off, LE16(v))
    ensures GetLE16(s, off) == v % TWO16
  {
    FieldValues(s, off, LE16(v));
    WritersReadBack(v);
  }

  lemma GetBE16At(s: seq<byte>, off: int, v: int)
    requires FieldAt(s, off, BE16(v))
    ensures GetBE16(s, off) == v % TWO16
  {
    FieldValues(s, off, BE16(v));
    WritersReadBack(v);
  }

  lemma GetLE32At(s: seq<byte>, off: int, v: int)
    requires FieldAt(s, off, LE32(v))
    ensures GetLE32(s, off) == v % TWO32
  {
    FieldValues(s, off, LE32(v));
    WritersReadBack(v);
  }

  /** The concatenation of a sequence of chunks, in order. */
  function Concat(chunks: seq<seq<byte>>): (r: seq<byte>)
  {
    if |chunks| == 0 then [] else Concat(chunks[..|chunks| - 1]) + chunks[|chunks| - 1]
  }

  lemma ConcatSingle(x: seq<byte>)
    ensures Concat([x]) == x
  {
    TakeNone([x]);
    AppendEmpty(x);
  }

  lemma {:induction false} ConcatAppend(a: seq<seq<byte>>, b: seq<seq<byte>>)
    ensures Concat(a + b) == Concat(a) + Concat(b)
  {
    if |b| == 0 {
      AppendEmpty(a);
      AppendEmpty(Concat(a));
    } else {
      var init, last := b[..|b| - 1], b[|b| - 1];
      AppendInit(a, b);
      ConcatAppend(a, init);
      Assoc(Concat(a), Concat(init), last);
    }
  }

  lemma ConcatCons(c: seq<byte>, rest: seq<seq<byte>>)
    ensures Concat([c] + rest) == c + Concat(rest)
  {
    ConcatAppend([c], rest);
    ConcatSingle(c);
  }

  lemma ConcatSnoc(pre: seq<seq<byte>>, x: seq<byte>)
    ensures Concat(pre + [x]) == Concat(pre) + x
  {
    SnocPrefix(pre, x);
  }

  /**
   * A part of a blob list sits in the concatenation right after the parts
   * before it.
   */
  lemma ConcatSplit(pre: seq<seq<byte>>, x: seq<byte>, post: seq<seq<byte>>)
    ensures Concat(pre + [x] + post) == Concat(pre) + x + Concat(post)
    ensures FieldAt(Concat(pre + [x] + post), |Concat(pre)|, x)
  {
    ConcatAppend(pre + [x], post);
    ConcatSnoc(pre, x);
    Pieces3(Concat(pre), x, Concat(post));
  }

  /** A run of parts sits in the concatenation right after the parts before it. */
  lemma ConcatPartsAt(pre: seq<seq<byte>>, mid: seq<seq<byte>>, post: seq<seq<byte>>)
    ensures Concat(pre + mid + post) == Concat(pre) + Concat(mid) + Concat(post)
    ensures FieldAt(Concat(pre + mid + post), |Concat(pre)|, Concat(mid))
  {
    ConcatAppend(pre + mid, post);
    ConcatAppend(pre, mid);
    Pieces3(Concat(pre), Concat(mid), Concat(post));
  }
}

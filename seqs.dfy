/**
 * Facts about sequences of any element type, and where a piece sits inside
 * a sequence.  Stated once here, they spare the proofs over bytes, chunks
 * and entries from comparing sequences element by element.
 */
module Seqs {

  /** The piece `piece` sits at offset `off` of `s`. */
  ghost predicate FieldAt<T>(s: seq<T>, off: int, piece: seq<T>)
  {
    0 <= off && off + |piece| <= |s| && s[off..off + |piece|] == piece
  }

  lemma TakeAll<T>(s: seq<T>)
    ensures s[..|s|] == s
  {
  }

  lemma SplitTake<T>(s: seq<T>, i: int)
    requires 0 <= i <= |s|
    ensures s == s[..i] + s[i..]
  {
  }

  lemma TakeNone<T>(s: seq<T>)
    ensures s[..0] == []
  {
  }

  lemma SplitLast<T>(s: seq<T>)
    requires |s| > 0
    ensures s == s[..|s| - 1] + [s[|s| - 1]]
  {
  }

  lemma SplitAt<T>(s: seq<T>, i: int)
    requires 0 <= i < |s|
    ensures s == s[..i] + [s[i]] + s[i + 1..]
  {
  }

  lemma PrefixSnoc<T>(s: seq<T>, i: int)
    requires 0 <= i < |s|
    ensures s[..i + 1] == s[..i] + [s[i]]
  {
  }

  lemma SnocPrefix<T>(s: seq<T>, x: T)
    ensures (s + [x])[..|s|] == s && (s + [x])[|s|] == x
  {
  }

  lemma PrefixPrefix<T>(s: seq<T>, i: int, k: int)
    requires 0 <= k <= i <= |s|
    ensures s[..i][..k] == s[..k]
  {
  }

  lemma AppendInit<T>(a: seq<T>, b: seq<T>)
    requires |b| > 0
    ensures (a + b)[..|a + b| - 1] == a + b[..|b| - 1]
    ensures (a + b)[|a + b| - 1] == b[|b| - 1]
  {
  }

  lemma Assoc<T>(a: seq<T>, b: seq<T>, c: seq<T>)
    ensures a + b + c == a + (b + c)
  {
  }

  lemma AppendEmpty<T>(a: seq<T>)
    ensures a + [] == a && [] + a == a
  {
  }

  lemma UpdateAt<T>(s: seq<T>, i: int, x: T)
    requires 0 <= i < |s|
    ensures s[i := x][..i + 1] == s[..i] + [x]
    ensures s[i := x][i + 1..] == s[i + 1..]
  {
  }

  lemma DropNext<T>(s: seq<T>, i: int)
    requires 0 <= i < |s|
    ensures s[i..][0] == s[i] && s[i..][1..] == s[i + 1..]
  {
  }

  lemma DropSnoc<T>(s: seq<T>, k: int)
    requires 0 < k < |s|
    ensures s[..k + 1][0] == s[..k][0] == s[0]
    ensures s[..k + 1][1..] == s[..k][1..] + [s[k]]
  {
  }

  lemma FieldWhole<T>(s: seq<T>)
    ensures FieldAt(s, 0, s)
  {
  }

  /** A piece stays where it is when more follows. */
  lemma FieldLeft<T>(a: seq<T>, b: seq<T>, off: int, piece: seq<T>)
    requires FieldAt(a, off, piece)
    ensures FieldAt(a + b, off, piece)
  {
    assert (a + b)[off..off + |piece|] == a[off..off + |piece|];
  }

  /** A piece of a piece. */
  lemma FieldNested<T>(s: seq<T>, off: int, piece: seq<T>, i: int, sub: seq<T>, at: int)
    requires FieldAt(s, off, piece) && FieldAt(piece, i, sub) && at == off + i
    ensures FieldAt(s, at, sub)
  {
    assert s[at..at + |sub|] == s[off..off + |piece|][i..i + |sub|];
  }

  lemma FieldIndex<T>(s: seq<T>, off: int, piece: seq<T>, k: int)
    requires FieldAt(s, off, piece) && 0 <= k < |piece|
    ensures s[off + k] == piece[k]
  {
    assert s[off..off + |piece|][k] == piece[k];
  }

  /** The positions of the pieces of `a + b`. */
  lemma Pieces2<T>(a: seq<T>, b: seq<T>)
    ensures FieldAt(a + b, 0, a) && FieldAt(a + b, |a|, b)
  {
    assert (a + b)[0..|a|] == a;
    assert (a + b)[|a|..|a| + |b|] == b;
  }

  /** The positions of the pieces of `a + b + c`. */
  lemma Pieces3<T>(a: seq<T>, b: seq<T>, c: seq<T>)
    ensures var s := a + b + c;
      FieldAt(s, 0, a) && FieldAt(s, |a|, b) && FieldAt(s, |a| + |b|, c)
  {
    Pieces2(a, b);
    Pieces2(a + b, c);
    FieldLeft(a + b, c, 0, a);
    FieldLeft(a + b, c, |a|, b);
  }

  /** The positions of the pieces of `a + b + c + d`. */
  lemma Pieces4<T>(a: seq<T>, b: seq<T>, c: seq<T>, d: seq<T>)
    ensures var s := a + b + c + d;
      && FieldAt(s, 0, a) && FieldAt(s, |a|, b) && FieldAt(s, |a| + |b|, c)
      && FieldAt(s, |a| + |b| + |c|, d)
  {
    Pieces3(a, b, c);
    Pieces2(a + b + c, d);
    FieldLeft(a + b + c, d, 0, a);
    FieldLeft(a + b + c, d, |a|, b);
    FieldLeft(a + b + c, d, |a| + |b|, c);
  }

  /** The positions of the pieces of `a + b + c + d + e`. */
  lemma Pieces5<T>(a: seq<T>, b: seq<T>, c: seq<T>, d: seq<T>, e: seq<T>)
    ensures var s := a + b + c + d + e;
      && FieldAt(s, 0, a) && FieldAt(s, |a|, b) && FieldAt(s, |a| + |b|, c)
      && FieldAt(s, |a| + |b| + |c|, d) && FieldAt(s, |a| + |b| + |c| + |d|, e)
  {
    Pieces4(a, b, c, d);
    Pieces2(a + b + c + d, e);
    FieldLeft(a + b + c + d, e, 0, a);
    FieldLeft(a + b + c + d, e, |a|, b);
    FieldLeft(a + b + c + d, e, |a| + |b|, c);
    FieldLeft(a + b + c + d, e, |a| + |b| + |c|, d);
  }
}

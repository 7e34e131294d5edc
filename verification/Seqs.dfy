/** Facts about concatenation and slicing, proved once so that the codec proofs
    can use them by name. */
module Seqs {
  lemma Split<T>(a: seq<T>, b: seq<T>)
    ensures (a + b)[..|a|] == a
    ensures (a + b)[|a|..] == b
  {
  }

  lemma Assoc<T>(a: seq<T>, b: seq<T>, c: seq<T>)
    ensures a + b + c == a + (b + c)
  {
  }

  lemma TakeNext<T>(s: seq<T>, k: nat)
    requires k < |s|
    ensures s[..k + 1] == s[..k] + [s[k]]
  {
  }

  lemma AppendLast<T>(a: seq<T>, b: seq<T>)
    requires b != []
    ensures a + b == a + b[..|b| - 1] + [b[|b| - 1]]
  {
  }

  /** Dropping the first of three pieces, and the first two. */
  lemma Split3<T>(a: seq<T>, b: seq<T>, c: seq<T>)
    ensures (a + b + c)[..|a|] == a
    ensures (a + b + c)[|a|..] == b + c
    ensures (a + b + c)[|a|..|a| + |b|] == b
    ensures (a + b + c)[|a| + |b|..] == c
  {
    Assoc(a, b, c);
    Split(a, b + c);
    Split(a + b, c);
    assert (a + b + c)[|a|..|a| + |b|] == (a + b + c)[..|a| + |b|][|a|..];
    Split(a, b);
  }

  /** The five pieces of an encoded option in front of the rest of a packet. */
  lemma Split5<T>(a: seq<T>, b: seq<T>, c: seq<T>, d: seq<T>, e: seq<T>)
    ensures var s := (a + b + c) + d + e;
            var n := |a| + |b| + |c|;
            && s[..|a|] == a
            && s[|a|..] == b + (c + d + e)
            && s[|a| + |b|..] == c + (d + e)
            && s[n..n + |d|] == d
            && s[n + |d|..] == e
  {
    var h := a + b + c;
    Split3(h, d, e);
    Assoc(h, d, e);
    Assoc(a, b, c);
    Assoc(a, b + c, d + e);
    Split(a, b + c + (d + e));
    Assoc(b, c, d + e);
    Assoc(c, d, e);
    Assoc(a, b, c + (d + e));
    Split(a + b, c + (d + e));
  }

  /** A slice of a slice. */
  lemma Slice<T>(s: seq<T>, a: nat, b: nat, i: nat, j: nat)
    requires a <= b <= |s| && i <= j <= b - a
    ensures s[a..b][i..j] == s[a + i..a + j]
  {
    var l, r := s[a..b][i..j], s[a + i..a + j];
    assert |l| == |r|;
    assert forall k :: 0 <= k < |l| ==> l[k] == s[a + i + k] == r[k];
  }

  /** A first element followed by two slices. */
  lemma Prefix3<T>(s: seq<T>, m: nat, n: nat)
    requires 1 + m + n <= |s|
    ensures s[..1 + m + n] == [s[0]] + s[1..][..m] + s[1 + m..][..n]
  {
  }

  lemma Reassemble3<T>(s: seq<T>, i: nat, j: nat)
    requires i <= j <= |s|
    ensures s == s[..i] + s[i..j] + s[j..]
  {
  }

  /** s written over a at position `at`. */
  function Splice<T>(a: seq<T>, at: nat, s: seq<T>): (r: seq<T>)
    requires at + |s| <= |a|
    ensures |r| == |a|
  {
    a[..at] + s + a[at + |s|..]
  }

  /** Splicing, element by element. */
  lemma SpliceIs<T>(a: seq<T>, at: nat, s: seq<T>, r: seq<T>)
    requires at + |s| <= |a| == |r|
    requires forall k :: 0 <= k < |r| ==> r[k] == if at <= k < at + |s| then s[k - at] else a[k]
    ensures r == Splice(a, at, s)
  {
  }

  lemma SpliceParts<T>(a: seq<T>, at: nat, s: seq<T>)
    requires at + |s| <= |a|
    ensures Splice(a, at, s)[..at] == a[..at]
    ensures Splice(a, at, s)[at..at + |s|] == s
    ensures Splice(a, at, s)[at + |s|..] == a[at + |s|..]
  {
    Split3(a[..at], s, a[at + |s|..]);
  }

  /** Slices outside the written region are unchanged. */
  lemma SpliceOutside<T>(a: seq<T>, at: nat, s: seq<T>, i: nat, j: nat)
    requires at + |s| <= |a| && i <= j <= |a| && (j <= at || at + |s| <= i)
    ensures Splice(a, at, s)[i..j] == a[i..j]
  {
    var r := Splice(a, at, s);
    assert forall k :: i <= k < j ==> r[k] == a[k];
  }

  lemma SpliceFirst<T>(a: seq<T>, at: nat, s: seq<T>)
    requires 1 <= at && at + |s| <= |a|
    ensures Splice(a, at, s)[0] == a[0]
  {
  }

  /** A piece at p copied n further on. */
  lemma Shifted<T>(a: seq<T>, p: nat, n: nat, s: seq<T>)
    requires p + n + |s| <= |a| && a[p..p + |s|] == s
    ensures Splice(a, p + n, s)[..p] == a[..p]
    ensures Splice(a, p + n, s)[p + n..p + n + |s|] == s
  {
    SpliceParts(a, p + n, s);
    SpliceOutside(a, p + n, s, 0, p);
  }

  lemma UpdateOutside<T>(a: seq<T>, k: nat, v: T, i: nat, j: nat)
    requires k < |a| && i <= j <= |a| && (k < i || j <= k)
    ensures a[k := v][i..j] == a[i..j]
  {
  }

  /** Two adjacent slices are one slice. */
  lemma Join<T>(a: seq<T>, i: nat, j: nat, k: nat)
    requires i <= j <= k <= |a|
    ensures a[i..j] + a[j..k] == a[i..k]
  {
  }

  /** Three pieces found next to each other at the front. */
  lemma Front3<T>(a: seq<T>, x: seq<T>, y: seq<T>, z: seq<T>)
    requires |x| + |y| + |z| <= |a|
    requires a[..|x|] == x && a[|x|..|x| + |y|] == y && a[|x| + |y|..|x| + |y| + |z|] == z
    ensures a[..|x| + |y| + |z|] == x + y + z
  {
    Join(a, 0, |x|, |x| + |y|);
    Join(a, 0, |x| + |y|, |x| + |y| + |z|);
  }

  // ----------------------------------------------------- pieces of a sequence

  /** s lies in a at position `at`. */
  predicate PieceAt<T(==)>(a: seq<T>, at: nat, s: seq<T>) {
    at + |s| <= |a| && a[at..at + |s|] == s
  }

  lemma PieceSplit<T>(a: seq<T>, at: nat, x: seq<T>, y: seq<T>)
    requires PieceAt(a, at, x + y)
    ensures PieceAt(a, at, x) && PieceAt(a, at + |x|, y)
  {
    Split(x, y);
    Slice(a, at, at + |x| + |y|, 0, |x|);
    Slice(a, at, at + |x| + |y|, |x|, |x| + |y|);
  }

  lemma PieceJoin<T>(a: seq<T>, at: nat, x: seq<T>, y: seq<T>)
    requires PieceAt(a, at, x) && PieceAt(a, at + |x|, y)
    ensures PieceAt(a, at, x + y)
  {
    Join(a, at, at + |x|, at + |x| + |y|);
  }

  lemma PieceWritten<T>(a: seq<T>, at: nat, s: seq<T>)
    requires at + |s| <= |a|
    ensures PieceAt(Splice(a, at, s), at, s)
  {
    SpliceParts(a, at, s);
  }

  lemma PieceKept<T>(a: seq<T>, at: nat, s: seq<T>, q: nat, p: seq<T>)
    requires at + |s| <= |a| && PieceAt(a, q, p) && (q + |p| <= at || at + |s| <= q)
    ensures PieceAt(Splice(a, at, s), q, p)
  {
    SpliceOutside(a, at, s, q, q + |p|);
  }

  /** Writing on behind a written piece, up to a piece that is already there. */
  lemma SpliceOn<T>(a: seq<T>, at: nat, r: seq<T>, h: seq<T>, v: seq<T>)
    requires PieceAt(a, at + |r| + |h|, v)
    ensures Splice(Splice(a, at, r), at + |r|, h) == Splice(a, at, r + (h + v))
  {
    var x, y, q := Splice(Splice(a, at, r), at + |r|, h), Splice(a, at, r + (h + v)), at + |r| + |h|;
    assert forall i :: q <= i < q + |v| ==> a[i] == a[q..q + |v|][i - q];
    assert |x| == |y|;
    assert forall i :: 0 <= i < |x| ==> x[i] == y[i];
  }
}

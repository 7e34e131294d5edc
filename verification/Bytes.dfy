/** Machine integers of the C code, as subset types over `int`, and the byte
    order of multi-byte fields. Shifts and masks are written as division,
    multiplication and remainder by the corresponding power of two. */
module Bytes {
  newtype byte = x: int | 0 <= x < 0x100
  type u16 = x: int | 0 <= x < 0x1_0000
  type u32 = x: int | 0 <= x < 0x1_0000_0000
  type u64 = x: int | 0 <= x < 0x1_0000_0000_0000_0000

  datatype Option<+T> = None | Some(value: T)

  /** 256 to the power n, the weight of byte n. */
  function Pow256(n: nat): (p: nat)
    ensures p >= 1
  {
    if n == 0 then 1 else 256 * Pow256(n - 1)
  }

  /** The low n bytes of v, least significant first: what `memcpy` from a
      little-endian integer copies. */
  function LittleEndian(v: nat, n: nat): (s: seq<byte>)
    ensures |s| == n
  {
    if n == 0 then [] else [(v % 256) as byte] + LittleEndian(v / 256, n - 1)
  }

  /** The integer that `memcpy` of s into a zeroed little-endian integer gives. */
  function LittleEndianValue(s: seq<byte>): nat {
    if s == [] then 0 else s[0] as int + 256 * LittleEndianValue(s[1..])
  }

  /** Quotient and remainder are determined by their defining equation. */
  lemma RemainderUnique(v: int, d: int, q: int, r: int)
    requires 0 <= r < d && v == d * q + r
    ensures v % d == r
  {
    var q', r' := v / d, v % d;
    assert d * (q' - q) == r - r' by {
      assert v == d * q' + r';
      assert d * (q' - q) == d * q' - d * q;
    }
    assert d * (q - q') == r' - r;
    if q' > q {
      MulAtLeast(d, q' - q);
    } else if q' < q {
      MulAtLeast(d, q - q');
    }
  }

  lemma MulAtLeast(d: int, k: int)
    requires d >= 1 && k >= 1
    ensures d * k >= d
  {
    assert d * (k - 1) >= 0;
  }

  /** Splitting off the low byte of a remainder. */
  lemma ModSplit(v: nat, p: nat)
    requires p >= 1
    ensures v % (256 * p) == v % 256 + 256 * (v / 256 % p)
  {
    var q, r := v / 256 / p, v / 256 % p;
    assert v / 256 == p * q + r;
    assert 256 * (p * q) == (256 * p) * q;
    RemainderUnique(v, 256 * p, q, 256 * r + v % 256);
  }

  /** Reading back the low n bytes of v gives v modulo 256^n. */
  lemma {:induction false} LittleEndianRoundTrip(v: nat, n: nat)
    ensures LittleEndianValue(LittleEndian(v, n)) == v % Pow256(n)
  {
    if n > 0 {
      LittleEndianRoundTrip(v / 256, n - 1);
      assert LittleEndian(v, n)[1..] == LittleEndian(v / 256, n - 1);
      ModSplit(v, Pow256(n - 1));
    }
  }

  /** Writing back the value of s in |s| bytes gives s. */
  lemma {:induction false} LittleEndianInverse(s: seq<byte>)
    ensures LittleEndian(LittleEndianValue(s), |s|) == s
  {
    if s != [] {
      var v, w := LittleEndianValue(s), LittleEndianValue(s[1..]);
      assert v == 256 * w + s[0] as int;
      assert LittleEndian(v, |s|) == [(v % 256) as byte] + LittleEndian(v / 256, |s| - 1);
      hide *;
      LittleEndianInverse(s[1..]);
      RemainderUnique(v, 256, w, s[0] as int);
      assert v / 256 == w;
      assert s == [s[0]] + s[1..];
    }
  }
}

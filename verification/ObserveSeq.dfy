/** The Observe sequence number as src/exosite.c computes it: the bytes of the
    option are folded into a 32-bit word, byte j shifting by 8 * j bits. */
module ObserveSeq {
  import opened Bytes

  const WORD: nat := 0x1_0000_0000

  function Pow2(n: nat): (p: nat)
    ensures p >= 1
  {
    if n == 0 then 1 else 2 * Pow2(n - 1)
  }

  /** Bitwise or of the low n bits. */
  function OrBits(a: nat, b: nat, n: nat): (r: nat)
    ensures r < Pow2(n)
    ensures a == 0 && b < Pow2(n) ==> r == b
  {
    if n == 0 then 0
    else 2 * OrBits(a / 2, b / 2, n - 1) + (if a % 2 == 1 || b % 2 == 1 then 1 else 0)
  }

  lemma PowEight()
    ensures Pow2(8) == 256
  {
    assert Pow2(4) == 16;
  }

  /** A word or-ed with a byte. */
  function OrByte(x: u32, v: byte): (r: u32)
    ensures x % 256 == 0 ==> r == x + v as int
  {
    PowEight();
    256 * (x / 256) + OrBits(x % 256, v as int, 8)
  }

  /** One step of the fold; the shift stays within the word for j < 4. */
  function FoldStep(x: u32, j: nat, v: byte): u32 {
    OrByte((x * Pow256(j)) % WORD, v)
  }

  /** The fold of up to four bytes onto a start value. A fifth byte would shift
      by the full width of the word, which C leaves undefined. */
  function Fold(start: u32, s: seq<byte>): u32
    requires |s| <= 4
  {
    if s == [] then start
    else FoldStep(Fold(start, s[..|s| - 1]), |s| - 1, s[|s| - 1])
  }

  /** The first step only ors; the next two make room first. */
  lemma Step0(x: u32, v: byte)
    ensures FoldStep(x, 0, v) == OrByte(x, v)
  {
    assert Pow256(0) == 1;
    hide Pow256, OrByte;
    assert x * 1 == x && x % WORD == x;
  }

  lemma Powers()
    ensures Pow256(0) == 1 && Pow256(1) == 256 && Pow256(2) == 0x1_0000 && Pow256(3) == 0x100_0000
  {
    assert Pow256(1) == 256 * Pow256(0);
    assert Pow256(2) == 256 * Pow256(1);
  }

  /** Or-ing a byte into a word whose low byte is zero. */
  lemma OrShifted(y: u32, q: int, v: byte)
    requires y == 256 * q
    ensures OrByte(y, v) == y + v as int
  {
    RemainderUnique(y, 256, q, 0);
    hide OrBits;
  }

  lemma Step1(x: u32, v: byte)
    ensures FoldStep(x, 1, v) == (x % 0x100_0000) * 256 + v as int
  {
    Powers();
    hide Pow256, OrByte;
    var r := x % 0x100_0000;
    RemainderUnique(x * 256, WORD, x / 0x100_0000, r * 256);
    OrShifted(r * 256, r, v);
  }

  lemma Step2(x: u32, v: byte)
    ensures FoldStep(x, 2, v) == (x % 0x1_0000) * 0x1_0000 + v as int
  {
    Powers();
    hide Pow256, OrByte;
    var r := x % 0x1_0000;
    RemainderUnique(x * 0x1_0000, WORD, x / 0x1_0000, r * 0x1_0000);
    OrShifted(r * 0x1_0000, r * 256, v);
  }

  lemma Step3(x: u32, v: byte)
    ensures FoldStep(x, 3, v) == (x % 256) * 0x100_0000 + v as int
  {
    Powers();
    hide Pow256, OrByte;
    var r := x % 256;
    RemainderUnique(x * 0x100_0000, WORD, x / 256, r * 0x100_0000);
    OrShifted(r * 0x100_0000, r * 0x1_0000, v);
  }

  /** The fold onto a start value, written out. */
  lemma FoldOne(start: u32, a: byte)
    ensures Fold(start, [a]) == OrByte(start, a)
  {
    assert [a][..0] == [];
    Step0(start, a);
    hide FoldStep, OrByte;
  }

  lemma FoldTwo(start: u32, a: byte, b: byte)
    ensures Fold(start, [a, b]) == (OrByte(start, a) % 0x100_0000) * 256 + b as int
  {
    assert [a, b][..1] == [a];
    FoldOne(start, a);
    Step1(OrByte(start, a), b);
    hide FoldStep, OrByte;
  }

  lemma FoldThree(start: u32, a: byte, b: byte, c: byte)
    ensures Fold(start, [a, b, c]) == (OrByte(start, a) % 256) * 0x100_0000 + b as int * 0x1_0000 + c as int
  {
    assert [a, b, c][..2] == [a, b];
    FoldTwo(start, a, b);
    var x := Fold(start, [a, b]);
    Step2(x, c);
    hide FoldStep, OrByte, Fold;
    ModNested(OrByte(start, a), b);
  }

  lemma ModNested(y: nat, b: byte)
    ensures ((y % 0x100_0000) * 256 + b as int) % 0x1_0000 == (y % 256) * 256 + b as int
  {
    var z := y % 0x100_0000;
    RemainderUnique(y, 256, 0x1_0000 * (y / 0x100_0000) + z / 256, z % 256);
    RemainderUnique(z * 256 + b as int, 0x1_0000, z / 256, (z % 256) * 256 + b as int);
  }

  /** The fold from zero, written out. */
  lemma FoldZero(a: byte, b: byte, c: byte)
    ensures Fold(0, []) == 0
    ensures Fold(0, [a]) == a as int
    ensures Fold(0, [a, b]) == a as int * 256 + b as int
    ensures Fold(0, [a, b, c]) == a as int * 0x100_0000 + b as int * 0x1_0000 + c as int
  {
    hide *;
    FoldNil(0);
    FoldOne(0, a);
    FoldTwo(0, a, b);
    FoldThree(0, a, b, c);
    OrZero(0, a);
  }

  lemma FoldNil(start: u32)
    ensures Fold(start, []) == start
  {
  }

  lemma OrZero(x: u32, v: byte)
    requires x == 0
    ensures OrByte(x, v) == v as int
  {
  }

  // ------------------------------------------------------------- injectivity

  /** An unsigned integer option value without leading zero bytes, at most
      three bytes long (section 2 of RFC 7641). */
  predicate Canonical(s: seq<byte>) {
    |s| <= 3 && (s != [] ==> s[0] != 0)
  }

  /** The word that a canonical value folds to from zero. */
  lemma FoldCanonical(s: seq<byte>)
    requires Canonical(s)
    ensures s == [] ==> Fold(0, s) == 0
    ensures |s| == 1 ==> Fold(0, s) == s[0] as int
    ensures |s| == 2 ==> Fold(0, s) == s[0] as int * 256 + s[1] as int
    ensures |s| == 3 ==> Fold(0, s) == s[0] as int * 0x100_0000 + s[1] as int * 0x1_0000 + s[2] as int
  {
    hide Fold;
    if s == [] {
      FoldZero(0, 0, 0);
    } else if |s| == 1 {
      assert s == [s[0]];
      FoldZero(s[0], 0, 0);
    } else if |s| == 2 {
      assert s == [s[0], s[1]];
      FoldZero(s[0], s[1], 0);
    } else {
      assert s == [s[0], s[1], s[2]];
      FoldZero(s[0], s[1], s[2]);
    }
  }

  /** Canonical values of different lengths fold into disjoint ranges. */
  lemma FoldRange(s: seq<byte>)
    requires Canonical(s)
    ensures |s| == if Fold(0, s) == 0 then 0 else if Fold(0, s) < 0x100 then 1 else if Fold(0, s) < 0x1_0000 then 2 else 3
  {
    FoldCanonical(s);
    assert s != [] ==> s[0] as int >= 1;
    hide *;
  }

  /** Although the three-byte fold leaves a gap in the word, two canonical
      values fold to the same word only if they are the same. */
  lemma FoldInjective(s: seq<byte>, t: seq<byte>)
    requires Canonical(s) && Canonical(t)
    ensures Fold(0, s) == Fold(0, t) <==> s == t
  {
    if Fold(0, s) == Fold(0, t) {
      FoldRange(s);
      FoldRange(t);
      hide *;
      SameLength(s, t);
    }
  }

  lemma SameLength(s: seq<byte>, t: seq<byte>)
    requires Canonical(s) && Canonical(t) && |s| == |t| && Fold(0, s) == Fold(0, t)
    ensures s == t
  {
    var n := |s|;
    assert n <= 3;
    hide *;
    if n == 1 {
      FoldCanonical(s);
      FoldCanonical(t);
      assert s == [s[0]] && t == [t[0]];
    } else if n == 2 {
      SameTwo(s, t);
    } else if n == 3 {
      SameThree(s, t);
    }
  }

  lemma SameTwo(s: seq<byte>, t: seq<byte>)
    requires Canonical(s) && Canonical(t) && |s| == |t| == 2 && Fold(0, s) == Fold(0, t)
    ensures s == t
  {
    hide *;
    FoldCanonical(s);
    FoldCanonical(t);
    Digits(s[0], s[1], t[0], t[1]);
  }

  lemma SameThree(s: seq<byte>, t: seq<byte>)
    requires Canonical(s) && Canonical(t) && |s| == |t| == 3 && Fold(0, s) == Fold(0, t)
    ensures s == t
  {
    hide *;
    FoldCanonical(s);
    FoldCanonical(t);
    Gap(s[0], s[1], s[2], t[0], t[1], t[2]);
  }

  lemma Digits(a: byte, b: byte, c: byte, d: byte)
    requires a as int * 256 + b as int == c as int * 256 + d as int
    ensures a == c && b == d
  {
    assert (a as int * 256 + b as int) % 256 == b as int;
  }

  lemma Gap(a: byte, b: byte, c: byte, d: byte, e: byte, f: byte)
    requires a as int * 0x100_0000 + b as int * 0x1_0000 + c as int == d as int * 0x100_0000 + e as int * 0x1_0000 + f as int
    ensures a == d && b == e && c == f
  {
    var x, y := a as int * 256 + b as int, d as int * 256 + e as int;
    assert x * 0x1_0000 + c as int == y * 0x1_0000 + f as int;
    assert x == y;
    Digits(a, b, d, e);
  }

  // ------------------------------------------- folding onto an old number

  /** Every one of the low n bits that is set in a is set in b. */
  predicate BitsWithin(a: nat, b: nat, n: nat) {
    n == 0 || ((a % 2 == 1 ==> b % 2 == 1) && BitsWithin(a / 2, b / 2, n - 1))
  }

  predicate Within(a: nat, b: byte) {
    BitsWithin(a, b as int, 8)
  }

  lemma {:induction false} OrWithin(a: nat, b: nat, n: nat)
    requires b < Pow2(n)
    ensures OrBits(a, b, n) == b <==> BitsWithin(a, b, n)
  {
    if n > 0 {
      OrWithin(a / 2, b / 2, n - 1);
    }
  }

  /** Or-ing a word into a byte works on its low byte only. */
  lemma OrByteParts(x: u32, v: byte) returns (o: nat)
    ensures o < 256 && OrByte(x, v) == 256 * (x / 256) + o && (o == v as int <==> Within(x % 256, v))
  {
    PowEight();
    OrWithin(x % 256, v as int, 8);
    o := OrBits(x % 256, v as int, 8);
  }

  /** Or-ing a word into a byte, byte by byte of the word. */
  lemma OrByteWithin(x: u32, v: byte)
    ensures OrByte(x, v) == v as int <==> x < 256 && Within(x, v)
    ensures OrByte(x, v) % 0x100_0000 == v as int <==> x % 0x100_0000 < 256 && Within(x % 256, v)
    ensures OrByte(x, v) % 256 == v as int <==> Within(x % 256, v)
  {
    hide *;
    var o := OrByteParts(x, v);
    var q := x / 256;
    LowByte(x, q, x % 256);
    Low24(x, q, x % 256);
    LowByte(256 * q + o, q, o);
    Low24(256 * q + o, q, o);
  }

  lemma LowByte(y: nat, q: nat, o: nat)
    requires y == 256 * q + o && o < 256
    ensures y % 256 == o && (y < 256 <==> q == 0)
  {
    RemainderUnique(y, 256, q, o);
  }

  lemma Low24(y: nat, q: nat, o: nat)
    requires y == 256 * q + o && o < 256
    ensures y % 0x100_0000 == 256 * (q % 0x1_0000) + o
  {
    RemainderUnique(y, 0x100_0000, q / 0x1_0000, 256 * (q % 0x1_0000) + o);
  }

  /** Folding s onto an old word leaves nothing of it: per length of s, which
      bytes of the word must be zero, and which bits must lie in those of s[0]. */
  predicate Forgets(prior: u32, s: seq<byte>)
    requires |s| <= 4
  {
    if s == [] then prior == 0
    else if |s| == 1 then prior < 256 && Within(prior, s[0])
    else if |s| == 2 then prior % 0x100_0000 < 256 && Within(prior % 256, s[0])
    else |s| == 3 ==> Within(prior % 256, s[0])
  }

  /** A response to a renewed subscription is folded onto the old word instead
      of zero; the result is right exactly if the fold forgets the old word. */
  lemma FoldOntoOld(prior: u32, s: seq<byte>)
    requires |s| <= 4
    ensures Fold(prior, s) == Fold(0, s) <==> Forgets(prior, s)
  {
    FoldNil(prior);
    FoldNil(0);
    hide Fold, OrByte, Within, FoldStep;
    if |s| == 1 {
      assert s == [s[0]];
      OneOntoOld(prior, s[0]);
    } else if |s| == 2 {
      assert s == [s[0], s[1]];
      TwoOntoOld(prior, s[0], s[1]);
    } else if |s| == 3 {
      assert s == [s[0], s[1], s[2]];
      ThreeOntoOld(prior, s[0], s[1], s[2]);
    } else if |s| == 4 {
      assert s == [s[0], s[1], s[2], s[3]];
      FoldFour(prior, s[0], s[1], s[2], s[3]);
      FoldFour(0, s[0], s[1], s[2], s[3]);
    }
  }

  lemma OneOntoOld(prior: u32, a: byte)
    ensures Fold(prior, [a]) == Fold(0, [a]) <==> prior < 256 && Within(prior, a)
  {
    hide *;
    FoldZero(a, 0, 0);
    FoldOne(prior, a);
    OrByteWithin(prior, a);
  }

  lemma TwoOntoOld(prior: u32, a: byte, b: byte)
    ensures Fold(prior, [a, b]) == Fold(0, [a, b]) <==> prior % 0x100_0000 < 256 && Within(prior % 256, a)
  {
    hide *;
    FoldZero(a, b, 0);
    FoldTwo(prior, a, b);
    OrByteWithin(prior, a);
  }

  lemma ThreeOntoOld(prior: u32, a: byte, b: byte, c: byte)
    ensures Fold(prior, [a, b, c]) == Fold(0, [a, b, c]) <==> Within(prior % 256, a)
  {
    hide *;
    FoldZero(a, b, c);
    FoldThree(prior, a, b, c);
    OrByteWithin(prior, a);
  }

  /** Of four bytes only the last two are left, and nothing of the old word. */
  lemma FoldFour(start: u32, a: byte, b: byte, c: byte, d: byte)
    ensures Fold(start, [a, b, c, d]) == c as int * 0x100_0000 + d as int
  {
    assert [a, b, c, d][..3] == [a, b, c];
    FoldThree(start, a, b, c);
    var x := Fold(start, [a, b, c]);
    Step3(x, d);
    hide FoldStep, OrByte, Fold;
    RemainderUnique(x, 256, (OrByte(start, a) % 256) * 0x1_0000 + b as int * 256, c as int);
  }

  /** The condition in terms of the last accepted and the new Observe value. */
  predicate Absorbs(last: seq<byte>, s: seq<byte>) {
    || last == []
    || (|s| == 1 && |last| == 1 && Within(last[0] as int, s[0]))
    || (|s| == 2 && |last| == 1 && Within(last[0] as int, s[0]))
    || (|s| == 2 && |last| == 3 && last[1] == 0 && Within(last[2] as int, s[0]))
    || (|s| == 3 && Within(last[|last| - 1] as int, s[0]))
  }

  lemma AbsorbsExact(last: seq<byte>, s: seq<byte>)
    requires Canonical(last) && Canonical(s)
    ensures Fold(Fold(0, last), s) == Fold(0, s) <==> Absorbs(last, s)
  {
    var word := Fold(0, last);
    FoldOntoOld(word, s);
    if last == [] {
      FoldNil(0);
      ZeroForgotten(s);
      hide *;
      assert Absorbs([], s);
    } else {
      FoldRange(last);
      LowBytes(last);
      hide *;
      ForgetsBytes(word, last, s);
    }
  }

  lemma ForgetsBytes(word: u32, last: seq<byte>, s: seq<byte>)
    requires 1 <= |last| <= 3 && |s| <= 3
    requires word > 0 && (word < 256 <==> |last| == 1) && word % 256 == last[|last| - 1] as int
    requires word % 0x100_0000 < 256 <==> |last| == 1 || (|last| == 3 && last[1] == 0)
    ensures Forgets(word, s) <==> Absorbs(last, s)
  {
    hide Within;
  }

  lemma ZeroForgotten(s: seq<byte>)
    requires |s| <= 4
    ensures Forgets(0, s)
  {
    if s != [] {
      ZeroWithin(s[0] as int, 8);
    }
  }

  lemma {:induction false} ZeroWithin(b: nat, n: nat)
    ensures BitsWithin(0, b, n)
  {
    if n > 0 {
      ZeroWithin(b / 2, n - 1);
    }
  }

  /** Which of the low bytes of its word a canonical value occupies. */
  lemma LowBytes(last: seq<byte>)
    requires Canonical(last) && last != []
    ensures Fold(0, last) % 256 == last[|last| - 1] as int
    ensures Fold(0, last) % 0x100_0000 < 256 <==> |last| == 1 || (|last| == 3 && last[1] == 0)
  {
    FoldCanonical(last);
    var word, a := Fold(0, last), last[0] as int;
    assert a >= 1;
    hide *;
    if |last| == 1 {
      RemainderUnique(word, 256, 0, a);
      RemainderUnique(word, 0x100_0000, 0, a);
    } else if |last| == 2 {
      RemainderUnique(word, 256, a, last[1] as int);
      RemainderUnique(word, 0x100_0000, 0, word);
    } else {
      RemainderUnique(word, 256, a * 0x1_0000 + last[1] as int * 256, last[2] as int);
      RemainderUnique(word, 0x100_0000, a, last[1] as int * 0x1_0000 + last[2] as int);
    }
  }

  /** For instance, the response 2 after an accepted 1 is taken for a 3. */
  lemma FoldMixes()
    ensures Fold(0, [1]) == 1 && Fold(1, [2]) == 3 && Fold(0, [3]) == 3 && !Absorbs([1], [2])
  {
    FoldZero(1, 0, 0);
    FoldZero(3, 0, 0);
    FoldOne(1, 2);
    hide Fold;
    assert OrBits(1, 2, 8) == 3 by {
      assert OrBits(0, 0, 6) == 0;
      assert OrBits(0, 1, 7) == 1;
    }
    assert !BitsWithin(1, 2, 8);
  }
}

/** What coap_adjust_option_deltas makes of the options behind an insertion
    point. It counts the delta of every one of them from the new option's number,
    which is right for the first of them only. */
module Recount {
  import opened Bytes
  import opened CoapFormat
  import opened OptionCodec
  import Seqs

  /** Options that one numbered num is inserted in front of. */
  predicate Behind(num: nat, opts: seq<Opt>) {
    forall j :: 0 <= j < |opts| ==> num < opts[j].num < 0x1_0000 && |opts[j].value| < 0x1_0000
  }

  /** Their encoding with every delta counted from num. */
  function Recounted(num: nat, opts: seq<Opt>): seq<byte>
    requires Behind(num, opts)
  {
    if opts == [] then []
    else
      var n := |opts| - 1;
      Recounted(num, opts[..n]) + EncodeOption(num, opts[n])
  }

  /** The number that the delta of option j is counted from. */
  function NumAt(prev: nat, opts: seq<Opt>, j: nat): nat
    requires j <= |opts|
  {
    if j == 0 then prev else opts[j - 1].num
  }

  /** No header changes its length when its delta is counted from num. */
  predicate KeepsHeaders(prev: nat, num: nat, opts: seq<Opt>)
    requires Behind(num, opts)
  {
    forall j :: 0 <= j < |opts| ==>
      && NumAt(prev, opts, j) <= opts[j].num
      && HeaderLen(opts[j].num - num, |opts[j].value|) == HeaderLen(opts[j].num - NumAt(prev, opts, j), |opts[j].value|)
  }

  lemma EncodeTake(prev: nat, opts: seq<Opt>, k: nat)
    requires Sorted(prev, opts) && k < |opts|
    ensures Sorted(prev, opts[..k]) && Sorted(prev, opts[..k + 1]) && NumAt(prev, opts, k) <= opts[k].num < 0x1_0000
    ensures |opts[k].value| < 0x1_0000 && Sorted(opts[k].num, opts[k + 1..])
    ensures EncodeOptions(prev, opts[..k + 1]) == EncodeOptions(prev, opts[..k]) + EncodeOption(NumAt(prev, opts, k), opts[k])
    ensures EncodeOptions(prev, opts) == EncodeOptions(prev, opts[..k + 1]) + EncodeOptions(opts[k].num, opts[k + 1..])
  {
    var a, o, b := opts[..k], [opts[k]], opts[k + 1..];
    assert opts[..k + 1] == a + o && opts == opts[..k + 1] + b;
    SortedSplit(prev, opts[..k + 1], b);
    SortedSplit(prev, a, o);
    EncodeOne(NumAt(prev, opts, k), opts[k]);
    hide EncodeOptions, EncodeOption, Sorted;
    EncodeOptionsSplit(prev, opts[..k + 1], b);
    EncodeOptionsSplit(prev, a, o);
  }

  lemma EncodeOne(prev: nat, o: Opt)
    ensures Sorted(prev, [o]) <==> prev <= o.num < 0x1_0000 && |o.value| < 0x1_0000
    ensures Sorted(prev, [o]) ==> EncodeOptions(prev, [o]) == EncodeOption(prev, o)
  {
    hide EncodeOption;
    assert [o][1..] == [];
    if Sorted(prev, [o]) {
      assert EncodeOptions(prev, [o]) == EncodeOption(prev, o) + [];
    }
  }

  lemma {:induction false} RecountedSize(prev: nat, num: nat, opts: seq<Opt>)
    requires Sorted(prev, opts) && Behind(num, opts) && KeepsHeaders(prev, num, opts)
    ensures |Recounted(num, opts)| == |EncodeOptions(prev, opts)|
    decreases |opts|
  {
    if opts != [] {
      var n := |opts| - 1;
      EncodeTake(prev, opts, n);
      assert opts[..n + 1] == opts && opts[n + 1..] == [];
      KeepsPrefix(prev, num, opts, n);
      RecountedSize(prev, num, opts[..n]);
      OptionSize(num, NumAt(prev, opts, n), opts[n]);
      hide Sorted, KeepsHeaders, EncodeOptions, EncodeOption, HeaderLen, NumAt;
    }
  }

  lemma OptionSize(num: nat, prev: nat, o: Opt)
    requires num <= o.num < 0x1_0000 && prev <= o.num && |o.value| < 0x1_0000
    requires HeaderLen(o.num - num, |o.value|) == HeaderLen(o.num - prev, |o.value|)
    ensures |EncodeOption(num, o)| == |EncodeOption(prev, o)| == HeaderLen(o.num - num, |o.value|) + |o.value|
  {
    hide OptionHeader;
  }

  lemma KeepsPrefix(prev: nat, num: nat, opts: seq<Opt>, k: nat)
    requires Behind(num, opts) && KeepsHeaders(prev, num, opts) && k <= |opts|
    ensures Behind(num, opts[..k]) && KeepsHeaders(prev, num, opts[..k])
    ensures k < |opts| ==>
              && NumAt(prev, opts, k) <= opts[k].num
              && HeaderLen(opts[k].num - num, |opts[k].value|) == HeaderLen(opts[k].num - NumAt(prev, opts, k), |opts[k].value|)
  {
    hide HeaderLen;
    forall j | 0 <= j < k
      ensures NumAt(prev, opts[..k], j) == NumAt(prev, opts, j)
    {
    }
  }

  // ---------------------------------------------------- the loop of the editor

  /** The options and a payload lie at `start`. */
  ghost predicate TailAt(a: seq<byte>, start: nat, prev: nat, opts: seq<Opt>, pay: seq<byte>) {
    && Sorted(prev, opts) && pay != [] && pay[0] == PAYLOAD_MARKER
    && Seqs.PieceAt(a, start, EncodeOptions(prev, opts) + pay)
  }

  /** Where option k lies, and its header and value. */
  lemma OptionInTail(a: seq<byte>, start: nat, prev: nat, opts: seq<Opt>, pay: seq<byte>, k: nat)
    requires TailAt(a, start, prev, opts, pay) && k < |opts|
    ensures Sorted(prev, opts[..k]) && NumAt(prev, opts, k) <= opts[k].num < 0x1_0000 && |opts[k].value| < 0x1_0000
    ensures var q := start + |EncodeOptions(prev, opts[..k])|;
            var h, v := OptionHeader(opts[k].num - NumAt(prev, opts, k), |opts[k].value|), opts[k].value;
            && q + |h| + |v| < |a| && q + |h| + |v| < start + |EncodeOptions(prev, opts)| + |pay|
            && Seqs.PieceAt(a, q, h) && Seqs.PieceAt(a, q + |h|, v)
  {
    hide *;
    TailPiece(a, start, prev, opts, pay);
    EncodeTake(prev, opts, k);
    var o, from := opts[k], NumAt(prev, opts, k);
    var x, e := EncodeOptions(prev, opts[..k]), EncodeOptions(o.num, opts[k + 1..]);
    var h := OptionHeader(o.num - from, |o.value|);
    OptionParts(from, o);
    PieceInner(a, start, x, h, o.value, e, pay);
  }

  lemma TailPiece(a: seq<byte>, start: nat, prev: nat, opts: seq<Opt>, pay: seq<byte>)
    requires TailAt(a, start, prev, opts, pay)
    ensures Sorted(prev, opts) && pay != [] && pay[0] == PAYLOAD_MARKER
    ensures Seqs.PieceAt(a, start, EncodeOptions(prev, opts) + pay)
    ensures start + |EncodeOptions(prev, opts)| + |pay| <= |a|
  {
    hide EncodeOptions, Sorted;
  }

  lemma OptionParts(prev: nat, o: Opt)
    requires prev <= o.num < 0x1_0000 && |o.value| < 0x1_0000
    ensures EncodeOption(prev, o) == OptionHeader(o.num - prev, |o.value|) + o.value
  {
  }

  lemma PieceInner(a: seq<byte>, start: nat, x: seq<byte>, h: seq<byte>, v: seq<byte>, e: seq<byte>, pay: seq<byte>)
    requires Seqs.PieceAt(a, start, x + (h + v) + e + pay) && pay != []
    ensures Seqs.PieceAt(a, start + |x|, h) && Seqs.PieceAt(a, start + |x| + |h|, v)
    ensures start + |x| + |h| + |v| < |a|
  {
    Seqs.PieceSplit(a, start, x + (h + v) + e, pay);
    Seqs.PieceSplit(a, start, x + (h + v), e);
    Seqs.PieceSplit(a, start, x, h + v);
    Seqs.PieceSplit(a, start + |x|, h, v);
  }

  /** The option at which the loop stands, and what rewriting its header makes
      of the buffer. */
  lemma RecountOption(a: seq<byte>, start: nat, prev: nat, num: nat, opts: seq<Opt>, pay: seq<byte>, k: nat)
    requires TailAt(a, start, prev, opts, pay) && Behind(num, opts) && KeepsHeaders(prev, num, opts) && k < |opts|
    ensures var o, r, r' := opts[k], Recounted(num, opts[..k]), Recounted(num, opts[..k + 1]);
            && NumAt(prev, opts, k) <= o.num
            && var h, h' := OptionHeader(o.num - NumAt(prev, opts, k), |o.value|), OptionHeader(o.num - num, |o.value|);
            && |h'| == |h| && |r| + |h| + |o.value| == |r'| && start + |r'| < |a|
            && |r'| < |EncodeOptions(prev, opts)| + |pay|
            && Seqs.PieceAt(Seqs.Splice(a, start, r), start + |r|, h)
            && Seqs.Splice(Seqs.Splice(a, start, r), start + |r|, h') == Seqs.Splice(a, start, r')
  {
    hide *;
    KeepsPrefix(prev, num, opts, k);
    RecountedNext(num, opts, k);
    BehindAt(num, opts, k);
    var o, r := opts[k], Recounted(num, opts[..k]);
    OptionInTail(a, start, prev, opts, pay, k);
    RecountedSize(prev, num, opts[..k]);
    var h, h' := OptionHeader(o.num - NumAt(prev, opts, k), |o.value|), OptionHeader(o.num - num, |o.value|);
    SameHeader(o.num - NumAt(prev, opts, k), o.num - num, |o.value|);
    Seqs.PieceKept(a, start, r, start + |r|, h);
    Seqs.SpliceOn(a, start, r, h', o.value);
  }

  lemma BehindAt(num: nat, opts: seq<Opt>, k: nat)
    requires Behind(num, opts) && k < |opts|
    ensures num < opts[k].num < 0x1_0000 && |opts[k].value| < 0x1_0000
  {
  }

  lemma SameHeader(d: nat, e: nat, len: nat)
    requires d < 0x1_0000 && e < 0x1_0000 && len < 0x1_0000 && HeaderLen(d, len) == HeaderLen(e, len)
    ensures |OptionHeader(d, len)| == |OptionHeader(e, len)| == HeaderLen(d, len)
  {
  }

  lemma RecountedNext(num: nat, opts: seq<Opt>, k: nat)
    requires Behind(num, opts) && k < |opts|
    ensures Behind(num, opts[..k]) && Behind(num, opts[..k + 1]) && opts[k].num < 0x1_0000 && |opts[k].value| < 0x1_0000
    ensures var o := opts[k];
            num < o.num &&
            Recounted(num, opts[..k + 1]) == Recounted(num, opts[..k]) + (OptionHeader(o.num - num, |o.value|) + o.value)
  {
    assert opts[..k + 1][..k] == opts[..k];
    hide OptionHeader;
  }

  /** The whole tail, recounted, with the payload marker behind the options. */
  lemma RecountDone(a: seq<byte>, start: nat, prev: nat, num: nat, opts: seq<Opt>, pay: seq<byte>)
    requires TailAt(a, start, prev, opts, pay) && Behind(num, opts) && KeepsHeaders(prev, num, opts)
    ensures var r := Recounted(num, opts);
            && start + |r| + |pay| <= |a| && |r| == |EncodeOptions(prev, opts)|
            && Seqs.Splice(a, start, r)[start + |r|] == PAYLOAD_MARKER
            && Seqs.PieceAt(Seqs.Splice(a, start, r), start, r + pay)
  {
    hide *;
    TailPiece(a, start, prev, opts, pay);
    RecountedSize(prev, num, opts);
    HeadRewritten(a, start, EncodeOptions(prev, opts), Recounted(num, opts), pay);
  }

  lemma HeadRewritten(a: seq<byte>, start: nat, x: seq<byte>, r: seq<byte>, pay: seq<byte>)
    requires Seqs.PieceAt(a, start, x + pay) && |r| == |x| && pay != []
    ensures start + |r| + |pay| <= |a|
    ensures Seqs.Splice(a, start, r)[start + |r|] == pay[0]
    ensures Seqs.PieceAt(Seqs.Splice(a, start, r), start, r + pay)
  {
    hide Seqs.Splice;
    Seqs.PieceSplit(a, start, x, pay);
    Seqs.PieceWritten(a, start, r);
    Seqs.PieceKept(a, start, r, start + |r|, pay);
    Seqs.PieceJoin(Seqs.Splice(a, start, r), start, r, pay);
    PieceFirst(Seqs.Splice(a, start, r), start + |r|, pay);
  }

  lemma PieceFirst(a: seq<byte>, at: nat, s: seq<byte>)
    requires Seqs.PieceAt(a, at, s) && s != []
    ensures at < |a| && a[at] == s[0]
  {
    assert a[at..at + |s|][0] == a[at];
  }

  // ------------------------------------------------------- when it is right

  lemma {:induction false} RecountedPrefix(num: nat, opts: seq<Opt>, k: nat)
    requires Behind(num, opts) && k <= |opts|
    ensures Behind(num, opts[..k]) && Recounted(num, opts[..k]) <= Recounted(num, opts)
    decreases |opts|
  {
    if k == |opts| {
      assert opts[..k] == opts;
    } else {
      var n := |opts| - 1;
      RecountedPrefix(num, opts[..n], k);
      assert opts[..n][..k] == opts[..k];
    }
  }

  /** A header can be told from the bytes it begins. */
  lemma HeaderUnique(s: seq<byte>, p: nat, d: nat, e: nat, len: nat)
    requires d < 0x1_0000 && e < 0x1_0000 && len < 0x1_0000
    requires Seqs.PieceAt(s, p, OptionHeader(d, len)) && Seqs.PieceAt(s, p, OptionHeader(e, len))
    ensures d == e
  {
    DecodeOfHeader(s, p, d, len, 1);
    DecodeOfHeader(s, p, e, len, 1);
  }

  /** Recounting from num gives the encoding counted from num exactly if there is
      at most one option. */
  lemma RecountedExact(num: nat, opts: seq<Opt>)
    requires Behind(num, opts) && Sorted(num, opts)
    ensures Recounted(num, opts) == EncodeOptions(num, opts) <==> |opts| <= 1
  {
    if |opts| == 1 {
      assert opts == [opts[0]] && opts[..0] == [];
      EncodeOne(num, opts[0]);
      assert Recounted(num, opts) == [] + EncodeOption(num, opts[0]);
    } else if |opts| >= 2 {
      SecondDiffers(num, opts);
    }
  }

  lemma SecondDiffers(num: nat, opts: seq<Opt>)
    requires Behind(num, opts) && Sorted(num, opts) && |opts| >= 2
    ensures Recounted(num, opts) != EncodeOptions(num, opts)
  {
    hide *;
    var o, o', s := opts[0], opts[1], Recounted(num, opts);
    BehindAt(num, opts, 0);
    BehindAt(num, opts, 1);
    RecountedSecond(num, opts);
    EncodedSecond(num, opts);
    if s == EncodeOptions(num, opts) {
      HeaderUnique(s, |EncodeOption(num, o)|, o'.num - num, o'.num - o.num, |o'.value|);
      assert false;
    }
  }

  lemma RecountedSecond(num: nat, opts: seq<Opt>)
    requires Behind(num, opts) && |opts| >= 2
    ensures Seqs.PieceAt(Recounted(num, opts), |EncodeOption(num, opts[0])|, OptionHeader(opts[1].num - num, |opts[1].value|))
  {
    hide *;
    BehindAt(num, opts, 0);
    BehindAt(num, opts, 1);
    RecountedPrefix(num, opts, 2);
    RecountedFirst(num, opts);
    RecountedNext(num, opts, 1);
    var y, h, v := EncodeOption(num, opts[0]), OptionHeader(opts[1].num - num, |opts[1].value|), opts[1].value;
    var s := Recounted(num, opts);
    PrefixPiece(s, y + (h + v));
    Seqs.PieceSplit(s, 0, y, h + v);
    Seqs.PieceSplit(s, |y|, h, v);
  }

  lemma RecountedFirst(num: nat, opts: seq<Opt>)
    requires Behind(num, opts) && opts != []
    ensures Behind(num, opts[..1]) && Recounted(num, opts[..1]) == EncodeOption(num, opts[0])
  {
    assert opts[..1][..0] == [];
    assert Recounted(num, opts[..1]) == [] + EncodeOption(num, opts[0]);
  }

  lemma PrefixPiece(s: seq<byte>, p: seq<byte>)
    requires p <= s
    ensures Seqs.PieceAt(s, 0, p)
  {
  }

  lemma EncodedSecond(num: nat, opts: seq<Opt>)
    requires Behind(num, opts) && Sorted(num, opts) && |opts| >= 2
    ensures opts[0].num <= opts[1].num
    ensures Seqs.PieceAt(EncodeOptions(num, opts), |EncodeOption(num, opts[0])|,
                         OptionHeader(opts[1].num - opts[0].num, |opts[1].value|))
  {
    EncodeTake(num, opts, 1);
    EncodeOne(num, opts[0]);
    assert opts[..1] == [opts[0]];
    var y, h, v := EncodeOption(num, opts[0]), OptionHeader(opts[1].num - opts[0].num, |opts[1].value|), opts[1].value;
    var s, e := EncodeOptions(num, opts), EncodeOptions(opts[1].num, opts[2..]);
    assert s == y + (h + v) + e;
    hide EncodeOptions, OptionHeader, EncodeOption;
    PrefixPiece(s, y + (h + v));
    hide *;
    Seqs.PieceSplit(s, 0, y, h + v);
    Seqs.PieceSplit(s, |y|, h, v);
  }
}

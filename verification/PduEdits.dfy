/** Byte-level lemmas about the buffer edits of the packet editor. */
module PduEdits {
  import opened Bytes
  import opened CoapFormat
  import opened OptionCodec
  import opened MessageEdits
  import opened Recount
  import Seqs

  /** Two extensions and then the first byte make the whole header. */
  lemma HeaderPieces(before: seq<byte>, mid: seq<byte>, late: seq<byte>, at: nat, delta: nat, len: nat)
    requires delta < 0x1_0000 && len < 0x1_0000 && at + HeaderLen(delta, len) <= |before|
    requires mid == Seqs.Splice(before, at + 1, Extension(delta))
    requires late == Seqs.Splice(mid, at + 1 + |Extension(delta)|, Extension(len))
    ensures late[at := OptionHeader(delta, len)[0]] == Seqs.Splice(before, at, OptionHeader(delta, len))
  {
  }

  /** The buffer after the packet tail was moved behind a token of tkl bytes. */
  function TailMoved(before: seq<byte>, n: nat, tkl: nat): (moved: seq<byte>)
    requires 1 <= |before| && n <= |before|
    requires n > HEADER_SIZE ==> n >= HEADER_SIZE + before[0] as int % 16
    requires n > HEADER_SIZE ==> n - before[0] as int % 16 + tkl <= |before|
    ensures |moved| == |before| && moved[0] == before[0]
  {
    if n <= HEADER_SIZE then before
    else
      var rest := before[HEADER_SIZE + before[0] as int % 16..n];
      Seqs.SpliceFirst(before, HEADER_SIZE + tkl, rest);
      Seqs.Splice(before, HEADER_SIZE + tkl, rest)
  }

  lemma TailMovedParts(before: seq<byte>, n: nat, tkl: nat)
    requires HEADER_SIZE <= n <= |before| && HEADER_SIZE + tkl <= |before|
    requires n >= HEADER_SIZE + before[0] as int % 16 && n - before[0] as int % 16 + tkl <= |before|
    ensures var t0 := before[0] as int % 16;
            && TailMoved(before, n, tkl)[1..HEADER_SIZE] == before[1..HEADER_SIZE]
            && TailMoved(before, n, tkl)[HEADER_SIZE + tkl..n - t0 + tkl] == before[HEADER_SIZE + t0..n]
  {
    if n > HEADER_SIZE {
      var rest := before[HEADER_SIZE + before[0] as int % 16..n];
      Seqs.SpliceParts(before, HEADER_SIZE + tkl, rest);
      Seqs.SpliceOutside(before, HEADER_SIZE + tkl, rest, 1, HEADER_SIZE);
    }
  }

  /** The whole buffer after the tail was moved, the token copied and the
      length nibble written. */
  function TokenWritten(before: seq<byte>, n: nat, token: nat, tkl: nat): (after: seq<byte>)
    requires 1 <= |before| && HEADER_SIZE + tkl <= |before| && n <= |before| && tkl <= MAX_TOKEN
    requires n > HEADER_SIZE ==> n >= HEADER_SIZE + before[0] as int % 16
    requires n > HEADER_SIZE ==> n - before[0] as int % 16 + tkl <= |before|
    ensures |after| == |before|
  {
    var copied := Seqs.Splice(TailMoved(before, n, tkl), HEADER_SIZE, LittleEndian(token, tkl));
    copied[0 := (tkl + 16 * (before[0] as int / 16)) as byte]
  }

  /** Moving, copying and writing the nibble is replacing the token. */
  lemma TokenWrittenIsRetoken(before: seq<byte>, n: nat, token: nat, tkl: nat)
    requires HEADER_SIZE <= n <= |before| && tkl <= MAX_TOKEN && HEADER_SIZE + tkl <= |before|
    requires n >= HEADER_SIZE + before[0] as int % 16 && n - before[0] as int % 16 + tkl <= |before|
    ensures TokenWritten(before, n, token, tkl)[..n - before[0] as int % 16 + tkl] == Retoken(before[..n], token, tkl)
  {
    hide TailMoved, Seqs.Splice, LittleEndian;
    var t0 := before[0] as int % 16;
    TailMovedParts(before, n, tkl);
    TokenCopied(TailMoved(before, n, tkl), LittleEndian(token, tkl), n - t0 + tkl,
                (tkl + 16 * (before[0] as int / 16)) as byte);
    Seqs.Slice(before, 0, n, HEADER_SIZE + t0, n);
    Seqs.Slice(before, 0, n, 1, HEADER_SIZE);
    assert before[..n][0] == before[0];
  }

  lemma TokenCopied(moved: seq<byte>, le: seq<byte>, end: nat, first: byte)
    requires HEADER_SIZE + |le| <= end <= |moved|
    ensures Seqs.Splice(moved, HEADER_SIZE, le)[0 := first][..end]
            == [first] + moved[1..HEADER_SIZE] + le + moved[HEADER_SIZE + |le|..end]
  {
    var copied := Seqs.Splice(moved, HEADER_SIZE, le);
    var after := copied[0 := first];
    Seqs.SpliceParts(moved, HEADER_SIZE, le);
    Seqs.SpliceOutside(moved, HEADER_SIZE, le, 1, HEADER_SIZE);
    Seqs.SpliceOutside(moved, HEADER_SIZE, le, HEADER_SIZE + |le|, end);
    Seqs.UpdateOutside(copied, 0, first, 1, HEADER_SIZE);
    Seqs.UpdateOutside(copied, 0, first, HEADER_SIZE, HEADER_SIZE + |le|);
    Seqs.UpdateOutside(copied, 0, first, HEADER_SIZE + |le|, end);
    Seqs.Join(after, 0, 1, HEADER_SIZE);
    assert after[0..1] == [first];
    Seqs.Join(after, 0, HEADER_SIZE, HEADER_SIZE + |le|);
    Seqs.Join(after, 0, HEADER_SIZE + |le|, end);
  }

  // ----------------------------------------------------- inserting an option

  /** The options behind the insertion point have greater numbers. */
  lemma BehindInsertion(m: Message, num: u16)
    requires ValidMessage(m)
    ensures var k := InsertAt(m.options, num);
            NumBefore(m, k) <= num && Sorted(NumBefore(m, k), m.options[k..]) && Behind(num, m.options[k..])
  {
    var k := InsertAt(m.options, num);
    SortedFrom(m, k);
    assert k > 0 ==> m.options[k - 1].num <= num;
    if k < |m.options| {
      SortedAll(NumBefore(m, k), m.options[k..]);
    }
  }

  lemma {:induction false} SortedAll(prev: nat, opts: seq<Opt>)
    requires Sorted(prev, opts)
    ensures forall j :: 0 <= j < |opts| ==> opts[0].num <= opts[j].num < 0x1_0000 && |opts[j].value| < 0x1_0000
    decreases opts
  {
    if opts != [] {
      SortedAll(opts[0].num, opts[1..]);
      if |opts| > 1 {
        assert opts[1..][0] == opts[1] && opts[0].num <= opts[1].num;
      }
      assert forall j :: 1 <= j < |opts| ==> opts[j] == opts[1..][j - 1];
    }
  }

  /** An option may be added if its number is at least every number present, or
      if a payload comes after the options and no header behind the insertion
      point changes its length. */
  predicate Insertable(m: Message, num: u16)
    ensures Insertable(m, num) ==> ValidMessage(m)
  {
    ValidMessage(m) &&
    var k := InsertAt(m.options, num);
    || k == |m.options|
    || (m.payload != [] && Behind(num, m.options[k..]) && KeepsHeaders(NumBefore(m, k), num, m.options[k..]))
  }

  /** What adding an option leaves: the new option in its place, and the deltas
      of the following ones all counted from its number. */
  function Inserted(m: Message, o: Opt): seq<byte>
    requires ValidMessage(m) && o.num < 0x1_0000 && |o.value| < 0x1_0000
  {
    var k := InsertAt(m.options, o.num);
    BehindInsertion(m, o.num);
    Prefix(m, k) + EncodeOption(NumBefore(m, k), o) + (Recounted(o.num, m.options[k..]) + EncodePayload(m.payload))
  }

  /** How many options come behind one numbered num. */
  function Following(m: Message, num: nat): nat {
    |m.options| - InsertAt(m.options, num)
  }

  /** The bytes behind an insertion point before and after the insertion of an
      option numbered num: options counted from prev, and then a payload. */
  datatype TailEdit = TailEdit(prev: nat, num: nat, opts: seq<Opt>, pay: seq<byte>) {
    ghost predicate Ok() {
      && Sorted(prev, opts) && Behind(num, opts) && KeepsHeaders(prev, num, opts)
      && (pay == [] ==> opts == []) && (pay != [] ==> pay[0] == PAYLOAD_MARKER)
    }

    ghost function Before(): seq<byte>
      requires Ok()
    {
      EncodeOptions(prev, opts) + pay
    }

    ghost function Later(): seq<byte>
      requires Ok()
    {
      Recounted(num, opts) + pay
    }

    lemma SameSize()
      requires Ok()
      ensures |Later()| == |Before()|
    {
      RecountedSize(prev, num, opts);
    }

    lemma Empty()
      requires Ok() && Before() == []
      ensures Later() == []
    {
    }

    lemma InBuffer(a: seq<byte>, start: nat)
      requires Ok() && Before() != [] && Seqs.PieceAt(a, start, Before())
      ensures TailAt(a, start, prev, opts, pay) && |Before()| == |EncodeOptions(prev, opts)| + |pay|
    {
    }
  }

  /** Where the recounting loop stands after k options. */
  ghost function Cursor(t: TailEdit, start: nat, k: nat): nat
    requires t.Ok() && k <= |t.opts|
  {
    KeepsPrefix(t.prev, t.num, t.opts, k);
    start + |Recounted(t.num, t.opts[..k])|
  }

  /** The buffer after k options were recounted. */
  ghost function Partly(t: TailEdit, a: seq<byte>, start: nat, k: nat): (b: seq<byte>)
    requires t.Ok() && k <= |t.opts| && Cursor(t, start, k) <= |a|
    ensures |b| == |a|
  {
    KeepsPrefix(t.prev, t.num, t.opts, k);
    Seqs.Splice(a, start, Recounted(t.num, t.opts[..k]))
  }

  /** The loop has recounted k options, stands at ptr and has counted to
      optNum. */
  ghost predicate RecountedTo(t: TailEdit, a: seq<byte>, start: nat, k: nat, ptr: nat, optNum: int, now: seq<byte>) {
    && t.Ok() && k <= |t.opts| && ptr == Cursor(t, start, k) <= |a|
    && now == Partly(t, a, start, k) && optNum == NumAt(t.prev, t.opts, k) - t.prev
  }

  lemma RecountStart(t: TailEdit, a: seq<byte>, start: nat)
    requires t.Ok() && Seqs.PieceAt(a, start, t.Before())
    ensures RecountedTo(t, a, start, 0, start, 0, a)
  {
    assert t.opts[..0] == [];
    hide EncodeOptions, KeepsHeaders, Behind;
    assert Recounted(t.num, []) == [];
  }

  /** The loop has come to the end of the options. */
  lemma RecountEnds(t: TailEdit, a: seq<byte>, start: nat, optsLen: nat, k: nat, ptr: nat, optNum: int, now: seq<byte>)
    requires Recounting(t, a, start, optsLen) && RecountedTo(t, a, start, k, ptr, optNum, now) && k == |t.opts|
    ensures Behind(t.num, t.opts) && start + |Recounted(t.num, t.opts)| <= |a|
    ensures now == Seqs.Splice(a, start, Recounted(t.num, t.opts))
    ensures start <= ptr && ptr - start < optsLen && Readable(now, ptr)
    ensures DecodeOption(now, ptr, optsLen - (ptr - start)) == Stop(FoundPayloadMarker)
  {
    hide Cursor, Partly, Readable, DecodeOption, TailEdit.Ok, TailEdit.Before, Recounted, Behind, Seqs.Splice;
    RecountLast(t, a, start, optsLen);
  }

  /** The loop stands at an option: what the decoder answers, what is written,
      and where that leads. */
  lemma RecountGoesOn(t: TailEdit, a: seq<byte>, start: nat, optsLen: nat, k: nat, ptr: nat, optNum: int, now: seq<byte>)
    requires Recounting(t, a, start, optsLen) && RecountedTo(t, a, start, k, ptr, optNum, now) && k < |t.opts|
    ensures start <= ptr && ptr - start < optsLen && Readable(now, ptr)
    ensures var d, o := DecodeOption(now, ptr, optsLen - (ptr - start)), t.opts[k];
            && d.Found? && 0 <= optNum && optNum + d.delta == o.num - t.prev < 0x1_0000 && d.len == |o.value|
            && t.num < o.num < 0x1_0000
            && d.val == ptr + HeaderLen(o.num - t.num, d.len) && d.val + d.len <= |a| == |now|
            && RecountedTo(t, a, start, k + 1, d.val + d.len, o.num - t.prev,
                           Seqs.Splice(now, ptr, OptionHeader(o.num - t.num, d.len)))
  {
    hide Cursor, Partly, Readable, DecodeOption, TailEdit.Ok, TailEdit.Before, NumAt, HeaderLen, OptionHeader, Seqs.Splice, Recounting;
    TurnNumbers(t, k);
    TurnCursor(t, a, start, optsLen, k);
    TurnDecoded(t, a, start, optsLen, k);
    TurnWritten(t, a, start, optsLen, k);
    HeaderSize(t.opts[k].num - t.num, |t.opts[k].value|);
  }

  /** The tail to be recounted lies at `start`. */
  ghost predicate Recounting(t: TailEdit, a: seq<byte>, start: nat, optsLen: nat) {
    t.Ok() && t.Before() != [] && Seqs.PieceAt(a, start, t.Before()) && |t.Before()| <= optsLen
  }

  lemma RecountingParts(t: TailEdit, a: seq<byte>, start: nat, optsLen: nat)
    requires Recounting(t, a, start, optsLen)
    ensures t.Ok() && TailAt(a, start, t.prev, t.opts, t.pay) && |EncodeOptions(t.prev, t.opts)| + |t.pay| <= optsLen
    ensures Sorted(t.prev, t.opts) && Behind(t.num, t.opts) && KeepsHeaders(t.prev, t.num, t.opts)
  {
    hide EncodeOptions, Sorted, Behind, KeepsHeaders;
    t.InBuffer(a, start);
  }

  /** The numbers that the loop computes at option k. */
  lemma TurnNumbers(t: TailEdit, k: nat)
    requires t.Ok() && k < |t.opts|
    ensures var o, from := t.opts[k], NumAt(t.prev, t.opts, k);
            && t.prev <= from <= o.num == NumAt(t.prev, t.opts, k + 1) < 0x1_0000 && t.num < o.num && |o.value| < 0x1_0000
            && HeaderLen(o.num - t.num, |o.value|) == HeaderLen(o.num - from, |o.value|)
  {
    SortedBound(t.prev, t.opts);
    KeepsPrefix(t.prev, t.num, t.opts, k);
    hide HeaderLen, Sorted, KeepsHeaders;
  }

  lemma PartlyIs(t: TailEdit, a: seq<byte>, start: nat, k: nat)
    requires t.Ok() && k <= |t.opts|
    ensures Behind(t.num, t.opts[..k]) && Cursor(t, start, k) == start + |Recounted(t.num, t.opts[..k])|
    ensures Cursor(t, start, k) <= |a| ==> Partly(t, a, start, k) == Seqs.Splice(a, start, Recounted(t.num, t.opts[..k]))
  {
    hide Recounted, Seqs.Splice;
  }

  /** Where the loop stands at option k, and where rewriting it leads. */
  lemma TurnCursor(t: TailEdit, a: seq<byte>, start: nat, optsLen: nat, k: nat)
    requires Recounting(t, a, start, optsLen) && k < |t.opts|
    ensures t.Ok() && t.num < t.opts[k].num
    ensures var q, o := Cursor(t, start, k), t.opts[k];
            && q + HeaderLen(o.num - t.num, |o.value|) + |o.value| == Cursor(t, start, k + 1) < |a|
            && start <= q && q - start < optsLen
  {
    hide *;
    RecountingParts(t, a, start, optsLen);
    TurnNumbers(t, k);
    PartlyIs(t, a, start, k);
    PartlyIs(t, a, start, k + 1);
    HeaderSize(t.opts[k].num - t.num, |t.opts[k].value|);
    HeaderSize(t.opts[k].num - NumAt(t.prev, t.opts, k), |t.opts[k].value|);
    RecountOption(a, start, t.prev, t.num, t.opts, t.pay, k);
  }

  /** What the decoder answers at option k. */
  lemma TurnDecoded(t: TailEdit, a: seq<byte>, start: nat, optsLen: nat, k: nat)
    requires Recounting(t, a, start, optsLen) && k < |t.opts|
    ensures t.Ok() && Cursor(t, start, k) <= |a| && NumAt(t.prev, t.opts, k) <= t.opts[k].num
    ensures var q, o, b := Cursor(t, start, k), t.opts[k], Partly(t, a, start, k);
            && Readable(b, q)
            && DecodeOption(b, q, optsLen - (q - start))
               == Found(o.num - NumAt(t.prev, t.opts, k), |o.value|, q + HeaderLen(o.num - NumAt(t.prev, t.opts, k), |o.value|))
  {
    hide *;
    RecountingParts(t, a, start, optsLen);
    TurnCursor(t, a, start, optsLen, k);
    TurnNumbers(t, k);
    PartlyIs(t, a, start, k);
    RecountOption(a, start, t.prev, t.num, t.opts, t.pay, k);
    var q, o := Cursor(t, start, k), t.opts[k];
    DecodeAt(Partly(t, a, start, k), q, o.num - NumAt(t.prev, t.opts, k), |o.value|, optsLen - (q - start));
  }

  /** What rewriting the header of option k makes of the buffer. */
  lemma TurnWritten(t: TailEdit, a: seq<byte>, start: nat, optsLen: nat, k: nat)
    requires Recounting(t, a, start, optsLen) && k < |t.opts|
    ensures t.Ok() && Cursor(t, start, k) <= |a| && Cursor(t, start, k + 1) <= |a|
    ensures var q, o := Cursor(t, start, k), t.opts[k];
            && t.num < o.num < 0x1_0000 && |o.value| < 0x1_0000
            && q + |OptionHeader(o.num - t.num, |o.value|)| <= |a|
            && Seqs.Splice(Partly(t, a, start, k), q, OptionHeader(o.num - t.num, |o.value|)) == Partly(t, a, start, k + 1)
  {
    hide *;
    RecountingParts(t, a, start, optsLen);
    TurnCursor(t, a, start, optsLen, k);
    TurnNumbers(t, k);
    HeaderSize(t.opts[k].num - t.num, |t.opts[k].value|);
    PartlyIs(t, a, start, k);
    PartlyIs(t, a, start, k + 1);
    RecountOption(a, start, t.prev, t.num, t.opts, t.pay, k);
  }

  lemma DecodeAt(b: seq<byte>, q: nat, delta: nat, len: nat, remaining: int)
    requires delta < 0x1_0000 && len < 0x1_0000 && remaining != 0 && Seqs.PieceAt(b, q, OptionHeader(delta, len))
    ensures Readable(b, q)
    ensures DecodeOption(b, q, remaining) == Found(delta, len, q + HeaderLen(delta, len))
  {
    DecodeOfHeader(b, q, delta, len, remaining);
  }

  /** The last turn finds the payload marker. */
  lemma RecountLast(t: TailEdit, a: seq<byte>, start: nat, optsLen: nat)
    requires Recounting(t, a, start, optsLen)
    ensures t.Ok() && Behind(t.num, t.opts)
    ensures var q, r := Cursor(t, start, |t.opts|), Recounted(t.num, t.opts);
            && q == start + |r| < |a| && q - start < optsLen
            && var b := Partly(t, a, start, |t.opts|);
            && b == Seqs.Splice(a, start, r) && Readable(b, q)
            && DecodeOption(b, q, optsLen - (q - start)) == Stop(FoundPayloadMarker)
  {
    hide *;
    assert t.opts[..|t.opts|] == t.opts;
    RecountingParts(t, a, start, optsLen);
    PartlyIs(t, a, start, |t.opts|);
    RecountDone(a, start, t.prev, t.num, t.opts, t.pay);
    TailPiece(a, start, t.prev, t.opts, t.pay);
    MarkerDecoded(Seqs.Splice(a, start, Recounted(t.num, t.opts)), Cursor(t, start, |t.opts|), optsLen - |Recounted(t.num, t.opts)|);
  }

  lemma MarkerDecoded(b: seq<byte>, q: nat, remaining: int)
    requires q < |b| && b[q] == PAYLOAD_MARKER && remaining != 0
    ensures Readable(b, q) && DecodeOption(b, q, remaining) == Stop(FoundPayloadMarker)
  {
  }

  ghost function TailEditFor(m: Message, num: u16): TailEdit
    requires ValidMessage(m)
  {
    var k := InsertAt(m.options, num);
    TailEdit(NumBefore(m, k), num, m.options[k..], EncodePayload(m.payload))
  }

  lemma TailEditOk(m: Message, num: u16)
    requires Insertable(m, num)
    ensures var t, k := TailEditFor(m, num), InsertAt(m.options, num);
            t.Ok() && t.Before() == Suffix(m, k) && t.prev == NumBefore(m, k) <= num == t.num
  {
    BehindInsertion(m, num);
    hide EncodeOptions, Sorted;
  }

  lemma HeaderSize(delta: nat, len: nat)
    requires delta < 0x1_0000 && len < 0x1_0000
    ensures |OptionHeader(delta, len)| == HeaderLen(delta, len)
  {
  }

  /** What the editor has in front of it, and what it is to produce. */
  lemma InsertionPlan(buf: seq<byte>, m: Message, o: Opt)
    requires o.num < 0x1_0000 && |o.value| < 0x1_0000 && Insertable(m, o.num) && Holds(buf, m)
    ensures var k, t, n := InsertAt(m.options, o.num), TailEditFor(m, o.num), |Encode(m)|;
            var p, prev := Position(m, k), NumBefore(m, k);
            && prev <= o.num && t.Ok() && t.prev == prev && t.num == o.num
            && p == |Prefix(m, k)| && n == p + |t.Before()| <= |buf| && buf[..p] == Prefix(m, k)
            && Seqs.PieceAt(buf, p, t.Before())
            && |Inserted(m, o)| == n + HeaderLen(o.num - prev, |o.value|) + |o.value|
            && Inserted(m, o) == Prefix(m, k) + (OptionHeader(o.num - prev, |o.value|) + o.value) + t.Later()
  {
    hide *;
    var k, t := InsertAt(m.options, o.num), TailEditFor(m, o.num);
    ValidFromInsertable(m, o.num);
    HoldsParts(buf, m, k);
    TailEditOk(m, o.num);
    InsertedParts(m, o);
    BytesAt(buf, m, k);
    t.SameSize();
    HeaderSize(o.num - NumBefore(m, k), |o.value|);
    SliceIsPiece(buf, Position(m, k), |Encode(m)|, t.Before());
  }

  lemma ValidFromInsertable(m: Message, num: u16)
    requires Insertable(m, num)
    ensures ValidMessage(m)
  {
  }

  lemma HoldsParts(buf: seq<byte>, m: Message, k: nat)
    requires Holds(buf, m) && k <= |m.options|
    ensures ValidMessage(m) && |Encode(m)| <= |buf| && Position(m, k) == |Prefix(m, k)|
  {
    hide Encode, Prefix;
  }

  lemma InsertedParts(m: Message, o: Opt)
    requires o.num < 0x1_0000 && |o.value| < 0x1_0000 && Insertable(m, o.num)
    ensures var k, t := InsertAt(m.options, o.num), TailEditFor(m, o.num);
            && t.Ok() && NumBefore(m, k) <= o.num
            && Inserted(m, o) == Prefix(m, k) + (OptionHeader(o.num - NumBefore(m, k), |o.value|) + o.value) + t.Later()
  {
    hide *;
    ValidFromInsertable(m, o.num);
    var k, t := InsertAt(m.options, o.num), TailEditFor(m, o.num);
    TailEditOk(m, o.num);
    InsertedIs(m, o);
    LaterIs(m, o.num);
    OptionParts(NumBefore(m, k), o);
  }

  /** The definitions, unfolded. */
  lemma InsertedIs(m: Message, o: Opt)
    requires ValidMessage(m) && o.num < 0x1_0000 && |o.value| < 0x1_0000
    ensures var k := InsertAt(m.options, o.num);
            && NumBefore(m, k) <= o.num && Behind(o.num, m.options[k..])
            && Inserted(m, o) == Prefix(m, k) + EncodeOption(NumBefore(m, k), o) + (Recounted(o.num, m.options[k..]) + EncodePayload(m.payload))
  {
    BehindInsertion(m, o.num);
    hide Prefix, EncodeOption, Recounted, EncodePayload, InsertAt, Behind, ValidMessage, NumBefore;
  }

  lemma LaterIs(m: Message, num: u16)
    requires ValidMessage(m) && TailEditFor(m, num).Ok()
    ensures var k := InsertAt(m.options, num);
            && Behind(num, m.options[k..])
            && TailEditFor(m, num).Later() == Recounted(num, m.options[k..]) + EncodePayload(m.payload)
  {
    hide Recounted, EncodePayload, InsertAt, Behind, ValidMessage, Sorted, KeepsHeaders;
  }

  lemma SliceIsPiece(a: seq<byte>, p: nat, n: nat, s: seq<byte>)
    requires p <= n <= |a| && a[p..n] == s
    ensures Seqs.PieceAt(a, p, s) && n == p + |s|
  {
  }

  /** Adding an option takes the space that the message with the option needs,
      and leaves that message exactly if at most one option follows it: each
      further one gets a delta that is too large by the distance of the first. */
  lemma InsertedExact(m: Message, o: Opt)
    requires o.num < 0x1_0000 && |o.value| < 0x1_0000 && Insertable(m, o.num)
    ensures var m' := m.(options := Insert(m.options, o));
            && ValidMessage(m') && |Inserted(m, o)| == |Encode(m')|
            && (Inserted(m, o) == Encode(m') <==> Following(m, o.num) <= 1)
            && (Parse(Inserted(m, o)) == Some(m') <==> Following(m, o.num) <= 1)
  {
    var k := InsertAt(m.options, o.num);
    var prev, opts, m' := NumBefore(m, k), m.options[k..], m.(options := Insert(m.options, o));
    EncodeInsert(m, o);
    BehindInsertion(m, o.num);
    ParseOfEncode(m');
    assert |opts| == Following(m, o.num);
    assert KeepsHeaders(prev, o.num, opts) by {
      assert opts == [] || m.payload != [];
    }
    var x, r, e, pay := Prefix(m, k) + EncodeOption(prev, o), Recounted(o.num, opts), EncodeOptions(o.num, opts), EncodePayload(m.payload);
    assert Inserted(m, o) == x + (r + pay) && Encode(m') == x + (e + pay);
    hide *;
    RecountedExact(o.num, opts);
    RecountedSize(prev, o.num, opts);
    FirstRecounted(prev, o.num, opts);
    SameInside(x, r, e, pay);
    if Parse(Inserted(m, o)) == Some(m') {
      ParsedEncoding(Inserted(m, o), m');
    }
  }

  lemma SameInside(x: seq<byte>, r: seq<byte>, e: seq<byte>, pay: seq<byte>)
    requires |r| == |e|
    ensures x + (r + pay) == x + (e + pay) <==> r == e
  {
    if x + (r + pay) == x + (e + pay) {
      Seqs.Split(x, r + pay);
      Seqs.Split(x, e + pay);
      Seqs.Split(r, pay);
      Seqs.Split(e, pay);
    }
  }

  /** Only the first header depends on the number before it. */
  lemma FirstRecounted(prev: nat, num: nat, opts: seq<Opt>)
    requires Sorted(prev, opts) && Sorted(num, opts) && Behind(num, opts) && KeepsHeaders(prev, num, opts)
    ensures |EncodeOptions(num, opts)| == |EncodeOptions(prev, opts)|
  {
    if opts != [] {
      KeepsPrefix(prev, num, opts, 0);
      OptionSize(num, prev, opts[0]);
      hide EncodeOption;
    }
  }

  /** Header and value written into the gap. */
  lemma Filled(gap: seq<byte>, after: seq<byte>, p: nat, h: seq<byte>, value: seq<byte>, end: nat)
    requires p + |h| + |value| <= end <= |gap|
    requires after == Seqs.Splice(Seqs.Splice(gap, p, h), p + |h|, value)
    ensures after[..p] == gap[..p]
    ensures after[p..p + |h| + |value|] == h + value
    ensures after[p + |h| + |value|..end] == gap[p + |h| + |value|..end]
  {
    hide Seqs.Splice;
    var one, q := Seqs.Splice(gap, p, h), p + |h| + |value|;
    Seqs.SpliceParts(gap, p, h);
    Seqs.SpliceParts(one, p + |h|, value);
    Seqs.SpliceOutside(one, p + |h|, value, 0, p);
    Seqs.SpliceOutside(one, p + |h|, value, p, p + |h|);
    Seqs.Join(after, p, p + |h|, q);
    Seqs.SpliceOutside(gap, p, h, q, end);
    Seqs.SpliceOutside(one, p + |h|, value, q, end);
  }
}

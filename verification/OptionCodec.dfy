/** The single-option decoder and the header-length computation of
    picocoap/src/coap.c, as the C code performs them on a raw buffer, and how a
    scan with that decoder walks over an encoded message. */
module OptionCodec {
  import opened Bytes
  import opened CoapFormat
  import Seqs

  datatype Error = NoError | InvalidPacket | InsufficientBuffer | FoundPayloadMarker | EndOfPacket

  /** Result of the decoder: the option's delta, length and value position, or
      the reason why there is none. */
  datatype Decoded = Found(delta: u16, len: u16, val: nat) | Stop(err: Error)

  function ExtensionLen(nibble: nat): nat {
    if nibble == 13 then 1 else if nibble == 14 then 2 else 0
  }

  /** The bytes the decoder reads at p lie inside the buffer. The C code reads
      them without comparing against the packet length. */
  predicate Readable(buf: seq<byte>, p: nat) {
    && p < |buf|
    && p + 1 + ExtensionLen(buf[p] as int / 16) + ExtensionLen(buf[p] as int % 16) <= |buf|
  }

  /** One extended field at p, in 16-bit arithmetic. */
  function DecodeField(buf: seq<byte>, p: nat, nibble: nat): u16
    requires nibble < 15 && p + ExtensionLen(nibble) <= |buf|
  {
    if nibble < 13 then nibble
    else if nibble == 13 then buf[p] as int + 13
    else (256 * buf[p] as int + buf[p + 1] as int + 269) % 0x1_0000
  }

  /** `remaining` is the packet length minus p; only its being zero is tested. */
  function DecodeOption(buf: seq<byte>, p: nat, remaining: int): Decoded
    requires remaining == 0 || Readable(buf, p)
  {
    if remaining == 0 then Stop(EndOfPacket)
    else if buf[p] == PAYLOAD_MARKER then Stop(FoundPayloadMarker)
    else
      var dn, ln := buf[p] as int / 16, buf[p] as int % 16;
      if dn == 15 || ln == 15 then Stop(InvalidPacket)
      else
        var q := p + 1 + ExtensionLen(dn);
        Found(DecodeField(buf, p + 1, dn), DecodeField(buf, q, ln), q + ExtensionLen(ln))
  }

  /** The number of bytes an option header will take. */
  function HeaderLen(delta: nat, len: nat): (n: nat)
    ensures delta < 0x1_0000 && len < 0x1_0000 ==> n == |OptionHeader(delta, len)|
  {
    1 + (if delta < 13 then 0 else if delta < 269 then 1 else 2)
      + (if len < 13 then 0 else if len < 269 then 1 else 2)
  }

  lemma DecodeFieldOfExtension(buf: seq<byte>, p: nat, x: nat)
    requires x < 0x1_0000 && p + |Extension(x)| <= |buf| && buf[p..p + |Extension(x)|] == Extension(x)
    ensures |Extension(x)| == ExtensionLen(Nibble(x))
    ensures DecodeField(buf, p, Nibble(x)) == x
  {
    var e := buf[p..p + |Extension(x)|];
    if 13 <= x < 269 {
      assert buf[p] == e[0];
    } else if x >= 269 {
      assert buf[p] == e[0] && buf[p + 1] == e[1];
    }
  }

  /** Decoding undoes building, whatever follows the header. */
  lemma DecodeOfHeader(buf: seq<byte>, p: nat, delta: nat, len: nat, remaining: int)
    requires delta < 0x1_0000 && len < 0x1_0000 && remaining != 0
    requires p + |OptionHeader(delta, len)| <= |buf|
    requires buf[p..p + |OptionHeader(delta, len)|] == OptionHeader(delta, len)
    ensures Readable(buf, p)
    ensures DecodeOption(buf, p, remaining) == Found(delta, len, p + |OptionHeader(delta, len)|)
  {
    var h := OptionHeader(delta, len);
    var e, f := Extension(delta), Extension(len);
    OptionHeaderFirst(delta, len);
    assert h == [h[0]] + e + f;
    hide OptionHeader, Extension, Nibble, DecodeField;
    Seqs.Split3([h[0]], e, f);
    assert buf[p] == buf[p..p + |h|][0];
    SubSlice(buf, p, h, 1, 1 + |e|);
    SubSlice(buf, p, h, 1 + |e|, |h|);
    DecodeFieldOfExtension(buf, p + 1, delta);
    DecodeFieldOfExtension(buf, p + 1 + |e|, len);
  }

  lemma SubSlice(buf: seq<byte>, p: nat, h: seq<byte>, i: nat, j: nat)
    requires i <= j <= |h| && p + |h| <= |buf| && buf[p..p + |h|] == h
    ensures buf[p + i..p + j] == h[i..j]
  {
    Seqs.Slice(buf, p, p + |h|, i, j);
  }

  // ------------------------------------------------- walking over a message

  /** The number from which option k's delta is counted. */
  function NumBefore(m: Message, k: nat): nat
    requires k <= |m.options|
  {
    if k == 0 then 0 else m.options[k - 1].num
  }

  lemma SortedFrom(m: Message, k: nat)
    requires ValidMessage(m) && k <= |m.options|
    ensures Sorted(0, m.options[..k])
    ensures LastNum(0, m.options[..k]) == NumBefore(m, k)
    ensures Sorted(NumBefore(m, k), m.options[k..])
  {
    assert m.options == m.options[..k] + m.options[k..];
    SortedSplit(0, m.options[..k], m.options[k..]);
  }

  /** The encoding of a message from option k on. */
  function Suffix(m: Message, k: nat): seq<byte>
    requires ValidMessage(m) && k <= |m.options|
  {
    SortedFrom(m, k);
    EncodeOptions(NumBefore(m, k), m.options[k..]) + EncodePayload(m.payload)
  }

  /** The encoding of a message up to option k. */
  function Prefix(m: Message, k: nat): seq<byte>
    requires ValidMessage(m) && k <= |m.options|
  {
    SortedFrom(m, k);
    Header(m) + m.token + EncodeOptions(0, m.options[..k])
  }

  /** The position of option k's header. */
  function Position(m: Message, k: nat): nat
    requires ValidMessage(m) && k <= |m.options|
  {
    |Prefix(m, k)|
  }

  lemma EncodeAt(m: Message, k: nat)
    requires ValidMessage(m) && k <= |m.options|
    ensures Encode(m) == Prefix(m, k) + Suffix(m, k)
  {
    var a, b := m.options[..k], m.options[k..];
    SortedFrom(m, k);
    assert m.options == a + b;
    EncodeOptionsSplit(0, a, b);
    var ea, eb := EncodeOptions(0, a), EncodeOptions(NumBefore(m, k), b);
    Seqs.Assoc(Header(m) + m.token, ea, eb);
    Seqs.Assoc(Header(m) + m.token + ea, eb, EncodePayload(m.payload));
  }

  /** One step of the walk, on the encoding itself. */
  lemma SuffixStep(m: Message, k: nat)
    requires ValidMessage(m) && k < |m.options|
    ensures NumBefore(m, k) <= m.options[k].num < 0x1_0000 && |m.options[k].value| < 0x1_0000
    ensures Suffix(m, k) == EncodeOption(NumBefore(m, k), m.options[k]) + Suffix(m, k + 1)
    ensures Prefix(m, k + 1) == Prefix(m, k) + EncodeOption(NumBefore(m, k), m.options[k])
  {
    hide EncodeOption, EncodePayload, Header;
    SortedFrom(m, k);
    SortedFrom(m, k + 1);
    var o := m.options[k];
    assert m.options[k..][1..] == m.options[k + 1..];
    var enc := EncodeOption(NumBefore(m, k), o);
    Seqs.Assoc(enc, EncodeOptions(o.num, m.options[k + 1..]), EncodePayload(m.payload));
    assert m.options[..k + 1] == m.options[..k] + [o];
    EncodeOptionsSplit(0, m.options[..k], [o]);
    assert EncodeOptions(NumBefore(m, k), [o]) == enc + [];
    Seqs.Assoc(Header(m) + m.token, EncodeOptions(0, m.options[..k]), enc);
  }

  lemma SuffixEnd(m: Message)
    requires ValidMessage(m)
    ensures Suffix(m, |m.options|) == EncodePayload(m.payload)
  {
  }

  /** The buffer starts with the encoding of m. */
  predicate Holds(buf: seq<byte>, m: Message) {
    ValidMessage(m) && |Encode(m)| <= |buf| && buf[..|Encode(m)|] == Encode(m)
  }

  /** What the decoder must answer at option k of m. */
  function Answer(m: Message, k: nat): Decoded
    requires ValidMessage(m) && k <= |m.options|
  {
    if k < |m.options| then
      SuffixStep(m, k);
      Found(m.options[k].num - NumBefore(m, k), |m.options[k].value|, Position(m, k + 1) - |m.options[k].value|)
    else Stop(if m.payload == [] then EndOfPacket else FoundPayloadMarker)
  }

  lemma BytesAt(buf: seq<byte>, m: Message, k: nat)
    requires Holds(buf, m) && k <= |m.options|
    ensures Position(m, k) + |Suffix(m, k)| == |Encode(m)|
    ensures buf[..Position(m, k)] == Prefix(m, k)
    ensures buf[Position(m, k)..|Encode(m)|] == Suffix(m, k)
  {
    EncodeAt(m, k);
    var n, p := |Encode(m)|, Position(m, k);
    Seqs.Split(Prefix(m, k), Suffix(m, k));
    Seqs.Slice(buf, 0, n, 0, p);
    Seqs.Slice(buf, 0, n, p, n);
  }

  /** Option k's header lies at its position. */
  lemma HeaderAt(buf: seq<byte>, m: Message, k: nat)
    requires Holds(buf, m) && k < |m.options|
    ensures NumBefore(m, k) <= m.options[k].num < 0x1_0000 && |m.options[k].value| < 0x1_0000
    ensures var h := OptionHeader(m.options[k].num - NumBefore(m, k), |m.options[k].value|);
            && Position(m, k) + |h| + |m.options[k].value| == Position(m, k + 1) <= |Encode(m)|
            && buf[Position(m, k)..Position(m, k) + |h|] == h
  {
    BytesAt(buf, m, k);
    SuffixStep(m, k);
    var o, p, n := m.options[k], Position(m, k), |Encode(m)|;
    var h := OptionHeader(o.num - NumBefore(m, k), |o.value|);
    Seqs.Assoc(h, o.value, Suffix(m, k + 1));
    Seqs.Split(h, o.value + Suffix(m, k + 1));
    Seqs.Slice(buf, p, n, 0, |h|);
  }

  lemma ScanOption(buf: seq<byte>, m: Message, k: nat)
    requires Holds(buf, m) && k < |m.options|
    ensures Position(m, k) < |Encode(m)| && Readable(buf, Position(m, k))
    ensures DecodeOption(buf, Position(m, k), |Encode(m)| - Position(m, k)) == Answer(m, k)
  {
    HeaderAt(buf, m, k);
    var o, p := m.options[k], Position(m, k);
    DecodeOfHeader(buf, p, o.num - NumBefore(m, k), |o.value|, |Encode(m)| - p);
  }

  lemma ScanEnd(buf: seq<byte>, m: Message)
    requires Holds(buf, m)
    ensures var p, n := Position(m, |m.options|), |Encode(m)|;
            && p <= n
            && (p == n || Readable(buf, p))
            && DecodeOption(buf, p, n - p) == Answer(m, |m.options|)
  {
    EndBytes(buf, m);
    hide Encode, Position, ValidMessage, Holds;
  }

  /** The options end at the end of the packet or at the payload marker. */
  lemma EndBytes(buf: seq<byte>, m: Message)
    requires Holds(buf, m)
    ensures ValidMessage(m)
    ensures var p, n := Position(m, |m.options|), |Encode(m)|;
            && p <= n <= |buf| && (p == n <==> m.payload == [])
            && (m.payload != [] ==> buf[p] == PAYLOAD_MARKER)
  {
    assert ValidMessage(m) && |Encode(m)| <= |buf|;
    var p, n := Position(m, |m.options|), |Encode(m)|;
    BytesAt(buf, m, |m.options|);
    SuffixEnd(m);
    assert m.payload == [] ==> EncodePayload(m.payload) == [];
    assert m.payload != [] ==> |EncodePayload(m.payload)| > 0 && EncodePayload(m.payload)[0] == PAYLOAD_MARKER;
    hide *;
    if m.payload != [] {
      assert buf[p] == buf[p..n][0];
    }
  }

  /** The decoder, run at the position of option k on any buffer that starts
      with the encoding of m, reports option k, or how the options end. */
  lemma ScanStep(buf: seq<byte>, m: Message, k: nat)
    requires Holds(buf, m) && k <= |m.options|
    ensures var p, n := Position(m, k), |Encode(m)|;
            && HEADER_SIZE + |m.token| <= p <= n
            && (p == n || Readable(buf, p))
            && DecodeOption(buf, p, n - p) == Answer(m, k)
  {
    if k < |m.options| {
      ScanOption(buf, m, k);
    } else {
      ScanEnd(buf, m);
    }
  }

  /** The value of option k lies where the decoder says. */
  lemma ValueAt(buf: seq<byte>, m: Message, k: nat)
    requires Holds(buf, m) && k < |m.options|
    ensures var q := Position(m, k + 1);
            |m.options[k].value| <= q <= |Encode(m)| && buf[q - |m.options[k].value|..q] == m.options[k].value
  {
    SuffixStep(m, k);
    var o, q := m.options[k], Position(m, k + 1);
    var h := OptionHeader(o.num - NumBefore(m, k), |o.value|);
    assert EncodeOption(NumBefore(m, k), o) == h + o.value && q == |Prefix(m, k + 1)|;
    assert |Encode(m)| <= |buf|;
    hide *;
    BytesAt(buf, m, k + 1);
    Seqs.Assoc(Prefix(m, k), h, o.value);
    Seqs.Split(Prefix(m, k) + h, o.value);
    Seqs.Slice(buf, 0, q, q - |o.value|, q);
  }
}

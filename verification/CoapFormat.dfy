/** The CoAP message format of section 3 of RFC 7252: abstract messages, their
    encoding, an independent bounds-checked parser, and the proof that the two
    are inverse to each other. */
module CoapFormat {
  import opened Bytes
  import Seqs

  const PAYLOAD_MARKER: byte := 0xFF
  const HEADER_SIZE := 4
  const MAX_TOKEN := 8

  const CON: nat := 0
  const NON: nat := 1
  const ACK: nat := 2
  const RST: nat := 3

  datatype Opt = Opt(num: nat, value: seq<byte>)

  /** A message. The empty payload stands for "no payload marker". */
  datatype Message = Message(typ: nat, code: byte, mid: u16, token: seq<byte>,
                             options: seq<Opt>, payload: seq<byte>)

  // ---------------------------------------------------------------- encoding

  /** The four-bit field of an option header for x (section 3.1 of RFC 7252). */
  function Nibble(x: nat): (n: nat)
    ensures n <= 14
  {
    if x < 13 then x else if x < 269 then 13 else 14
  }

  /** The extension bytes of an option header for x. */
  function Extension(x: nat): seq<byte>
    requires x < 0x1_0000
  {
    if x < 13 then []
    else if x < 269 then [(x - 13) as byte]
    else [((x - 269) / 256) as byte, ((x - 269) % 256) as byte]
  }

  function OptionHeader(delta: nat, len: nat): (h: seq<byte>)
    requires delta < 0x1_0000 && len < 0x1_0000
    ensures 1 <= |h| <= 5
  {
    [(16 * Nibble(delta) + Nibble(len)) as byte] + Extension(delta) + Extension(len)
  }

  function EncodeOption(prev: nat, o: Opt): (s: seq<byte>)
    requires prev <= o.num < 0x1_0000 && |o.value| < 0x1_0000
    ensures |s| >= 1 + |o.value|
  {
    OptionHeader(o.num - prev, |o.value|) + o.value
  }

  /** Numbers do not decrease, starting from prev, and fit 16 bits. */
  predicate Sorted(prev: nat, opts: seq<Opt>)
    decreases opts
  {
    if opts == [] then true
    else prev <= opts[0].num < 0x1_0000 && |opts[0].value| < 0x1_0000 && Sorted(opts[0].num, opts[1..])
  }

  function EncodeOptions(prev: nat, opts: seq<Opt>): seq<byte>
    requires Sorted(prev, opts)
    decreases opts
  {
    if opts == [] then [] else EncodeOption(prev, opts[0]) + EncodeOptions(opts[0].num, opts[1..])
  }

  function EncodePayload(payload: seq<byte>): seq<byte> {
    if payload == [] then [] else [PAYLOAD_MARKER] + payload
  }

  predicate ValidMessage(m: Message) {
    m.typ <= 3 && |m.token| <= MAX_TOKEN && Sorted(0, m.options)
  }

  function Header(m: Message): (h: seq<byte>)
    requires ValidMessage(m)
    ensures |h| == HEADER_SIZE
  {
    [(64 + 16 * m.typ + |m.token|) as byte, m.code, (m.mid / 256) as byte, (m.mid % 256) as byte]
  }

  function Encode(m: Message): (s: seq<byte>)
    requires ValidMessage(m)
    ensures |s| >= HEADER_SIZE + |m.token|
  {
    Header(m) + m.token + EncodeOptions(0, m.options) + EncodePayload(m.payload)
  }

  // ----------------------------------------------------------------- parsing

  /** An extended field: its value and how many extension bytes it used. */
  datatype Field = Field(value: nat, used: nat)

  function ParseField(nibble: nat, s: seq<byte>): (r: Option<Field>)
    ensures r.Some? ==> r.value.used <= |s|
  {
    if nibble < 13 then Some(Field(nibble, 0))
    else if nibble == 13 && |s| >= 1 then Some(Field(s[0] as int + 13, 1))
    else if nibble == 14 && |s| >= 2 then Some(Field(256 * s[0] as int + s[1] as int + 269, 2))
    else None
  }

  datatype ParsedOption = ParsedOption(opt: Opt, rest: seq<byte>)

  function ParseOption(prev: nat, s: seq<byte>): (r: Option<ParsedOption>)
    requires s != []
    ensures r.Some? ==> |r.value.rest| < |s|
    ensures r.Some? ==> prev <= r.value.opt.num < 0x1_0000 && |r.value.opt.value| < 0x1_0000
  {
    var d := ParseField(s[0] as int / 16, s[1..]);
    if d.None? then None else
    var l := ParseField(s[0] as int % 16, s[1 + d.value.used..]);
    if l.None? then None else
    var start := 1 + d.value.used + l.value.used;
    var end := start + l.value.value;
    if prev + d.value.value >= 0x1_0000 || l.value.value >= 0x1_0000 || end > |s| then None
    else Some(ParsedOption(Opt(prev + d.value.value, s[start..end]), s[end..]))
  }

  datatype Tail = Tail(options: seq<Opt>, payload: seq<byte>)

  function ParseTail(prev: nat, s: seq<byte>): Option<Tail>
    decreases |s|
  {
    if s == [] then Some(Tail([], []))
    else if s[0] == PAYLOAD_MARKER then (if |s| == 1 then None else Some(Tail([], s[1..])))
    else
      var o := ParseOption(prev, s);
      if o.None? then None else
      var t := ParseTail(o.value.opt.num, o.value.rest);
      if t.None? then None else
      Some(Tail([o.value.opt] + t.value.options, t.value.payload))
  }

  function Parse(s: seq<byte>): Option<Message> {
    if |s| < HEADER_SIZE || s[0] as int / 64 != 1 then None else
    var tkl := s[0] as int % 16;
    if tkl > MAX_TOKEN || |s| < HEADER_SIZE + tkl then None else
    var t := ParseTail(0, s[HEADER_SIZE + tkl..]);
    if t.None? then None else
    Some(Message(s[0] as int / 16 % 4, s[1], 256 * s[2] as int + s[3] as int, s[HEADER_SIZE..HEADER_SIZE + tkl],
                 t.value.options, t.value.payload))
  }

  /** A byte string is a message exactly when it parses. */
  predicate WellFormed(s: seq<byte>) {
    Parse(s).Some?
  }

  // ------------------------------------------------- parsing undoes encoding

  lemma ParseFieldOfExtension(x: nat, rest: seq<byte>)
    requires x < 0x1_0000
    ensures ParseField(Nibble(x), Extension(x) + rest) == Some(Field(x, |Extension(x)|))
  {
    var s := Extension(x) + rest;
    if 13 <= x < 269 {
      assert s[0] as int == x - 13;
    } else if x >= 269 {
      assert s[0] as int == (x - 269) / 256 && s[1] as int == (x - 269) % 256;
    }
  }

  /** The first byte of an option is never the payload marker. */
  lemma OptionHeaderFirst(delta: nat, len: nat)
    requires delta < 0x1_0000 && len < 0x1_0000
    ensures OptionHeader(delta, len)[0] as int / 16 == Nibble(delta)
    ensures OptionHeader(delta, len)[0] as int % 16 == Nibble(len)
    ensures OptionHeader(delta, len)[0] != PAYLOAD_MARKER
  {
  }

  lemma EncodeOptionFirst(prev: nat, o: Opt, rest: seq<byte>)
    requires prev <= o.num < 0x1_0000 && |o.value| < 0x1_0000
    ensures (EncodeOption(prev, o) + rest)[0] != PAYLOAD_MARKER
  {
    OptionHeaderFirst(o.num - prev, |o.value|);
  }

  lemma ParseOptionOfEncode(prev: nat, o: Opt, rest: seq<byte>)
    requires prev <= o.num < 0x1_0000 && |o.value| < 0x1_0000
    ensures ParseOption(prev, EncodeOption(prev, o) + rest) == Some(ParsedOption(o, rest))
  {
    var delta, len := o.num - prev, |o.value|;
    var e, f := Extension(delta), Extension(len);
    var first := [OptionHeader(delta, len)[0]];
    var s := EncodeOption(prev, o) + rest;
    OptionHeaderFirst(delta, len);
    Seqs.Split5(first, e, f, o.value, rest);
    assert s[0] == s[..1][0] == first[0];
    ParseFieldOfExtension(delta, f + o.value + rest);
    ParseFieldOfExtension(len, o.value + rest);
  }

  /** Parsing takes an encoded option off and goes on behind it. */
  lemma ParseTailStep(prev: nat, o: Opt, rest: seq<byte>)
    requires prev <= o.num < 0x1_0000 && |o.value| < 0x1_0000
    ensures var t := ParseTail(o.num, rest);
            ParseTail(prev, EncodeOption(prev, o) + rest)
            == if t.None? then None else Some(Tail([o] + t.value.options, t.value.payload))
  {
    hide EncodeOption, ParseOption;
    EncodeOptionFirst(prev, o, rest);
    ParseOptionOfEncode(prev, o, rest);
  }

  lemma ParsePayload(prev: nat, payload: seq<byte>)
    ensures ParseTail(prev, EncodePayload(payload)) == Some(Tail([], payload))
  {
    if payload != [] {
      assert EncodePayload(payload)[1..] == payload;
    }
  }

  lemma {:induction false} ParseTailOfEncode(prev: nat, opts: seq<Opt>, payload: seq<byte>)
    requires Sorted(prev, opts)
    ensures ParseTail(prev, EncodeOptions(prev, opts) + EncodePayload(payload)) == Some(Tail(opts, payload))
    decreases opts
  {
    hide EncodeOption, EncodePayload, ParseTail;
    if opts == [] {
      ParsePayload(prev, payload);
      assert [] + EncodePayload(payload) == EncodePayload(payload);
    } else {
      var o, later := opts[0], EncodeOptions(opts[0].num, opts[1..]);
      Seqs.Assoc(EncodeOption(prev, o), later, EncodePayload(payload));
      ParseTailStep(prev, o, later + EncodePayload(payload));
      ParseTailOfEncode(o.num, opts[1..], payload);
      assert opts == [o] + opts[1..];
    }
  }

  /** Where the parts of an encoded message lie. */
  lemma EncodeLayout(m: Message)
    requires ValidMessage(m)
    ensures var s := Encode(m);
            var tail := EncodeOptions(0, m.options) + EncodePayload(m.payload);
            && s == Header(m) + m.token + tail
            && s[..HEADER_SIZE] == Header(m)
            && s[0] == Header(m)[0] && s[1] == Header(m)[1] && s[2] == Header(m)[2] && s[3] == Header(m)[3]
            && s[HEADER_SIZE..HEADER_SIZE + |m.token|] == m.token
            && s[HEADER_SIZE + |m.token|..] == tail
  {
    Seqs.Assoc(Header(m) + m.token, EncodeOptions(0, m.options), EncodePayload(m.payload));
    Seqs.Split3(Header(m), m.token, EncodeOptions(0, m.options) + EncodePayload(m.payload));
    var s := Encode(m);
    assert forall k :: 0 <= k < HEADER_SIZE ==> s[k] == s[..HEADER_SIZE][k];
  }

  /** The fixed header determines its fields. */
  lemma HeaderFields(m: Message)
    requires ValidMessage(m)
    ensures var h := Header(m);
            && h[0] as int / 64 == 1 && h[0] as int / 16 % 4 == m.typ && h[0] as int % 16 == |m.token|
            && h[1] == m.code && 256 * h[2] as int + h[3] as int == m.mid
  {
  }

  /** Every valid message is recovered from its encoding. */
  lemma ParseOfEncode(m: Message)
    requires ValidMessage(m)
    ensures Parse(Encode(m)) == Some(m)
  {
    hide Header, EncodeOptions, EncodePayload, ParseTail, Sorted, Encode;
    EncodeLayout(m);
    HeaderFields(m);
    var s := Encode(m);
    var tkl := s[0] as int % 16;
    assert tkl == |m.token| && s[HEADER_SIZE..HEADER_SIZE + tkl] == m.token;
    ParseTailOfEncode(0, m.options, m.payload);
    assert ParseTail(0, s[HEADER_SIZE + tkl..]) == Some(Tail(m.options, m.payload));
  }

  // ------------------------------------------------- encoding undoes parsing

  lemma ExtensionOfParseField(nibble: nat, s: seq<byte>)
    requires nibble < 16 && ParseField(nibble, s).Some? && ParseField(nibble, s).value.value < 0x1_0000
    ensures var f := ParseField(nibble, s).value;
            Nibble(f.value) == nibble && Extension(f.value) == s[..f.used]
  {
  }

  lemma EncodeOfParseOption(prev: nat, s: seq<byte>)
    requires s != [] && ParseOption(prev, s).Some?
    ensures var p := ParseOption(prev, s).value; s == EncodeOption(prev, p.opt) + p.rest
  {
    var d := ParseField(s[0] as int / 16, s[1..]).value;
    var l := ParseField(s[0] as int % 16, s[1 + d.used..]).value;
    ExtensionOfParseField(s[0] as int / 16, s[1..]);
    ExtensionOfParseField(s[0] as int % 16, s[1 + d.used..]);
    var start := 1 + d.used + l.used;
    var end := start + l.value;
    Seqs.Prefix3(s, d.used, l.used);
    assert OptionHeader(d.value, l.value) == s[..start];
    Seqs.Reassemble3(s, start, end);
  }

  lemma {:induction false} EncodeOfParseTail(prev: nat, s: seq<byte>)
    requires ParseTail(prev, s).Some?
    ensures var t := ParseTail(prev, s).value;
            Sorted(prev, t.options) && s == EncodeOptions(prev, t.options) + EncodePayload(t.payload)
    decreases |s|
  {
    if s != [] && s[0] != PAYLOAD_MARKER {
      var p := ParseOption(prev, s).value;
      EncodeOfParseOption(prev, s);
      EncodeOfParseTail(p.opt.num, p.rest);
      var t := ParseTail(p.opt.num, p.rest).value;
      Seqs.Split([p.opt], t.options);
      Seqs.Assoc(EncodeOption(prev, p.opt), EncodeOptions(p.opt.num, t.options), EncodePayload(t.payload));
    }
  }

  /** Every byte string that parses is the encoding of the message it parses to. */
  lemma EncodeOfParse(s: seq<byte>)
    requires WellFormed(s)
    ensures ValidMessage(Parse(s).value) && Encode(Parse(s).value) == s
  {
    var m := Parse(s).value;
    var tkl := s[0] as int % 16;
    var n := HEADER_SIZE + tkl;
    EncodeOfParseTail(0, s[n..]);
    HeaderOfFields(s);
    Seqs.Assoc(Header(m) + m.token, EncodeOptions(0, m.options), EncodePayload(m.payload));
    Seqs.Reassemble3(s, HEADER_SIZE, n);
  }

  lemma HeaderOfFields(s: seq<byte>)
    requires |s| >= HEADER_SIZE && s[0] as int / 64 == 1
    ensures var h := s[0] as int;
            s[..HEADER_SIZE] == [(64 + 16 * (h / 16 % 4) + h % 16) as byte, s[1],
                                 ((256 * s[2] as int + s[3] as int) / 256) as byte,
                                 ((256 * s[2] as int + s[3] as int) % 256) as byte]
  {
  }

  /** No two messages share an encoding. */
  lemma EncodeInjective(m: Message, m': Message)
    requires ValidMessage(m) && ValidMessage(m')
    ensures Encode(m) == Encode(m') <==> m == m'
  {
    ParseOfEncode(m);
    ParseOfEncode(m');
  }

  // ----------------------------------------------------------- option lists

  /** The number the next option's delta is counted from. */
  function LastNum(prev: nat, opts: seq<Opt>): nat {
    if opts == [] then prev else opts[|opts| - 1].num
  }

  lemma {:induction false} SortedSplit(prev: nat, a: seq<Opt>, b: seq<Opt>)
    ensures Sorted(prev, a + b) <==> Sorted(prev, a) && Sorted(LastNum(prev, a), b)
    decreases a
  {
    if a == [] {
      assert a + b == b;
    } else {
      assert (a + b)[1..] == a[1..] + b;
      SortedSplit(a[0].num, a[1..], b);
    }
  }

  lemma {:induction false} EncodeOptionsSplit(prev: nat, a: seq<Opt>, b: seq<Opt>)
    requires Sorted(prev, a) && Sorted(LastNum(prev, a), b)
    ensures Sorted(prev, a + b)
    ensures EncodeOptions(prev, a + b) == EncodeOptions(prev, a) + EncodeOptions(LastNum(prev, a), b)
    decreases a
  {
    if a == [] {
      assert a + b == b;
    } else {
      assert (a + b)[1..] == a[1..] + b;
      EncodeOptionsSplit(a[0].num, a[1..], b);
      Seqs.Assoc(EncodeOption(prev, a[0]), EncodeOptions(a[0].num, a[1..]), EncodeOptions(LastNum(prev, a), b));
    }
  }

  lemma {:induction false} SortedBound(prev: nat, opts: seq<Opt>)
    requires Sorted(prev, opts)
    ensures prev <= LastNum(prev, opts)
    ensures forall k :: 0 <= k < |opts| ==> prev <= opts[k].num <= LastNum(prev, opts)
    decreases opts
  {
    if opts != [] {
      SortedBound(opts[0].num, opts[1..]);
    }
  }
}

/** What each packet edit means on messages, and how it changes the encoding. */
module MessageEdits {
  import opened Bytes
  import opened CoapFormat
  import opened OptionCodec
  import Seqs

  // ------------------------------------------------------------ fixed header

  /** Changing only fixed-header fields changes only the first four bytes. */
  lemma Reheader(s: seq<byte>, s': seq<byte>, m: Message, m': Message)
    requires Parse(s) == Some(m) && |s'| == |s| && s'[HEADER_SIZE..] == s[HEADER_SIZE..]
    requires m'.typ <= 3 && m'.token == m.token && m'.options == m.options && m'.payload == m.payload
    requires ValidMessage(m') && s'[..HEADER_SIZE] == Header(m')
    ensures Parse(s') == Some(m')
  {
    EncodeOfParse(s);
    EncodeLayout(m);
    EncodeLayout(m');
    var tail := EncodeOptions(0, m.options) + EncodePayload(m.payload);
    Seqs.Assoc(Header(m), m.token, tail);
    Seqs.Assoc(Header(m'), m.token, tail);
    Seqs.Split(Header(m), m.token + tail);
    assert s' == s'[..HEADER_SIZE] + s'[HEADER_SIZE..];
    ParseOfEncode(m');
  }

  // ------------------------------------------------------------------- token

  /** A packet's bytes with the token replaced by the low tkl bytes of `token`. */
  function Retoken(s: seq<byte>, token: nat, tkl: nat): (r: seq<byte>)
    requires |s| >= HEADER_SIZE && |s| >= HEADER_SIZE + s[0] as int % 16 && tkl <= MAX_TOKEN
    ensures |r| == |s| - s[0] as int % 16 + tkl
  {
    [(tkl + 16 * (s[0] as int / 16)) as byte] + s[1..HEADER_SIZE]
      + LittleEndian(token, tkl) + s[HEADER_SIZE + s[0] as int % 16..]
  }

  /** Replacing the token bytes keeps every other part of the message. */
  lemma RetokenMeaning(s: seq<byte>, m: Message, token: nat, tkl: nat)
    requires Parse(s) == Some(m) && tkl <= MAX_TOKEN
    ensures ValidMessage(m.(token := LittleEndian(token, tkl)))
    ensures Retoken(s, token, tkl) == Encode(m.(token := LittleEndian(token, tkl)))
  {
    hide Parse, Header, EncodeOptions, EncodePayload, Sorted;
    EncodeOfParse(s);
    EncodeLayout(m);
    HeaderFields(m);
    assert s[HEADER_SIZE + |m.token|..] == EncodeOptions(0, m.options) + EncodePayload(m.payload);
    var m' := m.(token := LittleEndian(token, tkl));
    EncodeLayout(m');
    RetokenHeader(s, m, m');
  }

  lemma RetokenHeader(s: seq<byte>, m: Message, m': Message)
    requires ValidMessage(m) && ValidMessage(m') && m' == m.(token := m'.token)
    requires |s| >= HEADER_SIZE && s[0] == Header(m)[0] && s[1] == Header(m)[1] && s[2] == Header(m)[2] && s[3] == Header(m)[3]
    ensures Header(m') == [(|m'.token| + 16 * (s[0] as int / 16)) as byte] + s[1..HEADER_SIZE]
  {
    HeaderFields(m);
    HeaderFields(m');
    assert s[1..HEADER_SIZE] == [s[1], s[2], s[3]];
  }

  // ----------------------------------------------------------------- options

  /** How many leading options have a number of at most num. */
  function InsertAt(opts: seq<Opt>, num: nat): (k: nat)
    ensures k <= |opts|
    ensures forall j :: 0 <= j < k ==> opts[j].num <= num
    ensures k < |opts| ==> opts[k].num > num
  {
    if opts == [] || opts[0].num > num then 0 else 1 + InsertAt(opts[1..], num)
  }

  /** The option list with o added behind every option of the same number. */
  function Insert(opts: seq<Opt>, o: Opt): seq<Opt> {
    var k := InsertAt(opts, o.num);
    opts[..k] + [o] + opts[k..]
  }

  /** The insertion point is the only place that keeps the order stable. */
  lemma {:induction false} InsertAtUnique(opts: seq<Opt>, num: nat, k: nat)
    requires k <= |opts|
    requires forall j :: 0 <= j < k ==> opts[j].num <= num
    requires k < |opts| ==> opts[k].num > num
    ensures InsertAt(opts, num) == k
  {
    if k > 0 {
      InsertAtUnique(opts[1..], num, k - 1);
    }
  }

  /** All options before k have numbers of at most num. */
  predicate PassedUpTo(m: Message, num: nat, k: nat) {
    forall j :: 0 <= j < k && j < |m.options| ==> m.options[j].num <= num
  }

  lemma PassedNext(m: Message, num: nat, k: nat)
    requires PassedUpTo(m, num, k) && k < |m.options| && m.options[k].num <= num
    ensures PassedUpTo(m, num, k + 1)
  {
  }

  /** There is no option k, or its number is greater than num. */
  predicate Beyond(m: Message, num: nat, k: nat) {
    k < |m.options| ==> m.options[k].num > num
  }

  lemma BeyondIs(m: Message, num: nat, k: nat)
    requires k < |m.options| ==> m.options[k].num > num
    ensures Beyond(m, num, k)
  {
  }

  lemma InsertionFound(m: Message, num: nat, k: nat)
    requires PassedUpTo(m, num, k) && k <= |m.options| && Beyond(m, num, k)
    ensures InsertAt(m.options, num) == k
  {
    InsertAtUnique(m.options, num, k);
  }

  /** Adding at or behind the last number is appending. */
  lemma InsertAppends(m: Message, o: Opt)
    requires ValidMessage(m) && LastNum(0, m.options) <= o.num
    ensures InsertAt(m.options, o.num) == |m.options|
    ensures Insert(m.options, o) == m.options + [o]
  {
    SortedBound(0, m.options);
    InsertAtUnique(m.options, o.num, |m.options|);
    assert m.options[..|m.options|] == m.options;
    assert m.options[|m.options|..] == [];
  }

  /** The encoding after an insertion: the options before it untouched, the new
      option, and the following options counted from the new number. */
  lemma EncodeInsert(m: Message, o: Opt)
    requires ValidMessage(m) && o.num < 0x1_0000 && |o.value| < 0x1_0000
    ensures var k := InsertAt(m.options, o.num);
            var m' := m.(options := Insert(m.options, o));
            && NumBefore(m, k) <= o.num
            && Sorted(o.num, m.options[k..])
            && ValidMessage(m')
            && Encode(m') == Prefix(m, k) + EncodeOption(NumBefore(m, k), o)
                               + (EncodeOptions(o.num, m.options[k..]) + EncodePayload(m.payload))
  {
    hide EncodeOptions, Sorted, EncodeOption, EncodePayload, InsertAt;
    var k := InsertAt(m.options, o.num);
    var a, b := m.options[..k], m.options[k..];
    InsertSorted(m, o);
    EncodeCons(NumBefore(m, k), o, b);
    Seqs.Assoc(a, [o], b);
    EncodeOptionsSplit(0, a, [o] + b);
    var m' := m.(options := Insert(m.options, o));
    assert m'.options == a + ([o] + b) && ValidMessage(m');
    assert Encode(m') == Header(m) + m.token + EncodeOptions(0, m'.options) + EncodePayload(m.payload);
    assert Prefix(m, k) == Header(m) + m.token + EncodeOptions(0, a);
    hide *;
    EncodeInsertBytes(Header(m) + m.token, EncodeOptions(0, a), EncodeOption(NumBefore(m, k), o),
                      EncodeOptions(o.num, b), EncodePayload(m.payload));
  }

  lemma InsertSorted(m: Message, o: Opt)
    requires ValidMessage(m) && o.num < 0x1_0000 && |o.value| < 0x1_0000
    ensures var k := InsertAt(m.options, o.num);
            && NumBefore(m, k) <= o.num
            && Sorted(0, m.options[..k]) && LastNum(0, m.options[..k]) == NumBefore(m, k)
            && Sorted(NumBefore(m, k), m.options[k..])
            && (m.options[k..] != [] ==> o.num <= m.options[k..][0].num)
  {
    SortedFrom(m, InsertAt(m.options, o.num));
  }

  /** An option in front of a list whose numbers are not smaller. */
  lemma EncodeCons(prev: nat, o: Opt, opts: seq<Opt>)
    requires prev <= o.num < 0x1_0000 && |o.value| < 0x1_0000
    requires Sorted(prev, opts) && (opts != [] ==> o.num <= opts[0].num)
    ensures Sorted(o.num, opts) && Sorted(prev, [o] + opts)
    ensures EncodeOptions(prev, [o] + opts) == EncodeOption(prev, o) + EncodeOptions(o.num, opts)
  {
    assert ([o] + opts)[1..] == opts;
  }

  lemma EncodeInsertBytes(h: seq<byte>, a: seq<byte>, o: seq<byte>, b: seq<byte>, p: seq<byte>)
    ensures h + (a + (o + b)) + p == (h + a) + o + (b + p)
  {
    Seqs.Assoc(h, a, o + b);
    Seqs.Assoc(h + a, o, b);
    Seqs.Assoc(h + a + o, b, p);
  }

  // ----------------------------------------------------------------- payload

  /** The bytes that setting a payload leaves: after the options, a marker only
      if the packet had no payload yet, and then the new bytes. */
  function PayloadSet(m: Message, payload: seq<byte>): seq<byte>
    requires ValidMessage(m)
  {
    Encode(m.(payload := [])) + (if m.payload == [] then [PAYLOAD_MARKER] else []) + payload
  }

  /** The options end where the payload belongs. */
  lemma PayloadPlace(buf: seq<byte>, m: Message)
    requires Holds(buf, m)
    ensures var p := Position(m, |m.options|);
            && p + |EncodePayload(m.payload)| == |Encode(m)| <= |buf|
            && buf[..p] == Prefix(m, |m.options|)
  {
    BytesAt(buf, m, |m.options|);
    SuffixEnd(m);
  }

  lemma PayloadSetBytes(m: Message, payload: seq<byte>)
    requires ValidMessage(m)
    ensures PayloadSet(m, payload)
            == (if m.payload == [] then Prefix(m, |m.options|) + [PAYLOAD_MARKER] else Prefix(m, |m.options|)) + payload
  {
    assert m.options[..|m.options|] == m.options;
    assert Encode(m.(payload := [])) == Prefix(m, |m.options|);
  }

  /** Setting a payload does what it promises, namely gives the same message
      with the new payload, exactly when either the packet had no payload and
      the new one is not empty, or it had one and the new one is empty. */
  lemma PayloadSetMeaning(m: Message, payload: seq<byte>)
    requires ValidMessage(m)
    ensures Parse(PayloadSet(m, payload)) == Some(m.(payload := payload))
            <==> (m.payload == [] <==> payload != [])
  {
    var m', base, s := m.(payload := payload), Encode(m.(payload := [])), PayloadSet(m, payload);
    BaseBytes(m, payload);
    assert s == base + (if m.payload == [] then [PAYLOAD_MARKER] else []) + payload;
    assert EncodePayload(payload) == if payload == [] then [] else [PAYLOAD_MARKER] + payload;
    assert ValidMessage(m');
    hide *;
    ParseOfEncode(m');
    if m.payload == [] && payload != [] {
      Seqs.Assoc(base, [PAYLOAD_MARKER], payload);
    } else if m.payload != [] && payload == [] {
      assert s == base && Encode(m') == base;
    } else if Parse(s) == Some(m') {
      assert |s| != |Encode(m')|;
      ParsedEncoding(s, m');
    }
  }

  lemma BaseBytes(m: Message, payload: seq<byte>)
    requires ValidMessage(m)
    ensures Encode(m.(payload := payload)) == Encode(m.(payload := [])) + EncodePayload(payload)
  {
    hide EncodeOptions, Sorted;
    assert Encode(m.(payload := [])) == Header(m) + m.token + EncodeOptions(0, m.options);
  }

  lemma ParsedEncoding(s: seq<byte>, m: Message)
    requires Parse(s) == Some(m)
    ensures ValidMessage(m) && Encode(m) == s
  {
    EncodeOfParse(s);
  }

  lemma {:induction false} SortedNoMarkerTail(prev: nat, opts: seq<Opt>)
    requires Sorted(prev, opts)
    ensures ParseTail(prev, EncodeOptions(prev, opts) + [PAYLOAD_MARKER]).None?
    decreases opts
  {
    hide EncodeOption;
    if opts == [] {
      assert [] + [PAYLOAD_MARKER] == [PAYLOAD_MARKER];
    } else {
      var o, later := opts[0], EncodeOptions(opts[0].num, opts[1..]);
      hide ParseTail;
      Seqs.Assoc(EncodeOption(prev, o), later, [PAYLOAD_MARKER]);
      ParseTailStep(prev, o, later + [PAYLOAD_MARKER]);
      SortedNoMarkerTail(o.num, opts[1..]);
    }
  }

  /** Setting an empty payload on a packet without one leaves a marker with
      nothing behind it, which section 3 of RFC 7252 forbids. */
  lemma EmptyPayloadMalformed(m: Message)
    requires ValidMessage(m) && m.payload == []
    ensures !WellFormed(PayloadSet(m, []))
  {
    var s := PayloadSet(m, []);
    var tail := EncodeOptions(0, m.options) + [PAYLOAD_MARKER];
    assert Encode(m.(payload := [])) == Header(m) + m.token + EncodeOptions(0, m.options);
    Seqs.Assoc(Header(m) + m.token, EncodeOptions(0, m.options), [PAYLOAD_MARKER]);
    assert s == Header(m) + m.token + tail;
    Seqs.Split3(Header(m), m.token, tail);
    assert s[0] == s[..HEADER_SIZE][0];
    HeaderFields(m);
    SortedNoMarkerTail(0, m.options);
  }
}

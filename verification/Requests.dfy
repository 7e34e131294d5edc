/** The requests of src/exosite.c as messages: what each builder is to send,
    and what it does send when an option or the payload no longer fits. */
module Requests {
  import opened Bytes
  import opened CoapFormat
  import opened MessageEdits
  import opened PduEdits
  import Seqs

  const DATAGRAM_SIZE: nat := 576
  const CIK_LENGTH: nat := 40

  const GET: byte := 1
  const POST: byte := 2

  const OBSERVE: u16 := 6
  const URI_PATH: u16 := 11
  const MAX_AGE: u16 := 14
  const URI_QUERY: u16 := 15

  datatype Kind = NullOp | Write | Read | Subscribe | Activate

  /** The strings a request is built from. */
  datatype Args = Args(alias: seq<byte>, value: seq<byte>, cik: seq<byte>,
                       vendor: seq<byte>, model: seq<byte>, serial: seq<byte>)

  function Ascii(s: string): seq<byte> {
    seq(|s|, i requires 0 <= i < |s| => (s[i] as int % 256) as byte)
  }

  /** A string passed with its length narrowed to 16 bits. */
  function Trunc16(s: seq<byte>): (t: seq<byte>)
    ensures |t| < 0x1_0000
    ensures t == s <==> |s| < 0x1_0000
  {
    s[..|s| % 0x1_0000]
  }

  function Path(s: seq<byte>): Opt {
    Opt(URI_PATH, Trunc16(s))
  }

  /** The options of a request, in the order in which they are added. */
  function RequestOptions(kind: Kind, a: Args): (opts: seq<Opt>)
    ensures InOrder(opts)
  {
    hide Ascii, Trunc16;
    var dataport := [Path(Ascii("1a")), Path(a.alias), Opt(URI_QUERY, Trunc16(a.cik))];
    match kind
    case Activate => [Path(Ascii("provision")), Path(Ascii("activate")), Path(a.vendor), Path(a.model), Path(a.serial)]
    case Subscribe => [Opt(OBSERVE, [0])] + dataport
    case Read => dataport
    case Write => dataport
    case NullOp => []
  }

  predicate InOrder(opts: seq<Opt>) {
    && (forall i :: 0 <= i < |opts| ==> opts[i].num < 0x1_0000 && |opts[i].value| < 0x1_0000)
    && (forall i, j :: 0 <= i < j < |opts| ==> opts[i].num <= opts[j].num)
  }

  /** A new confirmable request with a two-byte token. */
  function RequestHead(kind: Kind, mid: u16, rnd: nat): (m: Message)
    ensures ValidMessage(m)
  {
    Message(CON, if kind == Read || kind == Subscribe then GET else POST, mid, LittleEndian(rnd, 2), [], [])
  }

  /** The request as intended. */
  function WholeRequest(kind: Kind, mid: u16, rnd: nat, a: Args): Message {
    RequestHead(kind, mid, rnd).(options := RequestOptions(kind, a), payload := if kind == Write then a.value else [])
  }

  // --------------------------------------------- adding options that may fit

  predicate Fits(m: Message, o: Opt, max: nat)
    requires ValidMessage(m.(options := m.options + [o]))
  {
    |Encode(m.(options := m.options + [o]))| <= max
  }

  /** An option behind all others keeps the message valid. */
  predicate Appendable(m: Message, o: Opt) {
    ValidMessage(m) && LastNum(0, m.options) <= o.num < 0x1_0000 && |o.value| < 0x1_0000
  }

  lemma AppendValid(m: Message, o: Opt)
    requires Appendable(m, o)
    ensures ValidMessage(m.(options := m.options + [o]))
    ensures Insertable(m, o.num) && Insert(m.options, o) == m.options + [o] && Following(m, o.num) == 0
    ensures |Encode(m)| < |Encode(m.(options := m.options + [o]))|
  {
    SortedSplit(0, m.options, [o]);
    EncodeOptionsSplit(0, m.options, [o]);
    InsertAppends(m, o);
  }

  function Offer(m: Message, o: Opt, max: nat): (r: Message)
    requires Appendable(m, o)
    ensures ValidMessage(r) && LastNum(0, r.options) <= o.num
    ensures r.(options := m.options) == m
  {
    AppendValid(m, o);
    if Fits(m, o, max) then m.(options := m.options + [o]) else m
  }

  /** All options offered in turn: each is added if it fits, and skipped if not. */
  function OfferAll(m: Message, opts: seq<Opt>, max: nat): (r: Message)
    requires ValidMessage(m) && m.options == [] && InOrder(opts)
    ensures ValidMessage(r) && r.(options := []) == m
    ensures opts != [] ==> LastNum(0, r.options) <= opts[|opts| - 1].num
    ensures opts == [] ==> r == m
    decreases |opts|
  {
    if opts == [] then m
    else
      var n := |opts| - 1;
      Offer(OfferAll(m, opts[..n], max), opts[n], max)
  }

  /** Every option was added. */
  predicate AllFit(m: Message, opts: seq<Opt>, max: nat)
    requires ValidMessage(m) && m.options == [] && InOrder(opts)
    decreases |opts|
  {
    if opts == [] then true
    else
      var n := |opts| - 1;
      var before := OfferAll(m, opts[..n], max);
      AppendValid(before, opts[n]);
      AllFit(m, opts[..n], max) && Fits(before, opts[n], max)
  }

  lemma {:induction false} InOrderValid(m: Message, opts: seq<Opt>)
    requires ValidMessage(m) && InOrder(opts)
    ensures ValidMessage(m.(options := opts))
    decreases |opts|
  {
    if opts != [] {
      var n := |opts| - 1;
      InOrderValid(m, opts[..n]);
      assert opts == opts[..n] + [opts[n]];
      AppendValid(m.(options := opts[..n]), opts[n]);
    }
  }

  /** All options are added exactly when the message with all of them fits, and
      then that message is the result. */
  lemma {:induction false} OfferAllExact(m: Message, opts: seq<Opt>, max: nat)
    requires ValidMessage(m) && m.options == [] && InOrder(opts) && |Encode(m)| <= max
    ensures ValidMessage(m.(options := opts))
    ensures AllFit(m, opts, max) <==> |Encode(m.(options := opts))| <= max
    ensures AllFit(m, opts, max) ==> OfferAll(m, opts, max) == m.(options := opts)
    ensures |Encode(OfferAll(m, opts, max))| <= max
    decreases |opts|
  {
    hide Encode, ValidMessage, LastNum, InOrder, Appendable;
    InOrderValid(m, opts);
    if opts == [] {
      assert m.(options := opts) == m;
    } else {
      var n, before := |opts| - 1, opts[..|opts| - 1];
      InOrderLast(m, opts);
      hide OfferAll, AllFit;
      OfferAllExact(m, before, max);
      OfferLast(m, opts, max);
      AppendValid(m.(options := before), opts[n]);
      assert m.(options := opts) == m.(options := before + [opts[n]]);
    }
  }

  /** Offering the last option. */
  lemma OfferLast(m: Message, opts: seq<Opt>, max: nat)
    requires ValidMessage(m) && m.options == [] && InOrder(opts) && opts != [] && InOrder(opts[..|opts| - 1])
    ensures var n := |opts| - 1;
            var before := OfferAll(m, opts[..n], max);
            var after := before.(options := before.options + [opts[n]]);
            && ValidMessage(after)
            && (AllFit(m, opts, max) <==> AllFit(m, opts[..n], max) && |Encode(after)| <= max)
            && OfferAll(m, opts, max) == if |Encode(after)| <= max then after else before
  {
    hide Encode, ValidMessage;
    AppendValid(OfferAll(m, opts[..|opts| - 1], max), opts[|opts| - 1]);
  }

  lemma InOrderLast(m: Message, opts: seq<Opt>)
    requires ValidMessage(m) && InOrder(opts) && opts != []
    ensures InOrder(opts[..|opts| - 1]) && opts == opts[..|opts| - 1] + [opts[|opts| - 1]]
    ensures Appendable(m.(options := opts[..|opts| - 1]), opts[|opts| - 1])
  {
    InOrderValid(m, opts[..|opts| - 1]);
  }

  // ---------------------------------------------------------- request bytes

  /** What the builder leaves in the buffer. Its error is ignored by the engine,
      so this is what is sent. */
  function RequestBytes(kind: Kind, mid: u16, rnd: nat, a: Args): seq<byte> {
    var m := OfferAll(RequestHead(kind, mid, rnd), RequestOptions(kind, a), DATAGRAM_SIZE);
    if PayloadFits(kind, m, a) then PayloadSet(m, a.value) else Encode(m)
  }

  predicate PayloadFits(kind: Kind, m: Message, a: Args)
    requires ValidMessage(m)
  {
    kind == Write && |Encode(m)| + 1 + |a.value| <= DATAGRAM_SIZE
  }

  /** The builder reports success. */
  predicate RequestOk(kind: Kind, mid: u16, rnd: nat, a: Args) {
    var head, opts := RequestHead(kind, mid, rnd), RequestOptions(kind, a);
    && AllFit(head, opts, DATAGRAM_SIZE)
    && (kind == Write ==> PayloadFits(kind, OfferAll(head, opts, DATAGRAM_SIZE), a))
  }

  lemma HeadSize(kind: Kind, mid: u16, rnd: nat)
    ensures |Encode(RequestHead(kind, mid, rnd))| == HEADER_SIZE + 2
  {
  }

  /** The size of the intended request, counting the marker that a write puts
      in front of its value even if that is empty. */
  function RequestSize(kind: Kind, mid: u16, rnd: nat, a: Args): nat {
    var m := RequestHead(kind, mid, rnd).(options := RequestOptions(kind, a));
    InOrderValid(RequestHead(kind, mid, rnd), RequestOptions(kind, a));
    |Encode(m)| + (if kind == Write then 1 + |a.value| else 0)
  }

  /** A builder reports success exactly when the whole request fits a datagram.
      Then the buffer holds exactly the intended request, except that a write
      of an empty value leaves a packet that is not a CoAP message. */
  lemma RequestExact(kind: Kind, mid: u16, rnd: nat, a: Args)
    ensures RequestOk(kind, mid, rnd, a) <==> RequestSize(kind, mid, rnd, a) <= DATAGRAM_SIZE
    ensures RequestOk(kind, mid, rnd, a) ==>
              (Parse(RequestBytes(kind, mid, rnd, a)) == Some(WholeRequest(kind, mid, rnd, a))
               <==> (kind == Write ==> a.value != []))
    ensures RequestOk(kind, mid, rnd, a) && kind == Write && a.value == [] ==>
              !WellFormed(RequestBytes(kind, mid, rnd, a))
    ensures |RequestBytes(kind, mid, rnd, a)| <= DATAGRAM_SIZE
  {
    var head, opts := RequestHead(kind, mid, rnd), RequestOptions(kind, a);
    var m := OfferAll(head, opts, DATAGRAM_SIZE);
    assert m.payload == [] && HEADER_SIZE + 2 <= DATAGRAM_SIZE;
    BuilderParts(kind, mid, rnd, a);
    hide *;
    HeadSize(kind, mid, rnd);
    OfferAllExact(head, opts, DATAGRAM_SIZE);
    PayloadSetSize(m, a.value);
    PayloadParsed(m, a.value);
  }

  /** How a builder's result, packet and size come about. */
  lemma BuilderParts(kind: Kind, mid: u16, rnd: nat, a: Args)
    ensures var head, opts := RequestHead(kind, mid, rnd), RequestOptions(kind, a);
            var m, whole, fits := OfferAll(head, opts, DATAGRAM_SIZE), head.(options := opts), AllFit(head, opts, DATAGRAM_SIZE);
            var added := 1 + |a.value|;
            && ValidMessage(whole) && WholeRequest(kind, mid, rnd, a) == whole.(payload := if kind == Write then a.value else [])
            && (RequestOk(kind, mid, rnd, a) <==> fits && (kind == Write ==> |Encode(m)| + added <= DATAGRAM_SIZE))
            && RequestSize(kind, mid, rnd, a) == |Encode(whole)| + (if kind == Write then added else 0)
            && RequestBytes(kind, mid, rnd, a)
               == if kind == Write && |Encode(m)| + added <= DATAGRAM_SIZE then PayloadSet(m, a.value) else Encode(m)
  {
    hide Encode, OfferAll, AllFit, RequestOptions, RequestHead, PayloadSet, ValidMessage;
    InOrderValid(RequestHead(kind, mid, rnd), RequestOptions(kind, a));
  }

  /** What the packet means with the payload set, and without. */
  lemma PayloadParsed(m: Message, payload: seq<byte>)
    requires ValidMessage(m) && m.payload == []
    ensures Parse(Encode(m)) == Some(m)
    ensures Parse(PayloadSet(m, payload)) == Some(m.(payload := payload)) <==> payload != []
    ensures payload == [] ==> !WellFormed(PayloadSet(m, payload))
  {
    ParseOfEncode(m);
    PayloadSetMeaning(m, payload);
    EmptyPayloadMalformed(m);
    hide Encode, Parse, PayloadSet, ValidMessage;
  }

  lemma PayloadSetSize(m: Message, payload: seq<byte>)
    requires ValidMessage(m) && m.payload == []
    ensures |PayloadSet(m, payload)| == |Encode(m)| + 1 + |payload|
  {
    assert m.(payload := []) == m;
  }

  // --------------------------------------------------------- retransmission

  /** Everything behind the token. */
  function RequestTail(kind: Kind, a: Args): seq<byte> {
    RequestLength(kind, 0, 0, a);
    RequestBytes(kind, 0, 0, a)[HEADER_SIZE + 2..]
  }

  lemma RequestLength(kind: Kind, mid: u16, rnd: nat, a: Args)
    ensures |RequestBytes(kind, mid, rnd, a)| >= HEADER_SIZE + 2
  {
    var m := OfferAll(RequestHead(kind, mid, rnd), RequestOptions(kind, a), DATAGRAM_SIZE);
    PayloadSetSize(m, a.value);
    hide OfferAll, RequestOptions, PayloadSet;
  }

  /** Which options fit depends only on sizes, not on message id or token. */
  lemma {:induction false} OfferAllOptions(m: Message, m': Message, opts: seq<Opt>, max: nat)
    requires ValidMessage(m) && m.options == [] && InOrder(opts)
    requires ValidMessage(m') && m'.options == [] && |m'.token| == |m.token| && m'.payload == m.payload
    ensures OfferAll(m, opts, max).options == OfferAll(m', opts, max).options
    decreases |opts|
  {
    if opts != [] {
      var n := |opts| - 1;
      OfferAllOptions(m, m', opts[..n], max);
      var a, b := OfferAll(m, opts[..n], max), OfferAll(m', opts[..n], max);
      AppendValid(a, opts[n]);
      AppendValid(b, opts[n]);
      SameSize(a.(options := a.options + [opts[n]]), b.(options := b.options + [opts[n]]));
      hide Encode, ValidMessage, LastNum;
    }
  }

  lemma SameSize(m: Message, m': Message)
    requires ValidMessage(m) && ValidMessage(m') && |m.token| == |m'.token|
    requires m.options == m'.options && m.payload == m'.payload
    ensures |Encode(m)| == |Encode(m')|
  {
  }

  /** A request is its header, its token, and a tail that neither the message id
      nor the token influences. */
  lemma RequestLayout(kind: Kind, mid: u16, rnd: nat, a: Args)
    ensures RequestBytes(kind, mid, rnd, a)
            == Header(RequestHead(kind, mid, rnd)) + LittleEndian(rnd, 2) + RequestTail(kind, a)
  {
    RequestParts(kind, mid, rnd, a);
    RequestParts(kind, 0, 0, a);
    OfferAllOptions(RequestHead(kind, mid, rnd), RequestHead(kind, 0, 0), RequestOptions(kind, a), DATAGRAM_SIZE);
    SameSize(OfferAll(RequestHead(kind, mid, rnd), RequestOptions(kind, a), DATAGRAM_SIZE),
             OfferAll(RequestHead(kind, 0, 0), RequestOptions(kind, a), DATAGRAM_SIZE));
    hide RequestBytes, OfferAll, RequestOptions, Header, LittleEndian, Encode;
    Seqs.Split(Header(RequestHead(kind, 0, 0)) + LittleEndian(0, 2), RequestRest(kind, 0, 0, a));
  }

  /** The bytes behind the token, from the options that were added. */
  function RequestRest(kind: Kind, mid: u16, rnd: nat, a: Args): seq<byte> {
    var m := OfferAll(RequestHead(kind, mid, rnd), RequestOptions(kind, a), DATAGRAM_SIZE);
    EncodeOptions(0, m.options) + (if PayloadFits(kind, m, a) then [PAYLOAD_MARKER] + a.value else [])
  }

  lemma RequestParts(kind: Kind, mid: u16, rnd: nat, a: Args)
    ensures RequestBytes(kind, mid, rnd, a)
            == Header(RequestHead(kind, mid, rnd)) + LittleEndian(rnd, 2) + RequestRest(kind, mid, rnd, a)
  {
    hide OfferAll, RequestOptions, EncodeOptions, LittleEndian, Sorted;
    var head := RequestHead(kind, mid, rnd);
    var m := OfferAll(head, RequestOptions(kind, a), DATAGRAM_SIZE);
    var h, t, e := Header(head), LittleEndian(rnd, 2), EncodeOptions(0, m.options);
    assert m.(payload := []) == m;
    assert Encode(m) == h + t + e + [];
    hide Header;
    if PayloadFits(kind, m, a) {
      assert PayloadSet(m, a.value) == (h + t + e) + [PAYLOAD_MARKER] + a.value;
      Seqs.Assoc(h + t + e, [PAYLOAD_MARKER], a.value);
      Seqs.Assoc(h + t, e, [PAYLOAD_MARKER] + a.value);
    }
  }

  function WithMid(s: seq<byte>, mid: u16): (r: seq<byte>)
    requires |s| >= HEADER_SIZE
    ensures |r| == |s| && r[0] == s[0]
  {
    s[2 := (mid / 256) as byte][3 := (mid % 256) as byte]
  }

  /** The message id and the token value that a request's bytes carry. */
  lemma RequestFields(kind: Kind, mid: u16, rnd: nat, a: Args)
    ensures var s := RequestBytes(kind, mid, rnd, a);
            && HEADER_SIZE + 2 <= |s| <= DATAGRAM_SIZE
            && s[0] == 64 + 2 && s[0] as int % 16 == 2
            && s[1] == RequestHead(kind, mid, rnd).code
            && s[2] as int == mid / 256 && s[3] as int == mid % 256 && 256 * s[2] as int + s[3] as int == mid
            && s[HEADER_SIZE..HEADER_SIZE + 2] == LittleEndian(rnd, 2)
            && s[HEADER_SIZE + 2..] == RequestTail(kind, a)
            && LittleEndianValue(s[HEADER_SIZE..HEADER_SIZE + 2]) == rnd % 0x1_0000
  {
    RequestLayout(kind, mid, rnd, a);
    RequestExact(kind, mid, rnd, a);
    RequestLength(kind, mid, rnd, a);
    hide RequestBytes, RequestTail;
    var h := Header(RequestHead(kind, mid, rnd));
    Seqs.Split3(h, LittleEndian(rnd, 2), RequestTail(kind, a));
    var s := RequestBytes(kind, mid, rnd, a);
    assert forall i :: 0 <= i < HEADER_SIZE ==> s[..HEADER_SIZE][i] == h[i];
    LittleEndianRoundTrip(rnd, 2);
    assert Pow256(2) == 0x1_0000;
  }

  /** A retransmission: the request is built anew, which draws a fresh message
      id and token, and these are then overwritten by the stored ones. */
  function RetransmitBytes(kind: Kind, counter: u16, rnd: nat, a: Args, mid: u16, token: nat, tkl: nat): seq<byte> {
    RequestFields(kind, counter, rnd, a);
    var s := WithMid(RequestBytes(kind, counter, rnd, a), mid);
    if tkl <= MAX_TOKEN && |s| - 2 + tkl <= DATAGRAM_SIZE then Retoken(s, token, tkl) else s
  }

  /** Building anew and overwriting the message id and the token is the same as
      replacing the token of the original. */
  lemma RetransmitIsRetoken(kind: Kind, mid: u16, rnd: nat, counter: u16, rnd': nat, a: Args, token: nat, tkl: nat)
    requires tkl <= MAX_TOKEN && |RequestBytes(kind, mid, rnd, a)| - 2 + tkl <= DATAGRAM_SIZE
    ensures var orig := RequestBytes(kind, mid, rnd, a);
            && |orig| >= HEADER_SIZE + 2 && orig[0] as int % 16 == 2
            && RetransmitBytes(kind, counter, rnd', a, mid, token, tkl) == Retoken(orig, token, tkl)
  {
    RequestFields(kind, mid, rnd, a);
    RequestFields(kind, counter, rnd', a);
    hide RequestBytes, RequestTail, LittleEndian;
    var orig, s := RequestBytes(kind, mid, rnd, a), RequestBytes(kind, counter, rnd', a);
    assert |orig| == |s| by {
      assert |orig[HEADER_SIZE + 2..]| == |s[HEADER_SIZE + 2..]|;
    }
    var w := WithMid(s, mid);
    assert w[1..HEADER_SIZE] == [w[1], w[2], w[3]] == orig[1..HEADER_SIZE];
    assert w[HEADER_SIZE + 2..] == s[HEADER_SIZE + 2..];
  }

  lemma LittleEndianMod(v: nat)
    ensures LittleEndian(v % 0x1_0000, 2) == LittleEndian(v, 2)
  {
    var w := v % 0x1_0000;
    TwoBytes(v);
    TwoBytes(w);
    ModSplit(v, 256);
    hide LittleEndian;
    assert w % 256 == v % 256 && w / 256 == v / 256 % 256;
  }

  lemma TwoBytes(v: nat)
    ensures LittleEndian(v, 2) == [(v % 256) as byte, (v / 256 % 256) as byte]
  {
    assert LittleEndian(v / 256, 1) == [(v / 256 % 256) as byte] + [];
  }

  /** A retransmission means the original request with its token cut or padded
      to tkl bytes; it is the original, byte for byte, exactly when tkl is the
      two bytes that the first transmission used. */
  lemma RetransmitAgrees(kind: Kind, mid: u16, rnd: nat, counter: u16, rnd': nat, a: Args, tkl: nat)
    requires tkl <= MAX_TOKEN && |RequestBytes(kind, mid, rnd, a)| - 2 + tkl <= DATAGRAM_SIZE
    ensures var orig := RequestBytes(kind, mid, rnd, a);
            var token := rnd % 0x1_0000;
            var again := RetransmitBytes(kind, counter, rnd', a, mid, token, tkl);
            && (again == orig <==> tkl == 2)
            && (WellFormed(orig) ==>
                  Parse(again) == Some(Parse(orig).value.(token := LittleEndian(token, tkl))))
  {
    var orig, token := RequestBytes(kind, mid, rnd, a), rnd % 0x1_0000;
    RequestFields(kind, mid, rnd, a);
    RetransmitIsRetoken(kind, mid, rnd, counter, rnd', a, token, tkl);
    LittleEndianMod(rnd);
    if WellFormed(orig) {
      EncodeOfParse(orig);
      RetokenMeaning(orig, Parse(orig).value, token, tkl);
      ParseOfEncode(Parse(orig).value.(token := LittleEndian(token, tkl)));
    }
    hide RequestBytes, RetransmitBytes, RequestTail, Parse, Encode, LittleEndian;
    if tkl == 2 {
      RetokenSame(orig, token);
    }
  }

  lemma RetokenSame(s: seq<byte>, token: nat)
    requires |s| >= HEADER_SIZE + 2 && s[0] as int % 16 == 2 && s[HEADER_SIZE..HEADER_SIZE + 2] == LittleEndian(token, 2)
    ensures Retoken(s, token, 2) == s
  {
    hide LittleEndian;
    assert s[0..1] == [s[0]];
    Seqs.Join(s, 0, 1, HEADER_SIZE);
    Seqs.Join(s, 0, HEADER_SIZE, HEADER_SIZE + 2);
    Seqs.Join(s, 0, HEADER_SIZE + 2, |s|);
  }
}

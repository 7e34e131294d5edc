/** What the requests say. Each is spelled out here number by number and byte by
    byte, apart from the way in which the builders put it together. */
module RequestMeaning {
  import opened Bytes
  import opened CoapFormat
  import opened OptionCodec
  import opened Requests
  import opened RequestKey

  /** A string passed with a 16-bit length. */
  function Cut(s: seq<byte>): seq<byte> {
    s[..|s| % 65536]
  }

  /** The message of a request: a GET of dataport 1a/alias for a read, and with
      Observe 0 for a subscription; a POST of the value to it for a write; each
      with the device's key as query; and for an activation a POST to
      provision/activate/vendor/model/serial. */
  function Spelled(kind: Kind, mid: u16, token: seq<byte>, a: Args): Message {
    match kind
    case Read =>
      Message(0, 1, mid, token, [Opt(11, [0x31, 0x61]), Opt(11, Cut(a.alias)), Opt(15, a.cik)], [])
    case Subscribe =>
      Message(0, 1, mid, token, [Opt(6, [0]), Opt(11, [0x31, 0x61]), Opt(11, Cut(a.alias)), Opt(15, a.cik)], [])
    case Write =>
      Message(0, 2, mid, token, [Opt(11, [0x31, 0x61]), Opt(11, Cut(a.alias)), Opt(15, a.cik)], a.value)
    case Activate =>
      Message(0, 2, mid, token,
              [Opt(11, [0x70, 0x72, 0x6F, 0x76, 0x69, 0x73, 0x69, 0x6F, 0x6E]),
               Opt(11, [0x61, 0x63, 0x74, 0x69, 0x76, 0x61, 0x74, 0x65]),
               Opt(11, Cut(a.vendor)), Opt(11, Cut(a.model)), Opt(11, Cut(a.serial))], [])
    case NullOp => Message(0, 0, mid, token, [], [])
  }

  /** The two bytes of a token, low byte first. */
  function TokenBytes(rnd: nat): seq<byte> {
    [(rnd % 256) as byte, (rnd / 256 % 256) as byte]
  }

  /** The message with a two-byte token, and for a write the marker in front of
      its value, takes no more than 576 bytes. */
  predicate FitsDatagram(kind: Kind, a: Args) {
    var m := Spelled(kind, 0, [0, 0], a);
    ValidMessage(m) && |Encode(m)| + (if kind == Write && a.value == [] then 1 else 0) <= 576
  }

  lemma RootBytes()
    ensures Trunc16(Ascii("1a")) == [0x31, 0x61]
  {
    var s := Ascii("1a");
    assert |s| == 2 && s[0] == 0x31 && s[1] == 0x61;
  }

  lemma ActivationBytes()
    ensures Trunc16(Ascii("provision")) == [0x70, 0x72, 0x6F, 0x76, 0x69, 0x73, 0x69, 0x6F, 0x6E]
    ensures Trunc16(Ascii("activate")) == [0x61, 0x63, 0x74, 0x69, 0x76, 0x61, 0x74, 0x65]
  {
    var p, a := Ascii("provision"), Ascii("activate");
    assert |p| == 9 && |a| == 8;
    assert p[0] == 0x70 && p[1] == 0x72 && p[2] == 0x6F && p[3] == 0x76 && p[4] == 0x69 && p[5] == 0x73;
    assert p[6] == 0x69 && p[7] == 0x6F && p[8] == 0x6E;
    assert a[0] == 0x61 && a[1] == 0x63 && a[2] == 0x74 && a[3] == 0x69 && a[4] == 0x76 && a[5] == 0x61;
    assert a[6] == 0x74 && a[7] == 0x65;
  }

  lemma CutIs(s: seq<byte>)
    ensures Trunc16(s) == Cut(s)
    ensures |s| == CIK_LENGTH ==> Trunc16(s) == s
  {
  }

  /** The intended request is that message. */
  lemma WholeIsSpelled(kind: Kind, mid: u16, rnd: nat, a: Args)
    requires kind != NullOp && |a.cik| == 40
    ensures WholeRequest(kind, mid, rnd, a) == Spelled(kind, mid, TokenBytes(rnd), a)
  {
    RootBytes();
    ActivationBytes();
    CutIs(a.alias);
    CutIs(a.cik);
    CutIs(a.vendor);
    CutIs(a.model);
    CutIs(a.serial);
    TwoBytes(rnd);
    hide Trunc16, Ascii, LittleEndian, Cut;
  }

  /** Its size does not depend on message id and token. */
  lemma SpelledSize(kind: Kind, mid: u16, rnd: nat, a: Args)
    requires kind != NullOp && |a.cik| == 40
    ensures ValidMessage(Spelled(kind, mid, TokenBytes(rnd), a))
    ensures FitsDatagram(kind, a) <==> RequestSize(kind, mid, rnd, a) <= DATAGRAM_SIZE
  {
    var m, m0 := WholeRequest(kind, mid, rnd, a), WholeRequest(kind, 0, 0, a);
    WholeIsSpelled(kind, mid, rnd, a);
    WholeIsSpelled(kind, 0, 0, a);
    assert TokenBytes(0) == [0, 0];
    var head, opts := RequestHead(kind, mid, rnd), RequestOptions(kind, a);
    InOrderValid(head, opts);
    InOrderValid(RequestHead(kind, 0, 0), opts);
    assert m0.options == m.options == opts && m0.payload == m.payload && |m0.token| == |m.token| == 2;
    PayloadSize(head.(options := opts), m.payload);
    PayloadSize(RequestHead(kind, 0, 0).(options := opts), m.payload);
    assert m == head.(options := opts).(payload := m.payload);
    assert m0 == RequestHead(kind, 0, 0).(options := opts).(payload := m.payload);
    SameSize(m, m0);
    hide Encode, ValidMessage, Spelled, TokenBytes, RequestOptions, RequestHead;
  }

  lemma PayloadSize(m: Message, payload: seq<byte>)
    requires ValidMessage(m) && m.payload == []
    ensures ValidMessage(m.(payload := payload))
    ensures |Encode(m.(payload := payload))| == |Encode(m)| + (if payload == [] then 0 else 1 + |payload|)
  {
  }

  /** What a path option of this content takes: its bytes, and those that its
      length needs beyond the first byte of the header. */
  function Weight(s: seq<byte>): nat {
    var n := |s| % 65536;
    n + (if n < 13 then 0 else if n < 269 then 1 else 2)
  }

  /** How long the strings may be: for an alias alone up to 522 bytes in a read
      and 520 in a subscription. */
  lemma RoomNeeded(kind: Kind, a: Args)
    requires kind != NullOp && |a.cik| == 40
    ensures FitsDatagram(kind, a) <==>
              match kind
              case Read => Weight(a.alias) <= 524
              case Subscribe => Weight(a.alias) <= 522
              case Write => Weight(a.alias) + |a.value| <= 523
              case _ => Weight(a.vendor) + Weight(a.model) + Weight(a.serial) <= 548
    ensures Weight(a.alias) <= 524 <==> |a.alias| % 65536 <= 522
  {
    var m := Spelled(kind, 0, [0, 0], a);
    SpelledSize(kind, 0, 0, a);
    assert TokenBytes(0) == [0, 0];
    MessageSize(m);
    SpelledOptions(kind, a);
    CutSize(a.alias);
    hide Encode, Room, Cut;
  }

  /** The bytes that options take, their numbers counted from prev. */
  function Room(prev: nat, opts: seq<Opt>): nat
    decreases opts
  {
    if opts == [] then 0
    else
      var delta := if prev <= opts[0].num then opts[0].num - prev else 0;
      HeaderLen(delta, |opts[0].value|) + |opts[0].value| + Room(opts[0].num, opts[1..])
  }

  lemma {:induction false} OptionsSize(prev: nat, opts: seq<Opt>)
    requires Sorted(prev, opts)
    ensures |EncodeOptions(prev, opts)| == Room(prev, opts)
    decreases opts
  {
    if opts != [] {
      OptionsSize(opts[0].num, opts[1..]);
    }
  }

  lemma MessageSize(m: Message)
    requires ValidMessage(m)
    ensures |Encode(m)| == 4 + |m.token| + Room(0, m.options) + (if m.payload == [] then 0 else 1 + |m.payload|)
  {
    OptionsSize(0, m.options);
  }

  lemma CutSize(s: seq<byte>)
    ensures Weight(s) <= 524 <==> |s| % 65536 <= 522
  {
  }

  /** A path option behind another one. */
  lemma PathRoom(s: seq<byte>, rest: seq<Opt>)
    ensures Room(11, [Opt(11, Cut(s))] + rest) == 1 + Weight(s) + Room(11, rest)
  {
    var opts := [Opt(11, Cut(s))] + rest;
    assert opts[1..] == rest;
    assert |Cut(s)| == |s| % 65536;
  }

  lemma DataportRoom(prev: nat, a: Args)
    requires prev <= 6 && |a.cik| == 40
    ensures Room(prev, [Opt(11, [0x31, 0x61]), Opt(11, Cut(a.alias)), Opt(15, a.cik)]) == 46 + Weight(a.alias)
  {
    var root, path, query := Opt(11, [0x31, 0x61]), Opt(11, Cut(a.alias)), Opt(15, a.cik);
    assert [root, path, query] == [root] + ([path] + [query]);
    assert ([root] + ([path] + [query]))[1..] == [path] + [query];
    PathRoom(a.alias, [query]);
    assert Room(15, [query][1..]) == 0;
    assert Room(11, [query]) == 42;
  }

  lemma SpelledOptions(kind: Kind, a: Args)
    requires kind != NullOp && |a.cik| == 40
    ensures Room(0, Spelled(kind, 0, [0, 0], a).options)
            == match kind
               case Subscribe => 48 + Weight(a.alias)
               case Activate => 22 + Weight(a.vendor) + Weight(a.model) + Weight(a.serial)
               case _ => 46 + Weight(a.alias)
  {
    var opts := Spelled(kind, 0, [0, 0], a).options;
    match kind
    case Subscribe =>
      DataportRoom(6, a);
      assert opts[1..] == [Opt(11, [0x31, 0x61]), Opt(11, Cut(a.alias)), Opt(15, a.cik)];
      hide Weight, Cut;
    case Activate =>
      ActivationRoom(a);
    case Read | Write =>
      DataportRoom(0, a);
  }

  lemma ActivationRoom(a: Args)
    ensures Room(0, Spelled(Activate, 0, [0, 0], a).options) == 22 + Weight(a.vendor) + Weight(a.model) + Weight(a.serial)
  {
    var opts := Spelled(Activate, 0, [0, 0], a).options;
    var v, m, n := Opt(11, Cut(a.vendor)), Opt(11, Cut(a.model)), Opt(11, Cut(a.serial));
    PathRoom(a.vendor, [m] + [n]);
    PathRoom(a.model, [n]);
    PathRoom(a.serial, []);
    assert [n] + [] == [n] && Room(11, []) == 0;
    assert opts[1..][1..] == [v] + ([m] + [n]);
    hide Weight, Cut;
  }

  /** A request that fits parses to the message spelled out, whatever the message
      id, token and operation; only a write of an empty value does not, which
      leaves a lone marker. The builder reports success exactly for requests
      that fit. */
  lemma RequestSays(kind: Kind, mid: u16, rnd: nat, a: Args)
    requires kind != NullOp && |a.cik| == 40
    ensures RequestOk(kind, mid, rnd, a) <==> FitsDatagram(kind, a)
    ensures FitsDatagram(kind, a) && (kind == Write ==> a.value != []) ==>
              Parse(RequestBytes(kind, mid, rnd, a)) == Some(Spelled(kind, mid, TokenBytes(rnd), a))
    ensures FitsDatagram(kind, a) && kind == Write && a.value == [] ==> !WellFormed(RequestBytes(kind, mid, rnd, a))
  {
    hide *;
    WholeIsSpelled(kind, mid, rnd, a);
    SpelledSize(kind, mid, rnd, a);
    RequestExact(kind, mid, rnd, a);
  }

  /** The same of what is left of it when it is sent again without its token. */
  lemma UntokenedSays(kind: Kind, mid: u16, rnd: nat, a: Args)
    requires kind != NullOp && |a.cik| == 40 && FitsDatagram(kind, a) && (kind == Write ==> a.value != [])
    ensures var s := RequestBytes(kind, mid, rnd, a);
            && |s| >= HEADER_SIZE + 2 && s[0] as int % 16 == 2
            && Parse(Untokened(s)) == Some(Spelled(kind, mid, [], a))
  {
    var s := RequestBytes(kind, mid, rnd, a);
    assert Spelled(kind, mid, TokenBytes(rnd), a).(token := []) == Spelled(kind, mid, [], a);
    hide *;
    RequestSays(kind, mid, rnd, a);
    UntokenedRequest(kind, mid, rnd, a, 0);
    Parsed(s, Spelled(kind, mid, TokenBytes(rnd), a));
    UntokenedMeaning(s, Untokened(s));
  }

  lemma Parsed(s: seq<byte>, m: Message)
    requires Parse(s) == Some(m)
    ensures WellFormed(s)
  {
    hide Parse;
  }
}

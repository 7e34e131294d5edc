/** What the device's key contributes to a request: the query option at the end
    of the option list, if that still fits. */
module RequestKey {
  import opened Bytes
  import opened CoapFormat
  import opened OptionCodec
  import opened MessageEdits
  import opened Requests
  import Seqs

  /** A dataport's alias leaves no room for the key: it is itself just short
      enough to be sent. */
  predicate CrowdsOut(alias: seq<byte>) {
    523 <= |alias| % 0x1_0000 <= 564
  }

  /** The request after its two path options. */
  function PathsOffered(kind: Kind, a: Args): (m: Message)
    ensures ValidMessage(m) && m.payload == [] && LastNum(0, m.options) <= URI_PATH
  {
    OfferAll(RequestHead(kind, 0, 0), [Path(Ascii("1a")), Path(a.alias)], DATAGRAM_SIZE)
  }

  function Query(a: Args): Opt {
    Opt(URI_QUERY, Trunc16(a.cik))
  }

  lemma AppendBytes(m: Message, o: Opt)
    requires Appendable(m, o) && m.payload == []
    ensures Sorted(0, m.options) && Sorted(0, m.options + [o])
    ensures EncodeOptions(0, m.options + [o]) == EncodeOptions(0, m.options) + EncodeOption(LastNum(0, m.options), o)
    ensures ValidMessage(m.(options := m.options + [o]))
    ensures |Encode(m.(options := m.options + [o]))| == |Encode(m)| + HeaderLen(o.num - LastNum(0, m.options), |o.value|) + |o.value|
  {
    SortedSplit(0, m.options, [o]);
    EncodeOptionsSplit(0, m.options, [o]);
    assert EncodeOptions(LastNum(0, m.options), [o]) == EncodeOption(LastNum(0, m.options), o) + [];
  }

  /** The last option is the query, offered behind the paths. */
  lemma QueryLast(kind: Kind, a: Args)
    requires kind == Read || kind == Write
    ensures Appendable(PathsOffered(kind, a), Query(a))
    ensures OfferAll(RequestHead(kind, 0, 0), RequestOptions(kind, a), DATAGRAM_SIZE)
            == Offer(PathsOffered(kind, a), Query(a), DATAGRAM_SIZE)
  {
    hide Offer, Trunc16, Ascii, LastNum;
    var opts := RequestOptions(kind, a);
    assert opts[..2] == [Path(Ascii("1a")), Path(a.alias)];
    assert opts[2] == Query(a);
  }

  lemma RootPath()
    ensures Path(Ascii("1a")).num == URI_PATH && |Path(Ascii("1a")).value| == 2 && HeaderLen(URI_PATH, 2) == 1
  {
  }

  lemma RootOffered(kind: Kind)
    ensures var head, root := RequestHead(kind, 0, 0), Path(Ascii("1a"));
            var m := head.(options := [root]);
            && ValidMessage(m) && |Encode(m)| == 9
            && OfferAll(head, [root], DATAGRAM_SIZE) == m
  {
    var head, root := RequestHead(kind, 0, 0), Path(Ascii("1a"));
    RootPath();
    HeadSize(kind, 0, 0);
    hide Path, Ascii, Trunc16, Encode, RequestHead;
    HeadPlain(kind);
    AppendBytes(head, root);
    assert head.options + [root] == [root] && [root][..0] == [];
    assert OfferAll(head, [], DATAGRAM_SIZE) == head;
  }

  lemma HeadPlain(kind: Kind)
    ensures var head := RequestHead(kind, 0, 0);
            head.options == [] && head.payload == [] && LastNum(0, head.options) == 0 && ValidMessage(head)
  {
  }

  /** The paths as offered: the alias is left out if it does not fit itself. */
  lemma PathsSize(kind: Kind, a: Args)
    ensures var m, n := PathsOffered(kind, a), |Trunc16(a.alias)|;
            && LastNum(0, m.options) == URI_PATH
            && |Encode(m)| == 9 + (if 9 + HeaderLen(0, n) + n <= DATAGRAM_SIZE then HeaderLen(0, n) + n else 0)
  {
    var head, one, two := RequestHead(kind, 0, 0), Path(Ascii("1a")), Path(a.alias);
    var m, opts, n := head.(options := [one]), [Path(Ascii("1a")), Path(a.alias)], |Trunc16(a.alias)|;
    assert two.num == one.num == URI_PATH && |two.value| == n && m.payload == [];
    assert InOrder(opts) && InOrder(opts[..1]);
    assert LastNum(0, [one]) == LastNum(0, [one] + [two]) == URI_PATH;
    assert PathsOffered(kind, a) == OfferAll(head, opts, DATAGRAM_SIZE) && head.options == [] && ValidMessage(head);
    hide *;
    assert opts[..1] == [one] && opts[1] == two;
    RootOffered(kind);
    OfferLast(head, opts, DATAGRAM_SIZE);
    PathAppends(m, two);
    AppendBytes(m, two);
  }

  lemma PathAppends(m: Message, o: Opt)
    requires ValidMessage(m) && LastNum(0, m.options) <= o.num < 0x1_0000 && |o.value| < 0x1_0000
    ensures Appendable(m, o)
  {
  }

  /** Which lengths of the alias leave no room for the key. */
  lemma KeyRoom(n: nat)
    ensures var size := 9 + (if 9 + HeaderLen(0, n) + n <= DATAGRAM_SIZE then HeaderLen(0, n) + n else 0);
            size + HeaderLen(4, CIK_LENGTH) + CIK_LENGTH <= DATAGRAM_SIZE <==> !(523 <= n <= 564)
  {
  }

  lemma TruncSize(s: seq<byte>)
    ensures |Trunc16(s)| == |s| % 0x1_0000
  {
  }

  /** A key of 40 bytes is sent along unless the alias crowds it out. */
  lemma KeySent(kind: Kind, a: Args)
    requires (kind == Read || kind == Write) && |a.cik| == CIK_LENGTH
    ensures var m := PathsOffered(kind, a);
            && Appendable(m, Query(a)) && ValidMessage(m.(options := m.options + [Query(a)]))
            && (Fits(m, Query(a), DATAGRAM_SIZE) <==> !CrowdsOut(a.alias))
  {
    var m, n := PathsOffered(kind, a), |Trunc16(a.alias)|;
    QueryIs(a);
    TruncSize(a.alias);
    assert CrowdsOut(a.alias) <==> 523 <= n <= 564;
    hide PathsOffered, Encode, EncodeOptions, Appendable, ValidMessage, HeaderLen, Trunc16, Query, CrowdsOut;
    PathsSize(kind, a);
    QueryLast(kind, a);
    AppendBytes(m, Query(a));
    KeyRoom(n);
  }

  lemma QueryIs(a: Args)
    requires |a.cik| == CIK_LENGTH
    ensures Query(a) == Opt(URI_QUERY, a.cik)
  {
  }

  lemma TailIsRest(kind: Kind, a: Args)
    ensures RequestTail(kind, a) == RequestRest(kind, 0, 0, a)
  {
    RequestLength(kind, 0, 0, a);
    RequestParts(kind, 0, 0, a);
    hide RequestBytes, RequestRest, Header, LittleEndian;
    Seqs.Split(Header(RequestHead(kind, 0, 0)) + LittleEndian(0, 2), RequestRest(kind, 0, 0, a));
  }

  /** Options, and payload if it fits, of a request that carries its key. */
  lemma RestWithKey(kind: Kind, a: Args)
    requires (kind == Read || kind == Write) && |a.cik| == CIK_LENGTH && !CrowdsOut(a.alias)
    ensures var m := PathsOffered(kind, a);
            var size := |Encode(m)| + HeaderLen(4, CIK_LENGTH) + CIK_LENGTH;
            RequestRest(kind, 0, 0, a)
            == EncodeOptions(0, m.options) + (OptionHeader(4, CIK_LENGTH) + a.cik)
               + (if kind == Write && size + 1 + |a.value| <= DATAGRAM_SIZE then [PAYLOAD_MARKER] + a.value else [])
  {
    KeySent(kind, a);
    QueryLast(kind, a);
    PathsSize(kind, a);
    var m := PathsOffered(kind, a);
    assert Trunc16(a.cik) == a.cik;
    AppendBytes(m, Query(a));
    hide PathsOffered, Encode, EncodeOptions, OfferAll, RequestOptions, OptionHeader, HeaderLen, CrowdsOut, Trunc16;
  }

  lemma RestWithoutKey(kind: Kind, a: Args)
    requires (kind == Read || kind == Write) && |a.cik| == CIK_LENGTH && CrowdsOut(a.alias)
    ensures var m := PathsOffered(kind, a);
            RequestRest(kind, 0, 0, a)
            == EncodeOptions(0, m.options) + (if PayloadFits(kind, m, a) then [PAYLOAD_MARKER] + a.value else [])
  {
    KeySent(kind, a);
    QueryLast(kind, a);
    hide PathsOffered, Encode, EncodeOptions, OfferAll, RequestOptions, PayloadFits, CrowdsOut, Fits;
  }

  /** Two requests that differ only in their keys have the same bytes behind the
      token exactly if it is an activation, the keys are the same, or the alias
      crowds the key out. */
  lemma KeyInTail(kind: Kind, a: Args, key: seq<byte>)
    requires kind in {Read, Write, Activate} && |a.cik| == |key| == CIK_LENGTH
    ensures RequestTail(kind, a) == RequestTail(kind, a.(cik := key))
            <==> kind == Activate || a.cik == key || CrowdsOut(a.alias)
  {
    var b := a.(cik := key);
    TailIsRest(kind, a);
    TailIsRest(kind, b);
    if kind == Activate {
      assert RequestOptions(kind, a) == RequestOptions(kind, b);
    } else {
      assert PathsOffered(kind, a) == PathsOffered(kind, b);
      hide RequestTail, RequestRest, RequestOptions, PathsOffered, EncodeOptions, OptionHeader, Encode;
      if CrowdsOut(a.alias) {
        RestWithoutKey(kind, a);
        RestWithoutKey(kind, b);
      } else {
        RestWithKey(kind, a);
        RestWithKey(kind, b);
        var x, h := EncodeOptions(0, PathsOffered(kind, a).options), OptionHeader(4, CIK_LENGTH);
        var p := RequestRest(kind, 0, 0, a)[|x| + |h| + CIK_LENGTH..];
        SameMiddle(x, h, a.cik, key, p);
      }
    }
  }

  lemma SameMiddle(x: seq<byte>, h: seq<byte>, u: seq<byte>, v: seq<byte>, p: seq<byte>)
    requires |u| == |v|
    ensures x + (h + u) + p == x + (h + v) + p <==> u == v
  {
    if x + (h + u) + p == x + (h + v) + p {
      Seqs.Assoc(x, h, u);
      Seqs.Assoc(x, h, v);
      Seqs.Split3(x + h, u, p);
      Seqs.Split3(x + h, v, p);
    }
  }

  // --------------------------------------------- retransmission without token

  /** A request's bytes without its token. */
  function Untokened(s: seq<byte>): seq<byte>
    requires |s| >= HEADER_SIZE + 2 && s[0] as int % 16 == 2
  {
    Retoken(s, 0, 0)
  }

  /** The message id that a packet carries. */
  function MidOf(packet: seq<byte>): u16 {
    if |packet| >= HEADER_SIZE then 256 * packet[2] as int + packet[3] as int else 0
  }

  /** The value of the two token bytes behind a packet's header. */
  function TokenOf(packet: seq<byte>): nat {
    if |packet| >= 6 then packet[4] as int + 256 * packet[5] as int else 0
  }

  /** The header of a request without token. */
  function BareHead(kind: Kind, mid: u16): (h: seq<byte>)
    ensures |h| == HEADER_SIZE && h[0] as int % 16 == 0
  {
    [64, RequestHead(kind, mid, 0).code, (mid / 256) as byte, (mid % 256) as byte]
  }

  lemma BareMid(kind: Kind, mid: u16, tail: seq<byte>)
    ensures MidOf(BareHead(kind, mid) + tail) == mid
    ensures (BareHead(kind, mid) + tail)[0] as int % 16 == 0
  {
  }

  lemma RetokenNone(s: seq<byte>, token: nat)
    requires |s| >= HEADER_SIZE + 2 && s[0] == 66
    ensures Retoken(s, token, 0) == Untokened(s) == [64, s[1], s[2], s[3]] + s[HEADER_SIZE + 2..]
  {
    assert s[1..HEADER_SIZE] == [s[1], s[2], s[3]];
    assert LittleEndian(token, 0) == [];
    assert LittleEndian(0, 0) == [];
  }

  /** What is left of a request without its token. */
  lemma UntokenedRequest(kind: Kind, mid: u16, rnd: nat, a: Args, token: nat)
    ensures var s := RequestBytes(kind, mid, rnd, a);
            && HEADER_SIZE + 2 <= |s| <= DATAGRAM_SIZE && s[0] as int % 16 == 2
            && MidOf(s) == mid
            && Retoken(s, token, 0) == Untokened(s) == BareHead(kind, mid) + RequestTail(kind, a)
  {
    RequestFields(kind, mid, rnd, a);
    var s := RequestBytes(kind, mid, rnd, a);
    assert RequestHead(kind, mid, rnd).code == RequestHead(kind, mid, 0).code;
    hide RequestBytes, RequestTail, RequestHead, Retoken, Untokened, LittleEndian, LittleEndianValue;
    RetokenNone(s, token);
    assert [64, s[1], s[2], s[3]] == BareHead(kind, mid);
  }

  lemma BareRetransmit(kind: Kind, mid: u16, token: nat, a: Args, counter: u16, rnd: nat)
    ensures RetransmitBytes(kind, counter, rnd, a, mid, token, 0) == BareHead(kind, mid) + RequestTail(kind, a)
  {
    UntokenedRequest(kind, mid, token, a, token);
    RetransmitIsRetoken(kind, mid, token, counter, rnd, a, token, 0);
    hide *;
  }

  lemma SameHead(h: seq<byte>, s: seq<byte>, t: seq<byte>)
    ensures h + s == h + t <==> s == t
  {
    Seqs.Split(h, s);
    Seqs.Split(h, t);
  }

  /** A retransmission with a stored token length of 0, of a request first built
      with another key: the same message id, no token, and otherwise the
      original, byte for byte and in meaning, exactly if the key plays no part. */
  lemma RetransmitExact(kind: Kind, mid: u16, token: nat, a: Args, key: seq<byte>, counter: u16, rnd: nat)
    requires kind in {Read, Write, Activate} && |a.cik| == |key| == CIK_LENGTH
    ensures var orig := RequestBytes(kind, mid, token, a.(cik := key));
            var again := RetransmitBytes(kind, counter, rnd, a, mid, token, 0);
            var same := kind == Activate || a.cik == key || CrowdsOut(a.alias);
            && |orig| >= HEADER_SIZE + 2 && orig[0] as int % 16 == 2
            && |again| >= HEADER_SIZE && again[0] as int % 16 == 0
            && MidOf(again) == MidOf(orig) == mid
            && (again == Untokened(orig) <==> same)
            && (WellFormed(orig) ==> (Parse(again) == Some(Parse(orig).value.(token := [])) <==> same))
  {
    hide *;
    var b := a.(cik := key);
    var orig := RequestBytes(kind, mid, token, b);
    var again := BareHead(kind, mid) + RequestTail(kind, a);
    UntokenedRequest(kind, mid, token, b, 0);
    BareRetransmit(kind, mid, token, a, counter, rnd);
    BareMid(kind, mid, RequestTail(kind, a));
    SameHead(BareHead(kind, mid), RequestTail(kind, a), RequestTail(kind, b));
    KeyInTail(kind, a, key);
    if WellFormed(orig) {
      UntokenedMeaning(orig, again);
    }
  }

  lemma UntokenedMeaning(orig: seq<byte>, again: seq<byte>)
    requires WellFormed(orig) && |orig| >= HEADER_SIZE + 2 && orig[0] as int % 16 == 2
    ensures Parse(again) == Some(Parse(orig).value.(token := [])) <==> again == Untokened(orig)
  {
    var m := Parse(orig).value;
    RetokenMeaning(orig, m, 0, 0);
    assert LittleEndian(0, 0) == [];
    ParseOfEncode(m.(token := []));
    hide Parse, Retoken, Encode;
    if Parse(again) == Some(m.(token := [])) {
      EncodeOfParse(again);
    }
  }

  // -------------------------------------------------- which requests are messages

  /** A write of an empty value whose marker still fits. */
  predicate LoneMarker(kind: Kind, mid: u16, rnd: nat, a: Args) {
    a.value == [] && PayloadFits(kind, OfferAll(RequestHead(kind, mid, rnd), RequestOptions(kind, a), DATAGRAM_SIZE), a)
  }

  /** A request is a CoAP message unless it is such a write. */
  lemma RequestWellFormed(kind: Kind, mid: u16, rnd: nat, a: Args)
    ensures WellFormed(RequestBytes(kind, mid, rnd, a)) <==> !LoneMarker(kind, mid, rnd, a)
  {
    var m := OfferAll(RequestHead(kind, mid, rnd), RequestOptions(kind, a), DATAGRAM_SIZE);
    assert m.payload == [];
    hide OfferAll, RequestOptions, Encode, Parse, PayloadSet, ValidMessage, PayloadFits;
    ParseOfEncode(m);
    PayloadSetMeaning(m, a.value);
    EmptyPayloadMalformed(m);
  }

  lemma RetokenBefore(s: seq<byte>, x: seq<byte>)
    requires |s| >= HEADER_SIZE + 2 && s[0] as int % 16 == 2
    ensures Untokened(s + x) == Untokened(s) + x
  {
    assert (s + x)[1..HEADER_SIZE] == s[1..HEADER_SIZE];
    assert (s + x)[HEADER_SIZE + 2..] == s[HEADER_SIZE + 2..] + x;
  }

  /** Taking the token away from a request does not change whether it is one. */
  lemma UntokenedWellFormed(kind: Kind, mid: u16, rnd: nat, a: Args)
    ensures var s := RequestBytes(kind, mid, rnd, a);
            && |s| >= HEADER_SIZE + 2 && s[0] as int % 16 == 2
            && (WellFormed(Untokened(s)) <==> !LoneMarker(kind, mid, rnd, a))
  {
    var s := RequestBytes(kind, mid, rnd, a);
    hide RequestBytes, Parse, Untokened, LoneMarker;
    UntokenedRequest(kind, mid, rnd, a, 0);
    RequestWellFormed(kind, mid, rnd, a);
    if WellFormed(s) {
      UntokenedMeaning(s, Untokened(s));
    } else {
      MarkerUntokened(kind, mid, rnd, a);
    }
  }

  lemma MarkerUntokened(kind: Kind, mid: u16, rnd: nat, a: Args)
    requires LoneMarker(kind, mid, rnd, a)
    ensures var s := RequestBytes(kind, mid, rnd, a);
            |s| >= HEADER_SIZE + 2 && s[0] as int % 16 == 2 && !WellFormed(Untokened(s))
  {
    var m := OfferAll(RequestHead(kind, mid, rnd), RequestOptions(kind, a), DATAGRAM_SIZE);
    assert m.payload == [] && |m.token| == 2;
    assert RequestBytes(kind, mid, rnd, a) == PayloadSet(m, []);
    hide *;
    MarkerAlone(m);
  }

  lemma MarkerAlone(m: Message)
    requires ValidMessage(m) && m.payload == [] && |m.token| == 2
    ensures var s := PayloadSet(m, []);
            |s| >= HEADER_SIZE + 2 && s[0] as int % 16 == 2 && !WellFormed(Untokened(s))
  {
    hide *;
    EncodedToken(m);
    MarkerSet(m);
    MarkerSet(m.(token := []));
    RetokenBefore(Encode(m), [PAYLOAD_MARKER]);
    EmptyPayloadMalformed(m.(token := []));
  }

  lemma MarkerSet(m: Message)
    requires ValidMessage(m) && m.payload == []
    ensures PayloadSet(m, []) == Encode(m) + [PAYLOAD_MARKER]
    ensures |PayloadSet(m, [])| == |Encode(m)| + 1 && PayloadSet(m, [])[0] == Encode(m)[0]
  {
    assert m.(payload := []) == m;
    hide Encode;
  }

  lemma EncodedToken(m: Message)
    requires ValidMessage(m) && |m.token| == 2
    ensures ValidMessage(m.(token := [])) && |Encode(m)| >= HEADER_SIZE + 2 && Encode(m)[0] as int % 16 == 2
    ensures Untokened(Encode(m)) == Encode(m.(token := []))
  {
    EncodeLayout(m);
    HeaderFields(m);
    ParseOfEncode(m);
    assert LittleEndian(0, 0) == [];
    hide Encode, Parse, Header, ValidMessage;
    RetokenMeaning(Encode(m), m, 0, 0);
  }
}

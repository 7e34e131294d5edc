/** The message builders of src/exosite.c: each runs the packet setters one
    after the other and reports whether all of them succeeded. */
module RequestBuilder {
  import opened Bytes
  import opened CoapFormat
  import opened OptionCodec
  import opened MessageEdits
  import opened PduEdits
  import opened CoapPdu
  import opened Requests

  /** Starts a request: confirmable, with a code, a message id and a two-byte
      token. */
  method BuildHead(pdu: Pdu, kind: Kind, mid: u16, rnd: nat)
    requires pdu.buf.Length == DATAGRAM_SIZE
    modifies pdu`len, pdu.buf
    ensures pdu.Valid() && pdu.Msg() == RequestHead(kind, mid, rnd)
  {
    hide Encode, Parse, ValidMessage, LittleEndian;
    HeadSize(kind, mid, rnd);
    var _ := pdu.InitPdu();
    var _ := pdu.SetVersion(1);
    var _ := pdu.SetType(CON);
    var _ := pdu.SetCode(if kind == Read || kind == Subscribe then GET else POST);
    var _ := pdu.SetMid(mid);
    var _ := pdu.SetToken(rnd, 2);
  }

  /** Adds the k-th option of a request if it still fits. */
  method AddNext(pdu: Pdu, num: u16, value: seq<byte>, ghost head: Message, ghost opts: seq<Opt>, ghost k: nat)
    returns (ok: bool)
    requires pdu.buf.Length == DATAGRAM_SIZE && pdu.Valid()
    requires ValidMessage(head) && head.options == [] && InOrder(opts)
    requires k < |opts| && opts[k] == Opt(num, Trunc16(value))
    requires pdu.Msg() == OfferAll(head, opts[..k], DATAGRAM_SIZE)
    modifies pdu`len, pdu.buf
    ensures pdu.Valid() && pdu.Msg() == OfferAll(head, opts[..k + 1], DATAGRAM_SIZE)
    ensures AllFit(head, opts[..k + 1], DATAGRAM_SIZE) <==> AllFit(head, opts[..k], DATAGRAM_SIZE) && ok
  {
    OfferNext(head, opts, k, DATAGRAM_SIZE);
    hide *;
    var r := pdu.AddOption(num, Trunc16(value));
    ok := r == NoError;
    if !ok {
      assert pdu.buf[..pdu.len] == old(pdu.buf[..pdu.len]);
      Unchanged(old(pdu.buf[..pdu.len]), pdu, old(pdu.Msg()));
    }
  }

  /** A packet whose bytes are the same means the same. */
  lemma Unchanged(s: seq<byte>, pdu: Pdu, m: Message)
    requires Parse(s) == Some(m) && pdu.len <= pdu.buf.Length && pdu.buf[..pdu.len] == s
    ensures pdu.Valid() && pdu.Msg() == m
  {
  }

  lemma OfferNext(head: Message, opts: seq<Opt>, k: nat, max: nat)
    requires ValidMessage(head) && head.options == [] && InOrder(opts) && k < |opts|
    ensures var m, o := OfferAll(head, opts[..k], max), opts[k];
            var m' := m.(options := Insert(m.options, o));
            && Insertable(m, o.num) && Following(m, o.num) == 0 && ValidMessage(m')
            && OfferAll(head, opts[..k + 1], max) == (if |Encode(m')| <= max then m' else m)
            && (AllFit(head, opts[..k + 1], max) <==> AllFit(head, opts[..k], max) && |Encode(m')| <= max)
  {
    assert opts[..k + 1][..k] == opts[..k];
    assert opts[..k + 1][k] == opts[k];
    AppendValid(OfferAll(head, opts[..k], max), opts[k]);
    hide Insert, Insertable, Encode, ValidMessage, Following;
  }

  /** The parts of a request that a builder works through. */
  lemma BuilderPlan(kind: Kind, mid: u16, rnd: nat, a: Args)
    ensures var head, opts := RequestHead(kind, mid, rnd), RequestOptions(kind, a);
            && head.options == [] && head.payload == [] && ValidMessage(head)
            && OfferAll(head, opts[..0], DATAGRAM_SIZE) == head && AllFit(head, opts[..0], DATAGRAM_SIZE)
            && opts[..|opts|] == opts
            && OfferAll(head, opts, DATAGRAM_SIZE).payload == []
            && (kind != Write ==>
                  && RequestBytes(kind, mid, rnd, a) == Encode(OfferAll(head, opts, DATAGRAM_SIZE))
                  && (RequestOk(kind, mid, rnd, a) <==> AllFit(head, opts, DATAGRAM_SIZE)))
  {
    hide Encode, RequestOptions;
  }

  lemma DataportOptions(kind: Kind, a: Args)
    requires kind == Read || kind == Write
    ensures var opts := RequestOptions(kind, a);
            && |opts| == 3 && opts[0] == Opt(URI_PATH, Trunc16(Ascii("1a")))
            && opts[1] == Opt(URI_PATH, Trunc16(a.alias)) && opts[2] == Opt(URI_QUERY, Trunc16(a.cik))
  {
    hide Trunc16, Ascii;
  }

  lemma ObserveOptions(a: Args)
    ensures var opts := RequestOptions(Subscribe, a);
            && |opts| == 4 && opts[0] == Opt(OBSERVE, Trunc16([0])) && opts[1] == Opt(URI_PATH, Trunc16(Ascii("1a")))
            && opts[2] == Opt(URI_PATH, Trunc16(a.alias)) && opts[3] == Opt(URI_QUERY, Trunc16(a.cik))
  {
    hide Trunc16, Ascii;
  }

  lemma ActivateOptions(a: Args)
    ensures var opts := RequestOptions(Activate, a);
            && |opts| == 5 && opts[0] == Opt(URI_PATH, Trunc16(Ascii("provision")))
            && opts[1] == Opt(URI_PATH, Trunc16(Ascii("activate"))) && opts[2] == Opt(URI_PATH, Trunc16(a.vendor))
            && opts[3] == Opt(URI_PATH, Trunc16(a.model)) && opts[4] == Opt(URI_PATH, Trunc16(a.serial))
  {
    hide Trunc16, Ascii;
  }

  /** Adds the three options that address a dataport, the k-th one first. */
  method AddDataport(pdu: Pdu, a: Args, ghost head: Message, ghost opts: seq<Opt>, ghost k: nat) returns (ok: bool)
    requires pdu.buf.Length == DATAGRAM_SIZE && pdu.Valid()
    requires ValidMessage(head) && head.options == [] && InOrder(opts) && |opts| == k + 3
    requires opts[k] == Opt(URI_PATH, Trunc16(Ascii("1a"))) && opts[k + 1] == Opt(URI_PATH, Trunc16(a.alias))
    requires opts[k + 2] == Opt(URI_QUERY, Trunc16(a.cik))
    requires pdu.Msg() == OfferAll(head, opts[..k], DATAGRAM_SIZE)
    modifies pdu`len, pdu.buf
    ensures pdu.Valid() && pdu.Msg() == OfferAll(head, opts, DATAGRAM_SIZE)
    ensures AllFit(head, opts, DATAGRAM_SIZE) <==> AllFit(head, opts[..k], DATAGRAM_SIZE) && ok
  {
    hide *;
    assert opts[..k + 3] == opts;
    var ok0 := AddNext(pdu, URI_PATH, Ascii("1a"), head, opts, k);
    var ok1 := AddNext(pdu, URI_PATH, a.alias, head, opts, k + 1);
    var ok2 := AddNext(pdu, URI_QUERY, a.cik, head, opts, k + 2);
    ok := ok0 && ok1 && ok2;
  }

  method BuildMsgRead(pdu: Pdu, mid: u16, rnd: nat, a: Args) returns (ok: bool)
    requires pdu.buf.Length == DATAGRAM_SIZE
    modifies pdu`len, pdu.buf
    ensures pdu.len <= pdu.buf.Length && pdu.buf[..pdu.len] == RequestBytes(Read, mid, rnd, a)
    ensures ok <==> RequestOk(Read, mid, rnd, a)
  {
    hide *;
    BuilderPlan(Read, mid, rnd, a);
    DataportOptions(Read, a);
    BuildHead(pdu, Read, mid, rnd);
    ok := AddDataport(pdu, a, RequestHead(Read, mid, rnd), RequestOptions(Read, a), 0);
    Finish(pdu);
  }

  /** The bytes of a valid packet are the encoding of its message. */
  lemma Finish(pdu: Pdu)
    requires pdu.Valid()
    ensures ValidMessage(pdu.Msg()) && pdu.len <= pdu.buf.Length && pdu.buf[..pdu.len] == Encode(pdu.Msg())
    ensures pdu.len == |Encode(pdu.Msg())|
  {
    pdu.Meaning();
  }

  method BuildMsgObserve(pdu: Pdu, mid: u16, rnd: nat, a: Args) returns (ok: bool)
    requires pdu.buf.Length == DATAGRAM_SIZE
    modifies pdu`len, pdu.buf
    ensures pdu.len <= pdu.buf.Length && pdu.buf[..pdu.len] == RequestBytes(Subscribe, mid, rnd, a)
    ensures ok <==> RequestOk(Subscribe, mid, rnd, a)
  {
    hide *;
    BuilderPlan(Subscribe, mid, rnd, a);
    ObserveOptions(a);
    ghost var head, opts := RequestHead(Subscribe, mid, rnd), RequestOptions(Subscribe, a);
    BuildHead(pdu, Subscribe, mid, rnd);
    var ok0 := AddNext(pdu, OBSERVE, [0], head, opts, 0);
    var ok1 := AddDataport(pdu, a, head, opts, 1);
    ok := ok0 && ok1;
    Finish(pdu);
  }

  method BuildMsgActivate(pdu: Pdu, mid: u16, rnd: nat, a: Args) returns (ok: bool)
    requires pdu.buf.Length == DATAGRAM_SIZE
    modifies pdu`len, pdu.buf
    ensures pdu.len <= pdu.buf.Length && pdu.buf[..pdu.len] == RequestBytes(Activate, mid, rnd, a)
    ensures ok <==> RequestOk(Activate, mid, rnd, a)
  {
    hide *;
    BuilderPlan(Activate, mid, rnd, a);
    ActivateOptions(a);
    ghost var head, opts := RequestHead(Activate, mid, rnd), RequestOptions(Activate, a);
    BuildHead(pdu, Activate, mid, rnd);
    var ok0 := AddNext(pdu, URI_PATH, Ascii("provision"), head, opts, 0);
    var ok1 := AddNext(pdu, URI_PATH, Ascii("activate"), head, opts, 1);
    var ok2 := AddNext(pdu, URI_PATH, a.vendor, head, opts, 2);
    var ok3 := AddNext(pdu, URI_PATH, a.model, head, opts, 3);
    var ok4 := AddNext(pdu, URI_PATH, a.serial, head, opts, 4);
    ok := ok0 && ok1 && ok2 && ok3 && ok4;
    Finish(pdu);
  }

  method BuildMsgWrite(pdu: Pdu, mid: u16, rnd: nat, a: Args) returns (ok: bool)
    requires pdu.buf.Length == DATAGRAM_SIZE
    modifies pdu`len, pdu.buf
    ensures pdu.len <= pdu.buf.Length && pdu.buf[..pdu.len] == RequestBytes(Write, mid, rnd, a)
    ensures ok <==> RequestOk(Write, mid, rnd, a)
  {
    ghost var m := OfferAll(RequestHead(Write, mid, rnd), RequestOptions(Write, a), DATAGRAM_SIZE);
    WritePlan(mid, rnd, a);
    hide *;
    BuilderPlan(Write, mid, rnd, a);
    DataportOptions(Write, a);
    BuildHead(pdu, Write, mid, rnd);
    var ok0 := AddDataport(pdu, a, RequestHead(Write, mid, rnd), RequestOptions(Write, a), 0);
    Finish(pdu);
    label Before:
    var r := pdu.SetPayload(a.value);
    ok := ok0 && r == NoError;
    if r != NoError {
      assert pdu.buf[..pdu.len] == old@Before(pdu.buf[..pdu.len]);
    }
  }

  lemma WritePlan(mid: u16, rnd: nat, a: Args)
    ensures var head, opts := RequestHead(Write, mid, rnd), RequestOptions(Write, a);
            var m := OfferAll(head, opts, DATAGRAM_SIZE);
            var fits := |Encode(m)| + 1 + |a.value| <= DATAGRAM_SIZE;
            && RequestBytes(Write, mid, rnd, a) == (if fits then PayloadSet(m, a.value) else Encode(m))
            && (RequestOk(Write, mid, rnd, a) <==> AllFit(head, opts, DATAGRAM_SIZE) && fits)
  {
    hide Encode, RequestOptions, PayloadSet, OfferAll, AllFit;
  }

  /** An empty message: a reset that echoes a token, or an acknowledgement. */
  method BuildMsgEmpty(pdu: Pdu, typ: nat, mid: u16, token: nat, tkl: nat)
    requires pdu.buf.Length == DATAGRAM_SIZE && typ <= 3 && tkl <= MAX_TOKEN
    modifies pdu`len, pdu.buf
    ensures pdu.Valid() && pdu.Msg() == Message(typ, 0, mid, LittleEndian(token, tkl), [], [])
  {
    EmptySize(typ, mid, token, tkl);
    hide *;
    var _ := pdu.InitPdu();
    var _ := pdu.SetVersion(1);
    var _ := pdu.SetType(typ);
    var _ := pdu.SetCode(0);
    var _ := pdu.SetMid(mid);
    var _ := pdu.SetToken(token, tkl);
  }

  lemma EmptySize(typ: nat, mid: u16, token: nat, tkl: nat)
    requires typ <= 3 && tkl <= MAX_TOKEN
    ensures var m := Message(typ, 0, mid, LittleEndian(token, tkl), [], []);
            ValidMessage(m) && |Encode(m)| == HEADER_SIZE + tkl
  {
    hide LittleEndian;
  }
}

/** Using the packet editor from outside, as picocoap/tests/coap_test.c does:
    a message written field by field, and a packet read back field by field. */
module WholePacket {
  import opened Bytes
  import opened CoapFormat
  import opened OptionCodec
  import opened MessageEdits
  import opened OptionLookup
  import opened PduEdits
  import opened CoapPdu
  import Seqs

  /** The message with its first k options and no payload. */
  function Partial(m: Message, k: nat): Message
    requires k <= |m.options|
  {
    m.(options := m.options[..k], payload := [])
  }

  /** Adding the next option in order is appending it, and no partial message
      is larger than the whole. */
  lemma PartialStep(m: Message, k: nat)
    requires ValidMessage(m) && k < |m.options|
    ensures ValidMessage(Partial(m, k)) && ValidMessage(Partial(m, k + 1))
    ensures m.options[k].num < 0x1_0000 && |m.options[k].value| < 0x1_0000
    ensures Insertable(Partial(m, k), m.options[k].num) && Following(Partial(m, k), m.options[k].num) == 0
    ensures Partial(m, k).(options := Insert(Partial(m, k).options, m.options[k])) == Partial(m, k + 1)
    ensures |Encode(Partial(m, k + 1))| <= |Encode(m)|
  {
    hide Prefix, Suffix, EncodeOptions, Header, Encode, Sorted, Position;
    SortedFrom(m, k);
    SortedFrom(m, k + 1);
    SuffixStep(m, k);
    InsertAppends(Partial(m, k), m.options[k]);
    Seqs.TakeNext(m.options, k);
    PartialSize(m, k + 1);
  }

  lemma PartialSize(m: Message, k: nat)
    requires ValidMessage(m) && k <= |m.options|
    ensures ValidMessage(Partial(m, k)) && |Encode(Partial(m, k))| <= |Encode(m)|
  {
    SortedFrom(m, k);
    EncodeAt(m, k);
    assert Header(Partial(m, k)) == Header(m);
    hide Suffix, EncodeOptions, Header, Sorted;
    assert Encode(Partial(m, k)) == Prefix(m, k) + [];
    hide *;
  }

  lemma PartialWhole(m: Message)
    requires ValidMessage(m)
    ensures ValidMessage(Partial(m, |m.options|)) && Partial(m, |m.options|) == m.(payload := [])
    ensures |Encode(m)| == |Encode(m.(payload := []))| + (if m.payload == [] then 0 else 1 + |m.payload|)
  {
    assert m.options[..|m.options|] == m.options;
  }

  lemma PartialNone(m: Message)
    requires ValidMessage(m)
    ensures Partial(m, 0) == m.(options := [], payload := []) && ValidMessage(Partial(m, 0))
    ensures |Encode(Partial(m, 0))| == HEADER_SIZE + |m.token| <= |Encode(m)|
  {
  }

  /** Writes the fixed header and the token of a new packet. */
  method WriteHeader(pdu: Pdu, m: Message) returns (r: Error)
    requires ValidMessage(m)
    modifies pdu`len, pdu.buf
    ensures r == NoError <==> HEADER_SIZE + |m.token| <= pdu.buf.Length
    ensures r == NoError ==> pdu.Valid() && pdu.Msg() == Partial(m, 0)
  {
    hide Encode, Parse, ValidMessage, Header;
    PartialNone(m);
    r := pdu.InitPdu();
    if r != NoError {
      return;
    }
    r := pdu.SetVersion(1);
    r := pdu.SetType(m.typ);
    r := pdu.SetCode(m.code);
    r := pdu.SetMid(m.mid);
    LittleEndianInverse(m.token);
    r := pdu.SetToken(LittleEndianValue(m.token), |m.token|);
  }

  /** Init, the setters, one AddOption per option in order, and SetPayload
      produce exactly the encoding of the message, whenever it fits. */
  method WriteMessage(pdu: Pdu, m: Message) returns (r: Error)
    requires ValidMessage(m)
    modifies pdu`len, pdu.buf
    ensures r == NoError <==> |Encode(m)| <= pdu.buf.Length
    ensures r == NoError ==> pdu.Valid() && pdu.Msg() == m
  {
    hide Encode, Parse, ValidMessage, Header, Insertable, Insert, Inserted, Following, PayloadSet;
    PartialNone(m);
    PartialWhole(m);
    r := WriteHeader(pdu, m);
    if r != NoError {
      return;
    }
    for k := 0 to |m.options|
      invariant pdu.Valid() && pdu.Msg() == Partial(m, k)
    {
      PartialStep(m, k);
      r := pdu.AddOption(m.options[k].num, m.options[k].value);
      if r != NoError {
        return;
      }
    }
    pdu.Meaning();
    if m.payload != [] {
      r := pdu.SetPayload(m.payload);
    } else {
      r := NoError;
    }
  }

  /** The options as iterated calls of the getter deliver them. */
  method ReadOptions(pdu: Pdu) returns (opts: seq<Opt>)
    requires pdu.Valid()
    ensures opts == if StartsWithZero(pdu.Msg()) then [] else pdu.Msg().options
  {
    ghost var m, k := pdu.Msg(), 0;
    pdu.Meaning();
    hide *;
    opts := [];
    assert m.options[..0] == [];
    var last := pdu.GetOption(NOTHING, 0);
    while last.Num() != 0
      invariant k <= |m.options| && last == OptionAt(m, k) && opts == m.options[..k]
      invariant k > 0 ==> m.options[0].num > 0 && m.options[k - 1].num > 0
      decreases |m.options| - k
    {
      var opt := TakeOption(pdu, last, k);
      opts := opts + [opt];
      Seqs.TakeNext(m.options, k);
      k := k + 1;
      last := pdu.GetOption(last, k);
    }
    IterationEnded(m, k);
    assert m.options[..|m.options|] == m.options;
  }

  /** The option that a reference leads to. */
  method TakeOption(pdu: Pdu, last: OptRef, ghost k: nat) returns (opt: Opt)
    requires pdu.Valid() && ValidMessage(pdu.Msg()) && k <= |pdu.Msg().options|
    requires last == OptionAt(pdu.Msg(), k) && last.Num() != 0
    ensures k < |pdu.Msg().options| && last == RefAt(pdu.Msg(), k) && opt == pdu.Msg().options[k] && opt.num > 0
  {
    hide *;
    ghost var m := pdu.Msg();
    pdu.Meaning();
    OptionRead(pdu.buf[..], m, k);
    var value := pdu.buf[last.val.pos..last.val.pos + last.len];
    assert pdu.buf[..][last.val.pos..last.val.pos + last.len] == value;
    opt := Opt(last.num, value);
  }

  /** A reference with a nonzero number leads to the option's value. */
  lemma OptionRead(buf: seq<byte>, m: Message, k: nat)
    requires Holds(buf, m) && k <= |m.options| && OptionAt(m, k).Num() != 0
    ensures var r := OptionAt(m, k);
            && k < |m.options| && r == RefAt(m, k) && r.OptRef? && r.num == m.options[k].num > 0
            && r.val.At? && r.val.pos + r.len <= |buf|
            && buf[r.val.pos..r.val.pos + r.len] == m.options[k].value
  {
    ValueAt(buf, m, k);
    hide Position, Encode;
  }

  /** Iteration ends behind the last option, or at once on number 0. */
  lemma IterationEnded(m: Message, k: nat)
    requires ValidMessage(m) && k <= |m.options| && OptionAt(m, k).Num() == 0
    requires k > 0 ==> m.options[0].num > 0 && m.options[k - 1].num > 0
    ensures if StartsWithZero(m) then k == 0 else k == |m.options|
  {
    if k > 0 {
      LaterGreater(m, 0, k - 1);
    }
  }

  /** Reads a whole packet back through the getters. */
  method ReadMessage(pdu: Pdu) returns (m: Message)
    requires pdu.Valid()
    ensures m == if StartsWithZero(pdu.Msg()) then pdu.Msg().(options := []) else pdu.Msg()
  {
    pdu.Meaning();
    ghost var whole := pdu.Msg();
    assert |whole.token| <= MAX_TOKEN;
    hide *;
    var token := pdu.GetToken();
    LittleEndianInverse(whole.token);
    var opts := ReadOptions(pdu);
    var payload := pdu.ReadPayload();
    m := Message(pdu.GetType(), pdu.GetCode(), pdu.GetMid(), LittleEndian(token, pdu.GetTkl()), opts, payload);
  }

  /** The whole round trip: every message whose options are all numbered 1 or
      more is written, accepted by validation and read back unchanged, exactly
      when its encoding fits the buffer. */
  method RoundTrip(m: Message, max: nat) returns (r: Option<Message>)
    requires ValidMessage(m)
    ensures r.Some? <==> |Encode(m)| <= max
    ensures r.Some? ==> (r.value == m <==> !StartsWithZero(m))
  {
    var pdu := new Pdu(max);
    var err := WriteMessage(pdu, m);
    if err != NoError {
      return None;
    }
    ValidCheckable(pdu);
    var ok := pdu.ValidatePkt();
    var back := ReadMessage(pdu);
    r := if ok == NoError then Some(back) else None;
  }

  lemma ValidCheckable(pdu: Pdu)
    requires pdu.Valid()
    ensures Checkable(pdu.buf[..], pdu.len)
  {
    pdu.Meaning();
    ValidAccepted(pdu.buf[..], pdu.Msg());
  }
}

/** How the engine reads a received message through the packet getters. */
module EngineReads {
  import opened Bytes
  import opened CoapFormat
  import opened OptionCodec
  import opened MessageEdits
  import opened OptionLookup
  import opened CoapPdu
  import opened ObserveSeq
  import opened Requests
  import opened EngineModel
  import Seqs

  /** The bytes that a lookup result refers to. */
  ghost predicate Refers(buf: seq<byte>, r: OptRef, s: seq<byte>) {
    r.OptRef? && r.len == |s| && (s != [] ==> r.val.At? && r.val.pos + r.len <= |buf| && buf[r.val.pos..r.val.pos + r.len] == s)
  }

  lemma RefersOption(buf: seq<byte>, m: Message, k: nat)
    requires Holds(buf, m) && k < |m.options|
    ensures Refers(buf, RefAt(m, k), m.options[k].value) && RefAt(m, k).Num() == m.options[k].num
  {
    ValueAt(buf, m, k);
    hide Position, Encode;
  }

  /** What the lookup of the Observe option gives. */
  lemma ObserveLookup(buf: seq<byte>, m: Message)
    requires Holds(buf, m)
    ensures var r, b := Lookup(m, OBSERVE, 0), ObserveBytes(m);
            (r.Wild? <==> b.None?) && (b.Some? ==> Refers(buf, r, b.value))
  {
    var found := Indices(m.options, OBSERVE);
    hide Position, Encode, Indices, InsertAt, RefAt, ValidMessage, Holds;
    if StartsWithZero(m) {
      RefersOption(buf, m, 0);
    } else if found != [] {
      RefersOption(buf, m, found[0]);
    } else if InsertAt(m.options, OBSERVE) == |m.options| {
      EndLookup(buf, m);
    }
  }

  lemma EndLookup(buf: seq<byte>, m: Message)
    requires Holds(buf, m)
    ensures var r := OptionAt(m, |m.options|);
            && (r.Wild? <==> m.payload != [] && m.options != [])
            && (m.payload == [] ==> r == NOTHING)
            && (m.payload != [] && m.options == [] ==> Refers(buf, r, m.payload))
  {
    PayloadBytes(buf, m);
    hide Position, Encode;
  }

  /** What the lookup of the Max-Age option gives. */
  lemma MaxAgeLookup(buf: seq<byte>, m: Message)
    requires Holds(buf, m)
    ensures var r := Lookup(m, MAX_AGE, 0);
            var found := r.Num() != 0 && r.len == 1;
            && (found ==> r.val.At? && r.val.pos < |buf|)
            && MaxAge(m) == if found then buf[r.val.pos] as int else DEFAULT_MAX_AGE
  {
    var found := Indices(m.options, MAX_AGE);
    hide Position, Encode, Indices, InsertAt, RefAt, ValidMessage, Holds;
    if StartsWithZero(m) {
      RefersOption(buf, m, 0);
    } else if found != [] {
      RefersOption(buf, m, found[0]);
      var r := RefAt(m, found[0]);
      assert |m.options[found[0]].value| == 1 ==> buf[r.val.pos] == buf[r.val.pos..r.val.pos + r.len][0];
    } else if InsertAt(m.options, MAX_AGE) == |m.options| {
      EndLookup(buf, m);
    }
  }

  /** The options are all numbered from 1 to below num. */
  predicate AllBelow(opts: seq<Opt>, num: nat) {
    forall k :: 0 <= k < |opts| ==> 1 <= opts[k].num < num
  }

  /** The lookup of the Observe option gives a null pointer exactly if there are
      options, all of them numbered 1 to 5, and a payload behind them. */
  lemma ObserveFault(m: Message)
    requires ValidMessage(m)
    ensures ObserveBytes(m).None? <==> m.payload != [] && m.options != [] && AllBelow(m.options, OBSERVE)
  {
    hide Indices, InsertAt, ValidMessage, AllBelow;
    if m.options != [] {
      if AllBelow(m.options, OBSERVE) {
        BelowNotFound(m);
      } else if !StartsWithZero(m) && Indices(m.options, OBSERVE) == [] {
        NotAllBelow(m);
      }
    }
  }

  lemma FoundNumber(opts: seq<Opt>, num: nat)
    requires Indices(opts, num) != []
    ensures exists k :: 0 <= k < |opts| && opts[k].num == num
  {
    assert opts[Indices(opts, num)[0]].num == num;
  }

  lemma BelowNotFound(m: Message)
    requires m.options != [] && AllBelow(m.options, OBSERVE)
    ensures !StartsWithZero(m) && Indices(m.options, OBSERVE) == [] && InsertAt(m.options, OBSERVE) == |m.options|
  {
    hide Indices, InsertAt;
    if Indices(m.options, OBSERVE) != [] {
      FoundNumber(m.options, OBSERVE);
      assert false;
    }
    InsertAtUnique(m.options, OBSERVE, |m.options|);
  }

  lemma NotAllBelow(m: Message)
    requires ValidMessage(m) && m.options != [] && !AllBelow(m.options, OBSERVE)
    requires !StartsWithZero(m) && Indices(m.options, OBSERVE) == []
    ensures InsertAt(m.options, OBSERVE) < |m.options|
  {
    FirstLeast(m);
    IndicesExact(m.options, OBSERVE);
    hide Indices, InsertAt, ValidMessage;
    var k :| 0 <= k < |m.options| && !(1 <= m.options[k].num < OBSERVE);
    assert m.options[k].num != OBSERVE;
  }

  lemma FirstLeast(m: Message)
    requires ValidMessage(m)
    ensures forall k :: 0 <= k < |m.options| ==> m.options[0].num <= m.options[k].num
  {
    if m.options != [] {
      SortedBound(m.options[0].num, m.options[1..]);
      assert forall k :: 1 <= k < |m.options| ==> m.options[k] == m.options[1..][k - 1];
    }
  }

  /** For instance, a notification with an entity tag and no Observe option. */
  lemma EntityTagFaults(op: Op, mid: u16, token: seq<byte>, tag: seq<byte>, x: byte)
    requires |token| <= MAX_TOKEN && |tag| < 0x1_0000
    ensures var m := Message(CON, CONTENT, mid, token, [Opt(4, tag)], [x]);
            ValidMessage(m) && Faults(op, m)
  {
    var m := Message(CON, CONTENT, mid, token, [Opt(4, tag)], [x]);
    assert m.options[1..] == [] && Sorted(4, []) && Sorted(0, m.options);
    assert AllBelow(m.options, OBSERVE);
    hide ObserveBytes;
    ObserveFault(m);
  }

  /** Folds the Observe bytes onto a start value, unless there is only a null
      pointer to read them through. Where C leaves the result undefined (a shift
      by the full word width), any value may come out. */
  method FoldObserve(pdu: Pdu, start: u32) returns (fault: bool, r: u32, ghost wild: u32)
    requires pdu.Valid()
    ensures fault <==> ObserveBytes(pdu.Msg()).None?
    ensures !fault ==> r == SequenceFrom(start, ObserveBytes(pdu.Msg()), wild)
  {
    ghost var m, b := pdu.Msg(), ObserveBytes(pdu.Msg());
    pdu.Meaning();
    ObserveLookup(pdu.buf[..], m);
    hide *;
    var opt := pdu.GetOptionByNum(OBSERVE, 0);
    fault, r, wild := opt.Wild?, 0, 0;
    if !fault {
      r, wild := FoldFound(pdu.buf, opt, start, b.value);
      SequenceIs(start, b, wild);
    }
  }

  /** Folds the bytes that a lookup result refers to. */
  method FoldFound(buf: array<byte>, opt: OptRef, start: u32, ghost s: seq<byte>) returns (r: u32, ghost wild: u32)
    requires Refers(buf[..], opt, s)
    ensures r == if |s| <= 4 then Fold(start, s) else wild
  {
    ReferenceIs(buf[..], opt, s);
    hide *;
    wild := 0;
    if opt.len > 4 {
      r :| 0 <= r < WORD;
      wild := r;
    } else if opt.len == 0 {
      FoldNil(start);
      r := start;
    } else {
      r := FoldBytes(buf, opt.val.pos, opt.len, start);
      assert buf[..][opt.val.pos..opt.val.pos + opt.len] == buf[opt.val.pos..opt.val.pos + opt.len];
    }
  }

  lemma ReferenceIs(buf: seq<byte>, r: OptRef, s: seq<byte>)
    requires Refers(buf, r, s)
    ensures r.OptRef? && r.len == |s|
    ensures s != [] ==> r.val.At? && r.val.pos + r.len <= |buf| && buf[r.val.pos..r.val.pos + r.len] == s
  {
  }

  lemma SequenceIs(start: u32, b: Option<seq<byte>>, wild: u32)
    requires b.Some?
    ensures SequenceFrom(start, b, wild) == if |b.value| <= 4 then Fold(start, b.value) else wild
  {
    hide Fold;
  }

  method FoldBytes(a: array<byte>, pos: nat, n: nat, start: u32) returns (r: u32)
    requires pos + n <= a.Length && n <= 4
    ensures r == Fold(start, a[pos..pos + n])
  {
    hide FoldStep;
    ghost var s := a[pos..pos + n];
    r := start;
    assert s[..0] == [];
    for j := 0 to n
      invariant r == Fold(start, s[..j])
    {
      r := FoldStep(r, j, a[pos + j]);
      assert s[..j + 1][..j] == s[..j] && s[j] == a[pos + j];
    }
    assert s[..n] == s;
  }

  method ReadMaxAge(pdu: Pdu) returns (age: nat)
    requires pdu.Valid()
    ensures age == MaxAge(pdu.Msg())
  {
    pdu.Meaning();
    MaxAgeLookup(pdu.buf[..], pdu.Msg());
    var opt := pdu.GetOptionByNum(MAX_AGE, 0);
    hide Encode, Parse, Lookup, Holds, MaxAge;
    age := DEFAULT_MAX_AGE;
    if opt.Num() != 0 && opt.len == 1 {
      age := pdu.buf[opt.val.pos] as int;
    }
  }

  /** Whether the packet concerns an operation. */
  method Concerns(op: Op, pdu: Pdu) returns (b: bool)
    requires pdu.Valid()
    ensures b <==> Matches(op, pdu.Msg())
  {
    pdu.Meaning();
    hide Encode, Parse, LittleEndianValue;
    var token := pdu.GetToken();
    if pdu.GetType() == CON || pdu.GetType() == NON {
      b := op.state == Subscribed && token == op.token;
    } else if pdu.GetType() == ACK {
      b := op.state == Pending && op.mid == pdu.GetMid() && !(pdu.GetCodeClass() == 2 && op.kind == NullOp);
    } else {
      b := (op.state == Pending || op.state == Subscribed) && op.mid == pdu.GetMid() && op.token == token;
    }
  }

  // ------------------------------------------- datagrams the model covers

  /** Validation rejects the datagram whatever follows it in the buffer. */
  predicate Rejected(d: seq<byte>) {
    || |d| < HEADER_SIZE
    || d[0] as int / 64 != 1
    || d[0] as int % 16 > MAX_TOKEN
    || (&& |d| > HEADER_SIZE + d[0] as int % 16
        && var b := d[HEADER_SIZE + d[0] as int % 16];
        b != PAYLOAD_MARKER && (b as int / 16 == 15 || b as int % 16 == 15))
  }

  /** A received datagram is a CoAP message or is rejected by validation. What
      the engine does with anything else is undefined. */
  predicate Conforming(d: seq<byte>) {
    |d| <= DATAGRAM_SIZE && (WellFormed(d) || Rejected(d))
  }

  lemma RejectedNotAccepted(buf: seq<byte>, d: seq<byte>)
    requires Rejected(d) && |d| <= |buf| && buf[..|d|] == d
    ensures !Accepted(buf, |d|)
  {
    if |d| >= HEADER_SIZE {
      assert buf[0] == d[0];
      var p := HEADER_SIZE + d[0] as int % 16;
      if |d| > p {
        assert buf[p] == d[p];
      }
    }
  }

  lemma LargeCheckable(buf: seq<byte>, len: nat)
    requires |buf| == DATAGRAM_SIZE
    ensures Checkable(buf, len)
  {
  }

  /** The messages among a sequence of datagrams, in order. */
  function Messages(ds: seq<seq<byte>>): seq<Message> {
    if ds == [] then []
    else
      var n := |ds| - 1;
      Messages(ds[..n]) + (if WellFormed(ds[n]) then [Parse(ds[n]).value] else [])
  }

  /** Takes a datagram into the packet buffer and validates it. */
  method Load(pdu: Pdu, d: seq<byte>) returns (ok: bool)
    requires pdu.buf.Length == DATAGRAM_SIZE && Conforming(d)
    modifies pdu`len, pdu.buf
    ensures ok <==> WellFormed(d)
    ensures ok ==> pdu.Valid() && Parse(d) == Some(pdu.Msg())
  {
    CopyIn(pdu, d);
    pdu.len := |d|;
    ghost var buf := pdu.buf[..];
    assert buf[..|d|] == pdu.buf[..pdu.len] == d;
    if Rejected(d) {
      RejectedNotAccepted(buf, d);
    }
    LargeCheckable(buf, |d|);
    hide Parse, Accepted, Rejected, Checkable;
    var r := pdu.ValidatePkt();
    ok := r == NoError;
  }

  method CopyIn(pdu: Pdu, d: seq<byte>)
    requires |d| <= pdu.buf.Length
    modifies pdu.buf
    ensures pdu.buf[..|d|] == d
  {
    ghost var before := pdu.buf[..];
    Memcpy(pdu.buf, 0, d);
    Seqs.SpliceParts(before, 0, d);
  }
}

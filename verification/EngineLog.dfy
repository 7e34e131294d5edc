/** What the log says about the network: which datagrams were handed to it, in
    which order, and what they are. */
module EngineLog {
  import opened Bytes
  import opened CoapFormat
  import opened Requests
  import opened RequestKey
  import opened EngineModel
  import opened EngineHistory
  import opened EngineRuns
  import opened EngineTheorems
  import opened Platform
  import Seqs

  // ------------------------------------------------------ datagrams of a log

  function DatagramOf(e: Event): seq<Datagram> {
    match e
    case Request(_, _, _, _, packet, ok) => [Datagram(packet, ok)]
    case AckSent(_, packet, ok) => [Datagram(packet, ok)]
    case ResetSent(packet, ok) => [Datagram(packet, ok)]
    case _ => []
  }

  function DatagramsOf(e: Option<Event>): seq<Datagram> {
    if e.Some? then DatagramOf(e.value) else []
  }

  /** The datagrams that were handed to the network, in order. */
  function Datagrams(log: seq<Event>): seq<Datagram> {
    if log == [] then [] else Datagrams(log[..|log| - 1]) + DatagramOf(log[|log| - 1])
  }

  /** The log was extended from log0 to log, and what was handed to the network
      meanwhile is what it was extended by. */
  ghost predicate Transmitted(sent0: seq<Datagram>, log0: seq<Event>, sent: seq<Datagram>, log: seq<Event>) {
    |log0| <= |log| && log[..|log0|] == log0 && sent == sent0 + Datagrams(log[|log0|..])
  }

  lemma {:induction false} DatagramsConcat(a: seq<Event>, b: seq<Event>)
    ensures Datagrams(a + b) == Datagrams(a) + Datagrams(b)
    decreases |b|
  {
    if b == [] {
      assert a + b == a;
    } else {
      var n := |b| - 1;
      assert (a + b)[..|a| + n] == a + b[..n];
      DatagramsConcat(a, b[..n]);
      hide DatagramOf;
    }
  }

  lemma NothingSent(sent: seq<Datagram>, log: seq<Event>)
    ensures Transmitted(sent, log, sent, log)
  {
    assert log[|log|..] == [];
  }

  lemma EventSent(sent: seq<Datagram>, log: seq<Event>, e: Event)
    ensures Transmitted(sent, log, sent + DatagramOf(e), log + [e])
  {
    assert (log + [e])[|log|..] == [e];
    assert [e][..0] == [];
    assert Datagrams([e]) == Datagrams([]) + DatagramOf(e);
  }

  lemma SentThen(sent0: seq<Datagram>, log0: seq<Event>, sent1: seq<Datagram>, log1: seq<Event>,
                 sent2: seq<Datagram>, log2: seq<Event>)
    requires Transmitted(sent0, log0, sent1, log1) && Transmitted(sent1, log1, sent2, log2)
    ensures Transmitted(sent0, log0, sent2, log2)
  {
    var a, b := log1[|log0|..], log2[|log1|..];
    DatagramsConcat(a, b);
    hide Datagrams;
    assert log1 == log0 + a && log2 == log1 + b;
    Seqs.Assoc(log0, a, b);
    Seqs.Split(log0, a + b);
    Seqs.Assoc(sent0, Datagrams(a), Datagrams(b));
  }

  // ------------------------------------------------------------ every packet

  /** The bytes of a request built from these arguments, or what is left of them
      without the token; a CoAP message unless it is a write of an empty value
      whose marker fits. */
  predicate IsRequest(kind: Kind, mid: u16, rnd: nat, a: Args, retry: bool, p: seq<byte>) {
    var s := RequestBytes(kind, mid, rnd, a);
    && kind != NullOp && |s| >= HEADER_SIZE + 2 && s[0] as int % 16 == 2
    && p == (if retry then Untokened(s) else s)
    && MidOf(p) == mid && HEADER_SIZE <= |p| <= DATAGRAM_SIZE
    && (WellFormed(p) <==> !LoneMarker(kind, mid, rnd, a))
  }

  /** What each logged packet is: a request built with the logged key, a
      retransmission without token, an empty acknowledgement, or a reset. */
  ghost predicate PacketOk(e: Event) {
    match e
    case Request(_, retry, _, key, p, _) =>
      exists kind, mid, rnd, a :: IsRequest(kind, mid, rnd, a, retry, p) && a.cik == key
    case AckSent(_, p, _) => Parse(p) == Some(Message(ACK, 0, MidOf(p), [], [], []))
    case ResetSent(p, _) => WellFormed(p) && Parse(p).value == Message(RST, 0, MidOf(p), Parse(p).value.token, [], [])
    case _ => true
  }

  lemma EmptyPacket(typ: nat, mid: u16, token: seq<byte>)
    requires typ <= 3 && |token| <= MAX_TOKEN
    ensures var m := Message(typ, 0, mid, token, [], []);
            ValidMessage(m) && Parse(Encode(m)) == Some(m) && MidOf(Encode(m)) == mid
  {
    var m := Message(typ, 0, mid, token, [], []);
    ParseOfEncode(m);
    EncodeLayout(m);
    HeaderFields(m);
    hide Parse, Encode, Header;
  }

  /** The packet of an operation's turn. */
  lemma TurnRequest(dev: Device, op: Op, e: TxEnv)
    requires op.tkl == 0 && op.kind != NullOp
    ensures if op.state == New then IsRequest(op.kind, dev.counter, e.rand, ArgsOf(dev, op), false, PacketOf(dev, op, e))
            else IsRequest(op.kind, op.mid, op.token, ArgsOf(dev, op), true, PacketOf(dev, op, e))
    ensures ArgsOf(dev, op).cik == dev.cik
  {
    var a := ArgsOf(dev, op);
    if op.state == New {
      UntokenedRequest(op.kind, dev.counter, e.rand, a, 0);
      RequestWellFormed(op.kind, dev.counter, e.rand, a);
      hide RequestBytes, Parse, LoneMarker, Untokened, MidOf;
    } else {
      BareRetransmit(op.kind, op.mid, op.token, a, dev.counter, e.rand);
      BareMid(op.kind, op.mid, RequestTail(op.kind, a));
      UntokenedRequest(op.kind, op.mid, op.token, a, 0);
      UntokenedSize(RequestBytes(op.kind, op.mid, op.token, a));
      UntokenedWellFormed(op.kind, op.mid, op.token, a);
      hide RequestBytes, RetransmitBytes, Parse, LoneMarker, Untokened, MidOf, BareHead, RequestTail;
    }
  }

  lemma UntokenedSize(s: seq<byte>)
    requires |s| >= HEADER_SIZE + 2 && s[0] as int % 16 == 2
    ensures |Untokened(s)| == |s| - 2
  {
  }

  lemma TurnPacket(dev: Device, op: Op, i: nat, e: TxEnv)
    requires TypeOk(op)
    ensures var ev := OnTurn(dev, op, i, e).event;
            ev.Some? ==> PacketOk(ev.value)
  {
    hide PacketOf, Parse, Encode, MidOf, Resent, ValidMessage, IsRequest, ArgsOf;
    if Sends(op, e) {
      TurnRequest(dev, op, e);
    } else if op.state == SubAck || op.state == SubAckNew {
      EmptyPacket(ACK, op.mid, []);
    }
  }

  /** The step added at most one event, and that is as it should be. */
  ghost predicate AddsOk(log: seq<Event>, log': seq<Event>) {
    || log' == log
    || (|log'| == |log| + 1 && log'[..|log|] == log && PacketOk(log'[|log|]))
  }

  lemma AddedOk(s: State, ev: Option<Event>)
    requires ev.Some? ==> PacketOk(ev.value)
    ensures AddsOk(s.log, Log(s, ev))
  {
    hide PacketOk;
  }

  lemma ReceivePackets(s: State, m: Message, e: RxEnv)
    requires s.ops != [] && ValidMessage(m)
    ensures AddsOk(s.log, Receive(s, m, e).log)
  {
    var i := FirstMatch(s.ops, m, 0);
    if i < |s.ops| {
      MatchedEvent(s.ops[i], i, m, e);
      hide OnMatch, Encode, Parse;
    } else {
      EmptyPacket(RST, m.mid, m.token);
      hide Encode, Parse, MidOf;
    }
  }

  lemma StepPackets(s: State, step: Step, seed: u16)
    requires Inv(s, seed) && Enabled(s, step)
    ensures AddsOk(s.log, Apply(s, step).log)
  {
    match step
    case UserStep(i, c) =>
    case CheckStep(time) =>
    case ReceiveStep(m, e) =>
      hide Receive, AddsOk;
      ReceivePackets(s, m, e);
    case TurnStep(i, e) =>
      assert OpOk(s.ops[i], HistoryOf(s.log, i), Built(s.log), seed);
      hide OnTurn, AddsOk, PacketOk, HistoryOf, Built;
      TurnPacket(s.dev, s.ops[i], i, e);
      AddedOk(s, OnTurn(s.dev, s.ops[i], i, e).event);
  }

  /** In every run, every packet handed to the network is one of these. */
  lemma {:induction false} EveryPacket(s: State, steps: seq<Step>)
    requires Initial(s) && IsRun(s, steps)
    ensures forall k :: 0 <= k < |After(s, steps).log| ==> PacketOk(After(s, steps).log[k])
    decreases |steps|
  {
    hide Inv, Apply, Enabled, PacketOk;
    if steps != [] {
      var before := steps[..|steps| - 1];
      EveryPacket(s, before);
      RunInv(s, before);
      var t := After(s, before);
      StepPackets(t, steps[|steps| - 1], s.dev.counter);
      var log := After(s, steps).log;
      assert forall k :: 0 <= k < |t.log| ==> log[k] == log[..|t.log|][k];
    }
  }

  // ------------------------------------------------------------------ resets

  /** The resets among the logged packets. */
  function Resets(log: seq<Event>): seq<seq<byte>> {
    if log == [] then []
    else
      var e := log[|log| - 1];
      Resets(log[..|log| - 1]) + (if e.ResetSent? then [e.packet] else [])
  }

  lemma ResetsAppend(log: seq<Event>, e: Event)
    ensures Resets(log + [e]) == Resets(log) + (if e.ResetSent? then [e.packet] else [])
  {
    assert (log + [e])[..|log|] == log;
  }
}

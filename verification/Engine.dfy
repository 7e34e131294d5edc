/** The operation engine of src/exosite.c. Its file-level variables are the
    fields of a class, the operations an array that the user owns. Every method
    is proved to be a run of the state machine in EngineModel. */
module Engine {
  import opened Bytes
  import opened CoapFormat
  import opened OptionCodec
  import opened CoapPdu
  import opened ObserveSeq
  import opened Requests
  import opened RequestBuilder
  import opened EngineModel
  import opened EngineHistory
  import opened EngineTheorems
  import opened EngineReads
  import opened EngineLog
  import opened EngineRefinement
  import opened EngineReception
  import opened EngineRequests
  import opened Platform

  class Exosite {
    var deviceState: DevState
    var cik: seq<byte>
    var vendor: seq<byte>
    var model: seq<byte>
    var serial: seq<byte>
    var messageIdCounter: u16
    ghost var log: seq<Event>

    ghost function Dev(): Device
      reads this
    {
      Device(deviceState, cik, vendor, model, serial, messageIdCounter)
    }

    /** The state of the machine that the engine, the operations and the clock
        are in. */
    ghost function S(ops: array<Op>, pal: Pal): State
      reads this, ops, pal
    {
      State(Dev(), ops[..], pal.clock, log)
    }

    lemma StateNow(ops: array<Op>, pal: Pal)
      ensures S(ops, pal) == State(Dev(), ops[..], pal.clock, log)
      ensures Dev() == Device(deviceState, cik, vendor, model, serial, messageIdCounter)
    {
    }

    constructor ()
      ensures deviceState == Uninitialized && log == []
    {
      deviceState, log := Uninitialized, [];
      cik, vendor, model, serial, messageIdCounter := [], [], [], [], 0;
    }

    /** exo_init. Whether the platform initialises and opens its socket is given;
        so are the random start of the message ids, and what retrieving the key
        returns and leaves in the key buffer: 0 for a stored key, 1 for none,
        and more for a fatal error. */
    method Init(vendorIn: seq<byte>, modelIn: seq<byte>, serialIn: seq<byte>, palOk: bool, retrieved: byte,
                stored: seq<byte>, sockOk: bool, seed: u16) returns (ok: bool)
      requires |stored| == CIK_LENGTH
      modifies this
      ensures ok <==> palOk && retrieved <= 1 && sockOk
      ensures deviceState == if ok then Initialized else Uninitialized
      ensures ok ==> cik == stored && vendor == vendorIn && model == modelIn && serial == serialIn
      ensures ok ==> messageIdCounter == seed && log == []
    {
      deviceState, log := Uninitialized, [];
      if !palOk {
        return false;
      }
      messageIdCounter := seed;
      serial, vendor, model := serialIn, vendorIn, modelIn;
      if retrieved > 1 {
        return false;
      }
      cik := stored;
      if !sockOk {
        return false;
      }
      deviceState := Initialized;
      return true;
    }

    function Args(op: Op): Args
      reads this
    {
      Requests.Args(op.alias, op.value, cik, vendor, model, serial)
    }

    /** Stores an operation and logs what was done with it. */
    method Record(ops: array<Op>, i: nat, op: Op, ghost event: Event, ghost pal: Pal)
      requires i < ops.Length
      modifies this`log, ops
      ensures S(ops, pal) == old(S(ops, pal)).(ops := old(ops[..])[i := op], log := old(log) + [event])
      ensures log == old(log) + [event]
    {
      ops[i] := op;
      log := log + [event];
    }

    // ---------------------------------------------------------- active pass

    /** Builds the request of an operation with a fresh message id. */
    method BuildRequest(op: Op, rnd: nat, pdu: Pdu)
      requires op.kind != NullOp && pdu.buf.Length == DATAGRAM_SIZE
      modifies this`messageIdCounter, pdu`len, pdu.buf
      ensures messageIdCounter == NextMid(old(messageIdCounter))
      ensures pdu.len <= pdu.buf.Length
      ensures pdu.buf[..pdu.len] == RequestBytes(op.kind, old(messageIdCounter), rnd, old(Args(op)))
    {
      hide *;
      var mid, a := messageIdCounter, Args(op);
      messageIdCounter := NextMid(messageIdCounter);
      match op.kind
      case Read => var _ := BuildMsgRead(pdu, mid, rnd, a);
      case Subscribe => var _ := BuildMsgObserve(pdu, mid, rnd, a);
      case Write => var _ := BuildMsgWrite(pdu, mid, rnd, a);
      case Activate => var _ := BuildMsgActivate(pdu, mid, rnd, a);
    }

    /** Sends a packet and, if that succeeded, reads the clock. */
    static method SendAndTime(packet: seq<byte>, pal: Pal) returns (ok: bool, time: nat)
      modifies pal`clock, pal`sent
      ensures time == pal.clock >= old(pal.clock)
      ensures pal.sent == old(pal.sent) + [Datagram(packet, ok)]
    {
      time := pal.clock;
      ok := pal.UdpSend(packet);
      if ok {
        time := pal.GetTime();
      }
    }

    /** Sends an operation's request for the first time. */
    method SendFirst(op: Op, i: nat, now: nat, pdu: Pdu, pal: Pal) returns (r: Op, ghost e: TxEnv)
      requires op.state == New && op.kind != NullOp && pdu.buf.Length == DATAGRAM_SIZE && now <= pal.clock
      modifies this`messageIdCounter, pal`clock, pal`sent, pdu`len, pdu.buf
      ensures r == OnTurn(old(Dev()), op, i, e).op && messageIdCounter == CounterAfter(old(Dev()), op, e)
      ensures pal.sent == old(pal.sent) + DatagramsOf(OnTurn(old(Dev()), op, i, e).event)
      ensures e.now == now && old(pal.clock) <= pal.clock == e.time
    {
      ghost var dev := Dev();
      assert dev.counter == messageIdCounter;
      hide *;
      var packet, mid, token, ok, time;
      ghost var rnd;
      packet, mid, token, ok, time, rnd := BuildAndSend(op, pdu, pal);
      r := if !ok then op else op.(state := Pending, timeout := time + ACK_WAIT, mid := mid, token := token);
      e := TxEnv(now, ok, pal.clock, rnd, 0);
      TurnNew(dev, op, i, e);
    }

    /** Builds an operation's request and sends it. */
    method BuildAndSend(op: Op, pdu: Pdu, pal: Pal)
      returns (packet: seq<byte>, mid: u16, token: nat, ok: bool, time: nat, ghost rnd: nat)
      requires op.kind != NullOp && pdu.buf.Length == DATAGRAM_SIZE
      modifies this`messageIdCounter, pal`clock, pal`sent, pdu`len, pdu.buf
      ensures messageIdCounter == NextMid(old(messageIdCounter))
      ensures packet == RequestBytes(op.kind, old(messageIdCounter), rnd, ArgsOf(old(Dev()), op))
      ensures mid == old(messageIdCounter) && token == Low16(rnd)
      ensures time == pal.clock >= old(pal.clock)
      ensures pal.sent == old(pal.sent) + [Datagram(packet, ok)]
    {
      hide RequestBytes, NextMid, Low16, ArgsOf;
      var random := pal.Rand();
      rnd := random;
      packet, mid, token := BuildFirst(op, random, pdu);
      ok, time := SendAndTime(packet, pal);
    }

    /** Sends a pending operation's request again. */
    method Resend(op: Op, i: nat, now: nat, pdu: Pdu, pal: Pal) returns (r: Op, ghost e: TxEnv)
      requires Resends(op, TxEnv(now, false, 0, 0, 0)) && pdu.buf.Length == DATAGRAM_SIZE && now <= pal.clock
      modifies this`messageIdCounter, pal`clock, pal`sent, pdu`len, pdu.buf
      ensures r == OnTurn(old(Dev()), op, i, e).op && messageIdCounter == CounterAfter(old(Dev()), op, e)
      ensures pal.sent == old(pal.sent) + DatagramsOf(OnTurn(old(Dev()), op, i, e).event)
      ensures e.now == now && old(pal.clock) <= pal.clock == e.time
    {
      ghost var dev := Dev();
      assert dev.counter == messageIdCounter && op.kind != NullOp;
      hide *;
      var packet, ok, time;
      ghost var rnd;
      packet, ok, time, rnd := BuildAndResend(op, pdu, pal);
      var jitter := pal.Rand();
      r := if !ok then op else op.(retries := op.retries + 1, timeout := time + Backoff(op.retries + 1, jitter));
      e := TxEnv(now, ok, pal.clock, rnd, jitter);
      TurnResend(dev, op, i, e);
    }

    /** Builds an operation's request anew, with the stored message id and token,
        and sends it. */
    method BuildAndResend(op: Op, pdu: Pdu, pal: Pal) returns (packet: seq<byte>, ok: bool, time: nat, ghost rnd: nat)
      requires op.kind != NullOp && pdu.buf.Length == DATAGRAM_SIZE
      modifies this`messageIdCounter, pal`clock, pal`sent, pdu`len, pdu.buf
      ensures messageIdCounter == NextMid(old(messageIdCounter))
      ensures packet == RetransmitBytes(op.kind, old(messageIdCounter), rnd, ArgsOf(old(Dev()), op), op.mid, op.token, op.tkl)
      ensures time == pal.clock >= old(pal.clock)
      ensures pal.sent == old(pal.sent) + [Datagram(packet, ok)]
    {
      hide RetransmitBytes, NextMid, ArgsOf;
      var random := pal.Rand();
      rnd := random;
      packet := BuildAgain(op, random, pdu);
      ok, time := SendAndTime(packet, pal);
    }

    /** Puts the stored message id and token into a request just built. */
    static method Overwrite(pdu: Pdu, mid: u16, token: nat, tkl: nat,
                            ghost kind: Kind, ghost counter: u16, ghost rnd: nat, ghost a: Args)
      requires pdu.len <= pdu.buf.Length == DATAGRAM_SIZE && pdu.buf[..pdu.len] == RequestBytes(kind, counter, rnd, a)
      modifies pdu`len, pdu.buf
      ensures pdu.len <= pdu.buf.Length
      ensures pdu.buf[..pdu.len] == RetransmitBytes(kind, counter, rnd, a, mid, token, tkl)
    {
      ghost var s := pdu.buf[..pdu.len];
      RequestCarries(kind, counter, rnd, a);
      RetransmitParts(kind, counter, rnd, a, mid, token, tkl);
      hide *;
      pdu.RawFields(s);
      SetMidRaw(pdu, mid);
      pdu.RawFields(pdu.buf[..pdu.len]);
      var _ := pdu.SetToken(token, tkl);
    }

    /** The message id set in a packet that need not be well formed. */
    static method SetMidRaw(pdu: Pdu, mid: u16)
      requires HEADER_SIZE <= pdu.len <= pdu.buf.Length
      modifies pdu`len, pdu.buf
      ensures pdu.len == old(pdu.len) && pdu.buf[..pdu.len] == WithMid(old(pdu.buf[..pdu.len]), mid)
    {
      hide Pdu.Valid, Pdu.Msg;
      var _ := pdu.SetMid(mid);
    }

    /** Sends the acknowledgement that an operation owes. */
    method SendAck(op: Op, i: nat, now: nat, pdu: Pdu, pal: Pal) returns (r: Op, ghost e: TxEnv)
      requires OwesAck(op) && pdu.buf.Length == DATAGRAM_SIZE && now <= pal.clock
      modifies pal`sent, pdu`len, pdu.buf
      ensures r == OnTurn(Dev(), op, i, e).op && messageIdCounter == CounterAfter(Dev(), op, e)
      ensures pal.sent == old(pal.sent) + DatagramsOf(OnTurn(Dev(), op, i, e).event)
      ensures e.now == now && pal.clock == e.time
    {
      assert Dev().counter == messageIdCounter;
      hide *;
      var packet := BuildAck(pdu, op.mid);
      var ok := pal.UdpSend(packet);
      r := if !ok then op else op.(state := if op.state == SubAck then Subscribed else Success);
      e := TxEnv(now, ok, pal.clock, 0, 0);
      TurnAck(Dev(), op, i, e);
    }

    static method BuildAck(pdu: Pdu, mid: u16) returns (packet: seq<byte>)
      requires pdu.buf.Length == DATAGRAM_SIZE
      modifies pdu`len, pdu.buf
      ensures packet == Encode(AckFor(mid))
    {
      BuildMsgEmpty(pdu, ACK, mid, 0, 0);
      hide Encode, Parse;
      Finish(pdu);
      assert pdu.Msg() == AckFor(mid);
      packet := pdu.buf[..pdu.len];
    }

    /** One operation's turn. */
    method TakeTurn(ops: array<Op>, i: nat, now: nat, pdu: Pdu, pal: Pal) returns (ghost e: TxEnv)
      requires i < ops.Length && pdu.buf.Length == DATAGRAM_SIZE && pdu.buf as object != ops && now <= pal.clock
      modifies this`messageIdCounter, this`log, ops, pal`clock, pal`sent, pdu`len, pdu.buf
      ensures S(ops, pal) == Turn(old(S(ops, pal)), i, e)
      ensures Transmitted(old(pal.sent), old(log), pal.sent, log)
      ensures e.now == now <= e.time && old(pal.clock) <= e.time
      ensures old(Sound(S(ops, pal))) ==> TurnDone(old(S(ops, pal)), i, e, S(ops, pal))
    {
      ghost var s := S(ops, pal);
      StateNow(ops, pal);
      hide *;
      var op;
      op, e := NextState(ops[i], i, now, pdu, pal);
      ghost var event := OnTurn(s.dev, s.ops[i], i, e).event;
      ops[i] := op;
      log := Log(s, event);
      StateNow(ops, pal);
      TurnTaken(s, i, e, S(ops, pal));
      if Sound(s) {
        TurnUnderstood(s, i, e);
      }
      LogSent(old(pal.sent), s, event);
    }

    /** What an operation does in its turn, by its state. */
    method NextState(op: Op, i: nat, now: nat, pdu: Pdu, pal: Pal) returns (r: Op, ghost e: TxEnv)
      requires pdu.buf.Length == DATAGRAM_SIZE && now <= pal.clock
      modifies this`messageIdCounter, pal`clock, pal`sent, pdu`len, pdu.buf
      ensures r == OnTurn(old(Dev()), op, i, e).op && messageIdCounter == CounterAfter(old(Dev()), op, e)
      ensures pal.sent == old(pal.sent) + DatagramsOf(OnTurn(old(Dev()), op, i, e).event)
      ensures e.now == now && old(pal.clock) <= pal.clock == e.time
    {
      r, e := op, TxEnv(now, false, pal.clock, 0, 0);
      TurnQuiet(Dev(), op, i, e);
      hide OnTurn, CounterAfter;
      match op.state {
        case New =>
          if op.kind != NullOp {
            r, e := SendFirst(op, i, now, pdu, pal);
          }
        case Pending | Subscribed =>
          if op.timeout <= now {
            match op.kind {
              case Read | Write | Activate =>
                if op.retries < MAX_RETRANSMIT {
                  r, e := Resend(op, i, now, pdu, pal);
                } else {
                  r := op.(state := Error);
                }
              case Subscribe => r := op.(state := New);
              case NullOp =>
            }
          }
        case SubAck | SubAckNew =>
          r, e := SendAck(op, i, now, pdu, pal);
        case Idle | Success | Error =>
      }
    }

    method BuildFirst(op: Op, rnd: nat, pdu: Pdu) returns (packet: seq<byte>, mid: u16, token: nat)
      requires op.kind != NullOp && pdu.buf.Length == DATAGRAM_SIZE
      modifies this`messageIdCounter, pdu`len, pdu.buf
      ensures messageIdCounter == NextMid(old(messageIdCounter))
      ensures packet == RequestBytes(op.kind, old(messageIdCounter), rnd, ArgsOf(old(Dev()), op))
      ensures mid == old(messageIdCounter) && token == Low16(rnd)
    {
      hide RequestBytes;
      ghost var dev := Dev();
      BuildRequest(op, rnd, pdu);
      packet := pdu.buf[..pdu.len];
      mid, token := ReadBack(pdu, op.kind, dev.counter, rnd, ArgsOf(dev, op));
    }

    method BuildAgain(op: Op, rnd: nat, pdu: Pdu) returns (packet: seq<byte>)
      requires op.kind != NullOp && pdu.buf.Length == DATAGRAM_SIZE
      modifies this`messageIdCounter, pdu`len, pdu.buf
      ensures messageIdCounter == NextMid(old(messageIdCounter))
      ensures packet == RetransmitBytes(op.kind, old(messageIdCounter), rnd, ArgsOf(old(Dev()), op), op.mid, op.token, op.tkl)
    {
      hide RequestBytes, RetransmitBytes;
      ghost var dev := Dev();
      BuildRequest(op, rnd, pdu);
      Overwrite(pdu, op.mid, op.token, op.tkl, op.kind, dev.counter, rnd, ArgsOf(dev, op));
      packet := pdu.buf[..pdu.len];
    }

    /** The message id and token that a request just built carries. */
    static method ReadBack(pdu: Pdu, ghost kind: Kind, ghost counter: u16, ghost rnd: nat, ghost a: Args)
      returns (mid: u16, token: nat)
      requires pdu.len <= pdu.buf.Length == DATAGRAM_SIZE && pdu.buf[..pdu.len] == RequestBytes(kind, counter, rnd, a)
      ensures mid == counter && token == Low16(rnd)
    {
      ghost var s := pdu.buf[..pdu.len];
      RequestCarries(kind, counter, rnd, a);
      hide *;
      pdu.RawFields(s);
      mid := pdu.GetMid();
      assert mid == counter;
      token := pdu.GetToken();
    }

    // ------------------------------------------------------------- reception

    /** A notification for a subscription. Asking for the Observe number may read
        through a null pointer. */
    static method Notification(op: Op, i: nat, pdu: Pdu, pal: Pal) returns (fault: bool, r: Op, ghost e: RxEnv)
      requires pdu.Valid() && (pdu.Msg().typ == CON || pdu.Msg().typ == NON)
      modifies pal`clock
      ensures fault <==> Faults(op, pdu.Msg())
      ensures !fault ==> r == OnNotification(op, i, pdu.Msg(), e).op
      ensures !fault && TypeOk(op) && op.kind == Subscribe ==> NotificationTaken(op, r, pdu.Msg(), e)
      ensures fault ==> pal.clock == old(pal.clock)
      ensures old(pal.clock) <= e.time == pal.clock
    {
      pdu.Meaning();
      hide Encode, Parse, ObserveBytes, Fold, FreshUntil, Store, Cleared, SequenceFrom, ValidMessage, Holds, Pdu.Valid, Pdu.Msg, NotificationTaken;
      fault, r, e := false, op, RxEnv(pal.clock, 0, 0, false);
      if pdu.GetCode() == CONTENT {
        var seqNo;
        ghost var wild;
        fault, seqNo, wild := FoldObserve(pdu, 0);
        if !fault {
          var payload := pdu.ReadPayload();
          if payload == [] {
            r := op.(value := Cleared(op.value));
          } else if |payload| + 1 > op.valueMax || op.value == [] {
            r := op.(state := Error);
          } else {
            r, e := Accept(op, pdu, payload, seqNo, wild, pal);
            r := r.(mid := pdu.GetMid(), state := if op.obsSeq != seqNo then SubAckNew else SubAck);
          }
        }
      } else if pdu.GetCodeClass() != 2 {
        r := op.(state := Error);
      }
      if TypeOk(op) && op.kind == Subscribe {
        NotificationExact(op, i, pdu.Msg(), e);
      }
    }

    /** Takes over a payload that fits, the sequence number and Max-Age. */
    static method Accept(op: Op, pdu: Pdu, payload: seq<byte>, seqNo: u32, ghost wild: u32, pal: Pal) returns (r: Op, ghost e: RxEnv)
      requires pdu.Valid()
      modifies pal`clock
      ensures e == RxEnv(pal.clock, e.rand, wild, false) && old(pal.clock) <= e.time
      ensures r == op.(value := Store(op.value, payload), obsSeq := seqNo, timeout := FreshUntil(pdu.Msg(), e))
    {
      hide Store, MaxAge, Spread, Pdu.Valid, Pdu.Msg;
      var age := ReadMaxAge(pdu);
      var time := pal.GetTime();
      var rand := pal.Rand();
      e := RxEnv(time, rand, wild, false);
      r := op.(value := Store(op.value, payload), obsSeq := seqNo, timeout := time + age * SECOND + Spread(rand));
    }

    /** A response to a pending request, as far as the operation goes. */
    static method Response(op: Op, i: nat, pdu: Pdu, pal: Pal) returns (fault: bool, r: Op, ghost e: RxEnv)
      requires pdu.Valid() && pdu.Msg().typ == ACK
      modifies pal`clock
      ensures fault <==> Faults(op, pdu.Msg())
      ensures !fault ==> r == OnResponse(op, i, pdu.Msg(), e).op
      ensures !fault && TypeOk(op) ==> ResponseTaken(op, r, pdu.Msg(), e)
      ensures fault ==> pal.clock == old(pal.clock)
      ensures old(pal.clock) <= e.time == pal.clock
    {
      pdu.Meaning();
      hide Encode, Parse, ObserveBytes, Fold, FreshUntil, Store, Cleared, SequenceFrom, ValidMessage, Holds, Pdu.Valid, Pdu.Msg, ResponseTaken;
      fault, r, e := false, op, RxEnv(pal.clock, 0, 0, false);
      if pdu.GetCodeClass() != 2 {
        r := op.(state := Error);
      } else {
        match op.kind {
          case Write => r := op.(state := Success);
          case Read =>
            var payload := pdu.ReadPayload();
            r := if payload == [] then op.(value := Cleared(op.value))
                 else if |payload| + 1 > op.valueMax || op.value == [] then op.(state := Error)
                 else op.(value := Store(op.value, payload), state := Success);
          case Subscribe =>
            fault, r, e := SubscribeResponse(op, i, pdu, pal);
          case Activate => r := OpInit();
          case NullOp =>
        }
      }
      if TypeOk(op) {
        ResponseExact(op, i, pdu.Msg(), e);
      }
    }

    static method SubscribeResponse(op: Op, i: nat, pdu: Pdu, pal: Pal) returns (fault: bool, r: Op, ghost e: RxEnv)
      requires pdu.Valid() && pdu.Msg().typ == ACK && op.kind == Subscribe && CodeClass(pdu.Msg()) == 2
      modifies pal`clock
      ensures fault <==> Faults(op, pdu.Msg())
      ensures !fault ==> r == OnResponse(op, i, pdu.Msg(), e).op
      ensures fault ==> pal.clock == old(pal.clock)
      ensures old(pal.clock) <= e.time == pal.clock
    {
      pdu.Meaning();
      ghost var m := pdu.Msg();
      NoPayloadNoFault(m);
      hide Encode, Parse, ObserveBytes, Fold, FreshUntil, Store, Cleared, SequenceFrom, ValidMessage, Holds, Pdu.Valid, Pdu.Msg;
      fault, r, e := false, op, RxEnv(pal.clock, 0, 0, false);
      var payload := pdu.ReadPayload();
      if payload == [] {
        r := op.(value := Cleared(op.value));
      } else if |payload| + 1 > op.valueMax || op.value == [] {
        r := op.(state := Error);
      } else {
        var seqNo;
        ghost var wild;
        fault, seqNo, wild := FoldObserve(pdu, op.obsSeq);
        if !fault {
          r, e := Accept(op, pdu, payload, seqNo, wild, pal);
          r := r.(state := Success);
        }
      }
    }

    /** What a response changes in the device: a stored key, or its state. */
    method ResponseDevice(op: Op, pdu: Pdu)
      requires pdu.Valid() && pdu.Msg().typ == ACK
      modifies this`cik, this`deviceState
      ensures Dev() == OnMatchDevice(old(Dev()), op, pdu.Msg())
      ensures DeviceTaken(old(Dev()), Dev(), op, pdu.Msg())
    {
      pdu.Meaning();
      hide Encode, Parse;
      if pdu.GetCodeClass() == 2 {
        if op.kind == Activate {
          var payload := pdu.ReadPayload();
          if |payload| == CIK_LENGTH {
            cik, deviceState := payload, Good;
          }
        }
      } else if pdu.GetCode() == NOT_FOUND {
        deviceState := Good;
      }
    }

    /** Stores an operation that a message was matched with. */
    method Update(ops: array<Op>, i: nat, op: Op, ghost event: Option<Event>, ghost pal: Pal)
      requires i < ops.Length
      modifies this`log, ops
      ensures S(ops, pal) == old(S(ops, pal)).(ops := old(ops[..])[i := op], log := Log(old(S(ops, pal)), event))
    {
      ops[i] := op;
      log := if event.Some? then log + [event.value] else log;
    }

    /** A message matched with operation i. */
    method HandleMatch(ops: array<Op>, i: nat, pdu: Pdu, pal: Pal) returns (fault: bool, ghost e: RxEnv)
      requires pdu.Valid() && i < ops.Length && ValidMessage(pdu.Msg()) && FirstMatch(ops[..], pdu.Msg(), 0) == i
      requires pdu.buf as object != ops
      modifies this`cik, this`deviceState, this`log, ops, pal`clock
      ensures fault <==> Faults(old(ops[i]), old(pdu.Msg()))
      ensures S(ops, pal) == if fault then old(S(ops, pal)) else Receive(old(S(ops, pal)), old(pdu.Msg()), e)
      ensures old(pal.clock) <= e.time
    {
      ghost var s, m := S(ops, pal), pdu.Msg();
      var op, typ := ops[i], pdu.GetType();
      TypeOfMessage(pdu);
      hide Receive, FirstMatch, OnNotification, OnResponse, ValidMessage, Pdu.Valid, Pdu.Msg, ObserveBytes;
      if typ == CON || typ == NON {
        var r;
        fault, r, e := Notification(op, i, pdu, pal);
        if !fault {
          ReceiveMatched(s, m, e, i);
          Update(ops, i, r, OnMatch(op, i, m, e).event, pal);
        }
      } else if typ == ACK {
        fault, e := HandleAck(ops, i, pdu, pal);
      } else {
        fault, e := false, RxEnv(pal.clock, 0, 0, false);
        ReceiveMatched(s, m, e, i);
        Update(ops, i, op.(state := Error), None, pal);
      }
    }

    static lemma TypeOfMessage(pdu: Pdu)
      requires pdu.Valid()
      ensures pdu.GetType() == pdu.Msg().typ
    {
      pdu.Meaning();
      hide Encode;
    }

    method HandleAck(ops: array<Op>, i: nat, pdu: Pdu, pal: Pal) returns (fault: bool, ghost e: RxEnv)
      requires pdu.Valid() && i < ops.Length && ValidMessage(pdu.Msg()) && FirstMatch(ops[..], pdu.Msg(), 0) == i
      requires pdu.buf as object != ops && pdu.Msg().typ == ACK
      modifies this`cik, this`deviceState, this`log, ops, pal`clock
      ensures fault <==> Faults(old(ops[i]), old(pdu.Msg()))
      ensures S(ops, pal) == if fault then old(S(ops, pal)) else Receive(old(S(ops, pal)), old(pdu.Msg()), e)
      ensures old(pal.clock) <= e.time
    {
      ghost var s, m := S(ops, pal), pdu.Msg();
      var op, code := ops[i], pdu.GetCode();
      hide Receive, FirstMatch, OnResponse, ValidMessage, Pdu.Valid, Pdu.Msg, OnMatchDevice, Faults;
      var r;
      fault, r, e := Response(op, i, pdu, pal);
      if fault {
        return;
      }
      ResponseDevice(op, pdu);
      ReceiveMatched(s, m, e, i);
      Update(ops, i, r, OnMatch(op, i, m, e).event, pal);
      if code == UNAUTHORIZED {
        e := CheckUnauthorized(ops, i, op, m, e, s, pal);
      }
    }

    /** An unauthorized response: activation is queued on operation 0 if that is
        unused or has timed out. */
    method CheckUnauthorized(ops: array<Op>, ghost i: nat, ghost op: Op, ghost m: Message, ghost e0: RxEnv, ghost s: State, pal: Pal)
      returns (ghost e: RxEnv)
      requires s.ops != [] && ValidMessage(m) && m.typ == ACK && m.code == UNAUTHORIZED
      requires i < |s.ops| && FirstMatch(s.ops, m, 0) == i && op == s.ops[i] && ops.Length == |s.ops|
      requires e0.time == pal.clock
      requires S(ops, pal) == s.(ops := s.ops[i := OnMatch(op, i, m, e0).op], dev := OnMatchDevice(s.dev, op, m), clock := pal.clock,
                                 log := Log(s, OnMatch(op, i, m, e0).event))
      modifies this`log, ops, pal`clock
      ensures S(ops, pal) == Receive(s, m, e)
      ensures e0.time <= e.time
    {
      Unauthorized(op, i, m, e0);
      hide Receive, FirstMatch, OnMatch, OnMatchDevice, ValidMessage;
      var activate := ops[0].kind == NullOp;
      if !activate {
        var time := pal.GetTime();
        activate := ops[0].timeout < time;
      }
      e := e0.(time := pal.clock);
      UnauthorizedTime(op, i, m, e0, e);
      ReceiveMatched(s, m, e, i);
      if activate {
        ghost var event := QueuedEvent(0, ops[0]);
        Update(ops, 0, ActivateOp(ops[0]), Some(event), pal);
      }
    }

    /** A message that concerns no operation: a confirmable one is reset. */
    method HandleUnmatched(ops: array<Op>, pdu: Pdu, pal: Pal) returns (ghost e: RxEnv)
      requires pdu.Valid() && ValidMessage(pdu.Msg()) && pdu.buf.Length == DATAGRAM_SIZE && pdu.buf as object != ops
      requires ops.Length > 0 && FirstMatch(ops[..], pdu.Msg(), 0) == ops.Length
      modifies this`log, pal`sent, pdu`len, pdu.buf
      ensures S(ops, pal) == Receive(old(S(ops, pal)), old(pdu.Msg()), e)
      ensures old(pal.clock) <= e.time
      ensures Transmitted(old(pal.sent), old(log), pal.sent, log)
    {
      ghost var s, m := S(ops, pal), pdu.Msg();
      e := RxEnv(pal.clock, 0, 0, false);
      NothingSent(pal.sent, log);
      TypeOfMessage(pdu);
      hide *;
      StateNow(ops, pal);
      if pdu.GetType() == CON {
        var ok := SendReset(pdu, pal);
        e := RxEnv(pal.clock, 0, 0, ok);
        ghost var event := ResetSent(Encode(ResetFor(m)), ok);
        SentEvent(old(pal.sent), log, event);
        log := log + [event];
      }
      StateNow(ops, pal);
      UnmatchedIs(s, m, e);
    }

    static lemma SentEvent(sent: seq<Datagram>, log: seq<Event>, event: Event)
      requires event.ResetSent?
      ensures Transmitted(sent, log, sent + [Datagram(event.packet, event.ok)], log + [event])
    {
      EventSent(sent, log, event);
      hide Transmitted;
    }

    static lemma UnmatchedIs(s: State, m: Message, e: RxEnv)
      requires s.ops != [] && ValidMessage(m) && FirstMatch(s.ops, m, 0) == |s.ops|
      ensures ValidMessage(ResetFor(m))
      ensures Receive(s, m, e)
              == s.(clock := e.time, log := s.log + if m.typ == CON then [ResetSent(Encode(ResetFor(m)), e.ok)] else [])
    {
      hide FirstMatch, Encode;
    }

    /** Resets a message, echoing its message id and token. */
    static method SendReset(pdu: Pdu, pal: Pal) returns (ok: bool)
      requires pdu.Valid() && ValidMessage(pdu.Msg()) && pdu.buf.Length == DATAGRAM_SIZE
      modifies pal`sent, pdu`len, pdu.buf
      ensures ValidMessage(ResetFor(old(pdu.Msg())))
      ensures pal.sent == old(pal.sent) + [Datagram(Encode(ResetFor(old(pdu.Msg()))), ok)]
    {
      ghost var m := pdu.Msg();
      hide Parse, Encode, LittleEndian, LittleEndianValue, ValidMessage;
      pdu.Meaning();
      var token := pdu.GetToken();
      var tkl, mid := pdu.GetTkl(), pdu.GetMid();
      LittleEndianInverse(m.token);
      TokenBound(m);
      BuildMsgEmpty(pdu, RST, mid, token, tkl);
      Finish(pdu);
      ok := pal.UdpSend(pdu.buf[..pdu.len]);
    }

    /** Dispatches one valid packet. */
    method Dispatch(ops: array<Op>, pdu: Pdu, pal: Pal) returns (matched: bool, fault: bool, ghost e: RxEnv)
      requires pdu.Valid() && ValidMessage(pdu.Msg()) && pdu.buf.Length == DATAGRAM_SIZE && pdu.buf as object != ops
      requires ops.Length > 0
      modifies this`cik, this`deviceState, this`log, ops, pal`clock, pal`sent, pdu`len, pdu.buf
      ensures matched <==> FirstMatch(old(ops[..]), old(pdu.Msg()), 0) < ops.Length
      ensures fault <==> FaultsIn(old(ops[..]), old(pdu.Msg()))
      ensures S(ops, pal) == if fault then old(S(ops, pal)) else Receive(old(S(ops, pal)), old(pdu.Msg()), e)
      ensures old(pal.clock) <= e.time
      ensures !fault ==> Understood(old(S(ops, pal)), old(pdu.Msg()), e, S(ops, pal))
      ensures Transmitted(old(pal.sent), old(log), pal.sent, log)
    {
      ghost var s, m := S(ops, pal), pdu.Msg();
      NothingSent(pal.sent, log);
      hide Receive, Parse, Encode, ValidMessage, FirstMatch, Faults, Transmitted, Pdu.Valid, Pdu.Msg, Understood;
      var i := Search(ops, pdu);
      matched, fault := i < ops.Length, false;
      if matched {
        fault, e := HandleMatch(ops, i, pdu, pal);
        MatchedSilent(s, m, e, pal.sent);
      } else {
        e := HandleUnmatched(ops, pdu, pal);
      }
      if !fault {
        AlwaysUnderstood(s, m, e);
      }
    }

    /** The lowest-indexed operation that the packet concerns. */
    static method Search(ops: array<Op>, pdu: Pdu) returns (i: nat)
      requires pdu.Valid()
      ensures i == FirstMatch(ops[..], pdu.Msg(), 0)
    {
      hide Pdu.Valid, Pdu.Msg, Matches;
      i := 0;
      while i < ops.Length
        invariant i <= ops.Length && forall j :: 0 <= j < i ==> !Matches(ops[j], pdu.Msg())
      {
        var hit := Concerns(ops[i], pdu);
        if hit {
          break;
        }
        i := i + 1;
      }
      FirstMatchIs(ops[..], pdu.Msg(), i);
    }

    /** Receives and dispatches waiting datagrams, up to and including the first
        valid one that concerns no operation. */
    method ProcessWaitingDatagrams(ops: array<Op>, pal: Pal) returns (fault: bool, ghost n: nat, ghost steps: seq<Step>)
      requires ops.Length > 0 && forall d :: d in pal.inbox ==> Conforming(d)
      modifies this`cik, this`deviceState, this`log, ops, pal
      ensures ReceivePhase(old(S(ops, pal)), old(pal.inbox), n, steps, pal.inbox, fault)
      ensures S(ops, pal) == After(old(S(ops, pal)), steps)
      ensures Resets(log) == Resets(old(log)) + ResetsDue(old(S(ops, pal)), steps)
      ensures Transmitted(old(pal.sent), old(log), pal.sent, log)
    {
      ghost var s, inbox := S(ops, pal), pal.inbox;
      fault, n, steps := false, 0, [];
      StartReceiving(s, inbox);
      NothingSent(pal.sent, log);
      var pdu := new Pdu(DATAGRAM_SIZE);
      hide IsRun, After, Receiving, ReceivePhase, Conforming, Enabled, Apply, Transmitted, Resets, ResetsDue, FaultsIn, Parse, FirstMatch, Handled, ReadsDelivered, Understood;
      while pal.inbox != []
        invariant n <= |inbox| && pal.inbox == inbox[n..] && fresh(pdu) && fresh(pdu.buf) && pdu.buf.Length == DATAGRAM_SIZE
        invariant Receiving(s, inbox, n, steps) && IsRun(s, steps) && S(ops, pal) == After(s, steps)
        invariant Transmitted(old(pal.sent), old(log), pal.sent, log)
        decreases |inbox| - n
      {
        ghost var step: Option<Step>;
        var stop;
        assert inbox[n] in old(pal.inbox) && inbox[n..][1..] == inbox[n + 1..];
        ghost var sent1, log1 := pal.sent, log;
        stop, fault, step := ReceiveOne(ops, pdu, pal, 0);
        SentThen(old(pal.sent), old(log), sent1, log1, pal.sent, log);
        HandledCases(After(s, steps), inbox[n], S(ops, pal), stop, fault, step);
        if fault {
          PhaseFaults(s, inbox, n, steps);
          PhaseResets(s, inbox, n, steps, pal.inbox, fault);
          return;
        }
        if step.Some? {
          ReceivedNext(s, steps, inbox, n, step.value);
          steps := steps + [step.value];
        } else {
          RejectedNext(s, steps, inbox, n);
        }
        n := n + 1;
        if stop {
          PhaseResets(s, inbox, n, steps, pal.inbox, fault);
          return;
        }
      }
      PhaseDone(s, inbox, steps);
      PhaseResets(s, inbox, n, steps, [], fault);
    }

    /** Takes one datagram from the queue. The loop around it stops at one that
        concerns no operation. A success response to a pending read is delivered
        to that read, and nothing else changes. */
    method ReceiveOne(ops: array<Op>, pdu: Pdu, pal: Pal, ghost seed: u16) returns (stop: bool, fault: bool, ghost step: Option<Step>)
      requires ops.Length > 0 && pal.inbox != [] && Conforming(pal.inbox[0])
      requires pdu.buf.Length == DATAGRAM_SIZE && pdu.buf as object != ops
      modifies this`cik, this`deviceState, this`log, ops, pal, pdu`len, pdu.buf
      ensures pal.inbox == old(pal.inbox)[1..]
      ensures Handled(old(S(ops, pal)), old(pal.inbox)[0], S(ops, pal), stop, fault, step)
      ensures Transmitted(old(pal.sent), old(log), pal.sent, log)
      ensures ReadsDelivered(old(S(ops, pal)), S(ops, pal), seed, old(pal.inbox)[0])
      ensures step.Some? ==>
                && step.value.ReceiveStep? && Parse(old(pal.inbox)[0]) == Some(step.value.m)
                && Understood(old(S(ops, pal)), step.value.m, step.value.rx, S(ops, pal))
    {
      ghost var s := S(ops, pal);
      var got, d := pal.UdpRecv();
      assert S(ops, pal) == s;
      hide *;
      stop, fault, step := HandleDatagram(ops, pdu, pal, d);
      HandledDelivers(s, d, S(ops, pal), stop, fault, step, seed);
      HandledUnderstood(s, d, S(ops, pal), stop, fault, step);
    }

    /** An invalid datagram is ignored, a valid one dispatched. */
    method HandleDatagram(ops: array<Op>, pdu: Pdu, pal: Pal, d: seq<byte>) returns (stop: bool, fault: bool, ghost step: Option<Step>)
      requires ops.Length > 0 && Conforming(d) && pdu.buf.Length == DATAGRAM_SIZE && pdu.buf as object != ops
      modifies this`cik, this`deviceState, this`log, ops, pal`clock, pal`sent, pdu`len, pdu.buf
      ensures Handled(old(S(ops, pal)), d, S(ops, pal), stop, fault, step)
      ensures Transmitted(old(pal.sent), old(log), pal.sent, log)
    {
      ghost var s := S(ops, pal);
      NothingSent(pal.sent, log);
      var ok := Load(pdu, d);
      assert S(ops, pal) == s;
      hide *;
      stop, fault, step := false, false, None;
      if ok {
        ghost var m := pdu.Msg();
        Finish(pdu);
        var matched;
        ghost var e;
        matched, fault, e := Dispatch(ops, pdu, pal);
        HandledMessage(s, d, m, e, fault, S(ops, pal));
        if !fault {
          stop, step := !matched, Some(ReceiveStep(m, e));
        }
      } else {
        HandledNothing(s, d);
      }
    }

    static lemma HandledUnderstood(s: State, d: seq<byte>, t: State, stop: bool, fault: bool, step: Option<Step>)
      requires Handled(s, d, t, stop, fault, step)
      ensures step.Some? ==>
                && step.value.ReceiveStep? && Parse(d) == Some(step.value.m)
                && Understood(s, step.value.m, step.value.rx, t)
    {
      if step.Some? {
        HandledCases(s, d, t, stop, fault, step);
        hide Handled, Parse, Receive, FirstMatch, Understood, ValidMessage, FaultsIn;
        AlwaysUnderstood(s, step.value.m, step.value.rx);
      }
    }

    // --------------------------------------------------------------- operate

    /** Gives every operation its turn. */
    method ProcessActiveOps(ops: array<Op>, pal: Pal) returns (ghost now: nat, ghost steps: seq<Step>)
      requires ops.Length > 0
      modifies this`messageIdCounter, this`log, ops, pal`clock, pal`sent
      ensures IsPass(steps, now) && |steps| == ops.Length
      ensures IsRun(old(S(ops, pal)), steps) && S(ops, pal) == After(old(S(ops, pal)), steps)
      ensures Transmitted(old(pal.sent), old(log), pal.sent, log)
    {
      ghost var s := S(ops, pal);
      NothingSent(pal.sent, log);
      var pdu := new Pdu(DATAGRAM_SIZE);
      var start := pal.GetTime();
      now, steps := start, [];
      PassingStart(s, now, S(ops, pal));
      hide *;
      for i := 0 to ops.Length
        invariant |steps| == i && Passing(s, steps, now, S(ops, pal)) && now == start <= pal.clock
        invariant fresh(pdu) && fresh(pdu.buf) && pdu.buf.Length == DATAGRAM_SIZE
        invariant Transmitted(old(pal.sent), old(log), pal.sent, log)
      {
        ghost var sent1, log1, u := pal.sent, log, S(ops, pal);
        StateNow(ops, pal);
        ghost var e := TakeTurn(ops, i, start, pdu, pal);
        StateNow(ops, pal);
        SentThen(old(pal.sent), old(log), sent1, log1, pal.sent, log);
        PassingNext(s, steps, now, u, e);
        steps := steps + [TurnStep(i, e)];
      }
      PassingDone(s, steps, now, S(ops, pal));
    }

    /** The activation check at the start of exo_operate. */
    method CheckActivation(ops: array<Op>, pal: Pal) returns (ghost time: nat)
      requires ops.Length > 0
      modifies this`log, ops, pal`clock
      ensures Enabled(old(S(ops, pal)), CheckStep(time)) && S(ops, pal) == Apply(old(S(ops, pal)), CheckStep(time))
      ensures Transmitted(pal.sent, old(log), pal.sent, log)
      ensures var due := deviceState in {Initialized, BadCik} && (old(ops[0]).state == Idle || old(ops[0]).timeout < pal.clock);
              && Dev() == old(Dev()) && ops[1..] == old(ops[1..])
              && (if due then ActivationQueued(old(ops[0]), ops[0]) else ops[0] == old(ops[0]))
              && log == old(log) + if due then [Queued(0, old(ops[0]).retries, old(ops[0]).obsSeq)] else []
    {
      NothingSent(pal.sent, log);
      EventSent(pal.sent, log, QueuedEvent(0, ops[0]));
      hide Transmitted;
      if deviceState == Initialized || deviceState == BadCik {
        var activate := ops[0].state == Idle;
        if !activate {
          var t := pal.GetTime();
          activate := ops[0].timeout < t;
        }
        if activate {
          ghost var event := QueuedEvent(0, ops[0]);
          Record(ops, 0, ActivateOp(ops[0]), event, pal);
        }
      }
      time := pal.clock;
    }

    /** What exo_operate reports about the operations. */
    static method Summarise(ops: array<Op>) returns (r: Outcome)
      ensures r == OutcomeBusy <==> exists i :: 0 <= i < ops.Length && ops[i].state == New
      ensures r == OutcomeIdle <==> AllIdle(ops[..])
      ensures r == OutcomeBusy || r == OutcomeWaiting || r == OutcomeIdle
    {
      for i := 0 to ops.Length
        invariant forall j :: 0 <= j < i ==> ops[j].state != New
      {
        if ops[i].state == New {
          return OutcomeBusy;
        }
      }
      for i := 0 to ops.Length
        invariant forall j :: 0 <= j < i ==> ops[j].state != Pending
      {
        if ops[i].state == Pending {
          assert ops[..][i].state == Pending;
          return OutcomeWaiting;
        }
      }
      return OutcomeIdle;
    }

    /** One call of exo_operate: the activation check, the waiting datagrams, and
        a turn for every operation. It is a run of the machine and keeps its
        invariant; what it hands to the network is what the run logs;
        `OutcomeIdle` means what the documentation promises. Handling a datagram
        may end the call in a fault. */
    method Operate(ops: array<Op>, pal: Pal, ghost seed: u16) returns (r: Outcome, ghost run: Trace)
      requires ops.Length > 0 && forall d :: d in pal.inbox ==> Conforming(d)
      modifies this`cik, this`deviceState, this`messageIdCounter, this`log, ops, pal
      ensures old(deviceState) == Uninitialized ==>
                r == OutcomeError && S(ops, pal) == old(S(ops, pal)) && pal.inbox == old(pal.inbox) && pal.sent == old(pal.sent)
      ensures old(deviceState) != Uninitialized ==>
                && IsRun(old(S(ops, pal)), run.Steps()) && S(ops, pal) == After(old(S(ops, pal)), run.Steps())
                && run.Received(old(S(ops, pal)), old(pal.inbox), pal.inbox, r == OutcomeFault, log)
                && IsPass(run.pass, run.now) && |run.pass| == (if r == OutcomeFault then 0 else ops.Length)
                && Transmitted(old(pal.sent), old(log), pal.sent, log)
      ensures old(deviceState) != Uninitialized && r != OutcomeFault ==>
                && (r == OutcomeBusy <==> exists i :: 0 <= i < ops.Length && ops[i].state == New)
                && (r == OutcomeIdle <==> AllIdle(ops[..]))
                && r != OutcomeError
      ensures old(Inv(S(ops, pal), seed)) ==> Inv(S(ops, pal), seed)
      ensures old(Inv(S(ops, pal), seed)) && r == OutcomeIdle ==> forall i :: 0 <= i < ops.Length ==> Settled(ops[i])
      ensures old(Inv(S(ops, pal), seed)) && old(deviceState) != Uninitialized && r != OutcomeFault && run.AllSent() ==>
                forall i :: 0 <= i < ops.Length ==> !OwesAck(ops[i])
    {
      hide *;
      run := Trace(0, 0, [], 0, []);
      if deviceState == Uninitialized {
        return OutcomeError, run;
      }
      var fault;
      fault, run := RunPhases(ops, pal, seed);
      StateNow(ops, pal);
      KeptMeans(old(S(ops, pal)), S(ops, pal), seed, !fault && run.AllSent());
      if fault {
        return OutcomeFault, run;
      }
      r := Summarise(ops);
    }

    /** The three phases of a call. */
    method RunPhases(ops: array<Op>, pal: Pal, ghost seed: u16) returns (fault: bool, ghost run: Trace)
      requires ops.Length > 0 && forall d :: d in pal.inbox ==> Conforming(d)
      modifies this`cik, this`deviceState, this`messageIdCounter, this`log, ops, pal
      ensures IsRun(old(S(ops, pal)), run.Steps()) && S(ops, pal) == After(old(S(ops, pal)), run.Steps())
      ensures run.Received(old(S(ops, pal)), old(pal.inbox), pal.inbox, fault, log)
      ensures IsPass(run.pass, run.now) && |run.pass| == (if fault then 0 else ops.Length)
      ensures Transmitted(old(pal.sent), old(log), pal.sent, log)
      ensures Kept(old(S(ops, pal)), S(ops, pal), seed, !fault && run.AllSent())
    {
      ghost var s := S(ops, pal);
      ghost var time := CheckActivation(ops, pal);
      ghost var s1, sent1 := S(ops, pal), pal.sent;
      ghost var n, received;
      fault, n, received := ProcessWaitingDatagrams(ops, pal);
      ghost var s2, sent2 := S(ops, pal), pal.sent;
      StateNow(ops, pal);
      hide *;
      SentThen(old(pal.sent), s.log, sent1, s1.log, sent2, s2.log);
      PhaseIsRun(s1, old(pal.inbox), n, received, pal.inbox, fault);
      ghost var now, pass;
      now, pass := ActiveUnless(fault, ops, pal);
      StateNow(ops, pal);
      SentThen(old(pal.sent), s.log, sent2, s2.log, pal.sent, log);
      run := Trace(time, n, received, now, pass);
      OperateRun(s, s1, s2, S(ops, pal), run, seed);
      OperateReceived(s, s1, s2, S(ops, pal), run, old(pal.inbox), pal.inbox, fault);
    }

    /** The active pass, unless the call has ended in a fault. */
    method ActiveUnless(fault: bool, ops: array<Op>, pal: Pal) returns (ghost now: nat, ghost steps: seq<Step>)
      requires ops.Length > 0
      modifies this`messageIdCounter, this`log, ops, pal`clock, pal`sent
      ensures IsPass(steps, now) && |steps| == (if fault then 0 else ops.Length)
      ensures IsRun(old(S(ops, pal)), steps) && S(ops, pal) == After(old(S(ops, pal)), steps)
      ensures Transmitted(old(pal.sent), old(log), pal.sent, log)
    {
      hide *;
      if fault {
        now, steps := 0, [];
        PassStart(S(ops, pal), 0);
        NothingSent(pal.sent, log);
      } else {
        now, steps := ProcessActiveOps(ops, pal);
      }
    }

    // ------------------------------------------------------------- user calls

    /** Queues a write of a value. */
    method QueueWrite(ops: array<Op>, i: nat, alias: seq<byte>, value: seq<byte>, ghost pal: Pal)
      requires i < ops.Length
      modifies this`log, ops
      ensures ops[i] == old(ops[i]).(kind := Write, state := New, alias := alias, value := value, valueMax := 0, mid := 0)
      ensures forall j :: 0 <= j < ops.Length && j != i ==> ops[j] == old(ops[j])
      ensures log == old(log) + [Queued(i, old(ops[i]).retries, old(ops[i]).obsSeq)]
      ensures S(ops, pal) == Apply(old(S(ops, pal)), UserStep(i, CallWrite(alias, value)))
    {
      ops[i] := ops[i].(kind := Write, state := New, alias := alias, value := value, valueMax := 0, mid := 0);
      log := log + [QueuedEvent(i, ops[i])];
    }

    /** Queues a read into a buffer of at least valueMax bytes. */
    method QueueRead(ops: array<Op>, i: nat, alias: seq<byte>, value: seq<byte>, valueMax: nat, ghost pal: Pal)
      requires i < ops.Length && 1 <= valueMax <= |value|
      modifies this`log, ops
      ensures ops[i] == old(ops[i]).(kind := Read, state := New, alias := alias, value := value, valueMax := valueMax, mid := 0)
      ensures forall j :: 0 <= j < ops.Length && j != i ==> ops[j] == old(ops[j])
      ensures log == old(log) + [Queued(i, old(ops[i]).retries, old(ops[i]).obsSeq)]
      ensures S(ops, pal) == Apply(old(S(ops, pal)), UserStep(i, CallRead(alias, value, valueMax)))
    {
      ops[i] := ops[i].(kind := Read, state := New, alias := alias, value := value, valueMax := valueMax, mid := 0);
      log := log + [QueuedEvent(i, ops[i])];
    }

    /** Queues a subscription that delivers into such a buffer. */
    method QueueSubscribe(ops: array<Op>, i: nat, alias: seq<byte>, value: seq<byte>, valueMax: nat, ghost pal: Pal)
      requires i < ops.Length && 1 <= valueMax <= |value|
      modifies this`log, ops
      ensures ops[i] == old(ops[i]).(kind := Subscribe, state := New, alias := alias, value := value, valueMax := valueMax, mid := 0)
      ensures forall j :: 0 <= j < ops.Length && j != i ==> ops[j] == old(ops[j])
      ensures log == old(log) + [Queued(i, old(ops[i]).retries, old(ops[i]).obsSeq)]
      ensures S(ops, pal) == Apply(old(S(ops, pal)), UserStep(i, CallSubscribe(alias, value, valueMax)))
    {
      ops[i] := ops[i].(kind := Subscribe, state := New, alias := alias, value := value, valueMax := valueMax, mid := 0);
      log := log + [QueuedEvent(i, ops[i])];
    }

    method InitOp(ops: array<Op>, i: nat, ghost pal: Pal)
      requires i < ops.Length
      modifies ops
      ensures ops[i] == Op(NullOp, Idle, [], [], 0, 0, 0, 0, 0, 0, 0)
      ensures forall j :: 0 <= j < ops.Length && j != i ==> ops[j] == old(ops[j])
      ensures S(ops, pal) == Apply(old(S(ops, pal)), UserStep(i, CallInit))
    {
      ops[i] := OpInit();
    }

    /** The user has taken the result of an operation: a subscription goes on
        waiting, anything else becomes free. It is a step of the machine if the
        operation was finished. */
    method DoneOp(ops: array<Op>, i: nat, ghost pal: Pal)
      requires i < ops.Length
      modifies ops
      ensures ops[i] == if old(ops[i]).kind == Subscribe then old(ops[i]).(state := Subscribed)
                        else Op(NullOp, Idle, [], [], 0, 0, 0, 0, 0, 0, 0)
      ensures S(ops, pal) == old(S(ops, pal)).(ops := old(ops[..])[i := ops[i]])
      ensures old(Finished(ops[i])) ==> S(ops, pal) == Apply(old(S(ops, pal)), UserStep(i, CallDone))
    {
      ops[i] := if ops[i].kind == Subscribe then ops[i].(state := Subscribed) else OpInit();
    }
  }
}

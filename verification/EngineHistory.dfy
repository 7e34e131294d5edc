/** The history of one operation, computed from the log, and the invariant that
    ties every operation to its history. */
module EngineHistory {
  import opened Bytes
  import opened CoapFormat
  import opened ObserveSeq
  import opened Requests
  import opened RequestKey
  import opened EngineModel

  /** What happened to an operation since it was last queued: the retry count
      it started from, when its request was first and last sent and how often,
      which request of the run the first was, the packet that was sent and the key that
      went into it, the message id of that packet or of a notification accepted since,
      the message ids of the notifications accepted and of the
      acknowledgements sent, the last Observe value if it is known to be what
      the operation stores, and when it was given up. */
  datatype History = History(retries0: nat, first: nat, last: nat, sends: nat, stamp: nat,
                             original: seq<byte>, key: seq<byte>, mid: u16,
                             accepted: seq<u16>, acked: seq<u16>,
                             seqKnown: bool, lastSeq: seq<byte>, gaveUp: Option<nat>)

  /** How many requests were built, sent successfully or not. */
  function Built(log: seq<Event>): nat {
    if log == [] then 0
    else Built(log[..|log| - 1]) + (if log[|log| - 1].Request? then 1 else 0)
  }

  /** The value is one the fold is defined for. */
  predicate Foldable(observe: Option<seq<byte>>) {
    observe.Some? && |observe.value| <= 4
  }

  /** A response to a renewed subscription was folded onto a known number, and
      the old number left no trace. */
  predicate Renewed(h: History, observe: Option<seq<byte>>) {
    h.seqKnown && |h.lastSeq| <= 4 && Foldable(observe) && Forgets(Fold(0, h.lastSeq), observe.value)
  }

  function Note(h: History, e: Event, i: nat, requests: nat): History {
    match e
    case Queued(j, retries, obsSeq) =>
      if j == i then History(retries, 0, 0, 0, 0, [], [], 0, [], [], obsSeq == 0, [], None) else h
    case Request(j, retry, time, key, packet, ok) =>
      if j != i || !ok then h
      else if retry then h.(sends := h.sends + 1, last := time)
      else h.(sends := h.sends + 1, first := time, last := time, stamp := requests, original := packet, key := key,
              mid := MidOf(packet))
    case AckSent(j, packet, ok) =>
      if j == i && ok then h.(acked := h.acked + [MidOf(packet)]) else h
    case Notified(j, mid, observe) =>
      if j != i then h
      else h.(accepted := h.accepted + [mid], mid := mid, seqKnown := Foldable(observe),
              lastSeq := if Foldable(observe) then observe.value else [])
    case Observed(j, observe) =>
      if j != i then h
      else h.(seqKnown := Renewed(h, observe),
              lastSeq := if Foldable(observe) then observe.value else [])
    case GaveUp(j, now) => if j == i then h.(gaveUp := Some(now)) else h
    case ResetSent(_, _) => h
  }

  function HistoryOf(log: seq<Event>, i: nat): History {
    if log == [] then History(0, 0, 0, 0, 0, [], [], 0, [], [], false, [], None)
    else Note(HistoryOf(log[..|log| - 1], i), log[|log| - 1], i, Built(log[..|log| - 1]))
  }

  lemma LogAppend(log: seq<Event>, e: Event, i: nat)
    ensures Built(log + [e]) == Built(log) + (if e.Request? then 1 else 0)
    ensures HistoryOf(log + [e], i) == Note(HistoryOf(log, i), e, i, Built(log))
  {
    assert (log + [e])[..|log|] == log;
  }

  // ---------------------------------------------- what each operation keeps

  /** Which states go with which kinds of operation, and the memory behind the
      value pointer. */
  predicate TypeOk(op: Op) {
    && (op.kind == NullOp <==> op.state == Idle)
    && (op.state in {Subscribed, SubAck, SubAckNew} ==> op.kind == Subscribe)
    && (op.kind == Activate ==> op.state in {New, Pending, Error})
    && op.retries <= MAX_RETRANSMIT
    && op.tkl == 0
    && (op.kind in {Read, Subscribe} ==> 1 <= op.valueMax <= |op.value|)
  }

  /** 1 + 2 + ... + n. */
  function Triangle(n: nat): nat {
    if n == 0 then 0 else Triangle(n - 1) + n
  }

  predicate OneShot(op: Op) {
    op.kind in {Read, Write, Activate}
  }

  /** The least time, in microseconds, from the first transmission to the
      timeout after the retry count went from r0 to r. */
  function Patience(r0: nat, r: nat): int {
    ACK_WAIT + (Triangle(r) - Triangle(r0)) * SECOND
  }

  /** The longest time from a transmission to the timeout: four seconds after
      the first, and after a retransmission one second per retry and less than
      one and a half more. */
  function LongestWait(sends: nat, retries: nat): nat {
    if sends <= 1 then ACK_WAIT else retries * SECOND + (JITTER - 1)
  }

  /** How often a one-shot operation was transmitted, and how long it waits. */
  predicate SendOk(op: Op, h: History) {
    OneShot(op) ==>
      && h.retries0 <= op.retries
      && (op.state == New ==> h.sends == 0 && op.retries == h.retries0 && h.gaveUp.None?)
      && (op.state == Pending ==>
            && h.sends == 1 + op.retries - h.retries0
            && h.gaveUp.None?
            && op.timeout >= h.first + Patience(h.retries0, op.retries)
            && h.last <= op.timeout <= h.last + LongestWait(h.sends, op.retries))
      && h.sends <= 1 + MAX_RETRANSMIT - h.retries0
      && (h.gaveUp.Some? ==>
            && op.state == Error && h.sends == 1 + MAX_RETRANSMIT - h.retries0
            && h.gaveUp.value >= h.first + Patience(h.retries0, MAX_RETRANSMIT))
  }

  /** The message-id counter after n requests. */
  predicate CounterAt(counter: u16, seed: u16, n: nat) {
    counter == (seed + n) % 0x1_0000
  }

  /** A pending operation holds the message id its request was built with. */
  predicate MidOk(op: Op, h: History, requests: nat, seed: u16) {
    op.state == Pending ==> h.stamp < requests && CounterAt(op.mid, seed, h.stamp)
  }

  /** The notifications accepted are those acknowledged, and the one that the
      operation still owes an acknowledgement for. */
  predicate AckOk(op: Op, h: History) {
    op.kind == Subscribe ==>
      h.accepted == h.acked + (if op.state == SubAck || op.state == SubAckNew then [op.mid] else [])
  }

  /** Messages can come for it: its request is out, or it is a subscription that
      is not about to be sent. */
  predicate Listens(op: Op) {
    op.state == Pending || (op.kind == Subscribe && op.state != New)
  }

  /** An operation that messages can come for has the token that the packet
      first sent for it carries, and the message id of that packet or of a
      notification accepted since. */
  predicate AddressOk(op: Op, h: History) {
    Listens(op) ==> |h.original| >= 6 && op.token == TokenOf(h.original) && op.mid == h.mid
  }

  predicate SeqOk(op: Op, h: History) {
    op.kind == Subscribe && h.seqKnown ==> |h.lastSeq| <= 4 && op.obsSeq == Fold(0, h.lastSeq)
  }

  /** The packet first sent for a pending operation is the request built from
      the operation as it still is, and from the key of that time. */
  predicate OriginalOk(op: Op, h: History, dev: Device) {
    op.state == Pending ==>
      && |h.key| == CIK_LENGTH
      && h.original == RequestBytes(op.kind, op.mid, op.token, ArgsOf(dev.(cik := h.key), op))
  }

  predicate SameNames(dev: Device, dev': Device) {
    dev'.vendor == dev.vendor && dev'.model == dev.model && dev'.serial == dev.serial
  }

  predicate OpOk(op: Op, h: History, requests: nat, seed: u16) {
    TypeOk(op) && SendOk(op, h) && MidOk(op, h, requests, seed) && AckOk(op, h) && SeqOk(op, h) && AddressOk(op, h)
  }

  /** The invariant of every reachable state. */
  ghost predicate Inv(s: State, seed: u16) {
    && s.ops != []
    && |s.dev.cik| == CIK_LENGTH
    && CounterAt(s.dev.counter, seed, Built(s.log))
    && (forall i :: 0 <= i < |s.ops| ==> OpOk(s.ops[i], HistoryOf(s.log, i), Built(s.log), seed))
    && (forall i :: 0 <= i < |s.ops| ==> OriginalOk(s.ops[i], HistoryOf(s.log, i), s.dev))
    && (forall i, j :: 0 <= i < j < |s.ops| && s.ops[i].state == Pending && s.ops[j].state == Pending ==>
          HistoryOf(s.log, i).stamp != HistoryOf(s.log, j).stamp)
  }

  // --------------------------------------------------- each step keeps it

  lemma CallOk(op: Op, h: History, i: nat, c: Call, built: nat, seed: u16)
    requires OpOk(op, h, built, seed) && CallAllowed(op, c)
    ensures var op' := OnCall(op, c);
            && op'.state != Pending
            && OpOk(op', if op'.state == New then Note(h, QueuedEvent(i, op'), i, built) else h, built, seed)
  {
    hide Fold, Forgets, CounterAt, Patience, LongestWait;
    FoldNil(0);
  }

  lemma ActivateOk(op: Op, h: History, i: nat, built: nat, seed: u16)
    requires TypeOk(op)
    ensures OpOk(ActivateOp(op), Note(h, QueuedEvent(i, op), i, built), built, seed)
  {
  }

  /** What a matched message leaves. */
  lemma MatchOk(op: Op, h: History, i: nat, m: Message, e: RxEnv, built: nat, seed: u16)
    requires OpOk(op, h, built, seed) && Matches(op, m) && m.typ <= 3
    ensures var eff := OnMatch(op, i, m, e);
            && (eff.op.state == Pending ==> op.state == Pending)
            && OpOk(eff.op, if eff.event.Some? then Note(h, eff.event.value, i, built) else h, built, seed)
            && (eff.event.Some? ==> eff.event.value.Notified? || eff.event.value.Observed?)
  {
    hide Fold, Forgets, ObserveBytes, FreshUntil, Patience, LongestWait, Store, Cleared, LittleEndianValue;
    if m.typ == CON || m.typ == NON {
      NotificationOk(op, h, i, m, e, built, seed);
    } else if m.typ == ACK {
      ResponseOk(op, h, i, m, e, built, seed);
    }
  }

  lemma NotificationOk(op: Op, h: History, i: nat, m: Message, e: RxEnv, built: nat, seed: u16)
    requires OpOk(op, h, built, seed) && op.state == Subscribed
    ensures var eff := OnNotification(op, i, m, e);
            && eff.op.state != Pending
            && OpOk(eff.op, if eff.event.Some? then Note(h, eff.event.value, i, built) else h, built, seed)
            && (eff.event.Some? ==> eff.event.value.Notified?)
  {
    hide Fold, Forgets, ObserveBytes, FreshUntil, Patience, LongestWait, Store, Cleared, CounterAt, CodeClass, TooLong;
  }

  lemma ResponseOk(op: Op, h: History, i: nat, m: Message, e: RxEnv, built: nat, seed: u16)
    requires OpOk(op, h, built, seed) && op.state == Pending
    ensures var eff := OnResponse(op, i, m, e);
            && OpOk(eff.op, if eff.event.Some? then Note(h, eff.event.value, i, built) else h, built, seed)
            && (eff.event.Some? ==> eff.event.value.Observed?)
  {
    if op.kind == Subscribe {
      SubscriptionOk(op, h, i, m, e, built, seed);
    } else {
      hide Fold, ObserveBytes, FreshUntil, Patience, LongestWait, Store, Cleared, CounterAt, CodeClass, TooLong, SequenceFrom, Renewed;
    }
  }

  /** A response to a subscription. */
  lemma SubscriptionOk(op: Op, h: History, i: nat, m: Message, e: RxEnv, built: nat, seed: u16)
    requires OpOk(op, h, built, seed) && op.state == Pending && op.kind == Subscribe
    ensures var eff := OnResponse(op, i, m, e);
            && OpOk(eff.op, if eff.event.Some? then Note(h, eff.event.value, i, built) else h, built, seed)
            && (eff.event.Some? ==> eff.event.value.Observed?)
  {
    RenewedSeq(op, h, ObserveBytes(m), e.wild);
    hide Fold, ObserveBytes, FreshUntil, SendOk, Store, Cleared, CounterAt, CodeClass, TooLong, SequenceFrom, Renewed;
    SubscriptionSends();
  }

  /** The bounds on transmissions are about other operations. */
  lemma SubscriptionSends()
    ensures forall op': Op, h': History :: op'.kind == Subscribe ==> SendOk(op', h')
  {
  }

  lemma RenewedSeq(op: Op, h: History, observe: Option<seq<byte>>, wild: u32)
    requires op.kind == Subscribe ==> SeqOk(op, h)
    ensures Renewed(h, observe) ==> Foldable(observe)
    ensures op.kind == Subscribe && Renewed(h, observe) ==> SequenceFrom(op.obsSeq, observe, wild) == Fold(0, observe.value)
  {
    if Renewed(h, observe) {
      FoldOntoOld(Fold(0, h.lastSeq), observe.value);
    }
    hide Fold, Forgets;
  }

  lemma AckMid(mid: u16)
    ensures MidOf(Encode(AckFor(mid))) == mid
  {
    HeaderFields(AckFor(mid));
    EncodeLayout(AckFor(mid));
    hide Encode, Header;
  }

  lemma PatienceStep(r0: nat, r: nat)
    ensures Patience(r0, r + 1) == Patience(r0, r) + (r + 1) * SECOND
  {
  }

  lemma PatienceStart(r: nat)
    ensures Patience(r, r) == ACK_WAIT
  {
  }

  /** One operation's turn in the active pass. */
  lemma TurnOk(dev: Device, op: Op, h: History, i: nat, e: TxEnv, built: nat, seed: u16)
    requires OpOk(op, h, built, seed) && e.now <= e.time && CounterAt(dev.counter, seed, built)
    ensures var eff := OnTurn(dev, op, i, e);
            var h' := if eff.event.Some? then Note(h, eff.event.value, i, built) else h;
            var built' := if Sends(op, e) then built + 1 else built;
            && OpOk(eff.op, h', built', seed)
            && (Sends(op, e) <==> eff.event.Some? && eff.event.value.Request?)
            && (eff.op.state == Pending ==> (op.state == Pending && h'.stamp == h.stamp) || h'.stamp == built)
  {
    PatienceStep(h.retries0, op.retries);
    PatienceStart(op.retries);
    AckMid(op.mid);
    hide Fold, Forgets, Patience, LongestWait, PacketOf, Encode, MidOf, OpOk;
    if Sends(op, e) {
      SendsOk(dev, op, h, i, e, built, seed);
    } else {
      QuietOk(dev, op, h, i, e, built, seed);
    }
  }

  ghost predicate SendsAddressed(dev: Device, op: Op, h: History, i: nat, e: TxEnv, built: nat) {
    var eff := OnTurn(dev, op, i, e);
    eff.event.Some? && AddressOk(eff.op, Note(h, eff.event.value, i, built))
  }

  lemma SendsAddress(dev: Device, op: Op, h: History, i: nat, e: TxEnv, built: nat)
    requires TypeOk(op) && AddressOk(op, h) && Sends(op, e)
    ensures SendsAddressed(dev, op, h, i, e, built)
  {
    if op.state == New {
      FirstPacket(dev, op, e);
    }
    hide PacketOf, MidOf, TokenOf, Backoff;
  }

  /** The message id and the token of a request sent for the first time. */
  lemma FirstPacket(dev: Device, op: Op, e: TxEnv)
    requires op.state == New
    ensures var p := PacketOf(dev, op, e);
            |p| >= 6 && MidOf(p) == dev.counter && TokenOf(p) == Low16(e.rand)
  {
    RequestFields(op.kind, dev.counter, e.rand, ArgsOf(dev, op));
    var p := PacketOf(dev, op, e);
    hide RequestBytes, RequestTail, RequestHead, LittleEndian;
    assert p[HEADER_SIZE..HEADER_SIZE + 2] == [p[4], p[5]];
    TokenValue(p[4], p[5]);
  }

  lemma TokenValue(a: byte, b: byte)
    ensures LittleEndianValue([a, b]) == a as int + 256 * b as int
  {
    assert [a, b][1..] == [b] && [b][1..] == [];
    assert LittleEndianValue([b]) == b as int + 256 * LittleEndianValue([]);
  }

  /** The operation and its history after a transmission. */
  ghost predicate SentOk(dev: Device, op: Op, h: History, i: nat, e: TxEnv, built: nat, seed: u16) {
    var eff := OnTurn(dev, op, i, e);
    && eff.event.Some? && eff.event.value.Request?
    && var h' := Note(h, eff.event.value, i, built);
    && OpOk(eff.op, h', built + 1, seed)
    && (eff.op.state == Pending ==> (op.state == Pending && h'.stamp == h.stamp) || h'.stamp == built)
  }

  lemma SendsOk(dev: Device, op: Op, h: History, i: nat, e: TxEnv, built: nat, seed: u16)
    requires OpOk(op, h, built, seed) && e.now <= e.time && CounterAt(dev.counter, seed, built) && Sends(op, e)
    ensures SentOk(dev, op, h, i, e, built, seed)
  {
    SendsAddress(dev, op, h, i, e, built);
    if op.state == New {
      FirstOk(dev, op, h, i, e, built, seed);
    } else {
      AgainOk(dev, op, h, i, e, built, seed);
    }
    hide *;
  }

  /** The first transmission. */
  lemma FirstOk(dev: Device, op: Op, h: History, i: nat, e: TxEnv, built: nat, seed: u16)
    requires OpOk(op, h, built, seed) && CounterAt(dev.counter, seed, built) && op.state == New && op.kind != NullOp
    requires SendsAddressed(dev, op, h, i, e, built)
    ensures SentOk(dev, op, h, i, e, built, seed)
  {
    PatienceStart(op.retries);
    hide Fold, Forgets, Patience, PacketOf, CounterAt, MidOf, TokenOf, AddressOk;
  }

  /** A retransmission. */
  lemma AgainOk(dev: Device, op: Op, h: History, i: nat, e: TxEnv, built: nat, seed: u16)
    requires OpOk(op, h, built, seed) && e.now <= e.time && Resends(op, e)
    requires SendsAddressed(dev, op, h, i, e, built)
    ensures SentOk(dev, op, h, i, e, built, seed)
  {
    PatienceStep(h.retries0, op.retries);
    hide Fold, Forgets, Patience, PacketOf, CounterAt, MidOf, TokenOf, AddressOk;
  }

  lemma QuietOk(dev: Device, op: Op, h: History, i: nat, e: TxEnv, built: nat, seed: u16)
    requires OpOk(op, h, built, seed) && !Sends(op, e)
    ensures var eff := OnTurn(dev, op, i, e);
            && (eff.event.Some? ==> !eff.event.value.Request?)
            && OpOk(eff.op, if eff.event.Some? then Note(h, eff.event.value, i, built) else h, built, seed)
            && (eff.op.state == Pending ==> op.state == Pending)
            && (eff.event.Some? ==> Note(h, eff.event.value, i, built).stamp == h.stamp)
  {
    AckMid(op.mid);
    hide Fold, Forgets, Patience, LongestWait, PacketOf, Encode, MidOf;
  }

  /** Events about another operation, or more requests built, change nothing. */
  lemma OtherOk(op: Op, h: History, i: nat, e: Event, built: nat, seed: u16)
    requires OpOk(op, h, built, seed)
    requires match e
             case Queued(j, _, _) => j != i
             case Request(j, _, _, _, _, _) => j != i
             case AckSent(j, _, _) => j != i
             case Notified(j, _, _) => j != i
             case Observed(j, _) => j != i
             case GaveUp(j, _) => j != i
             case ResetSent(_, _) => true
    ensures Note(h, e, i, built) == h
    ensures OpOk(op, h, built + (if e.Request? then 1 else 0), seed)
  {
    hide Fold, Forgets, Patience, LongestWait;
  }

  // -------------------------------------------------- the packet first sent

  /** A request for anything but a write does not depend on the value buffer. */
  lemma ValueUnused(kind: Kind, mid: u16, rnd: nat, a: Args, value: seq<byte>)
    requires kind != Write
    ensures RequestBytes(kind, mid, rnd, a.(value := value)) == RequestBytes(kind, mid, rnd, a)
  {
    assert RequestOptions(kind, a.(value := value)) == RequestOptions(kind, a);
    hide OfferAll, RequestOptions, Encode;
  }

  /** Only the low two bytes of the random number are used. */
  lemma TokenUsed(kind: Kind, mid: u16, rnd: nat, a: Args)
    ensures RequestBytes(kind, mid, Low16(rnd), a) == RequestBytes(kind, mid, rnd, a)
  {
    LittleEndianMod(rnd);
    assert RequestHead(kind, mid, Low16(rnd)) == RequestHead(kind, mid, rnd);
    hide OfferAll, RequestOptions, Encode, LittleEndian;
  }

  lemma OriginalFrame(op: Op, h: History, dev: Device, dev': Device)
    requires OriginalOk(op, h, dev) && SameNames(dev, dev')
    ensures OriginalOk(op, h, dev')
  {
    hide RequestBytes;
  }

  /** A matched message leaves a pending operation's request as it was. */
  lemma MatchOriginal(op: Op, h: History, dev: Device, i: nat, m: Message, e: RxEnv, built: nat)
    requires OriginalOk(op, h, dev) && Matches(op, m)
    ensures var eff := OnMatch(op, i, m, e);
            OriginalOk(eff.op, if eff.event.Some? then Note(h, eff.event.value, i, built) else h, dev)
  {
    hide RequestBytes, Fold, Forgets, ObserveBytes, FreshUntil, Store, Cleared, LittleEndianValue, Renewed;
    if op.kind != Write {
      ValueUnused(op.kind, op.mid, op.token, ArgsOf(dev.(cik := h.key), op), Cleared(op.value));
    }
  }

  lemma TurnOriginal(dev: Device, op: Op, h: History, i: nat, e: TxEnv, built: nat)
    requires OriginalOk(op, h, dev) && |dev.cik| == CIK_LENGTH
    ensures var eff := OnTurn(dev, op, i, e);
            OriginalOk(eff.op, if eff.event.Some? then Note(h, eff.event.value, i, built) else h, dev)
  {
    hide RequestBytes, RetransmitBytes, Fold, Forgets, Encode, Renewed;
    TokenUsed(op.kind, dev.counter, e.rand, ArgsOf(dev, op));
  }
}

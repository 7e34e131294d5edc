/** What a received message does to the engine, stated by the message's own
    fields, by the packets in the log, and by plain numbers. */
module EngineReception {
  import opened Bytes
  import opened CoapFormat
  import opened MessageEdits
  import opened OptionLookup
  import opened ObserveSeq
  import opened Requests
  import opened RequestKey
  import opened EngineModel
  import opened EngineHistory
  import opened EngineRuns
  import opened EngineTheorems
  import opened EngineReads

  // ------------------------------------------------------- whom it is for

  /** The message is for this operation, by the packet first sent for it: a
      notification (type 0 or 1) if the operation is subscribed and that packet
      carries its token; a response (type 2) if the operation is pending and
      that packet carries its message id; a reset (type 3) if the operation is
      either, the packet carries its token, and its message id is that of the
      packet or of a notification accepted since. */
  predicate Addressed(op: Op, h: History, m: Message) {
    if m.typ <= 1 then op.state == Subscribed && TokenOf(h.original) == LittleEndianValue(m.token)
    else if m.typ == 2 then op.state == Pending && MidOf(h.original) == m.mid
    else
      && (op.state == Pending || op.state == Subscribed)
      && h.mid == m.mid && TokenOf(h.original) == LittleEndianValue(m.token)
  }

  ghost predicate AddressedAt(t: State, m: Message, i: nat) {
    i < |t.ops| && Addressed(t.ops[i], HistoryOf(t.log, i), m)
  }

  /** The lowest-indexed operation that the message is for, or the number of
      operations if it is for none. */
  ghost predicate Addressee(t: State, m: Message, i: nat) {
    i <= |t.ops| && (i < |t.ops| ==> AddressedAt(t, m, i)) && forall j: nat :: j < i ==> !AddressedAt(t, m, j)
  }

  lemma MatchesAddressed(t: State, seed: u16, m: Message, i: nat)
    requires Inv(t, seed) && i < |t.ops| && m.typ <= 3
    ensures Matches(t.ops[i], m) <==> AddressedAt(t, m, i)
    ensures t.ops[i].state == Pending ==> HistoryOf(t.log, i).mid == MidOf(HistoryOf(t.log, i).original)
  {
    var op, h := t.ops[i], HistoryOf(t.log, i);
    assert OpOk(op, h, Built(t.log), seed);
    if op.state == Pending {
      PendingPacket(t, seed, i);
    }
    hide Inv, HistoryOf, Built, SendOk, MidOk, AckOk, SeqOk, LittleEndianValue, TokenOf, MidOf;
  }

  /** A message is dispatched to its addressee. */
  lemma Dispatched(t: State, seed: u16, m: Message, i: nat)
    requires Inv(t, seed) && m.typ <= 3
    ensures FirstMatch(t.ops, m, 0) == i <==> Addressee(t, m, i)
  {
    forall j: nat | j < |t.ops|
      ensures Matches(t.ops[j], m) <==> AddressedAt(t, m, j)
    {
      MatchesAddressed(t, seed, m, j);
    }
    hide Inv, AddressedAt, Matches;
    var f := FirstMatch(t.ops, m, 0);
    assert f < |t.ops| ==> Matches(t.ops[f], m);
    assert Addressee(t, m, i) && i < |t.ops| ==> Matches(t.ops[i], m);
  }

  /** In every run, a message is first matched with operation i exactly if i is
      its addressee. So if it is for one operation alone it goes there, and if it
      is for none it is matched with none. */
  lemma MessagesAddressed(s: State, steps: seq<Step>, m: Message, i: nat)
    requires Initial(s) && IsRun(s, steps) && ValidMessage(m)
    ensures var t := After(s, steps);
            && (FirstMatch(t.ops, m, 0) == i <==> Addressee(t, m, i))
            && (AddressedAt(t, m, i) && (forall j: nat :: AddressedAt(t, m, j) ==> j == i) ==> FirstMatch(t.ops, m, 0) == i)
            && ((forall j: nat :: !AddressedAt(t, m, j)) ==> FirstMatch(t.ops, m, 0) == |t.ops|)
  {
    RunInv(s, steps);
    var t := After(s, steps);
    assert m.typ <= 3;
    hide Inv, IsRun, After, AddressedAt, FirstMatch, ValidMessage;
    Dispatched(t, s.dev.counter, m, i);
    Dispatched(t, s.dev.counter, m, |t.ops|);
    assert AddressedAt(t, m, i) ==> i < |t.ops| by {
      AddressedIndex(t, m, i);
    }
  }

  lemma AddressedIndex(t: State, m: Message, i: nat)
    ensures AddressedAt(t, m, i) ==> i < |t.ops|
  {
    hide Addressed;
  }

  /** No two subscriptions were sent with the same token. */
  ghost predicate DistinctTokens(t: State) {
    forall i, j :: 0 <= i < j < |t.ops| && t.ops[i].state == Subscribed && t.ops[j].state == Subscribed ==>
      TokenOf(HistoryOf(t.log, i).original) != TokenOf(HistoryOf(t.log, j).original)
  }

  /** In every run in which no two subscriptions were sent with the same token, a
      notification goes to the subscription whose logged request carries its
      token, and to no other; and in every run, one whose token is that of no
      subscription goes to none. */
  lemma NotificationAddressee(s: State, steps: seq<Step>, i: nat, op: Op, h: History, m: Message)
    requires Reached(s, steps, i, op, h) && ValidMessage(m) && m.typ <= 1
    ensures var t := After(s, steps);
            && (DistinctTokens(t) && op.state == Subscribed && TokenOf(h.original) == LittleEndianValue(m.token) ==>
                  FirstMatch(t.ops, m, 0) == i)
            && (FirstMatch(t.ops, m, 0) == i ==> op.state == Subscribed && TokenOf(h.original) == LittleEndianValue(m.token))
            && ((forall j :: 0 <= j < |t.ops| && t.ops[j].state == Subscribed ==>
                   TokenOf(HistoryOf(t.log, j).original) != LittleEndianValue(m.token)) ==>
                  FirstMatch(t.ops, m, 0) == |t.ops|)
  {
    ReachedInv(s, steps, i, op, h);
    var t := After(s, steps);
    hide Reached, IsRun, After, Inv, HistoryOf, TokenOf, LittleEndianValue, FirstMatch;
    MessagesAddressed(s, steps, m, i);
    if DistinctTokens(t) && op.state == Subscribed && TokenOf(h.original) == LittleEndianValue(m.token) {
      forall j: nat | AddressedAt(t, m, j)
        ensures j == i
      {
        assert t.ops[i].state == Subscribed && t.ops[j].state == Subscribed;
      }
    }
  }

  // ---------------------------------------------- what it does to that one

  /** The string at the start of the buffer, a NUL behind it, and the rest as it
      was. */
  predicate Filled(value: seq<byte>, value': seq<byte>, s: seq<byte>) {
    && |value'| == |value| > |s|
    && value'[..|s|] == s && value'[|s|] == 0 && value'[|s| + 1..] == value[|s| + 1..]
  }

  /** Option k is the first of that number, in a message whose options do not
      start with number 0. */
  predicate FirstOption(m: Message, num: nat, k: nat) {
    && k < |m.options| && m.options[0].num != 0 && m.options[k].num == num
    && forall j :: 0 <= j < k ==> m.options[j].num != num
  }

  /** Max-Age in seconds: the first option numbered 14 if it is a single byte,
      and otherwise 120. */
  ghost predicate AgeIs(m: Message, age: nat) {
    && (forall k: nat :: FirstOption(m, 14, k) && |m.options[k].value| == 1 ==> age == m.options[k].value[0] as int)
    && ((forall k: nat :: FirstOption(m, 14, k) ==> |m.options[k].value| != 1) ==> age == 120)
  }

  /** The value stays fresh for Max-Age and less than 1.5 seconds more. */
  ghost predicate FreshFor(timeout: nat, m: Message, e: RxEnv) {
    exists age: nat :: AgeIs(m, age) && timeout == e.time + 1000000 * age + e.rand % 1500000
  }

  /** The bytes taken for the Observe value of a message with a payload: the
      first option numbered 6; without one, nothing if there is a later option;
      but the payload if there is no option at all, and the first option if that
      is numbered 0. */
  ghost predicate ObserveIs(m: Message, v: seq<byte>) {
    if m.options == [] then v == m.payload
    else if m.options[0].num == 0 then v == m.options[0].value
    else if exists k: nat :: FirstOption(m, 6, k) then forall k: nat :: FirstOption(m, 6, k) ==> v == m.options[k].value
    else v == [] && exists k :: 0 <= k < |m.options| && m.options[k].num > 6
  }

  /** The number that these bytes give when they are folded onto start. */
  ghost predicate NumberIs(start: u32, number: u32, m: Message) {
    forall v :: ObserveIs(m, v) && |v| <= 4 ==> number == Fold(start, v)
  }

  /** What a payload does to the buffer: an empty one leaves an empty string and
      the state as it is, too long a one is an error and leaves the buffer
      alone, and any other is taken over with a NUL. */
  predicate PayloadTaken(op: Op, op': Op, payload: seq<byte>) {
    if payload == [] then op.value != [] && op' == op.(value := op.value[0 := 0])
    else if |payload| + 1 > op.valueMax then op' == op.(state := Error)
    else Filled(op.value, op'.value, payload)
  }

  predicate Fitting(op: Op, payload: seq<byte>) {
    payload != [] && |payload| + 1 <= op.valueMax
  }

  /** A notification for a subscription. Code 69 is 2.05. */
  ghost predicate NotificationTaken(op: Op, op': Op, m: Message, e: RxEnv) {
    if m.code == 69 then
      && PayloadTaken(op, op', m.payload)
      && (Fitting(op, m.payload) ==>
            && op' == op.(value := op'.value, mid := m.mid, obsSeq := op'.obsSeq, timeout := op'.timeout,
                          state := if op'.obsSeq != op.obsSeq then SubAckNew else SubAck)
            && NumberIs(0, op'.obsSeq, m) && FreshFor(op'.timeout, m, e))
    else op' == if m.code as int / 32 != 2 then op.(state := Error) else op
  }

  /** A response to a pending request. */
  ghost predicate ResponseTaken(op: Op, op': Op, m: Message, e: RxEnv) {
    if m.code as int / 32 != 2 then op' == op.(state := Error)
    else match op.kind
      case Write => op' == op.(state := Success)
      case Read =>
        PayloadTaken(op, op', m.payload) && (Fitting(op, m.payload) ==> op' == op.(value := op'.value, state := Success))
      case Subscribe =>
        && PayloadTaken(op, op', m.payload)
        && (Fitting(op, m.payload) ==>
              && op' == op.(value := op'.value, obsSeq := op'.obsSeq, timeout := op'.timeout, state := Success)
              && NumberIs(op.obsSeq, op'.obsSeq, m) && FreshFor(op'.timeout, m, e))
      case Activate => op' == Op(NullOp, Idle, [], [], 0, 0, 0, 0, 0, 0, 0)
      case NullOp => op' == op
  }

  /** A message for an operation; a reset makes it fail. */
  ghost predicate Taken(op: Op, op': Op, m: Message, e: RxEnv) {
    if m.typ <= 1 then NotificationTaken(op, op', m, e)
    else if m.typ == 2 then ResponseTaken(op, op', m, e)
    else op' == op.(state := Error)
  }

  lemma FoundFirst(m: Message, num: nat)
    ensures var found := Indices(m.options, num);
            forall k: nat :: FirstOption(m, num, k) ==> !StartsWithZero(m) && found != [] && found[0] == k
    ensures var found := Indices(m.options, num);
            !StartsWithZero(m) && found != [] ==> FirstOption(m, num, found[0])
  {
    var found := Indices(m.options, num);
    IndicesExact(m.options, num);
    hide Indices;
    forall k: nat | FirstOption(m, num, k)
      ensures !StartsWithZero(m) && found != [] && found[0] == k
    {
      assert k in found;
      assert m.options[found[0]].num == num;
    }
    if !StartsWithZero(m) && found != [] {
      forall j | 0 <= j < found[0]
        ensures m.options[j].num != num
      {
        assert j !in found;
      }
    }
  }

  lemma AgeExact(m: Message)
    ensures AgeIs(m, MaxAge(m))
  {
    FoundFirst(m, 14);
    hide Indices;
  }

  lemma FreshExact(m: Message, e: RxEnv)
    ensures FreshFor(FreshUntil(m, e), m, e)
  {
    AgeExact(m);
    hide MaxAge, AgeIs;
  }

  lemma ObserveExact(m: Message, v: seq<byte>)
    requires m.payload != []
    ensures ObserveIs(m, v) <==> ObserveBytes(m) == Some(v)
  {
    FoundFirst(m, 6);
    hide Indices, InsertAt, FirstOption;
  }

  lemma NumberExact(start: u32, m: Message, wild: u32)
    requires m.payload != []
    ensures NumberIs(start, SequenceFrom(start, ObserveBytes(m), wild), m)
  {
    forall v | ObserveIs(m, v)
      ensures ObserveBytes(m) == Some(v)
    {
      ObserveExact(m, v);
    }
    hide ObserveBytes, ObserveIs, Fold;
  }

  lemma StoreFills(value: seq<byte>, s: seq<byte>)
    requires |s| + 1 <= |value|
    ensures Filled(value, Store(value, s), s)
  {
  }

  lemma NotificationExact(op: Op, i: nat, m: Message, e: RxEnv)
    requires TypeOk(op) && op.kind == Subscribe
    ensures NotificationTaken(op, OnNotification(op, i, m, e).op, m, e)
  {
    if m.code == 69 && Fitting(op, m.payload) {
      StoreFills(op.value, m.payload);
      NumberExact(0, m, e.wild);
      FreshExact(m, e);
      NotificationFields(op, i, m, e);
      hide OnNotification, ObserveBytes, SequenceFrom, FreshUntil, FreshFor, NumberIs, Store, Filled;
    } else {
      hide ObserveBytes, SequenceFrom, FreshUntil, FreshFor, NumberIs, Store, Filled;
    }
  }

  lemma NotificationFields(op: Op, i: nat, m: Message, e: RxEnv)
    requires TypeOk(op) && op.kind == Subscribe && m.code == 69 && Fitting(op, m.payload)
    ensures var seqNo := SequenceFrom(0, ObserveBytes(m), e.wild);
            OnNotification(op, i, m, e).op
            == op.(value := Store(op.value, m.payload), mid := m.mid, obsSeq := seqNo, timeout := FreshUntil(m, e),
                   state := if seqNo != op.obsSeq then SubAckNew else SubAck)
  {
    hide ObserveBytes, SequenceFrom, FreshUntil, Store;
  }

  lemma ResponseExact(op: Op, i: nat, m: Message, e: RxEnv)
    requires TypeOk(op)
    ensures ResponseTaken(op, OnResponse(op, i, m, e).op, m, e)
  {
    if m.code as int / 32 == 2 && op.kind == Subscribe {
      SubscribeExact(op, i, m, e);
    } else if m.code as int / 32 == 2 && op.kind == Read {
      ReadExact(op, i, m, e);
    } else {
      hide ObserveBytes, SequenceFrom, FreshUntil, FreshFor, NumberIs, Store, Cleared, PayloadTaken, TooLong, Fitting;
    }
    hide *;
  }

  lemma ReadExact(op: Op, i: nat, m: Message, e: RxEnv)
    requires TypeOk(op) && op.kind == Read && m.code as int / 32 == 2
    ensures ResponseTaken(op, OnResponse(op, i, m, e).op, m, e)
  {
    if Fitting(op, m.payload) {
      StoreFills(op.value, m.payload);
    }
    hide ObserveBytes, SequenceFrom, FreshUntil, FreshFor, NumberIs, Store, Filled;
  }

  lemma SubscribeExact(op: Op, i: nat, m: Message, e: RxEnv)
    requires TypeOk(op) && op.kind == Subscribe && m.code as int / 32 == 2
    ensures ResponseTaken(op, OnResponse(op, i, m, e).op, m, e)
  {
    if Fitting(op, m.payload) {
      StoreFills(op.value, m.payload);
      NumberExact(op.obsSeq, m, e.wild);
      FreshExact(m, e);
      ResponseFields(op, i, m, e);
      hide OnResponse, ObserveBytes, SequenceFrom, FreshUntil, FreshFor, NumberIs, Store, Filled;
    } else {
      hide ObserveBytes, SequenceFrom, FreshUntil, FreshFor, NumberIs, Store, Filled;
    }
  }

  lemma ResponseFields(op: Op, i: nat, m: Message, e: RxEnv)
    requires TypeOk(op) && op.kind == Subscribe && m.code as int / 32 == 2 && Fitting(op, m.payload)
    ensures OnResponse(op, i, m, e).op
            == op.(value := Store(op.value, m.payload), obsSeq := SequenceFrom(op.obsSeq, ObserveBytes(m), e.wild),
                   timeout := FreshUntil(m, e), state := Success)
  {
    hide ObserveBytes, SequenceFrom, FreshUntil, Store;
  }

  lemma MatchTaken(op: Op, i: nat, m: Message, e: RxEnv)
    requires TypeOk(op) && Matches(op, m) && m.typ <= 3
    ensures Taken(op, OnMatch(op, i, m, e).op, m, e)
  {
    hide OnNotification, OnResponse, NotificationTaken, ResponseTaken, LittleEndianValue;
    if m.typ <= 1 {
      NotificationExact(op, i, m, e);
    } else if m.typ == 2 {
      ResponseExact(op, i, m, e);
    }
  }

  // -------------------------------------------------- the engine as a whole

  /** What a message for an operation does to the device: a success response to
      an activation with a payload of 40 bytes stores these as the key and makes
      the device good; so does the response 4.04, without a key; nothing else
      does anything. */
  predicate DeviceTaken(dev: Device, dev': Device, op: Op, m: Message) {
    dev' ==
      if m.typ == 2 && m.code as int / 32 == 2 && op.kind == Activate && |m.payload| == 40
      then dev.(state := Good, cik := m.payload)
      else if m.typ == 2 && m.code == 132 then dev.(state := Good)
      else dev
  }

  /** An operation queued for activation. */
  predicate ActivationQueued(op: Op, op': Op) {
    op' == op.(kind := Activate, state := New, alias := [], value := [], valueMax := 0, mid := 0)
  }

  /** The message is the response 4.01, and operation 0 is unused or past its
      timeout. */
  predicate Unauthorised(t: State, m: Message, e: RxEnv, i: nat)
    requires t.ops != []
  {
    m.typ == 2 && m.code == 129 && ((i != 0 && t.ops[0].kind == NullOp) || t.ops[0].timeout < e.time)
  }

  /** A reset that echoes message id and token of a message. */
  predicate ResetOf(packet: seq<byte>, m: Message) {
    Parse(packet) == Some(Message(3, 0, m.mid, m.token, [], []))
  }

  /** The state after a message for operation i, or for none. */
  ghost predicate Reception(t: State, m: Message, e: RxEnv, i: nat, t': State) {
    && t.ops != [] && |t'.ops| == |t.ops| && t'.clock == e.time
    && (forall j :: 1 <= j < |t.ops| && j != i ==> t'.ops[j] == t.ops[j])
    && if i >= |t.ops| then
         && t'.ops[0] == t.ops[0] && t'.dev == t.dev
         && (m.typ != 0 ==> t'.log == t.log)
         && (m.typ == 0 ==> exists p :: ResetOf(p, m) && t'.log == t.log + [ResetSent(p, e.ok)])
       else if Unauthorised(t, m, e, i) then
         && ActivationQueued(t.ops[0], t'.ops[0]) && t'.dev == t.dev
         && (i > 0 ==> t'.ops[i] == t.ops[i].(state := Error))
         && t'.log == t.log + [Queued(0, t.ops[0].retries, t.ops[0].obsSeq)]
       else
         && Taken(t.ops[i], t'.ops[i], m, e) && (i > 0 ==> t'.ops[0] == t.ops[0])
         && DeviceTaken(t.dev, t'.dev, t.ops[i], m)
         && t'.log == t.log + TakenEvents(t.ops[i], i, m)
  }

  /** What is logged: the message id and Observe value of a notification taken
      over, or the Observe value of a subscription's response. */
  function TakenEvents(op: Op, i: nat, m: Message): seq<Event> {
    if m.typ <= 1 && m.code == 69 && Fitting(op, m.payload) then [Notified(i, m.mid, ObserveBytes(m))]
    else if m.typ == 2 && m.code as int / 32 == 2 && op.kind == Subscribe && Fitting(op, m.payload)
    then [Observed(i, ObserveBytes(m))]
    else []
  }

  lemma MatchEvents(op: Op, i: nat, m: Message, e: RxEnv)
    requires TypeOk(op) && Matches(op, m) && m.typ <= 3
    ensures var ev := OnMatch(op, i, m, e).event;
            TakenEvents(op, i, m) == if ev.Some? then [ev.value] else []
  {
    hide ObserveBytes, Fold, FreshUntil, Store, Cleared, LittleEndianValue;
  }

  lemma MatchDeviceTaken(dev: Device, op: Op, m: Message)
    ensures DeviceTaken(dev, OnMatchDevice(dev, op, m), op, m)
  {
  }

  /** When activation is queued on operation 0. */
  lemma ReactivatesExact(t: State, m: Message, e: RxEnv, i: nat)
    requires i < |t.ops| && TypeOk(t.ops[i]) && Matches(t.ops[i], m)
    ensures var op := OnMatch(t.ops[i], i, m, e).op;
            && (Reactivates(t.ops[i := op][0], m, e) <==> Unauthorised(t, m, e, i))
            && (m.typ == 2 && m.code == 129 ==> op == t.ops[i].(state := Error))
  {
    hide OnNotification, LittleEndianValue;
  }

  /** In every state that a run leads to, a message does what is written above. */
  lemma Received(t: State, seed: u16, m: Message, e: RxEnv, i: nat)
    requires Inv(t, seed) && ValidMessage(m) && Addressee(t, m, i)
    ensures t.ops != [] && Reception(t, m, e, i, Receive(t, m, e))
  {
    assert m.typ <= 3 && t.ops != [];
    hide Inv, Addressee, ValidMessage;
    Dispatched(t, seed, m, i);
    if i == |t.ops| {
      ReceivedByNone(t, m, e);
    } else {
      AddresseeTyped(t, seed, m, i);
      ReceivedBy(t, m, e, i);
    }
  }

  lemma AddresseeTyped(t: State, seed: u16, m: Message, i: nat)
    requires Inv(t, seed) && i < |t.ops| && FirstMatch(t.ops, m, 0) == i
    ensures TypeOk(t.ops[i]) && Matches(t.ops[i], m)
  {
    hide HistoryOf, Built, SendOk, MidOk, AckOk, SeqOk, AddressOk, TypeOk, Matches;
    assert OpOk(t.ops[i], HistoryOf(t.log, i), Built(t.log), seed);
  }

  lemma ReceivedByNone(t: State, m: Message, e: RxEnv)
    requires t.ops != [] && ValidMessage(m) && FirstMatch(t.ops, m, 0) == |t.ops|
    ensures Reception(t, m, e, |t.ops|, Receive(t, m, e))
  {
    ParseOfEncode(ResetFor(m));
    hide Parse, Encode, FirstMatch;
    assert ResetOf(Encode(ResetFor(m)), m);
  }

  lemma ReceivedBy(t: State, m: Message, e: RxEnv, i: nat)
    requires ValidMessage(m) && m.typ <= 3 && i < |t.ops| && FirstMatch(t.ops, m, 0) == i
    requires TypeOk(t.ops[i]) && Matches(t.ops[i], m)
    ensures Reception(t, m, e, i, Receive(t, m, e))
  {
    ReceiveMatched(t, m, e, i);
    ReactivatesExact(t, m, e, i);
    MatchTaken(t.ops[i], i, m, e);
    MatchEvents(t.ops[i], i, m, e);
    MatchDeviceTaken(t.dev, t.ops[i], m);
    var t', op := Receive(t, m, e), OnMatch(t.ops[i], i, m, e).op;
    hide OnMatch, OnMatchDevice, FirstMatch, ValidMessage, TypeOk, Matches, Taken, DeviceTaken, TakenEvents, Receive, Reactivates, Unauthorised;
  }

  /** In every run, every message does what is written above: to the operation
      it is for by the packets in the log, to operation 0, to the device and to
      the log, and nothing else. */
  lemma MessageReceived(s: State, steps: seq<Step>, m: Message, e: RxEnv, i: nat)
    requires Initial(s) && IsRun(s, steps) && ValidMessage(m) && Addressee(After(s, steps), m, i)
    ensures var t := After(s, steps);
            t.ops != [] && Reception(t, m, e, i, Receive(t, m, e))
  {
    hide *;
    RunInv(s, steps);
    Received(After(s, steps), s.dev.counter, m, e, i);
  }

  /** The invariant of all runs, whatever message id they started from. */
  ghost predicate Sound(t: State) {
    exists seed: u16 :: Inv(t, seed)
  }

  /** The message did what it is to do, to the operation that it is for. */
  ghost predicate Understood(t: State, m: Message, e: RxEnv, t': State) {
    Sound(t) ==> exists i: nat :: Addressee(t, m, i) && Reception(t, m, e, i, t')
  }

  lemma AlwaysUnderstood(t: State, m: Message, e: RxEnv)
    requires t.ops != [] && ValidMessage(m)
    ensures Understood(t, m, e, Receive(t, m, e))
  {
    var i := FirstMatch(t.ops, m, 0);
    assert m.typ <= 3;
    hide Inv, FirstMatch, Receive, Addressee, Reception, ValidMessage;
    if Sound(t) {
      var seed: u16 :| Inv(t, seed);
      Dispatched(t, seed, m, i);
      Received(t, seed, m, e, i);
    }
  }

  /** Only operation i, the clock and the log changed. */
  lemma OnlyOne(t: State, m: Message, e: RxEnv, i: nat, t': State)
    requires Reception(t, m, e, i, t') && i < |t.ops| && m.typ <= 2 && m.code != 129 && m.code != 132
    requires !(m.typ == 2 && t.ops[i].kind == Activate)
    ensures |t'.ops| == |t.ops| && Taken(t.ops[i], t'.ops[i], m, e)
    ensures t' == t.(ops := t.ops[i := t'.ops[i]], clock := e.time, log := t.log + TakenEvents(t.ops[i], i, m))
  {
    hide Taken, TakenEvents;
    assert t'.ops == t.ops[i := t'.ops[i]];
  }

  lemma NotificationMeans(t: State, m: Message, e: RxEnv, i: nat, t': State)
    requires Reception(t, m, e, i, t') && i < |t.ops| && m.typ <= 1 && m.code == 69 && Fitting(t.ops[i], m.payload)
    ensures |t'.ops| == |t.ops|
    ensures t' == t.(ops := t.ops[i := t'.ops[i]], clock := e.time, log := t.log + [Notified(i, m.mid, ObserveBytes(m))])
    ensures var op, op' := t.ops[i], t'.ops[i];
            && Filled(op.value, op'.value, m.payload)
            && op'.mid == m.mid && OwesAck(op') && (op'.state == SubAckNew <==> op'.obsSeq != op.obsSeq)
            && NumberIs(0, op'.obsSeq, m) && FreshFor(op'.timeout, m, e)
            && op'.kind == op.kind && op'.alias == op.alias && op'.valueMax == op.valueMax
            && op'.token == op.token && op'.tkl == op.tkl && op'.retries == op.retries
  {
    hide Reception, Filled, NumberIs, FreshFor, ObserveBytes;
    OnlyOne(t, m, e, i, t');
  }

  lemma SubscriptionMeans(t: State, m: Message, e: RxEnv, i: nat, t': State)
    requires Reception(t, m, e, i, t') && i < |t.ops| && t.ops[i].kind == Subscribe
    requires m.typ == 2 && m.code as int / 32 == 2 && Fitting(t.ops[i], m.payload)
    ensures |t'.ops| == |t.ops|
    ensures t' == t.(ops := t.ops[i := t'.ops[i]], clock := e.time, log := t.log + [Observed(i, ObserveBytes(m))])
    ensures var op, op' := t.ops[i], t'.ops[i];
            && Filled(op.value, op'.value, m.payload) && op'.state == Success
            && NumberIs(op.obsSeq, op'.obsSeq, m) && FreshFor(op'.timeout, m, e)
            && op' == op.(value := op'.value, state := Success, obsSeq := op'.obsSeq, timeout := op'.timeout)
  {
    hide Reception, Filled, NumberIs, FreshFor, ObserveBytes;
    OnlyOne(t, m, e, i, t');
  }

  /** In every run, a datagram that is a 2.05 notification for a subscription,
      by the token of the request logged for it, and whose payload fits, is
      delivered: the buffer holds the payload and a NUL and is otherwise as it
      was, the operation owes an acknowledgement with the notification's message
      id, and it stays fresh for Max-Age. Everything else is unchanged. */
  lemma NotificationDelivery(s: State, steps: seq<Step>, i: nat, op: Op, h: History, d: seq<byte>, m: Message, e: RxEnv)
    requires Reached(s, steps, i, op, h) && Parse(d) == Some(m) && Addressee(After(s, steps), m, i)
    requires m.typ <= 1 && m.code == 69 && Fitting(op, m.payload)
    ensures ValidMessage(m) && After(s, steps).ops != []
    ensures var t := After(s, steps);
            var t' := Receive(t, m, e);
            && |t'.ops| == |t.ops|
            && t' == t.(ops := t.ops[i := t'.ops[i]], clock := e.time, log := t.log + [Notified(i, m.mid, ObserveBytes(m))])
            && var op' := t'.ops[i];
            && Filled(op.value, op'.value, m.payload)
            && op'.mid == m.mid && OwesAck(op') && (op'.state == SubAckNew <==> op'.obsSeq != op.obsSeq)
            && NumberIs(0, op'.obsSeq, m) && FreshFor(op'.timeout, m, e)
            && op'.kind == op.kind && op'.alias == op.alias && op'.valueMax == op.valueMax
            && op'.token == op.token && op'.tkl == op.tkl && op'.retries == op.retries
  {
    hide *;
    EncodeOfParse(d);
    ReachedInv(s, steps, i, op, h);
    MessageReceived(s, steps, m, e, i);
    var t := After(s, steps);
    NotificationMeans(t, m, e, i, Receive(t, m, e));
  }

  /** The same of a success response to a subscription, by the message id of the
      request logged for it; it leaves the subscription with a result. */
  lemma SubscriptionDelivery(s: State, steps: seq<Step>, i: nat, op: Op, h: History, d: seq<byte>, m: Message, e: RxEnv)
    requires Reached(s, steps, i, op, h) && Parse(d) == Some(m) && Addressee(After(s, steps), m, i) && op.kind == Subscribe
    requires m.typ == 2 && m.code as int / 32 == 2 && Fitting(op, m.payload)
    ensures ValidMessage(m) && After(s, steps).ops != []
    ensures var t := After(s, steps);
            var t' := Receive(t, m, e);
            && |t'.ops| == |t.ops|
            && t' == t.(ops := t.ops[i := t'.ops[i]], clock := e.time, log := t.log + [Observed(i, ObserveBytes(m))])
            && var op' := t'.ops[i];
            && Filled(op.value, op'.value, m.payload) && op'.state == Success
            && NumberIs(op.obsSeq, op'.obsSeq, m) && FreshFor(op'.timeout, m, e)
            && op' == op.(value := op'.value, state := Success, obsSeq := op'.obsSeq, timeout := op'.timeout)
  {
    hide *;
    EncodeOfParse(d);
    ReachedInv(s, steps, i, op, h);
    MessageReceived(s, steps, m, e, i);
    var t := After(s, steps);
    SubscriptionMeans(t, m, e, i, Receive(t, m, e));
  }

  /** Handling the message for this operation asks for the Observe value. */
  predicate AsksForNumber(op: Op, m: Message) {
    || (m.typ <= 1 && m.code == 69)
    || (m.typ == 2 && m.code as int / 32 == 2 && op.kind == Subscribe && Fitting(op, m.payload))
  }

  lemma FaultsExact(op: Op, m: Message)
    requires TypeOk(op) && Matches(op, m) && ValidMessage(m)
    ensures Faults(op, m) <==> m.payload != [] && m.options != [] && AllBelow(m.options, 6) && AsksForNumber(op, m)
  {
    ObserveFault(m);
    hide ObserveBytes, ValidMessage, AllBelow, LittleEndianValue;
  }

  /** In every run, handling a message reads through a null pointer exactly if it
      has a payload, and options all numbered 1 to 5, and is a notification of
      code 2.05 for a subscription, or a success response to one whose payload
      fits. */
  lemma FaultExact(s: State, steps: seq<Step>, m: Message, i: nat)
    requires Initial(s) && IsRun(s, steps) && ValidMessage(m) && Addressee(After(s, steps), m, i)
    ensures var ops := After(s, steps).ops;
            FaultsIn(ops, m) <==>
              && i < |ops| && m.payload != [] && m.options != []
              && (forall k :: 0 <= k < |m.options| ==> 1 <= m.options[k].num <= 5)
              && AsksForNumber(ops[i], m)
  {
    var t := After(s, steps);
    assert m.typ <= 3;
    assert AllBelow(m.options, 6) <==> forall k :: 0 <= k < |m.options| ==> 1 <= m.options[k].num <= 5;
    assert FaultsIn(t.ops, m) <==> FirstMatch(t.ops, m, 0) < |t.ops| && Faults(t.ops[FirstMatch(t.ops, m, 0)], m);
    hide *;
    RunInv(s, steps);
    Dispatched(t, s.dev.counter, m, i);
    if i < |t.ops| {
      AddresseeTyped(t, s.dev.counter, m, i);
      FaultsExact(t.ops[i], m);
    }
  }
}

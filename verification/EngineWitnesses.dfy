/** Two runs that show what goes wrong: a retransmission that differs from its
    original in more than the token, and an update that is not reported. */
module EngineWitnesses {
  import opened Bytes
  import opened CoapFormat
  import opened OptionLookup
  import opened ObserveSeq
  import opened Requests
  import opened RequestKey
  import opened EngineModel
  import opened EngineHistory
  import opened EngineTheorems
  import opened EngineReads
  import opened EngineRefinement

  function Fresh(dev: Device): State {
    State(dev, [OpInit(), OpInit()], 0, [])
  }

  lemma TwoSteps(s: State, a: Step, b: Step)
    requires Enabled(s, a) && Enabled(Apply(s, a), b)
    ensures IsRun(s, [a, b]) && After(s, [a, b]) == Apply(Apply(s, a), b)
  {
    hide *;
    OneStep(s, a);
    RunAppend(s, [a], b);
    assert [a] + [b] == [a, b];
  }

  // ---------------------------------------------------------------- a new key

  function Sending(now: nat): TxEnv {
    TxEnv(now, true, now, 0, 0)
  }

  function Quiet(time: nat): RxEnv {
    RxEnv(time, 0, 0, false)
  }

  /** A device is initialised and a read queued; activation and read are sent;
      the activation is answered with a key; the read times out. */
  function KeyChangeSteps(dev: Device, key: seq<byte>): seq<Step> {
    [CheckStep(0), UserStep(1, CallRead([], [0], 1))] + [TurnStep(0, Sending(0)), TurnStep(1, Sending(0))]
      + [ReceiveStep(Message(ACK, 65, dev.counter, [], [], key), Quiet(0))]
  }

  function FirstRead(dev: Device): seq<byte> {
    RequestBytes(Read, NextMid(dev.counter), 0, Args([], [0], dev.cik, dev.vendor, dev.model, dev.serial))
  }

  /** The activation is queued, then the read. */
  lemma BothQueued(dev: Device)
    requires dev.state == Initialized
    ensures var s, steps := Fresh(dev), [CheckStep(0), UserStep(1, CallRead([], [0], 1))];
            && IsRun(s, steps)
            && var t := After(s, steps);
            && t.ops == [ActivateOp(OpInit()), Queue(OpInit(), Read, [], [0], 1)]
            && t.dev == dev && |t.log| == 2 && t.clock == 0
  {
    TwoSteps(Fresh(dev), CheckStep(0), UserStep(1, CallRead([], [0], 1)));
    hide IsRun, After;
  }

  /** Both are sent. */
  lemma BothSent(s: State, dev: Device)
    requires s.ops == [ActivateOp(OpInit()), Queue(OpInit(), Read, [], [0], 1)] && s.dev == dev && |s.log| == 2 && s.clock == 0
    ensures var steps := [TurnStep(0, Sending(0)), TurnStep(1, Sending(0))];
            && IsRun(s, steps)
            && var t := After(s, steps);
            && |t.ops| == 2 && |t.log| == 4 && t.clock == 0 && t.dev.cik == dev.cik
            && t.ops[0].kind == Activate && t.ops[0].state == Pending && t.ops[0].mid == dev.counter
            && t.ops[1] == Op(Read, Pending, [], [0], 1, NextMid(dev.counter), 0, 0, 0, ACK_WAIT, 0)
            && t.log[3] == Request(1, false, 0, dev.cik, FirstRead(dev), true)
  {
    hide RequestBytes, RetransmitBytes, IsRun, After;
    var s1 := Turn(s, 0, Sending(0));
    assert s1.ops[1] == s.ops[1] && s1.dev == dev.(counter := NextMid(dev.counter)) && |s1.log| == 3;
    TwoSteps(s, TurnStep(0, Sending(0)), TurnStep(1, Sending(0)));
  }

  /** The state after these steps: the read is pending, the key is the new one. */
  lemma KeyChanged(dev: Device, key: seq<byte>)
    requires dev.state == Initialized && |dev.cik| == CIK_LENGTH && |key| == CIK_LENGTH
    ensures IsRun(Fresh(dev), KeyChangeSteps(dev, key))
    ensures var t := After(Fresh(dev), KeyChangeSteps(dev, key));
            && |t.ops| == 2 && t.dev.cik == key && |t.log| == 4 && t.clock == 0
            && t.log[3] == Request(1, false, 0, dev.cik, FirstRead(dev), true)
            && t.ops[1] == Op(Read, Pending, [], [0], 1, NextMid(dev.counter), 0, 0, 0, ACK_WAIT, 0)
  {
    hide *;
    var s, a, b := Fresh(dev), [CheckStep(0), UserStep(1, CallRead([], [0], 1))], [TurnStep(0, Sending(0)), TurnStep(1, Sending(0))];
    var c := ReceiveStep(Message(ACK, 65, dev.counter, [], [], key), Quiet(0));
    BothQueued(dev);
    BothSent(After(s, a), dev);
    Activated(After(After(s, a), b), dev.counter, key);
    RunConcat(s, a, b);
    RunAppend(s, a + b, c);
    KeyChangeIs(dev, key);
  }

  lemma KeyChangeIs(dev: Device, key: seq<byte>)
    ensures KeyChangeSteps(dev, key)
            == [CheckStep(0), UserStep(1, CallRead([], [0], 1))] + [TurnStep(0, Sending(0)), TurnStep(1, Sending(0))]
               + [ReceiveStep(Message(ACK, 65, dev.counter, [], [], key), Quiet(0))]
  {
  }

  lemma Activated(s: State, mid: u16, key: seq<byte>)
    requires |s.ops| == 2 && s.clock == 0 && |key| == CIK_LENGTH
    requires s.ops[0].kind == Activate && s.ops[0].state == Pending && s.ops[0].mid == mid
    ensures var m := Message(ACK, 65, mid, [], [], key);
            && Enabled(s, ReceiveStep(m, Quiet(0)))
            && var t := Apply(s, ReceiveStep(m, Quiet(0)));
            && t.ops == [OpInit(), s.ops[1]] && |t.ops| == 2 && t.ops[1] == s.ops[1]
            && t.dev.cik == key && t.log == s.log && t.clock == 0
  {
    var m := Message(ACK, 65, mid, [], [], key);
    assert Matches(s.ops[0], m);
    assert FirstMatch(s.ops, m, 0) == 0;
  }

  /** For every freshly initialised device and every other key there is a run in
      which a read is sent, the device gets that key, and the read is sent again
      under its message id, but with the new key: it does not mean the original
      without token. */
  lemma RetransmittedWithNewKey(dev: Device, key: seq<byte>)
    requires dev.state == Initialized && |dev.cik| == CIK_LENGTH && |key| == CIK_LENGTH && key != dev.cik
    ensures var s, steps := Fresh(dev), KeyChangeSteps(dev, key) + [TurnStep(1, Sending(ACK_WAIT))];
            && Initial(s) && IsRun(s, steps)
            && var log := After(s, steps).log;
            && |log| == 5 && log[3].Request? && log[4].Request? && log[3].i == log[4].i == 1
            && !log[3].retry && log[4].retry && log[3].ok && log[4].ok
            && WellFormed(log[3].packet) && MidOf(log[4].packet) == MidOf(log[3].packet)
            && Parse(log[4].packet) != Some(Parse(log[3].packet).value.(token := []))
  {
    hide *;
    var s, before, e := Fresh(dev), KeyChangeSteps(dev, key), Sending(ACK_WAIT);
    KeyChanged(dev, key);
    ReadTimesOut(dev, key);
    var t := After(s, before);
    RetransmissionExact(s, before, 1, t.ops[1], HistoryOf(t.log, 1), e);
    RunAppend(s, before, TurnStep(1, e));
    FirstReadWellFormed(dev);
  }

  /** The read is then due to be sent again; its history holds the first packet
      and the old key. */
  lemma ReadTimesOut(dev: Device, key: seq<byte>)
    requires dev.state == Initialized && |dev.cik| == CIK_LENGTH && |key| == CIK_LENGTH
    ensures var s, steps, e := Fresh(dev), KeyChangeSteps(dev, key), Sending(ACK_WAIT);
            && Initial(s) && IsRun(s, steps)
            && var t := After(s, steps);
            && |t.ops| == 2 && Reached(s, steps, 1, t.ops[1], HistoryOf(t.log, 1)) && Resends(t.ops[1], e)
            && HistoryOf(t.log, 1).original == FirstRead(dev) && HistoryOf(t.log, 1).key == dev.cik
            && Enabled(t, TurnStep(1, e)) && Apply(t, TurnStep(1, e)) == Turn(t, 1, e) && e.ok
            && !CrowdsOut(t.ops[1].alias) && t.ops[1].kind == Read
  {
    hide *;
    var s, steps := Fresh(dev), KeyChangeSteps(dev, key);
    KeyChanged(dev, key);
    var t := After(s, steps);
    FreshIsInitial(dev);
    ReachedNow(s, steps, 1);
    SentHistory(t.log, dev.cik, FirstRead(dev));
    DueAgain(t, NextMid(dev.counter));
  }

  lemma FreshIsInitial(dev: Device)
    requires |dev.cik| == CIK_LENGTH
    ensures Initial(Fresh(dev))
  {
  }

  lemma ReachedNow(s: State, steps: seq<Step>, i: nat)
    requires Initial(s) && IsRun(s, steps) && i < |After(s, steps).ops|
    ensures Reached(s, steps, i, After(s, steps).ops[i], HistoryOf(After(s, steps).log, i))
  {
    hide IsRun, After, HistoryOf, Initial;
  }

  lemma SentHistory(log: seq<Event>, key: seq<byte>, packet: seq<byte>)
    requires |log| == 4 && log[3] == Request(1, false, 0, key, packet, true)
    ensures HistoryOf(log, 1).original == packet && HistoryOf(log, 1).key == key
  {
    assert log == log[..3] + [log[3]];
    LogAppend(log[..3], log[3], 1);
    hide HistoryOf, Built;
  }

  lemma DueAgain(t: State, mid: u16)
    requires |t.ops| == 2 && t.clock == 0 && t.ops[1] == Op(Read, Pending, [], [0], 1, mid, 0, 0, 0, ACK_WAIT, 0)
    ensures var e := Sending(ACK_WAIT);
            && Resends(t.ops[1], e) && Enabled(t, TurnStep(1, e)) && Apply(t, TurnStep(1, e)) == Turn(t, 1, e) && e.ok
            && !CrowdsOut(t.ops[1].alias) && t.ops[1].kind == Read
  {
    hide Turn;
  }

  lemma FirstReadWellFormed(dev: Device)
    ensures WellFormed(FirstRead(dev))
  {
    NotWriteWellFormed(Read, NextMid(dev.counter), 0, Args([], [0], dev.cik, dev.vendor, dev.model, dev.serial));
    hide RequestBytes, Parse;
  }

  lemma NotWriteWellFormed(kind: Kind, mid: u16, rnd: nat, a: Args)
    requires kind != Write
    ensures WellFormed(RequestBytes(kind, mid, rnd, a))
  {
    ParseOfEncode(OfferAll(RequestHead(kind, mid, rnd), RequestOptions(kind, a), DATAGRAM_SIZE));
    hide Parse, Encode, OfferAll, RequestOptions;
  }

  // ----------------------------------------------------------- a lost update

  /** A message about a dataport, with an Observe value. */
  function Update(typ: nat, mid: u16, observe: seq<byte>): Message {
    Message(typ, CONTENT, mid, [], [Opt(OBSERVE, observe)], [7])
  }

  lemma UpdateReads(typ: nat, mid: u16, observe: seq<byte>)
    requires typ <= 3 && |observe| < 0x1_0000
    ensures ValidMessage(Update(typ, mid, observe))
    ensures ObserveBytes(Update(typ, mid, observe)) == Some(observe) && MaxAge(Update(typ, mid, observe)) == DEFAULT_MAX_AGE
  {
    var opts := [Opt(OBSERVE, observe)];
    assert opts[1..] == [] && opts[..0] == [];
    assert Sorted(OBSERVE, []);
    assert Indices([], OBSERVE) == [] && Indices([], MAX_AGE) == [];
    assert Indices(opts, OBSERVE) == [0] && Indices(opts, MAX_AGE) == [];
  }

  /** A subscription in which state, with which number. */
  predicate Subscriber(s: State, state: ReqState, seqNo: u32, mid: u16, timeout: nat) {
    && |s.ops| == 2 && s.ops[0] == OpInit()
    && s.ops[1].kind == Subscribe && s.ops[1].state == state && s.ops[1].obsSeq == seqNo
    && s.ops[1].mid == mid && s.ops[1].token == 0 && s.ops[1].timeout == timeout
    && s.ops[1].valueMax == 2 == |s.ops[1].value|
  }

  /** The subscription is sent, whatever its state was before. */
  lemma SubscriptionSent(s: State, seqNo: u32, mid: u16, timeout: nat, now: nat)
    requires Subscriber(s, New, seqNo, mid, timeout) && s.clock <= now
    ensures Enabled(s, TurnStep(1, Sending(now)))
    ensures var t := Apply(s, TurnStep(1, Sending(now)));
            Subscriber(t, Pending, seqNo, s.dev.counter, now + ACK_WAIT) && t.clock == now && t.dev.counter == NextMid(s.dev.counter)
  {
    hide RequestBytes;
  }

  lemma SecondMatches(s: State, m: Message)
    requires |s.ops| == 2 && s.ops[0] == OpInit() && Matches(s.ops[1], m)
    ensures FirstMatch(s.ops, m, 0) == 1
  {
    assert !Matches(s.ops[0], m);
    assert FirstMatch(s.ops, m, 1) == 1;
  }

  /** A response is taken: its number is folded onto the old one. */
  lemma Answered(s: State, seqNo: u32, mid: u16, timeout: nat, observe: seq<byte>)
    requires Subscriber(s, Pending, seqNo, mid, timeout) && |observe| <= 4
    ensures var m, e := Update(ACK, mid, observe), Quiet(s.clock);
            && Enabled(s, ReceiveStep(m, e))
            && var t := Apply(s, ReceiveStep(m, e));
            && Subscriber(t, Success, Fold(seqNo, observe), mid, s.clock + DEFAULT_MAX_AGE * SECOND)
            && t.clock == s.clock && t.dev.counter == s.dev.counter
            && HistoryOf(t.log, 1).lastSeq == observe
  {
    var m, e := Update(ACK, mid, observe), Quiet(s.clock);
    var r := AnsweredOp(s.ops[1], observe, s.clock);
    hide *;
    SubscriberAnswered(s, seqNo, mid, timeout, observe);
    ObservedLast(s.log, 1, observe);
    UpdateReads(ACK, mid, observe);
    SecondMatches(s, m);
    AnswerEffect(s.ops[1], mid, observe, s.clock);
    AnswerReceived(s, m, e, r, observe);
  }

  /** The subscription before and after an answer. */
  lemma SubscriberAnswered(s: State, seqNo: u32, mid: u16, timeout: nat, observe: seq<byte>)
    requires Subscriber(s, Pending, seqNo, mid, timeout) && |observe| <= 4
    ensures |s.ops| == 2 && s.ops[0] == OpInit() && Matches(s.ops[1], Update(ACK, mid, observe))
    ensures s.ops[1].kind == Subscribe && s.ops[1].state == Pending && s.ops[1].valueMax == 2 == |s.ops[1].value|
    ensures Subscriber(s.(ops := s.ops[1 := AnsweredOp(s.ops[1], observe, s.clock)]), Success, Fold(seqNo, observe), mid,
                       s.clock + DEFAULT_MAX_AGE * SECOND)
  {
    hide Fold, Store;
  }

  lemma ObservedLast(log: seq<Event>, i: nat, observe: seq<byte>)
    requires |observe| <= 4
    ensures HistoryOf(log + [Observed(i, Some(observe))], i).lastSeq == observe
  {
    LogAppend(log, Observed(i, Some(observe)), i);
    hide HistoryOf, Built, Renewed;
  }

  /** The operation after an answer. */
  function AnsweredOp(op: Op, observe: seq<byte>, time: nat): Op
    requires |observe| <= 4
  {
    op.(value := Store(op.value, [7]), state := Success, obsSeq := Fold(op.obsSeq, observe),
        timeout := time + DEFAULT_MAX_AGE * SECOND)
  }

  /** The state after an answer. */
  lemma AnswerReceived(s: State, m: Message, e: RxEnv, r: Op, observe: seq<byte>)
    requires |s.ops| == 2 && ValidMessage(m) && FirstMatch(s.ops, m, 0) == 1 && !Faults(s.ops[1], m) && e == Quiet(s.clock)
    requires m.typ == ACK && m.code == CONTENT && OnMatch(s.ops[1], 1, m, e) == Effect(r, Some(Observed(1, Some(observe))))
    ensures Enabled(s, ReceiveStep(m, e))
    ensures var t := Apply(s, ReceiveStep(m, e));
            && t.ops == s.ops[1 := r] && t.clock == s.clock && t.dev.counter == s.dev.counter
            && t.log == s.log + [Observed(1, Some(observe))]
  {
    hide OnMatch, Faults, FirstMatch, ValidMessage;
    ReceiveMatched(s, m, e, 1);
  }

  lemma AnswerEffect(op: Op, mid: u16, observe: seq<byte>, time: nat)
    requires op.kind == Subscribe && op.state == Pending && op.valueMax == 2 == |op.value| && |observe| <= 4
    ensures var m := Update(ACK, mid, observe);
            && !Faults(op, m) && m.typ == ACK && m.code == CONTENT
            && OnMatch(op, 1, m, Quiet(time)) == Effect(AnsweredOp(op, observe, time), Some(Observed(1, Some(observe))))
  {
    UpdateReads(ACK, mid, observe);
    var m, e := Update(ACK, mid, observe), Quiet(time);
    assert CodeClass(m) == 2 && !TooLong(op, m) && m.payload == [7] && m.typ == ACK && m.code == CONTENT;
    UntilIs(m, time);
    assert SequenceFrom(op.obsSeq, Some(observe), e.wild) == Fold(op.obsSeq, observe);
    hide ObserveBytes, Fold, Store, MaxAge, FreshUntil, SequenceFrom, CodeClass, TooLong, Update, Quiet;
    SubscriptionAnswered(op, 1, m, e);
  }

  lemma UntilIs(m: Message, time: nat)
    requires MaxAge(m) == DEFAULT_MAX_AGE
    ensures FreshUntil(m, Quiet(time)) == time + DEFAULT_MAX_AGE * SECOND
  {
    hide MaxAge;
  }

  /** A response with a payload that fits, to a subscription. */
  lemma SubscriptionAnswered(op: Op, i: nat, m: Message, e: RxEnv)
    requires op.kind == Subscribe && m.typ == ACK && CodeClass(m) == 2 && m.payload != [] && !TooLong(op, m)
    ensures OnMatch(op, i, m, e)
            == Effect(op.(value := Store(op.value, m.payload), state := Success,
                          obsSeq := SequenceFrom(op.obsSeq, ObserveBytes(m), e.wild), timeout := FreshUntil(m, e)),
                      Some(Observed(i, ObserveBytes(m))))
  {
    hide ObserveBytes, Store, FreshUntil, SequenceFrom, CodeClass, TooLong;
  }

  /** The user takes the result. */
  lemma ResultTaken(s: State, seqNo: u32, mid: u16, timeout: nat)
    requires Subscriber(s, Success, seqNo, mid, timeout)
    ensures Enabled(s, UserStep(1, CallDone))
    ensures var t := Apply(s, UserStep(1, CallDone));
            && Subscriber(t, EngineModel.Subscribed, seqNo, mid, timeout)
            && t.clock == s.clock && t.dev == s.dev && t.log == s.log
  {
  }

  /** The subscription expires and is queued anew. */
  lemma SubscriptionExpires(s: State, seqNo: u32, mid: u16, timeout: nat)
    requires Subscriber(s, EngineModel.Subscribed, seqNo, mid, timeout) && s.clock <= timeout
    ensures Enabled(s, TurnStep(1, Sending(timeout)))
    ensures var t := Apply(s, TurnStep(1, Sending(timeout)));
            Subscriber(t, New, seqNo, mid, timeout) && t.clock == timeout && t.dev == s.dev
  {
  }

  /** The subscription is sent and answered, and the user takes the result. */
  function CycleSteps(mid: u16, now: nat, observe: seq<byte>): seq<Step> {
    [TurnStep(1, Sending(now)), ReceiveStep(Update(ACK, mid, observe), Quiet(now))] + [UserStep(1, CallDone)]
  }

  lemma Cycle(s: State, seqNo: u32, mid: u16, timeout: nat, now: nat, observe: seq<byte>)
    requires Subscriber(s, New, seqNo, mid, timeout) && s.clock <= now && |observe| <= 4
    ensures var steps := CycleSteps(s.dev.counter, now, observe);
            && IsRun(s, steps)
            && var t := After(s, steps);
            && Subscriber(t, EngineModel.Subscribed, Fold(seqNo, observe), s.dev.counter, now + DEFAULT_MAX_AGE * SECOND)
            && t.clock == now && t.dev.counter == NextMid(s.dev.counter)
            && HistoryOf(t.log, 1).lastSeq == observe
  {
    hide *;
    var c := s.dev.counter;
    var a, b := TurnStep(1, Sending(now)), ReceiveStep(Update(ACK, c, observe), Quiet(now));
    SubscriptionSent(s, seqNo, mid, timeout, now);
    Answered(Apply(s, a), seqNo, c, now + ACK_WAIT, observe);
    TwoSteps(s, a, b);
    var t := After(s, [a, b]);
    ResultTaken(t, Fold(seqNo, observe), c, now + DEFAULT_MAX_AGE * SECOND);
    RunAppend(s, [a, b], UserStep(1, CallDone));
    CycleIs(c, now, observe);
  }

  lemma CycleIs(mid: u16, now: nat, observe: seq<byte>)
    ensures CycleSteps(mid, now, observe)
            == [TurnStep(1, Sending(now)), ReceiveStep(Update(ACK, mid, observe), Quiet(now))] + [UserStep(1, CallDone)]
  {
  }

  /** A subscription is made and answered with Observe value 1; it expires and is
      answered with 2. */
  function RenewalSteps(mid: u16): seq<Step> {
    [UserStep(1, CallSubscribe([], [0, 0], 2))] + CycleSteps(mid, 0, [1])
      + [TurnStep(1, Sending(DEFAULT_MAX_AGE * SECOND))] + CycleSteps(NextMid(mid), DEFAULT_MAX_AGE * SECOND, [2])
  }

  lemma Subscribing(dev: Device)
    ensures var s, step := Fresh(dev), UserStep(1, CallSubscribe([], [0, 0], 2));
            && Enabled(s, step)
            && var t := Apply(s, step);
            Subscriber(t, New, 0, 0, 0) && t.clock == 0 && t.dev == dev
  {
  }

  /** The stored number is then 3. */
  lemma RenewedToThree(dev: Device)
    ensures var s, steps := Fresh(dev), RenewalSteps(dev.counter);
            && IsRun(s, steps)
            && var t := After(s, steps);
            && Subscriber(t, EngineModel.Subscribed, 3, NextMid(dev.counter), 2 * DEFAULT_MAX_AGE * SECOND)
            && t.clock == DEFAULT_MAX_AGE * SECOND && HistoryOf(t.log, 1).lastSeq == [2]
  {
    var due, c := DEFAULT_MAX_AGE * SECOND, dev.counter;
    var a, b, d, e := [UserStep(1, CallSubscribe([], [0, 0], 2))], CycleSteps(c, 0, [1]), [TurnStep(1, Sending(due))], CycleSteps(NextMid(c), due, [2]);
    assert RenewalSteps(c) == a + b + d + e && due == 120000000 && 2 * DEFAULT_MAX_AGE * SECOND == due + due;
    var s := Fresh(dev);
    FoldMixes();
    Subscribing(dev);
    hide *;
    OneStep(s, a[0]);
    var s1 := After(s, a);
    Cycle(s1, 0, 0, 0, 0, [1]);
    RunConcat(s, a, b);
    var s2 := After(s1, b);
    SubscriptionExpires(s2, 1, c, due);
    OneStep(s2, d[0]);
    RunConcat(s, a + b, d);
    var s3 := After(s2, d);
    Cycle(s3, 1, c, due, due, [2]);
    RunConcat(s, a + b + d, e);
  }

  /** A notification is compared with the stored number. */
  lemma NotificationCompared(s: State, seqNo: u32, mid: u16, timeout: nat, observe: seq<byte>)
    requires Subscriber(s, EngineModel.Subscribed, seqNo, mid, timeout) && |observe| <= 4
    ensures var m, e := Update(CON, 77, observe), Quiet(s.clock);
            && Enabled(s, ReceiveStep(m, e))
            && var t := Apply(s, ReceiveStep(m, e));
            |t.ops| == 2 && t.ops[1].state == if seqNo != Fold(0, observe) then SubAckNew else SubAck
  {
    var m, e := Update(CON, 77, observe), Quiet(s.clock);
    assert m.typ == CON && m.token == [] && e.time == s.clock;
    hide *;
    UpdateReads(CON, 77, observe);
    NotificationMatches(s, seqNo, mid, timeout, m);
    NotificationEffect(s.ops[1], 77, observe, e);
    NotificationReceived(s, m, e);
  }

  lemma NotificationEffect(op: Op, mid: u16, observe: seq<byte>, e: RxEnv)
    requires op.valueMax == 2 == |op.value| && |observe| <= 4
    ensures var m := Update(CON, mid, observe);
            && !Faults(op, m)
            && OnMatch(op, 1, m, e).op.state == if op.obsSeq != Fold(0, observe) then SubAckNew else SubAck
  {
    UpdateReads(CON, mid, observe);
    hide ObserveBytes, Fold, MaxAge, FreshUntil, Store;
  }

  lemma NotificationReceived(s: State, m: Message, e: RxEnv)
    requires |s.ops| == 2 && ValidMessage(m) && FirstMatch(s.ops, m, 0) == 1 && !Faults(s.ops[1], m)
    requires m.typ == CON && e.time == s.clock
    ensures Enabled(s, ReceiveStep(m, e))
    ensures Apply(s, ReceiveStep(m, e)).ops == s.ops[1 := OnMatch(s.ops[1], 1, m, e).op]
  {
    hide OnMatch, Faults, FirstMatch, ValidMessage;
    ReceiveMatched(s, m, e, 1);
  }

  /** For every device there is a run in which a subscription is answered with
      Observe value 1, renewed, and answered with 2; a notification with value 3
      is then not reported as new. */
  lemma UpdateLost(dev: Device)
    requires |dev.cik| == CIK_LENGTH
    ensures var s, steps, m := Fresh(dev), RenewalSteps(dev.counter), Update(CON, 77, [3]);
            var all := steps + [ReceiveStep(m, Quiet(DEFAULT_MAX_AGE * SECOND))];
            && Initial(s) && IsRun(s, steps) && IsRun(s, all)
            && |After(s, steps).ops| == |After(s, all).ops| == 2
            && After(s, steps).ops[1].state == EngineModel.Subscribed && After(s, steps).ops[1].obsSeq == 3
            && HistoryOf(After(s, steps).log, 1).lastSeq == [2] && ObserveBytes(m) == Some([3])
            && After(s, all).ops[1].state == SubAck
  {
    var s, steps := Fresh(dev), RenewalSteps(dev.counter);
    assert Initial(s);
    RenewedToThree(dev);
    var t := After(s, steps);
    assert t.ops[1].state == EngineModel.Subscribed && t.ops[1].obsSeq == 3 && |t.ops| == 2;
    hide *;
    FoldMixes();
    UpdateReads(CON, 77, [3]);
    NotificationCompared(t, 3, NextMid(dev.counter), 2 * DEFAULT_MAX_AGE * SECOND, [3]);
    RunAppend(s, steps, ReceiveStep(Update(CON, 77, [3]), Quiet(t.clock)));
  }

  /** For every device there is a run that leads to a subscription for which a
      notification with an entity tag and no Observe option faults. */
  lemma FaultReached(dev: Device, tag: seq<byte>, x: byte)
    requires |dev.cik| == CIK_LENGTH && |tag| < 0x1_0000
    ensures var s, steps, m := Fresh(dev), RenewalSteps(dev.counter), Message(CON, CONTENT, 77, [], [Opt(4, tag)], [x]);
            && Initial(s) && IsRun(s, steps) && ValidMessage(m) && FaultsIn(After(s, steps).ops, m)
  {
    assert MAX_TOKEN == 8;
    hide *;
    var s, steps, m := Fresh(dev), RenewalSteps(dev.counter), Message(CON, CONTENT, 77, [], [Opt(4, tag)], [x]);
    FreshIsInitial(dev);
    RenewedToThree(dev);
    var t := After(s, steps);
    NotificationMatches(t, 3, NextMid(dev.counter), 2 * DEFAULT_MAX_AGE * SECOND, m);
    EntityTagFaults(t.ops[1], 77, [], tag, x);
    FaultsSecond(t.ops, m);
  }

  lemma NotificationMatches(s: State, seqNo: u32, mid: u16, timeout: nat, m: Message)
    requires Subscriber(s, EngineModel.Subscribed, seqNo, mid, timeout) && m.typ == CON && m.token == []
    ensures |s.ops| == 2 && s.ops[1].obsSeq == seqNo && s.ops[1].valueMax == 2 == |s.ops[1].value|
    ensures Matches(s.ops[1], m) && FirstMatch(s.ops, m, 0) == 1
  {
    assert LittleEndianValue([]) == 0;
    SecondMatches(s, m);
    hide FirstMatch, LittleEndianValue;
  }

  lemma FaultsSecond(ops: seq<Op>, m: Message)
    requires |ops| == 2 && FirstMatch(ops, m, 0) == 1 && Faults(ops[1], m)
    ensures FaultsIn(ops, m)
  {
    hide FirstMatch, Faults;
  }
}

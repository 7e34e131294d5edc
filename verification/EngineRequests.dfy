/** What each turn sends, and that what the user queued is what goes out. */
module EngineRequests {
  import opened Bytes
  import opened CoapFormat
  import opened Requests
  import opened RequestKey
  import opened RequestMeaning
  import opened EngineModel
  import opened EngineHistory
  import opened EngineRuns
  import opened EngineTheorems
  import opened EngineLog
  import opened EngineRefinement
  import opened EngineProgress
  import opened EngineReception

  // ------------------------------------------------------------- each packet

  /** The packet is the request spelled out, if that fits and is not a write of
      an empty value. */
  predicate Says(kind: Kind, mid: u16, token: seq<byte>, a: Args, packet: seq<byte>) {
    FitsDatagram(kind, a) && (kind == Write ==> a.value != []) ==> Parse(packet) == Some(Spelled(kind, mid, token, a))
  }

  /** The strings that an operation's request is made of. */
  function Strings(dev: Device, op: Op): Args {
    Args(op.alias, op.value, dev.cik, dev.vendor, dev.model, dev.serial)
  }

  lemma FirstSays(dev: Device, op: Op, e: TxEnv)
    requires op.state == New && op.kind != NullOp && |dev.cik| == 40
    ensures Says(op.kind, dev.counter, TokenBytes(e.rand), Strings(dev, op), PacketOf(dev, op, e))
  {
    RequestSays(op.kind, dev.counter, e.rand, Strings(dev, op));
    hide RequestBytes, Parse, FitsDatagram, Spelled, TokenBytes;
  }

  lemma AgainSays(dev: Device, op: Op, e: TxEnv)
    requires op.state == Pending && op.kind != NullOp && op.tkl == 0 && |dev.cik| == 40
    ensures Says(op.kind, op.mid, [], Strings(dev, op), PacketOf(dev, op, e))
  {
    var a := Strings(dev, op);
    assert PacketOf(dev, op, e) == RetransmitBytes(op.kind, dev.counter, e.rand, a, op.mid, op.token, 0);
    hide RequestBytes, RetransmitBytes, Parse, FitsDatagram, Spelled, BareHead, RequestTail, Untokened, PacketOf;
    BareRetransmit(op.kind, op.mid, op.token, a, dev.counter, e.rand);
    UntokenedRequest(op.kind, op.mid, op.token, a, 0);
    if FitsDatagram(op.kind, a) && (op.kind == Write ==> a.value != []) {
      UntokenedSays(op.kind, op.mid, op.token, a);
    }
  }

  // --------------------------------------------------------------- each turn

  /** What was logged is one request of operation i, which says what it is to. */
  predicate LogsRequest(dev: Device, op: Op, i: nat, e: TxEnv, retry: bool, mid: u16, token: seq<byte>, added: seq<Event>) {
    && |added| == 1 && added[0].Request?
    && added[0] == Request(i, retry, e.time, dev.cik, added[0].packet, e.ok)
    && Says(op.kind, mid, token, Strings(dev, op), added[0].packet)
  }

  /** What was logged is one empty acknowledgement of message id mid. */
  predicate LogsAck(mid: u16, i: nat, e: TxEnv, added: seq<Event>) {
    && |added| == 1 && added[0].AckSent?
    && added[0] == AckSent(i, added[0].packet, e.ok) && Parse(added[0].packet) == Some(Message(2, 0, mid, [], [], []))
  }

  /** What its turn does to an operation, by its state, and what it logs. Times
      are in microseconds: four seconds until a request times out, and after the
      n-th retransmission n seconds and less than 1.5 more; four retransmissions
      at most. */
  predicate OpTurn(dev: Device, op: Op, i: nat, e: TxEnv, op': Op, added: seq<Event>) {
    match op.state
    case New =>
      && LogsRequest(dev, op, i, e, false, dev.counter, TokenBytes(e.rand), added)
      && op' == if !e.ok then op
                else op.(state := Pending, timeout := e.time + 4000000, mid := dev.counter, token := e.rand % 65536)
    case Pending =>
      if e.now < op.timeout then op' == op && added == []
      else if op.kind == Subscribe then op' == op.(state := New) && added == []
      else if op.retries < 4 then
        && LogsRequest(dev, op, i, e, true, op.mid, [], added)
        && op' == if !e.ok then op
                  else op.(retries := op.retries + 1, timeout := e.time + (op.retries + 1) * 1000000 + e.jitter % 1500000)
      else op' == op.(state := Error) && added == [GaveUp(i, e.now)]
    case Subscribed => op' == (if e.now < op.timeout then op else op.(state := New)) && added == []
    case SubAck => op' == (if e.ok then op.(state := Subscribed) else op) && LogsAck(op.mid, i, e, added)
    case SubAckNew => op' == (if e.ok then op.(state := Success) else op) && LogsAck(op.mid, i, e, added)
    case _ => op' == op && added == []
  }

  /** A turn changes its operation, and draws a message id exactly if it sends a
      request. */
  ghost predicate TurnDone(t: State, i: nat, e: TxEnv, t': State)
    requires i < |t.ops|
  {
    && t.log <= t'.log && OpTurn(t.dev, t.ops[i], i, e, if i < |t'.ops| then t'.ops[i] else t.ops[i], t'.log[|t.log|..])
    && |t'.ops| == |t.ops| && t' == t.(ops := t.ops[i := t'.ops[i]], dev := t'.dev, clock := e.time, log := t'.log)
    && var sends := |t'.log| > |t.log| && t'.log[|t.log|].Request?;
    t'.dev == t.dev.(counter := if sends then (t.dev.counter + 1) % 65536 else t.dev.counter)
  }

  function EventList(ev: Option<Event>): seq<Event> {
    if ev.Some? then [ev.value] else []
  }

  lemma OpTurnExact(dev: Device, op: Op, i: nat, e: TxEnv)
    requires TypeOk(op) && |dev.cik| == 40
    ensures var eff := OnTurn(dev, op, i, e);
            OpTurn(dev, op, i, e, eff.op, EventList(eff.event))
  {
    hide PacketOf, Encode, Parse, Says, TokenBytes;
    if op.state == New {
      FirstSays(dev, op, e);
    } else if op.state == Pending {
      AgainSays(dev, op, e);
    } else if op.state == SubAck || op.state == SubAckNew {
      EmptyPacket(ACK, op.mid, []);
    }
  }

  /** In every state that a run leads to, a turn does what is written above. */
  lemma TurnExact(t: State, seed: u16, i: nat, e: TxEnv)
    requires Inv(t, seed) && i < |t.ops|
    ensures TurnDone(t, i, e, Turn(t, i, e))
  {
    var op, eff, t' := t.ops[i], OnTurn(t.dev, t.ops[i], i, e), Turn(t, i, e);
    assert OpOk(op, HistoryOf(t.log, i), Built(t.log), seed) && |t.dev.cik| == 40;
    hide *;
    OpTyped(op, HistoryOf(t.log, i), Built(t.log), seed);
    OpTurnExact(t.dev, op, i, e);
    TurnIs(t, i, e);
    TurnAdds(t, i, e, t', EventList(eff.event));
  }

  /** What a turn changes. */
  lemma TurnIs(t: State, i: nat, e: TxEnv)
    requires i < |t.ops|
    ensures var eff, t' := OnTurn(t.dev, t.ops[i], i, e), Turn(t, i, e);
            var added := EventList(eff.event);
            && t'.ops == t.ops[i := eff.op] && t'.log == t.log + added && t'.clock == e.time
            && t'.dev == t.dev.(counter := if |added| > 0 && added[0].Request? then (t.dev.counter + 1) % 65536 else t.dev.counter)
  {
    TurnSends(t.dev, t.ops[i], i, e);
    hide OnTurn, Sends;
  }

  lemma TurnAdds(t: State, i: nat, e: TxEnv, t': State, added: seq<Event>)
    requires i < |t.ops| == |t'.ops| && t'.ops == t.ops[i := t'.ops[i]] && t'.log == t.log + added && t'.clock == e.time
    requires t'.dev == t.dev.(counter := if |added| > 0 && added[0].Request? then (t.dev.counter + 1) % 65536 else t.dev.counter)
    requires OpTurn(t.dev, t.ops[i], i, e, t'.ops[i], added)
    ensures TurnDone(t, i, e, t')
  {
    hide OpTurn;
    assert t'.log[|t.log|..] == added;
  }

  lemma TurnUnderstood(t: State, i: nat, e: TxEnv)
    requires i < |t.ops| && Sound(t)
    ensures TurnDone(t, i, e, Turn(t, i, e))
  {
    hide Inv, TurnDone, Turn;
    var seed: u16 :| Inv(t, seed);
    TurnExact(t, seed, i, e);
  }

  lemma TurnSends(dev: Device, op: Op, i: nat, e: TxEnv)
    ensures var ev := OnTurn(dev, op, i, e).event;
            Sends(op, e) <==> ev.Some? && ev.value.Request?
  {
    hide PacketOf, Encode;
  }

  // -------------------------------------------------- every request of a run

  /** The event is the request that operation i sends in this turn: for the first
      time if it is queued, with a new message id and a token of two bytes, and
      again if it is pending, with the same message id and no token. */
  predicate RequestOf(t: State, i: nat, e: TxEnv, ev: Event)
    requires i < |t.ops|
  {
    var op := t.ops[i];
    && ev.Request? && op.kind != NullOp && op.state == (if ev.retry then Pending else New)
    && LogsRequest(t.dev, op, i, e, ev.retry, if ev.retry then op.mid else t.dev.counter,
                   if ev.retry then [] else TokenBytes(e.rand), [ev])
  }

  /** The log was extended by at most one event; a request among these is that of
      the operation whose turn it was. */
  ghost predicate StepLogs(t: State, step: Step, log: seq<Event>) {
    || log == t.log
    || (&& |log| == |t.log| + 1 && log[..|t.log|] == t.log
        && (log[|t.log|].Request? ==>
              step.TurnStep? && step.i < |t.ops| && RequestOf(t, step.i, step.tx, log[|t.log|])))
  }

  lemma OpTurnLogs(t: State, i: nat, e: TxEnv, op': Op, added: seq<Event>)
    requires i < |t.ops| && TypeOk(t.ops[i]) && OpTurn(t.dev, t.ops[i], i, e, op', added)
    ensures |added| <= 1 && (|added| == 1 && added[0].Request? ==> RequestOf(t, i, e, added[0]))
  {
    hide Says, TokenBytes, Parse;
    assert |added| == 1 ==> added == [added[0]];
  }

  lemma TurnLogs(t: State, seed: u16, i: nat, e: TxEnv)
    requires Inv(t, seed) && i < |t.ops|
    ensures StepLogs(t, TurnStep(i, e), Turn(t, i, e).log)
  {
    var t' := Turn(t, i, e);
    assert OpOk(t.ops[i], HistoryOf(t.log, i), Built(t.log), seed);
    TurnExact(t, seed, i, e);
    hide Inv, HistoryOf, Built, SendOk, MidOk, AckOk, SeqOk, AddressOk, TypeOk, OpTurn, Turn, RequestOf;
    OpTurnLogs(t, i, e, t'.ops[i], t'.log[|t.log|..]);
    assert t'.log[..|t.log|] == t.log;
  }

  lemma ReceiveLogs(t: State, m: Message, e: RxEnv)
    requires t.ops != [] && ValidMessage(m)
    ensures StepLogs(t, ReceiveStep(m, e), Receive(t, m, e).log)
  {
    var i := FirstMatch(t.ops, m, 0);
    if i < |t.ops| {
      MatchedEvent(t.ops[i], i, m, e);
    }
    hide OnMatch, Encode, FirstMatch, RequestOf;
  }

  lemma StepLogsOk(t: State, seed: u16, step: Step)
    requires Inv(t, seed) && Enabled(t, step)
    ensures StepLogs(t, step, Apply(t, step).log)
  {
    hide Inv, Receive, Turn, RequestOf;
    match step
    case UserStep(i, c) =>
    case CheckStep(time) =>
    case ReceiveStep(m, e) =>
      hide StepLogs;
      ReceiveLogs(t, m, e);
    case TurnStep(i, e) =>
      hide StepLogs;
      TurnLogs(t, seed, i, e);
  }

  /** Entry k of the log is the request that operation i sent in step n of the
      run, from the kind, dataport and value it had then. */
  ghost predicate SentAt(s: State, steps: seq<Step>, n: nat, log: seq<Event>, k: nat) {
    && n < |steps| && k < |log| && IsRun(s, steps[..n]) && steps[n].TurnStep?
    && var t := After(s, steps[..n]);
    t.log == log[..k] && steps[n].i < |t.ops| && RequestOf(t, steps[n].i, steps[n].tx, log[k])
  }

  /** In every run, every request handed to the network is the one that the
      operation whose turn it was stands for at that time. */
  lemma {:induction false} RequestsTraced(s: State, steps: seq<Step>, k: nat) returns (n: nat)
    requires Initial(s) && IsRun(s, steps) && k < |After(s, steps).log| && After(s, steps).log[k].Request?
    ensures SentAt(s, steps, n, After(s, steps).log, k)
    decreases |steps|
  {
    hide *;
    RunSteps(s, steps);
    n := |steps| - 1;
    var before, log := steps[..|steps| - 1], After(s, steps).log;
    RunLast(s, steps);
    var t := After(s, before);
    RunInv(s, before);
    StepLogsOk(t, s.dev.counter, steps[n]);
    LogsPrefix(t, steps[n], log);
    if k < |t.log| {
      assert log[k] == log[..|t.log|][k];
      n := RequestsTraced(s, before, k);
      SentLater(s, steps, n, t.log, log, k);
    } else {
      SentLast(s, steps, log);
    }
  }

  /** A run whose log is not empty has steps. */
  lemma RunSteps(s: State, steps: seq<Step>)
    requires Initial(s) && IsRun(s, steps) && After(s, steps).log != []
    ensures steps != []
  {
  }

  lemma SentLast(s: State, steps: seq<Step>, log: seq<Event>)
    requires steps != [] && IsRun(s, steps[..|steps| - 1])
    requires var t := After(s, steps[..|steps| - 1]);
             && StepLogs(t, steps[|steps| - 1], log) && |log| == |t.log| + 1 && log[|t.log|].Request?
    ensures SentAt(s, steps, |steps| - 1, log, |log| - 1)
  {
    hide IsRun, After, RequestOf;
  }

  lemma LogsPrefix(t: State, step: Step, log: seq<Event>)
    requires StepLogs(t, step, log)
    ensures |t.log| <= |log| <= |t.log| + 1 && log[..|t.log|] == t.log
  {
    hide RequestOf;
    assert log == t.log ==> log[..|t.log|] == t.log;
  }

  lemma SentLater(s: State, steps: seq<Step>, n: nat, log: seq<Event>, log': seq<Event>, k: nat)
    requires steps != [] && SentAt(s, steps[..|steps| - 1], n, log, k) && |log| <= |log'| && log'[..|log|] == log
    ensures SentAt(s, steps, n, log', k)
  {
    hide IsRun, After, RequestOf;
    assert steps[..|steps| - 1][..n] == steps[..n];
    assert log'[..k] == log[..k];
    assert log'[k] == log[k];
  }

  // ----------------------------------------------------- what the user queued

  /** What a call makes of its operation. A queued operation keeps its number,
      token, timeout and retry count. */
  predicate CallTaken(op: Op, op': Op, c: Call) {
    match c
    case CallRead(alias, value, max) =>
      op' == op.(kind := Read, state := New, alias := alias, value := value, valueMax := max, mid := 0)
    case CallWrite(alias, value) =>
      op' == op.(kind := Write, state := New, alias := alias, value := value, valueMax := 0, mid := 0)
    case CallSubscribe(alias, value, max) =>
      op' == op.(kind := Subscribe, state := New, alias := alias, value := value, valueMax := max, mid := 0)
    case CallInit => op' == Op(NullOp, Idle, [], [], 0, 0, 0, 0, 0, 0, 0)
    case CallDone =>
      op' == if op.kind == Subscribe then op.(state := Subscribed) else Op(NullOp, Idle, [], [], 0, 0, 0, 0, 0, 0, 0)
  }

  lemma UserExact(t: State, i: nat, c: Call)
    requires Enabled(t, UserStep(i, c)) && TypeOk(t.ops[i])
    ensures var t' := Apply(t, UserStep(i, c));
            && |t'.ops| == |t.ops| && CallTaken(t.ops[i], t'.ops[i], c)
            && t' == t.(ops := t.ops[i := t'.ops[i]],
                        log := t.log + if Queues(UserStep(i, c), i) then [Queued(i, t.ops[i].retries, t.ops[i].obsSeq)] else [])
  {
  }

  /** The operation still stands for what was queued by this call, or is no
      longer in use. */
  predicate Stands(op: Op, c: Call) {
    || op.state == Idle
    || match c
       case CallRead(alias, _, _) => op.kind == Read && op.alias == alias
       case CallWrite(alias, value) => op.kind == Write && op.alias == alias && op.value == value
       case CallSubscribe(alias, _, _) => op.kind == Subscribe && op.alias == alias
       case _ => false
  }

  /** The message is the request that the call asks for: a GET of dataport
      1a/alias, with Observe 0 for a subscription, or a POST of the value to it;
      with the key as query. */
  predicate Asks(c: Call, key: seq<byte>, m: Message) {
    match c
    case CallRead(alias, _, _) =>
      m == Message(0, 1, m.mid, m.token, [Opt(11, [0x31, 0x61]), Opt(11, Cut(alias)), Opt(15, key)], [])
    case CallWrite(alias, value) =>
      m == Message(0, 2, m.mid, m.token, [Opt(11, [0x31, 0x61]), Opt(11, Cut(alias)), Opt(15, key)], value)
    case CallSubscribe(alias, _, _) =>
      m == Message(0, 1, m.mid, m.token, [Opt(6, [0]), Opt(11, [0x31, 0x61]), Opt(11, Cut(alias)), Opt(15, key)], [])
    case _ => false
  }

  /** The request fits a datagram; and a write is not of an empty value. */
  predicate Sendable(c: Call) {
    match c
    case CallRead(alias, _, _) => Weight(alias) <= 524
    case CallWrite(alias, value) => Weight(alias) + |value| <= 523 && value != []
    case CallSubscribe(alias, _, _) => Weight(alias) <= 522
    case _ => false
  }

  /** A logged request is what the call asks for, with two token bytes when it is
      sent first and none when it is sent again. */
  predicate RequestFor(c: Call, ev: Event)
    requires ev.Request?
  {
    Sendable(c) ==>
      && WellFormed(ev.packet) && |ev.key| == 40
      && Asks(c, ev.key, Parse(ev.packet).value)
      && |Parse(ev.packet).value.token| == if ev.retry then 0 else 2
  }

  lemma StandsFor(t: State, i: nat, e: TxEnv, ev: Event, c: Call)
    requires i < |t.ops| && TypeOk(t.ops[i]) && Stands(t.ops[i], c) && |t.dev.cik| == 40 && RequestOf(t, i, e, ev)
    ensures RequestFor(c, ev)
  {
    var a := Strings(t.dev, t.ops[i]);
    RoomNeeded(t.ops[i].kind, a);
    assert |TokenBytes(e.rand)| == 2;
    hide Parse, FitsDatagram, TokenBytes, Weight, Cut;
  }

  /** A step that does not queue the operation anew. */
  lemma StepStands(t: State, seed: u16, step: Step, i: nat, c: Call)
    requires Inv(t, seed) && Enabled(t, step) && i < |t.ops| && TypeOk(t.ops[i]) && Stands(t.ops[i], c)
    requires var log := Apply(t, step).log; |log| > |t.log| ==> !QueuedFor(log[|t.log|], i)
    ensures |Apply(t, step).ops| == |t.ops| && Stands(Apply(t, step).ops[i], c)
  {
    hide Inv, Receive, Turn, ValidMessage, FaultsIn, Stands, QueuedFor;
    match step
    case UserStep(j, call) =>
      UserStands(t, j, call, i, c);
    case CheckStep(time) =>
      CheckStands(t, time, i, c);
    case ReceiveStep(m, e) =>
      ReceiveStands(t, seed, m, e, i, c);
    case TurnStep(j, e) =>
      TurnExact(t, seed, j, e);
      TurnStands(t, j, e, Turn(t, j, e), i, c);
  }

  lemma UserStands(t: State, j: nat, call: Call, i: nat, c: Call)
    requires Enabled(t, UserStep(j, call)) && i < |t.ops| && TypeOk(t.ops[i]) && Stands(t.ops[i], c)
    requires var log := Apply(t, UserStep(j, call)).log; |log| > |t.log| ==> !QueuedFor(log[|t.log|], i)
    ensures var t' := Apply(t, UserStep(j, call));
            |t'.ops| == |t.ops| && Stands(t'.ops[i], c)
  {
  }

  lemma CheckStands(t: State, time: nat, i: nat, c: Call)
    requires Enabled(t, CheckStep(time)) && i < |t.ops| && Stands(t.ops[i], c)
    requires var log := Apply(t, CheckStep(time)).log; |log| > |t.log| ==> !QueuedFor(log[|t.log|], i)
    ensures var t' := Apply(t, CheckStep(time));
            |t'.ops| == |t.ops| && Stands(t'.ops[i], c)
  {
    hide Stands;
  }

  lemma TurnStands(t: State, j: nat, e: TxEnv, t': State, i: nat, c: Call)
    requires j < |t.ops| && TurnDone(t, j, e, t') && i < |t.ops| && Stands(t.ops[i], c)
    ensures |t'.ops| == |t.ops| && Stands(t'.ops[i], c)
  {
    hide LogsRequest, LogsAck;
  }

  lemma ReceiveStands(t: State, seed: u16, m: Message, e: RxEnv, i: nat, c: Call)
    requires Inv(t, seed) && ValidMessage(m) && t.ops != [] && i < |t.ops| && TypeOk(t.ops[i]) && Stands(t.ops[i], c)
    requires var log := Receive(t, m, e).log; |log| > |t.log| ==> !QueuedFor(log[|t.log|], i)
    ensures var t' := Receive(t, m, e);
            |t'.ops| == |t.ops| && Stands(t'.ops[i], c)
  {
    var j := FirstMatch(t.ops, m, 0);
    assert m.typ <= 3;
    hide *;
    Dispatched(t, seed, m, j);
    Received(t, seed, m, e, j);
    if i == j {
      AddresseeTyped(t, seed, m, j);
      MatchedKind(t.ops[i], m);
    }
    ReceptionStands(t, m, e, j, Receive(t, m, e), i, c);
  }

  lemma MatchedKind(op: Op, m: Message)
    requires TypeOk(op) && Matches(op, m)
    ensures op.state != Idle && (m.typ <= 1 ==> op.kind == Subscribe)
  {
    hide LittleEndianValue;
  }

  lemma ReceptionStands(t: State, m: Message, e: RxEnv, j: nat, t': State, i: nat, c: Call)
    requires Reception(t, m, e, j, t') && i < |t.ops| && TypeOk(t.ops[i]) && Stands(t.ops[i], c)
    requires i == j ==> t.ops[i].state != Idle && (m.typ <= 1 ==> t.ops[i].kind == Subscribe)
    requires |t'.log| > |t.log| ==> !QueuedFor(t'.log[|t.log|], i)
    ensures |t'.ops| == |t.ops| && Stands(t'.ops[i], c)
  {
    hide ObserveIs, NumberIs, FreshFor, Filled, ResetOf, DeviceTaken, TakenEvents, Taken;
    if i == j {
      TakenStands(t.ops[i], t'.ops[i], m, e, c);
    }
  }

  lemma TakenStands(op: Op, op': Op, m: Message, e: RxEnv, c: Call)
    requires TypeOk(op) && Stands(op, c) && op.state != Idle && (m.typ <= 1 ==> op.kind == Subscribe)
    ensures Taken(op, op', m, e) || op' == op.(state := Error) ==> Stands(op', c)
  {
    hide ObserveIs, NumberIs, FreshFor, Filled;
  }

  /** Every request for operation i from there on is what the call asks for. */
  ghost predicate AllAsk(log: seq<Event>, start: nat, i: nat, c: Call) {
    forall k :: start <= k < |log| && log[k].Request? && log[k].i == i ==> RequestFor(c, log[k])
  }

  /** Operation i is not queued from there on. */
  ghost predicate NoQueueing(log: seq<Event>, start: nat, i: nat) {
    forall k :: start <= k < |log| ==> !QueuedFor(log[k], i)
  }

  lemma LogsOn(t: State, step: Step, log: seq<Event>, start: nat, i: nat, c: Call)
    requires StepLogs(t, step, log) && start <= |t.log|
    ensures |t.log| <= |log|
    ensures NoQueueing(log, start, i) ==> NoQueueing(t.log, start, i) && (|log| > |t.log| ==> !QueuedFor(log[|t.log|], i))
    ensures AllAsk(t.log, start, i, c)
            && (|log| > |t.log| && log[|t.log|].Request? && log[|t.log|].i == i ==> RequestFor(c, log[|t.log|]))
            ==> AllAsk(log, start, i, c)
  {
    LogsPrefix(t, step, log);
    hide StepLogs, RequestFor, QueuedFor;
    forall k | 0 <= k < |t.log|
      ensures log[k] == t.log[k]
    {
      assert log[k] == log[..|t.log|][k];
    }
  }

  lemma {:induction false} StandsOn(u: State, seed: u16, i: nat, c: Call, after: seq<Step>)
    requires Inv(u, seed) && IsRun(u, after) && i < |u.ops| && Stands(u.ops[i], c)
    requires NoQueueing(After(u, after).log, |u.log|, i)
    ensures var t := After(u, after);
            && Inv(t, seed) && |u.log| <= |t.log| && i < |t.ops| && Stands(t.ops[i], c)
            && AllAsk(t.log, |u.log|, i, c)
    decreases |after|
  {
    if after == [] {
      assert After(u, after) == u;
    } else {
      var n, before := |after| - 1, after[..|after| - 1];
      hide *;
      RunLast(u, after);
      var t, step, t' := After(u, before), after[n], After(u, after);
      RunKeepsInv(u, before, seed);
      RunKeepsInv(u, after, seed);
      RunGrows(u, seed, before);
      StepLogsOk(t, seed, step);
      LogsOn(t, step, t'.log, |u.log|, i, c);
      StandsOn(u, seed, i, c, before);
      InvTyped(t, seed, i);
      StepStands(t, seed, step, i, c);
      StepAsks(t, seed, step, t'.log, i, c);
    }
  }

  lemma InvTyped(t: State, seed: u16, i: nat)
    requires Inv(t, seed) && i < |t.ops|
    ensures TypeOk(t.ops[i]) && |t.dev.cik| == 40
  {
    hide HistoryOf, Built, SendOk, MidOk, AckOk, SeqOk, AddressOk, TypeOk;
    assert OpOk(t.ops[i], HistoryOf(t.log, i), Built(t.log), seed);
  }

  lemma {:induction false} RunGrows(u: State, seed: u16, steps: seq<Step>)
    requires Inv(u, seed) && IsRun(u, steps)
    ensures |u.log| <= |After(u, steps).log|
    decreases |steps|
  {
    if steps == [] {
      assert After(u, steps) == u;
    } else {
      var n := |steps| - 1;
      hide *;
      RunLast(u, steps);
      RunGrows(u, seed, steps[..n]);
      RunKeepsInv(u, steps[..n], seed);
      StepLogsOk(After(u, steps[..n]), seed, steps[n]);
      LogsPrefix(After(u, steps[..n]), steps[n], After(u, steps).log);
    }
  }

  lemma StepAsks(t: State, seed: u16, step: Step, log: seq<Event>, i: nat, c: Call)
    requires Inv(t, seed) && StepLogs(t, step, log) && i < |t.ops| && Stands(t.ops[i], c)
    ensures |log| > |t.log| && log[|t.log|].Request? && log[|t.log|].i == i ==> RequestFor(c, log[|t.log|])
  {
    if |log| > |t.log| && log[|t.log|].Request? && log[|t.log|].i == i {
      hide Inv, RequestFor, Stands, TypeOk;
      InvTyped(t, seed, i);
      RequestIndex(t, step.i, step.tx, log[|t.log|]);
      StandsFor(t, i, step.tx, log[|t.log|], c);
    }
  }

  lemma RequestIndex(t: State, i: nat, e: TxEnv, ev: Event)
    requires i < |t.ops| && RequestOf(t, i, e, ev)
    ensures ev.i == i
  {
    hide Says;
  }

  /** The state right after the user queued operation i in a run. */
  ghost function QueuedBy(s: State, before: seq<Step>, i: nat, c: Call): State
    requires IsRun(s, before) && Enabled(After(s, before), UserStep(i, c))
  {
    Apply(After(s, before), UserStep(i, c))
  }

  /** In every run, from the time that the user queues a read, write or
      subscription until the operation is queued anew, every request handed to
      the network for it asks for exactly that, if it fits. */
  lemma QueuedSent(s: State, before: seq<Step>, i: nat, c: Call, after: seq<Step>)
    requires Initial(s) && IsRun(s, before) && Queues(UserStep(i, c), i) && Enabled(After(s, before), UserStep(i, c))
    requires IsRun(QueuedBy(s, before, i, c), after)
    requires NoQueueing(After(QueuedBy(s, before, i, c), after).log, |QueuedBy(s, before, i, c).log|, i)
    ensures AllAsk(After(QueuedBy(s, before, i, c), after).log, |QueuedBy(s, before, i, c).log|, i, c)
  {
    var t := After(s, before);
    assert i < |t.ops|;
    hide *;
    RunInv(s, before);
    InvTyped(t, s.dev.counter, i);
    StepInv(t, UserStep(i, c), s.dev.counter);
    QueuedStands(t, i, c);
    StandsOn(QueuedBy(s, before, i, c), s.dev.counter, i, c, after);
  }

  lemma QueuedStands(t: State, i: nat, c: Call)
    requires Enabled(t, UserStep(i, c)) && TypeOk(t.ops[i]) && Queues(UserStep(i, c), i)
    ensures var u := Apply(t, UserStep(i, c));
            |u.ops| == |t.ops| && Stands(u.ops[i], c)
  {
    UserExact(t, i, c);
    hide TypeOk;
  }
}

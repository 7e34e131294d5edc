/** The operation engine of src/exosite.c as a state machine. A step is a user
    call, the activation check, one received message, or one operation's turn
    in the active-operation pass. What the platform decides (the clock, whether
    a send succeeds, random numbers) is part of the step. Every step leaves a
    trace in a log, so that what happened to an operation can be stated over
    whole runs. */
module EngineModel {
  import opened Bytes
  import opened CoapFormat
  import opened MessageEdits
  import opened OptionLookup
  import opened ObserveSeq
  import opened Requests

  const SECOND: nat := 1000000
  const ACK_WAIT: nat := 4000000
  const JITTER: nat := 1500000
  const MAX_RETRANSMIT: nat := 4
  const DEFAULT_MAX_AGE: nat := 120

  const CONTENT: byte := 69
  const UNAUTHORIZED: byte := 129
  const NOT_FOUND: byte := 132

  datatype ReqState = Idle | New | Pending | Subscribed | SubAck | SubAckNew | Success | Error
  datatype DevState = Uninitialized | Initialized | Good | BadCik

  /** An operation. `value` is the memory the value pointer reaches, or for a
      write the string to send; the empty sequence stands for a null pointer. */
  datatype Op = Op(kind: Kind, state: ReqState, alias: seq<byte>, value: seq<byte>, valueMax: nat,
                   mid: u16, obsSeq: u32, tkl: nat, token: nat, timeout: nat, retries: nat)

  datatype Device = Device(state: DevState, cik: seq<byte>, vendor: seq<byte>, model: seq<byte>,
                           serial: seq<byte>, counter: u16)

  /** What the log records. */
  datatype Event =
    | Queued(i: nat, retries: nat, obsSeq: u32)
    | Request(i: nat, retry: bool, time: nat, key: seq<byte>, packet: seq<byte>, ok: bool)
    | AckSent(i: nat, packet: seq<byte>, ok: bool)
    | Notified(i: nat, mid: u16, observe: Option<seq<byte>>)
    | Observed(i: nat, observe: Option<seq<byte>>)
    | GaveUp(i: nat, now: nat)
    | ResetSent(packet: seq<byte>, ok: bool)

  datatype State = State(dev: Device, ops: seq<Op>, clock: nat, log: seq<Event>)

  /** The message-id counter, incremented in 16 bits. */
  function NextMid(counter: u16): u16 {
    (counter + 1) % 0x1_0000
  }

  /** The value of a two-byte token. */
  function Low16(rnd: nat): u16 {
    rnd % 0x1_0000
  }

  /** A random share of the jitter added to a timeout. */
  function Spread(rnd: nat): nat {
    rnd % JITTER
  }

  // --------------------------------------------------------------- user calls

  function OpInit(): Op {
    Op(NullOp, Idle, [], [], 0, 0, 0, 0, 0, 0, 0)
  }

  function Queue(op: Op, kind: Kind, alias: seq<byte>, value: seq<byte>, valueMax: nat): Op {
    op.(kind := kind, state := New, alias := alias, value := value, valueMax := valueMax, mid := 0)
  }

  function ActivateOp(op: Op): Op {
    Queue(op, Activate, [], [], 0)
  }

  function OpDone(op: Op): Op {
    if op.kind == Subscribe then op.(state := Subscribed) else OpInit()
  }

  predicate Finished(op: Op) {
    op.state == Success || op.state == Error
  }

  datatype Call =
    | CallRead(alias: seq<byte>, value: seq<byte>, valueMax: nat)
    | CallWrite(alias: seq<byte>, value: seq<byte>)
    | CallSubscribe(alias: seq<byte>, value: seq<byte>, valueMax: nat)
    | CallInit
    | CallDone

  function OnCall(op: Op, c: Call): Op {
    match c
    case CallRead(alias, value, valueMax) => Queue(op, Read, alias, value, valueMax)
    case CallWrite(alias, value) => Queue(op, Write, alias, value, 0)
    case CallSubscribe(alias, value, valueMax) => Queue(op, Subscribe, alias, value, valueMax)
    case CallInit => OpInit()
    case CallDone => OpDone(op)
  }

  /** What the library demands of its callers: buffers as large as announced and
      not empty, and exo_op_done only on finished operations. */
  predicate CallAllowed(op: Op, c: Call) {
    match c
    case CallRead(_, value, valueMax) => 1 <= valueMax <= |value|
    case CallSubscribe(_, value, valueMax) => 1 <= valueMax <= |value|
    case CallDone => Finished(op)
    case _ => true
  }

  function QueuedEvent(i: nat, op: Op): Event {
    Queued(i, op.retries, op.obsSeq)
  }

  // ---------------------------------------------------------------- reception

  /** Clock, random number, the value an undefined shift happens to give, and
      the outcome of sending a reset. */
  datatype RxEnv = RxEnv(time: nat, rand: nat, wild: u32, ok: bool)

  /** The message concerns this operation. */
  predicate Matches(op: Op, m: Message) {
    if m.typ == CON || m.typ == NON then
      op.state == Subscribed && LittleEndianValue(m.token) == op.token
    else if m.typ == ACK then
      op.state == Pending && op.mid == m.mid && !(CodeClass(m) == 2 && op.kind == NullOp)
    else
      (op.state == Pending || op.state == Subscribed) && op.mid == m.mid && op.token == LittleEndianValue(m.token)
  }

  function CodeClass(m: Message): nat {
    m.code as int / 32
  }

  /** The lowest-indexed operation from `from` on that the message concerns, or
      the number of operations if there is none. */
  function FirstMatch(ops: seq<Op>, m: Message, from: nat): (i: nat)
    requires from <= |ops|
    ensures from <= i <= |ops|
    ensures forall j :: from <= j < i ==> !Matches(ops[j], m)
    ensures i < |ops| ==> Matches(ops[i], m)
    decreases |ops| - from
  {
    if from == |ops| || Matches(ops[from], m) then from else FirstMatch(ops, m, from + 1)
  }

  /** The bytes that are folded into the Observe sequence number: the Observe
      option if there is one, otherwise whatever the lookup's result points to,
      or None if that is a null pointer. */
  function ObserveBytes(m: Message): Option<seq<byte>> {
    var found := Indices(m.options, OBSERVE);
    if StartsWithZero(m) then Some(m.options[0].value)
    else if found != [] then Some(m.options[found[0]].value)
    else if InsertAt(m.options, OBSERVE) < |m.options| || m.payload == [] then Some([])
    else if m.options == [] then Some(m.payload)
    else None
  }

  function SequenceFrom(start: u32, bytes: Option<seq<byte>>, wild: u32): u32 {
    if bytes.Some? && |bytes.value| <= 4 then Fold(start, bytes.value) else wild
  }

  /** Max-Age in seconds, if it is a single byte. */
  function MaxAge(m: Message): nat {
    var found := Indices(m.options, MAX_AGE);
    if !StartsWithZero(m) && found != [] && |m.options[found[0]].value| == 1
    then m.options[found[0]].value[0] as int else DEFAULT_MAX_AGE
  }

  function FreshUntil(m: Message, e: RxEnv): nat {
    e.time + MaxAge(m) * SECOND + Spread(e.rand)
  }

  /** The payload does not fit the value buffer with its terminating NUL. */
  predicate TooLong(op: Op, m: Message) {
    |m.payload| + 1 > op.valueMax || op.value == []
  }

  /** A string copied into the value buffer, NUL-terminated. */
  function Store(value: seq<byte>, s: seq<byte>): (r: seq<byte>)
    ensures |r| == |value|
  {
    if |s| + 1 <= |value| then s + [0] + value[|s| + 1..] else value
  }

  function Cleared(value: seq<byte>): (r: seq<byte>)
    ensures |r| == |value|
  {
    if value == [] then value else value[0 := 0]
  }

  datatype Effect = Effect(op: Op, event: Option<Event>)

  function OnNotification(op: Op, i: nat, m: Message, e: RxEnv): Effect {
    if m.code == CONTENT then
      if m.payload == [] then Effect(op.(value := Cleared(op.value)), None)
      else if TooLong(op, m) then Effect(op.(state := Error), None)
      else
        var observe := ObserveBytes(m);
        var seqNo := SequenceFrom(0, observe, e.wild);
        Effect(op.(value := Store(op.value, m.payload), mid := m.mid, obsSeq := seqNo,
                   state := if op.obsSeq != seqNo then SubAckNew else SubAck,
                   timeout := FreshUntil(m, e)),
               Some(Notified(i, m.mid, observe)))
    else if CodeClass(m) != 2 then Effect(op.(state := Error), None)
    else Effect(op, None)
  }

  function OnResponse(op: Op, i: nat, m: Message, e: RxEnv): Effect {
    if CodeClass(m) != 2 then Effect(op.(state := Error), None)
    else match op.kind
      case Write => Effect(op.(state := Success), None)
      case Read =>
        Effect(if m.payload == [] then op.(value := Cleared(op.value))
               else if TooLong(op, m) then op.(state := Error)
               else op.(value := Store(op.value, m.payload), state := Success), None)
      case Subscribe =>
        if m.payload == [] then Effect(op.(value := Cleared(op.value)), None)
        else if TooLong(op, m) then Effect(op.(state := Error), None)
        else
          var observe := ObserveBytes(m);
          Effect(op.(value := Store(op.value, m.payload), state := Success,
                     obsSeq := SequenceFrom(op.obsSeq, observe, e.wild), timeout := FreshUntil(m, e)),
                 Some(Observed(i, observe)))
      case Activate => Effect(OpInit(), None)
      case NullOp => Effect(op, None)
  }

  function OnMatch(op: Op, i: nat, m: Message, e: RxEnv): Effect {
    if m.typ == CON || m.typ == NON then OnNotification(op, i, m, e)
    else if m.typ == ACK then OnResponse(op, i, m, e)
    else Effect(op.(state := Error), None)
  }

  function OnMatchDevice(dev: Device, op: Op, m: Message): Device {
    if m.typ != ACK then dev
    else if CodeClass(m) == 2 then
      if op.kind == Activate && |m.payload| == CIK_LENGTH then dev.(cik := m.payload, state := Good) else dev
    else if m.code == NOT_FOUND then dev.(state := Good)
    else dev
  }

  /** An unauthorized response re-queues activation on operation 0, if that is
      unused or has timed out. */
  predicate Reactivates(op0: Op, m: Message, e: RxEnv) {
    m.typ == ACK && m.code == UNAUTHORIZED && (op0.kind == NullOp || op0.timeout < e.time)
  }

  /** Handling the message reads through a null pointer: the Observe number is
      asked for and the lookup has none. */
  predicate Faults(op: Op, m: Message) {
    ObserveBytes(m).None? &&
    if m.typ == CON || m.typ == NON then m.code == CONTENT
    else m.typ == ACK && CodeClass(m) == 2 && op.kind == Subscribe && !TooLong(op, m)
  }

  predicate FaultsIn(ops: seq<Op>, m: Message) {
    var i := FirstMatch(ops, m, 0);
    i < |ops| && Faults(ops[i], m)
  }

  function ResetFor(m: Message): Message {
    Message(RST, 0, m.mid, m.token, [], [])
  }

  function Log(s: State, e: Option<Event>): seq<Event> {
    if e.Some? then s.log + [e.value] else s.log
  }

  function Receive(s: State, m: Message, e: RxEnv): State
    requires s.ops != [] && ValidMessage(m)
  {
    var i := FirstMatch(s.ops, m, 0);
    if i == |s.ops| then
      s.(clock := e.time, log := if m.typ == CON then s.log + [ResetSent(Encode(ResetFor(m)), e.ok)] else s.log)
    else
      var eff := OnMatch(s.ops[i], i, m, e);
      var ops := s.ops[i := eff.op];
      if Reactivates(ops[0], m, e) then
        s.(ops := ops[0 := ActivateOp(ops[0])], clock := e.time, log := s.log + [QueuedEvent(0, ops[0])])
      else
        s.(ops := ops, dev := OnMatchDevice(s.dev, s.ops[i], m), clock := e.time, log := Log(s, eff.event))
  }

  // ------------------------------------------------------------- active pass

  /** The pass's start time, the outcome of the send, the time read after it,
      and the random numbers drawn for the token and the timeout. */
  datatype TxEnv = TxEnv(now: nat, ok: bool, time: nat, rand: nat, jitter: nat)

  function ArgsOf(dev: Device, op: Op): Args {
    Args(op.alias, op.value, dev.cik, dev.vendor, dev.model, dev.serial)
  }

  function AckFor(mid: u16): Message {
    Message(ACK, 0, mid, [], [], [])
  }

  /** The operation sends or resends a request in this turn. */
  predicate Sends(op: Op, e: TxEnv) {
    || (op.state == New && op.kind != NullOp)
    || Resends(op, e)
  }

  predicate Expired(op: Op, e: TxEnv) {
    (op.state == Pending || op.state == Subscribed) && op.timeout <= e.now
  }

  predicate Resends(op: Op, e: TxEnv) {
    Expired(op, e) && op.kind in {Read, Write, Activate} && op.retries < MAX_RETRANSMIT
  }

  /** How long to wait after a retransmission. */
  function Backoff(retries: nat, jitter: nat): nat {
    retries * SECOND + Spread(jitter)
  }

  /** The operation after its request was sent again. */
  function Resent(op: Op, e: TxEnv): Op {
    if !e.ok then op
    else op.(retries := op.retries + 1, timeout := e.time + Backoff(op.retries + 1, e.jitter))
  }

  function PacketOf(dev: Device, op: Op, e: TxEnv): seq<byte> {
    if op.state == New then RequestBytes(op.kind, dev.counter, e.rand, ArgsOf(dev, op))
    else RetransmitBytes(op.kind, dev.counter, e.rand, ArgsOf(dev, op), op.mid, op.token, op.tkl)
  }

  function OnTurn(dev: Device, op: Op, i: nat, e: TxEnv): Effect {
    if Sends(op, e) then
      Effect(if !e.ok then op
             else if op.state == New then
               op.(state := Pending, timeout := e.time + ACK_WAIT, mid := dev.counter, token := Low16(e.rand))
             else Resent(op, e),
             Some(Request(i, op.state != New, e.time, dev.cik, PacketOf(dev, op, e), e.ok)))
    else if Expired(op, e) then
      match op.kind
      case Subscribe => Effect(op.(state := New), None)
      case NullOp => Effect(op, None)
      case _ => Effect(op.(state := Error), Some(GaveUp(i, e.now)))
    else if op.state == SubAck || op.state == SubAckNew then
      Effect(if !e.ok then op else op.(state := if op.state == SubAck then Subscribed else Success),
             Some(AckSent(i, Encode(AckFor(op.mid)), e.ok)))
    else Effect(op, None)
  }

  /** Building a request draws the next message id. */
  function CounterAfter(dev: Device, op: Op, e: TxEnv): u16 {
    if Sends(op, e) then NextMid(dev.counter) else dev.counter
  }

  function Turn(s: State, i: nat, e: TxEnv): State
    requires i < |s.ops|
  {
    var eff := OnTurn(s.dev, s.ops[i], i, e);
    s.(ops := s.ops[i := eff.op], dev := s.dev.(counter := CounterAfter(s.dev, s.ops[i], e)),
       clock := e.time, log := Log(s, eff.event))
  }

  // --------------------------------------------------------------------- runs

  /** The check at the start of exo_operate. */
  predicate NeedsActivation(s: State, time: nat)
    requires s.ops != []
  {
    (s.dev.state == Initialized || s.dev.state == BadCik) && (s.ops[0].state == Idle || s.ops[0].timeout < time)
  }

  datatype Step =
    | UserStep(i: nat, c: Call)
    | CheckStep(time: nat)
    | ReceiveStep(m: Message, rx: RxEnv)
    | TurnStep(i: nat, tx: TxEnv)

  predicate Enabled(s: State, step: Step) {
    s.ops != [] &&
    match step
    case UserStep(i, c) => i < |s.ops| && CallAllowed(s.ops[i], c)
    case CheckStep(time) => s.clock <= time
    case ReceiveStep(m, e) => ValidMessage(m) && s.clock <= e.time && !FaultsIn(s.ops, m)
    case TurnStep(i, e) => i < |s.ops| && s.clock <= e.time && e.now <= e.time
  }

  function Apply(s: State, step: Step): State
    requires Enabled(s, step)
  {
    match step
    case UserStep(i, c) =>
      var op := OnCall(s.ops[i], c);
      s.(ops := s.ops[i := op], log := if op.state == New then s.log + [QueuedEvent(i, op)] else s.log)
    case CheckStep(time) =>
      if NeedsActivation(s, time) then
        s.(ops := s.ops[0 := ActivateOp(s.ops[0])], clock := time, log := s.log + [QueuedEvent(0, s.ops[0])])
      else s.(clock := time)
    case ReceiveStep(m, e) => Receive(s, m, e)
    case TurnStep(i, e) => Turn(s, i, e)
  }

  /** Every step of the run can be taken. */
  ghost predicate IsRun(s: State, steps: seq<Step>)
    decreases |steps|, 0
  {
    steps == [] || (IsRun(s, steps[..|steps| - 1]) && Enabled(After(s, steps[..|steps| - 1]), steps[|steps| - 1]))
  }

  ghost function After(s: State, steps: seq<Step>): State
    requires IsRun(s, steps)
    decreases |steps|, 1
  {
    if steps == [] then s else Apply(After(s, steps[..|steps| - 1]), steps[|steps| - 1])
  }

  /** The device just initialised, its key in a buffer of fixed size, and every
      operation initialised by exo_op_init. */
  predicate Initial(s: State) {
    s.ops != [] && s.log == [] && |s.dev.cik| == CIK_LENGTH && forall i :: 0 <= i < |s.ops| ==> s.ops[i] == OpInit()
  }
}

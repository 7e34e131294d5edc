/** What the invariant of all runs means for the users of the engine. */
module EngineTheorems {
  import opened Bytes
  import opened CoapFormat
  import opened OptionLookup
  import opened ObserveSeq
  import opened Requests
  import opened RequestKey
  import opened EngineModel
  import opened EngineHistory
  import opened EngineRuns

  /** The operation at index i after a run, with its history. */
  ghost predicate Reached(s: State, steps: seq<Step>, i: nat, op: Op, h: History) {
    && Initial(s) && IsRun(s, steps)
    && var t := After(s, steps);
    i < |t.ops| && op == t.ops[i] && h == HistoryOf(t.log, i)
  }

  lemma ReachedOk(s: State, steps: seq<Step>, i: nat, op: Op, h: History)
    requires Reached(s, steps, i, op, h)
    ensures OpOk(op, h, Built(After(s, steps).log), s.dev.counter)
  {
    ReachedInv(s, steps, i, op, h);
    hide OpOk, HistoryOf, Built, After, IsRun, Reached;
  }

  lemma ReachedInv(s: State, steps: seq<Step>, i: nat, op: Op, h: History)
    requires Reached(s, steps, i, op, h)
    ensures Initial(s) && IsRun(s, steps) && Inv(After(s, steps), s.dev.counter)
    ensures var t := After(s, steps);
            i < |t.ops| && op == t.ops[i] && h == HistoryOf(t.log, i)
  {
    RunInv(s, steps);
    hide HistoryOf, After, IsRun, Inv;
  }

  // ------------------------------------------------------- kinds and states

  /** In every run: an operation has a kind exactly when it is in use; only
      subscriptions are ever subscribed or owe an acknowledgement; activations
      never rest in success; the retry count is bounded; and the stored token
      length is never set. A pending operation always has a kind. */
  lemma KindsAndStates(s: State, steps: seq<Step>, i: nat, op: Op, h: History)
    requires Reached(s, steps, i, op, h)
    ensures op.kind == NullOp <==> op.state == Idle
    ensures op.state in {Subscribed, SubAck, SubAckNew} ==> op.kind == Subscribe
    ensures op.kind == Activate ==> op.state in {New, Pending, Error}
    ensures op.kind in {Read, Write} ==> op.state in {New, Pending, Success, Error}
    ensures op.state in {New, Pending} ==> op.kind != NullOp
    ensures op.retries <= MAX_RETRANSMIT && op.tkl == 0
  {
    ReachedOk(s, steps, i, op, h);
    hide SendOk, MidOk, AckOk, AddressOk, SeqOk, Reached;
  }

  // ----------------------------------------------------------------- timeout

  /** In every run, a read, write or activation queued with a retry count of r0
      is transmitted at most 1 + 4 - r0 times, and is given up no earlier than
      4 s + (r0 + 1) s + ... + 4 s after its first transmission: for a freshly
      initialised operation, five times and 14 seconds. */
  lemma TimeoutBound(s: State, steps: seq<Step>, i: nat, op: Op, h: History)
    requires Reached(s, steps, i, op, h) && OneShot(op)
    ensures h.retries0 + h.sends <= 5
    ensures h.gaveUp.Some? ==>
              && op.state == Error && h.retries0 + h.sends == 5
              && h.gaveUp.value >= h.first + 14000000 - Triangle(h.retries0) * 1000000
    ensures h.retries0 == 0 && h.gaveUp.Some? ==> h.gaveUp.value >= h.first + 14000000
  {
    ReachedOk(s, steps, i, op, h);
    hide TypeOk, MidOk, AckOk, AddressOk, SeqOk, Reached;
    assert Triangle(4) == 10;
    assert Triangle(0) == 0;
  }

  /** Queueing a freshly initialised operation starts from a retry count of 0. */
  lemma QueuedFresh(s: State, i: nat, c: Call)
    requires Enabled(s, UserStep(i, c)) && s.ops[i] == OpInit() && !c.CallInit? && !c.CallDone?
    ensures HistoryOf(Apply(s, UserStep(i, c)).log, i).retries0 == 0
    ensures HistoryOf(Apply(s, UserStep(i, c)).log, i).seqKnown
  {
    LogAppend(s.log, QueuedEvent(i, OnCall(s.ops[i], c)), i);
    hide HistoryOf, Built;
  }

  // -------------------------------------------------------------- message ids

  lemma SameCounter(a: u16, b: u16, seed: u16, m: nat, n: nat, built: nat)
    requires CounterAt(a, seed, m) && CounterAt(b, seed, n) && m != n && m < built && n < built
    ensures a == b <==> (m - n) % 0x1_0000 == 0
    ensures built - m <= 0x1_0000 && built - n <= 0x1_0000 ==> a != b
  {
    if m > n {
      Apart(seed, n, m - n);
    } else {
      Apart(seed, m, n - m);
    }
  }

  /** Advancing a 16-bit counter by d leaves it where it was exactly when d is a
      multiple of 65536. */
  lemma Apart(seed: u16, n: nat, d: int)
    requires d >= 0
    ensures (seed + n) % 0x1_0000 == (seed + (n + d)) % 0x1_0000 <==> d % 0x1_0000 == 0
    ensures 0 < d < 0x1_0000 ==> d % 0x1_0000 != 0
    ensures (-d) % 0x1_0000 == 0 <==> d % 0x1_0000 == 0
  {
    var q, a, dq, dr := (seed + n) / 0x1_0000, (seed + n) % 0x1_0000, d / 0x1_0000, d % 0x1_0000;
    if a + dr < 0x1_0000 {
      RemainderUnique(seed + (n + d), 0x1_0000, q + dq, a + dr);
    } else {
      RemainderUnique(seed + (n + d), 0x1_0000, q + dq + 1, a + dr - 0x1_0000);
    }
    if dr == 0 {
      RemainderUnique(-d, 0x1_0000, -dq, 0);
    } else {
      RemainderUnique(-d, 0x1_0000, -dq - 1, 0x1_0000 - dr);
    }
    if d < 0x1_0000 {
      RemainderUnique(d, 0x1_0000, 0, d);
    }
  }

  /** In every run, two pending operations carry the same message id exactly
      when the numbers of their requests differ by a multiple of 65536; so they
      differ while at most 65536 requests were built since the older one. */
  lemma MessageIds(s: State, steps: seq<Step>, i: nat, op: Op, h: History, j: nat, op': Op, h': History)
    requires Reached(s, steps, i, op, h) && Reached(s, steps, j, op', h') && i != j
    requires op.state == Pending && op'.state == Pending
    ensures h.stamp != h'.stamp
    ensures op.mid == op'.mid <==> (h.stamp - h'.stamp) % 0x1_0000 == 0
    ensures var built := Built(After(s, steps).log);
            built - h.stamp <= 0x1_0000 && built - h'.stamp <= 0x1_0000 ==> op.mid != op'.mid
  {
    hide *;
    ReachedInv(s, steps, i, op, h);
    ReachedInv(s, steps, j, op', h');
    var t := After(s, steps);
    PendingPair(t, s.dev.counter, i, j);
    SameCounter(op.mid, op'.mid, s.dev.counter, h.stamp, h'.stamp, Built(t.log));
  }

  lemma PendingPair(t: State, seed: u16, i: nat, j: nat)
    requires Inv(t, seed) && i < |t.ops| && j < |t.ops| && i != j
    requires t.ops[i].state == Pending && t.ops[j].state == Pending
    ensures HistoryOf(t.log, i).stamp != HistoryOf(t.log, j).stamp
    ensures HistoryOf(t.log, i).stamp < Built(t.log) && HistoryOf(t.log, j).stamp < Built(t.log)
    ensures CounterAt(t.ops[i].mid, seed, HistoryOf(t.log, i).stamp)
    ensures CounterAt(t.ops[j].mid, seed, HistoryOf(t.log, j).stamp)
  {
    hide TypeOk, SendOk, AckOk, AddressOk, SeqOk, HistoryOf, Built, CounterAt;
    assert OpOk(t.ops[i], HistoryOf(t.log, i), Built(t.log), seed);
    assert OpOk(t.ops[j], HistoryOf(t.log, j), Built(t.log), seed);
    PendingStamps(t, seed);
  }

  /** No pending request is older than 65536 requests. */
  ghost predicate Recent(t: State) {
    forall j :: 0 <= j < |t.ops| && t.ops[j].state == Pending ==>
      Built(t.log) - HistoryOf(t.log, j).stamp <= 0x1_0000
  }

  /** Then a response concerns at most one operation. */
  lemma AckMatches(t: State, seed: u16, i: nat, m: Message)
    requires Inv(t, seed) && Recent(t) && i < |t.ops| && t.ops[i].state == Pending
    requires m.typ == ACK && m.mid == t.ops[i].mid
    ensures FirstMatch(t.ops, m, 0) == i
    ensures forall j :: 0 <= j < |t.ops| && Matches(t.ops[j], m) ==> j == i
  {
    hide Built, HistoryOf, CounterAt, FirstMatch;
    forall j | 0 <= j < |t.ops| && Matches(t.ops[j], m)
      ensures j == i
    {
      if j != i {
        hide Inv;
        PendingPair(t, seed, i, j);
        SameCounter(t.ops[i].mid, t.ops[j].mid, seed, HistoryOf(t.log, i).stamp, HistoryOf(t.log, j).stamp, Built(t.log));
      }
    }
    assert OpOk(t.ops[i], HistoryOf(t.log, i), Built(t.log), seed);
    assert Matches(t.ops[i], m);
  }

  /** The state in which a response leaves a pending operation. */
  function Resolution(op: Op, m: Message): ReqState {
    if CodeClass(m) != 2 then Error
    else match op.kind
      case Write => Success
      case Activate => Idle
      case NullOp => op.state
      case _ =>
        if m.payload == [] then Pending
        else if |m.payload| + 1 <= op.valueMax then Success else Error
  }

  /** While no pending request is older than 65536 requests, a response that
      carries the message id of the packet first sent for an operation is
      matched with that operation and no other. It leaves the operation pending
      exactly if it is a success response without payload to a read or a
      subscription. Only operation 0 can change besides, by being queued for
      activation. */
  lemma AckResolves(s: State, steps: seq<Step>, i: nat, op: Op, h: History, m: Message, e: RxEnv)
    requires Reached(s, steps, i, op, h) && op.state == Pending && Recent(After(s, steps))
    requires ValidMessage(m) && m.typ == ACK && m.mid == MidOf(h.original)
    ensures op.mid == MidOf(h.original) && After(s, steps).ops != []
    ensures var t := After(s, steps);
            var t' := Receive(t, m, e);
            && FirstMatch(t.ops, m, 0) == i && (forall j :: 0 <= j < |t.ops| && Matches(t.ops[j], m) ==> j == i)
            && |t'.ops| == |t.ops|
            && (t'.ops[i].state == Pending <==> CodeClass(m) == 2 && m.payload == [] && op.kind in {Read, Subscribe})
            && (i > 0 || !Reactivates(op, m, e) ==> t'.ops[i].state == Resolution(op, m))
            && (forall j :: 1 <= j < |t.ops| && j != i ==> t'.ops[j] == t.ops[j])
            && (i > 0 ==> t'.ops[0] == if Reactivates(t.ops[0], m, e) then ActivateOp(t.ops[0]) else t.ops[0])
  {
    var t := After(s, steps);
    ReachedInv(s, steps, i, op, h);
    ReachedOk(s, steps, i, op, h);
    PendingPacket(t, s.dev.counter, i);
    hide Reached, IsRun, After, Inv, SendOk, MidOk, AckOk, AddressOk, SeqOk, Recent, MidOf;
    AckMatches(t, s.dev.counter, i, m);
    ResponseState(op, i, m, e);
    ResponseFrame(t, m, e, i);
    hide *;
  }

  lemma ResponseFrame(t: State, m: Message, e: RxEnv, i: nat)
    requires t.ops != [] && ValidMessage(m) && i < |t.ops| && FirstMatch(t.ops, m, 0) == i
    requires m.typ == ACK && (m.code == UNAUTHORIZED ==> OnMatch(t.ops[i], i, m, e).op == t.ops[i].(state := Error))
    ensures var t', op' := Receive(t, m, e), OnMatch(t.ops[i], i, m, e).op;
            && |t'.ops| == |t.ops|
            && (i > 0 || !Reactivates(t.ops[i], m, e) ==> t'.ops[i] == op')
            && (i == 0 && Reactivates(t.ops[i], m, e) ==> t'.ops[i].state == New && op'.state == Error)
            && (forall j :: 1 <= j < |t.ops| && j != i ==> t'.ops[j] == t.ops[j])
            && (i > 0 ==> t'.ops[0] == if Reactivates(t.ops[0], m, e) then ActivateOp(t.ops[0]) else t.ops[0])
  {
    ReceiveMatched(t, m, e, i);
    hide Receive, OnMatch, FirstMatch, ValidMessage;
  }

  /** The packet first sent for a pending operation carries its message id. */
  lemma PendingPacket(t: State, seed: u16, i: nat)
    requires Inv(t, seed) && i < |t.ops| && t.ops[i].state == Pending
    ensures MidOf(HistoryOf(t.log, i).original) == t.ops[i].mid
  {
    hide HistoryOf, Built, OpOk, RequestBytes, MidOf;
    var op, h := t.ops[i], HistoryOf(t.log, i);
    assert OriginalOk(op, h, t.dev);
    UntokenedRequest(op.kind, op.mid, op.token, ArgsOf(t.dev.(cik := h.key), op), 0);
  }

  lemma ResponseState(op: Op, i: nat, m: Message, e: RxEnv)
    requires op.state == Pending && TypeOk(op) && m.typ == ACK
    ensures OnMatch(op, i, m, e).op.state == Resolution(op, m)
    ensures Resolution(op, m) == Pending <==> CodeClass(m) == 2 && m.payload == [] && op.kind in {Read, Subscribe}
    ensures CodeClass(m) != 2 ==> OnMatch(op, i, m, e).op == op.(state := Error)
    ensures m.code == UNAUTHORIZED ==> CodeClass(m) != 2
  {
    hide Fold, ObserveBytes, FreshUntil, Store, Cleared;
  }

  /** A matched message, written out. */
  lemma ReceiveMatched(s: State, m: Message, e: RxEnv, i: nat)
    requires s.ops != [] && ValidMessage(m) && i < |s.ops| && FirstMatch(s.ops, m, 0) == i
    ensures var eff := OnMatch(s.ops[i], i, m, e);
            var ops := s.ops[i := eff.op];
            Receive(s, m, e) ==
              if Reactivates(ops[0], m, e) then
                s.(ops := ops[0 := ActivateOp(ops[0])], clock := e.time, log := s.log + [QueuedEvent(0, ops[0])])
              else
                s.(ops := ops, dev := OnMatchDevice(s.dev, s.ops[i], m), clock := e.time, log := Log(s, eff.event))
  {
    hide OnMatch, Encode;
  }

  // ---------------------------------------------------------------- dispatch

  /** One received message changes at most the lowest-indexed operation it
      concerns, and operation 0 if an unauthorized response re-queues
      activation there. */
  lemma DispatchFrame(s: State, m: Message, e: RxEnv)
    requires s.ops != [] && ValidMessage(m)
    ensures var i, t := FirstMatch(s.ops, m, 0), Receive(s, m, e);
            && |t.ops| == |s.ops|
            && (forall j :: 0 <= j < |s.ops| && j != i && j != 0 ==> t.ops[j] == s.ops[j])
            && (0 < i < |s.ops| ==> t.ops[0] == if Reactivates(s.ops[0], m, e) then ActivateOp(s.ops[0]) else s.ops[0])
            && (i == |s.ops| ==> t.ops[0] == s.ops[0])
            && (0 < i < |s.ops| ==> t.ops[i] == OnMatch(s.ops[i], i, m, e).op)
            && (i == 0 ==>
                  var op := OnMatch(s.ops[0], 0, m, e).op;
                  t.ops[0] == if Reactivates(op, m, e) then ActivateOp(op) else op)
  {
    hide OnMatch, Encode;
  }

  /** Step k of a run receives a message that operation j is the first match of. */
  ghost predicate HitAt(s: State, steps: seq<Step>, k: nat, j: nat)
    requires k < |steps|
  {
    IsRun(s, steps[..k]) && steps[k].ReceiveStep? && FirstMatch(After(s, steps[..k]).ops, steps[k].m, 0) == j
  }

  /** Over a whole receive phase, an operation at index 1 or above changes only
      through messages that it is the first match of. */
  lemma {:induction false} ReceiveFrame(s: State, steps: seq<Step>, j: nat)
    requires IsRun(s, steps) && 1 <= j < |s.ops|
    requires forall k :: 0 <= k < |steps| ==> steps[k].ReceiveStep? && !HitAt(s, steps, k, j)
    ensures |After(s, steps).ops| == |s.ops| && After(s, steps).ops[j] == s.ops[j]
    decreases |steps|
  {
    if steps == [] {
      assert After(s, steps) == s;
    } else {
      var n, before := |steps| - 1, steps[..|steps| - 1];
      RunLast(s, steps);
      var t, step := After(s, before), steps[n];
      assert !HitAt(s, steps, n, j) && step.ReceiveStep?;
      assert t.ops != [] && ValidMessage(step.m) && After(s, steps) == Receive(t, step.m, step.rx);
      assert FirstMatch(t.ops, step.m, 0) != j;
      hide *;
      HitsPrefix(s, steps, j);
      ReceiveFrame(s, before, j);
      DispatchFrame(t, step.m, step.rx);
    }
  }

  lemma HitsPrefix(s: State, steps: seq<Step>, j: nat)
    requires steps != [] && forall k :: 0 <= k < |steps| ==> steps[k].ReceiveStep? && !HitAt(s, steps, k, j)
    ensures var before := steps[..|steps| - 1];
            forall k :: 0 <= k < |before| ==> before[k].ReceiveStep? && !HitAt(s, before, k, j)
  {
    var before := steps[..|steps| - 1];
    forall k | 0 <= k < |before|
      ensures before[k].ReceiveStep? && !HitAt(s, before, k, j)
    {
      assert before[..k] == steps[..k] && before[k] == steps[k];
      assert !HitAt(s, steps, k, j);
      hide IsRun, After, FirstMatch;
    }
  }

  /** A message that concerns an operation is never answered with a reset. */
  lemma DispatchMatched(s: State, m: Message, e: RxEnv)
    requires s.ops != [] && ValidMessage(m) && FirstMatch(s.ops, m, 0) < |s.ops|
    ensures var t := Receive(s, m, e);
            t.log == s.log || (|t.log| == |s.log| + 1 && t.log[..|s.log|] == s.log && !t.log[|s.log|].ResetSent?)
  {
    var i := FirstMatch(s.ops, m, 0);
    MatchedEvent(s.ops[i], i, m, e);
    hide OnMatch, Encode;
  }

  lemma MatchedEvent(op: Op, i: nat, m: Message, e: RxEnv)
    ensures var ev := OnMatch(op, i, m, e).event;
            ev.Some? ==> ev.value.Notified? || ev.value.Observed?
  {
    hide Fold, ObserveBytes, FreshUntil, Store, Cleared;
  }

  // ---------------------------------------------------------------- delivery

  /** What a payload makes of a pending read: the payload and a terminating NUL
      in its buffer if they fit, failure with the buffer untouched if not, and
      an empty string, still pending, if there is none. */
  predicate Delivered(op: Op, op': Op, payload: seq<byte>) {
    if payload == [] then op.value != [] && op' == op.(value := op.value[0 := 0])
    else if |payload| + 1 > op.valueMax then op' == op.(state := Error)
    else
      && op' == op.(state := Success, value := op'.value)
      && |op'.value| == |op.value| > |payload|
      && op'.value[..|payload|] == payload && op'.value[|payload|] == 0
      && op'.value[|payload| + 1..] == op.value[|payload| + 1..]
  }

  lemma ReadResponse(op: Op, i: nat, m: Message, e: RxEnv, dev: Device)
    requires op.kind == Read && op.state == Pending && TypeOk(op) && m.typ == ACK && CodeClass(m) == 2
    ensures Delivered(op, OnMatch(op, i, m, e).op, m.payload)
    ensures OnMatch(op, i, m, e).event.None? && OnMatchDevice(dev, op, m) == dev && m.code != UNAUTHORIZED
  {
    hide ObserveBytes, Fold;
  }

  /** A success response to the read at index i. */
  predicate Answers(t: State, i: nat, m: Message) {
    && ValidMessage(m) && m.typ == ACK && CodeClass(m) == 2
    && i < |t.ops| && t.ops[i].kind == Read && t.ops[i].state == Pending && t.ops[i].mid == m.mid
  }

  lemma DeliverRead(t: State, seed: u16, i: nat, m: Message, e: RxEnv)
    requires Inv(t, seed) && Recent(t) && Answers(t, i, m)
    ensures var t' := Receive(t, m, e);
            && |t'.ops| == |t.ops| && t' == t.(ops := t.ops[i := t'.ops[i]], clock := e.time)
            && Delivered(t.ops[i], t'.ops[i], m.payload)
  {
    AckMatches(t, seed, i, m);
    ReceiveMatched(t, m, e, i);
    assert OpOk(t.ops[i], HistoryOf(t.log, i), Built(t.log), seed);
    ReadResponse(t.ops[i], i, m, e, t.dev);
    hide Receive, OnMatch, OnMatchDevice, Inv, Recent, HistoryOf, Built, Delivered;
  }

  /** In every run, a datagram that is a success response to a pending read, as
      told by the message id of the packet first sent for it, is delivered to
      that read: the read succeeds exactly if the payload is not empty and fits
      with its NUL, and then its buffer holds exactly these. Every other
      operation, the device and the log are unchanged. */
  lemma ReadDelivery(s: State, steps: seq<Step>, i: nat, op: Op, h: History, d: seq<byte>, m: Message, e: RxEnv)
    requires Reached(s, steps, i, op, h) && op.kind == Read && op.state == Pending && Recent(After(s, steps))
    requires Parse(d) == Some(m) && m.typ == ACK && CodeClass(m) == 2 && m.mid == MidOf(h.original)
    ensures ValidMessage(m) && After(s, steps).ops != [] && op.mid == m.mid
    ensures var t := After(s, steps);
            var t' := Receive(t, m, e);
            && |t'.ops| == |t.ops| && t' == t.(ops := t.ops[i := t'.ops[i]], clock := e.time)
            && Delivered(op, t'.ops[i], m.payload)
            && (t'.ops[i].state == Success <==> m.payload != [] && |m.payload| + 1 <= op.valueMax)
  {
    EncodeOfParse(d);
    ReachedInv(s, steps, i, op, h);
    var t := After(s, steps);
    PendingPacket(t, s.dev.counter, i);
    hide Reached, IsRun, After, Inv, Recent, MidOf, Parse, Encode, ValidMessage, Receive;
    DeliverRead(t, s.dev.counter, i, m, e);
  }

  // ---------------------------------------------------------- notifications

  /** In every run, the message ids of the notifications that a subscription
      accepted are, one by one and in order, those of the empty
      acknowledgements sent for it, except for the last one while that is owed. */
  lemma NotificationsAcknowledged(s: State, steps: seq<Step>, i: nat, op: Op, h: History)
    requires Reached(s, steps, i, op, h) && op.kind == Subscribe
    ensures op.state in {SubAck, SubAckNew} ==> h.accepted == h.acked + [op.mid]
    ensures op.state !in {SubAck, SubAckNew} ==> h.accepted == h.acked
  {
    ReachedOk(s, steps, i, op, h);
    hide TypeOk, SendOk, MidOk, SeqOk, Reached;
  }

  predicate OwesAck(op: Op) {
    op.state == SubAck || op.state == SubAckNew
  }

  /** Nothing but its own successful turn, or the user, touches it meanwhile. */
  lemma OwedUntouched(s: State, step: Step, i: nat)
    requires Enabled(s, step) && 1 <= i < |s.ops| && OwesAck(s.ops[i])
    requires !(step.UserStep? && step.i == i) && !(step.TurnStep? && step.i == i && step.tx.ok)
    ensures |Apply(s, step).ops| == |s.ops| && Apply(s, step).ops[i] == s.ops[i]
  {
    if step.ReceiveStep? {
      DispatchFrame(s, step.m, step.rx);
      assert !Matches(s.ops[i], step.m);
    }
    hide OnMatch, PacketOf, Encode, Receive, Matches;
  }

  /** The same over whole runs: the debt and the operation's value stay as they
      are until an acknowledgement is sent successfully. */
  lemma {:induction false} OwedPersists(s: State, steps: seq<Step>, i: nat)
    requires IsRun(s, steps) && 1 <= i < |s.ops| && OwesAck(s.ops[i])
    requires forall k :: 0 <= k < |steps| ==>
               !(steps[k].UserStep? && steps[k].i == i) && !(steps[k].TurnStep? && steps[k].i == i && steps[k].tx.ok)
    ensures |After(s, steps).ops| == |s.ops| && After(s, steps).ops[i] == s.ops[i]
    decreases |steps|
  {
    if steps != [] {
      var before := steps[..|steps| - 1];
      OwedPersists(s, before, i);
      hide Apply, Enabled;
      OwedUntouched(After(s, before), steps[|steps| - 1], i);
    }
  }

  /** A notification whose payload fits and whose Observe value is canonical. */
  predicate News(op: Op, m: Message) {
    && m.typ in {CON, NON} && m.code == CONTENT && m.payload != [] && |m.payload| + 1 <= op.valueMax
    && ObserveBytes(m).Some? && Canonical(ObserveBytes(m).value)
  }

  /** In every run, while the stored sequence number is known to be the fold of
      the last Observe value, the next notification received for a subscription
      is reported as new exactly when its Observe value differs from the last
      one; and the stored number is then the fold of that value. */
  lemma NewsReported(s: State, steps: seq<Step>, i: nat, op: Op, h: History, m: Message, e: RxEnv)
    requires Reached(s, steps, i, op, h) && h.seqKnown && Canonical(h.lastSeq)
    requires ValidMessage(m) && FirstMatch(After(s, steps).ops, m, 0) == i && News(op, m)
    ensures After(s, steps).ops != []
    ensures var t' := Receive(After(s, steps), m, e);
            && i < |t'.ops|
            && (t'.ops[i].state == SubAckNew <==> ObserveBytes(m).value != h.lastSeq)
            && (t'.ops[i].state == SubAck <==> ObserveBytes(m).value == h.lastSeq)
            && HistoryOf(t'.log, i).seqKnown && HistoryOf(t'.log, i).lastSeq == ObserveBytes(m).value
  {
    var t := After(s, steps);
    ReachedInv(s, steps, i, op, h);
    ReachedOk(s, steps, i, op, h);
    assert Matches(op, m) && TypeOk(op) && SeqOk(op, h) && m.code != UNAUTHORIZED;
    hide *;
    NewsMatched(op, i, h, m, e, Built(t.log));
    ReceivePlain(t, m, e, i);
  }

  lemma NewsMatched(op: Op, i: nat, h: History, m: Message, e: RxEnv, built: nat)
    requires Matches(op, m) && TypeOk(op) && SeqOk(op, h) && h.seqKnown && Canonical(h.lastSeq) && News(op, m)
    ensures var eff := OnMatch(op, i, m, e);
            && (eff.op.state == SubAckNew <==> ObserveBytes(m).value != h.lastSeq)
            && (eff.op.state == SubAck <==> ObserveBytes(m).value == h.lastSeq)
            && eff.event == Some(Notified(i, m.mid, ObserveBytes(m)))
            && Note(h, eff.event.value, i, built).seqKnown && Note(h, eff.event.value, i, built).lastSeq == ObserveBytes(m).value
  {
    FoldInjective(h.lastSeq, ObserveBytes(m).value);
    hide Fold, ObserveBytes, FreshUntil, Store, LittleEndianValue;
  }

  /** Whatever notification comes next, it is reported as new exactly if its
      Observe value is not v. */
  ghost predicate TellsApart(op: Op, i: nat, v: seq<byte>) {
    forall n, e :: News(op, n) ==> (OnNotification(op, i, n, e).op.state == SubAckNew <==> ObserveBytes(n).value != v)
  }

  lemma NewsCompared(op: Op, i: nat, n: Message, e: RxEnv)
    requires News(op, n) && op.value != []
    ensures OnNotification(op, i, n, e).op.state == SubAckNew <==> op.obsSeq != Fold(0, ObserveBytes(n).value)
  {
    hide ObserveBytes, Fold, FreshUntil, Store;
  }

  /** It does exactly if the stored number is the fold of v. */
  lemma TellsApartExact(op: Op, i: nat, v: seq<byte>)
    requires Canonical(v) && 2 <= op.valueMax <= |op.value|
    ensures TellsApart(op, i, v) <==> op.obsSeq == Fold(0, v)
  {
    if op.obsSeq == Fold(0, v) {
      forall n, e | News(op, n)
        ensures OnNotification(op, i, n, e).op.state == SubAckNew <==> ObserveBytes(n).value != v
      {
        hide OnNotification, ObserveBytes, Fold;
        NewsCompared(op, i, n, e);
        FoldInjective(ObserveBytes(n).value, v);
      }
      hide *;
    } else {
      hide OnNotification, ObserveBytes, Fold;
      SameReported(op, i, v);
    }
  }

  /** A notification with the value v is reported if the stored number is not
      the fold of v. */
  lemma SameReported(op: Op, i: nat, v: seq<byte>)
    requires Canonical(v) && 2 <= op.valueMax <= |op.value| && op.obsSeq != Fold(0, v)
    ensures !TellsApart(op, i, v)
  {
    var n, e := Message(CON, CONTENT, 0, [], [Opt(OBSERVE, v)], [0]), RxEnv(0, 0, 0, false);
    ObservedValue(n, v);
    hide OnNotification, ObserveBytes, Fold, Canonical;
    assert News(op, n);
    NewsCompared(op, i, n, e);
  }

  lemma ObservedValue(n: Message, v: seq<byte>)
    requires n.options == [Opt(OBSERVE, v)]
    ensures ObserveBytes(n) == Some(v)
  {
    assert n.options[..0] == [] && Indices([], OBSERVE) == [];
    assert Indices(n.options, OBSERVE) == [0];
  }

  /** The response to a renewed subscription is folded onto the old number. In
      every run, whatever notification comes after it, it is compared correctly
      with the value in that response exactly if that value absorbs the last
      accepted one; and exactly then the number stays known. */
  lemma RenewalFreshness(s: State, steps: seq<Step>, i: nat, op: Op, h: History, m: Message, e: RxEnv)
    requires Reached(s, steps, i, op, h) && op.kind == Subscribe && h.seqKnown && Canonical(h.lastSeq)
    requires ValidMessage(m) && m.typ == ACK && FirstMatch(After(s, steps).ops, m, 0) == i
    requires CodeClass(m) == 2 && m.payload != [] && |m.payload| + 1 <= op.valueMax
    requires ObserveBytes(m).Some? && Canonical(ObserveBytes(m).value)
    ensures After(s, steps).ops != []
    ensures var t', v := Receive(After(s, steps), m, e), ObserveBytes(m).value;
            && i < |t'.ops| && t'.ops[i].state == Success
            && (TellsApart(OpDone(t'.ops[i]), i, v) <==> Absorbs(h.lastSeq, v))
            && (HistoryOf(t'.log, i).seqKnown <==> Absorbs(h.lastSeq, v)) && HistoryOf(t'.log, i).lastSeq == v
  {
    var t, v := After(s, steps), ObserveBytes(m).value;
    ReachedInv(s, steps, i, op, h);
    ReachedOk(s, steps, i, op, h);
    var r := OnMatch(op, i, m, e).op;
    assert m.code != UNAUTHORIZED && TypeOk(op) && SeqOk(op, h);
    hide *;
    RenewalMatched(op, i, h, m, e, Built(t.log));
    ReceivePlain(t, m, e, i);
    TellsApartExact(OpDone(r), i, v);
  }

  /** A matched message that is no unauthorized response, and the history after
      it. */
  lemma ReceivePlain(t: State, m: Message, e: RxEnv, i: nat)
    requires t.ops != [] && ValidMessage(m) && i < |t.ops| && FirstMatch(t.ops, m, 0) == i && m.code != UNAUTHORIZED
    ensures var t', eff, h := Receive(t, m, e), OnMatch(t.ops[i], i, m, e), HistoryOf(t.log, i);
            && |t'.ops| == |t.ops| && t'.ops[i] == eff.op
            && HistoryOf(t'.log, i) == if eff.event.Some? then Note(h, eff.event.value, i, Built(t.log)) else h
  {
    ReceiveMatched(t, m, e, i);
    LogNext(t, OnMatch(t.ops[i], i, m, e).event, i);
    hide OnMatch, Receive, HistoryOf, FirstMatch, ValidMessage, Note, Built, Log;
  }

  lemma RenewalMatched(op: Op, i: nat, h: History, m: Message, e: RxEnv, built: nat)
    requires op.kind == Subscribe && TypeOk(op) && SeqOk(op, h) && h.seqKnown && Canonical(h.lastSeq)
    requires m.typ == ACK && CodeClass(m) == 2 && m.payload != [] && |m.payload| + 1 <= op.valueMax
    requires ObserveBytes(m).Some? && Canonical(ObserveBytes(m).value)
    ensures var eff, v := OnMatch(op, i, m, e), ObserveBytes(m).value;
            && eff.op.state == Success && 2 <= OpDone(eff.op).valueMax <= |OpDone(eff.op).value|
            && (OpDone(eff.op).obsSeq == Fold(0, v) <==> Absorbs(h.lastSeq, v))
            && eff.event == Some(Observed(i, Some(v)))
            && (Note(h, eff.event.value, i, built).seqKnown <==> Absorbs(h.lastSeq, v))
            && Note(h, eff.event.value, i, built).lastSeq == v
  {
    var v := ObserveBytes(m).value;
    AbsorbsExact(h.lastSeq, v);
    FoldOntoOld(Fold(0, h.lastSeq), v);
    assert SequenceFrom(op.obsSeq, ObserveBytes(m), e.wild) == Fold(op.obsSeq, v) && !TooLong(op, m);
    assert Renewed(h, ObserveBytes(m)) <==> Absorbs(h.lastSeq, v);
    hide Fold, Forgets, Absorbs, ObserveBytes, FreshUntil, Store, SequenceFrom, TooLong, CodeClass, Renewed, Canonical;
    assert OnMatch(op, i, m, e) == OnResponse(op, i, m, e);
  }

  // ------------------------------------------------------------ persistence

  /** A subscription with a buffer as large as announced. */
  predicate Subscription(op: Op) {
    op.kind == Subscribe && 1 <= op.valueMax <= |op.value|
  }

  /** The same dataport and bound, and a buffer of the same size of which nothing
      behind the bound was written. */
  predicate SameSubscription(op: Op, op': Op) {
    && Subscription(op) && Subscription(op') && op'.alias == op.alias && op'.valueMax == op.valueMax
    && |op'.value| == |op.value| && op'.value[op.valueMax..] == op.value[op.valueMax..]
  }

  lemma MatchPersists(op: Op, i: nat, m: Message, e: RxEnv)
    requires Subscription(op)
    ensures SameSubscription(op, OnMatch(op, i, m, e).op)
  {
    if |m.payload| + 1 <= op.valueMax {
      StoreBound(op, m.payload);
    }
    hide Fold, ObserveBytes, FreshUntil, Store;
  }

  lemma StoreBound(op: Op, s: seq<byte>)
    requires Subscription(op) && |s| + 1 <= op.valueMax
    ensures Store(op.value, s)[op.valueMax..] == op.value[op.valueMax..]
  {
    var r := Store(op.value, s);
    assert forall k :: op.valueMax <= k < |r| ==> r[k] == op.value[k];
  }

  lemma StepPersists(s: State, step: Step, i: nat)
    requires Enabled(s, step) && 1 <= i < |s.ops| && Subscription(s.ops[i])
    requires step.UserStep? && step.i == i ==> step.c.CallDone?
    ensures |Apply(s, step).ops| == |s.ops| && SameSubscription(s.ops[i], Apply(s, step).ops[i])
  {
    if step.ReceiveStep? {
      DispatchFrame(s, step.m, step.rx);
      MatchPersists(s.ops[i], i, step.m, step.rx);
    }
    hide OnMatch, PacketOf, Encode, Receive;
  }

  /** In every run, a subscription at index 1 or above stays a subscription to
      the same dataport with the same bound, whatever is received, sent, lost
      or timed out, until the user reuses the operation; and nothing is ever
      written into its buffer behind that bound. */
  lemma {:induction false} SubscriptionPersists(s: State, steps: seq<Step>, i: nat)
    requires IsRun(s, steps) && 1 <= i < |s.ops| && Subscription(s.ops[i])
    requires forall k :: 0 <= k < |steps| && steps[k].UserStep? && steps[k].i == i ==> steps[k].c.CallDone?
    ensures |After(s, steps).ops| == |s.ops| && SameSubscription(s.ops[i], After(s, steps).ops[i])
    decreases |steps|
  {
    if steps != [] {
      var before := steps[..|steps| - 1];
      SubscriptionPersists(s, before, i);
      hide Apply, Enabled;
      StepPersists(After(s, before), steps[|steps| - 1], i);
    }
  }

  // --------------------------------------------------------- active passes

  /** The steps of an active-operation pass that started at `now`, or of its
      beginning. */
  ghost predicate IsPass(steps: seq<Step>, now: nat) {
    forall k :: 0 <= k < |steps| ==> steps[k].TurnStep? && steps[k].i == k && steps[k].tx.now == now
  }

  /** The event is about operation i. */
  predicate Mine(e: Event, i: nat) {
    !e.ResetSent? && About(e, i)
  }

  /** The logged events about operation i. */
  function EventsOf(log: seq<Event>, i: nat): seq<Event> {
    if log == [] then []
    else
      var n := |log| - 1;
      EventsOf(log[..n], i) + (if Mine(log[n], i) then [log[n]] else [])
  }

  lemma EventsAppend(log: seq<Event>, e: Event, i: nat)
    ensures EventsOf(log + [e], i) == EventsOf(log, i) + (if Mine(e, i) then [e] else [])
  {
    assert (log + [e])[..|log|] == log;
  }

  /** Each operation has had its own turn, nothing else happened to it, and what
      was logged about it is what that turn logged. */
  lemma {:induction false} PassTurns(s: State, steps: seq<Step>, now: nat, i: nat)
    requires IsRun(s, steps) && IsPass(steps, now) && i < |s.ops|
    ensures |After(s, steps).ops| == |s.ops|
    ensures i >= |steps| ==> After(s, steps).ops[i] == s.ops[i] && EventsOf(After(s, steps).log, i) == EventsOf(s.log, i)
    ensures i < |steps| ==>
              && IsRun(s, steps[..i])
              && var eff := OnTurn(After(s, steps[..i]).dev, s.ops[i], i, steps[i].tx);
              && After(s, steps).ops[i] == eff.op
              && EventsOf(After(s, steps).log, i) == EventsOf(s.log, i) + (if eff.event.Some? then [eff.event.value] else [])
    decreases |steps|
  {
    if steps == [] {
      assert After(s, steps) == s;
    } else {
      var n, before := |steps| - 1, steps[..|steps| - 1];
      assert IsPass(before, now) && steps[n].TurnStep? && steps[n].i == n;
      hide *;
      if i < n {
        assert before[..i] == steps[..i] && before[i] == steps[i];
      }
      RunLast(s, steps);
      PassTurns(s, before, now, i);
      TurnFrame(After(s, before), steps[n], i);
    }
  }

  lemma RunLast(s: State, steps: seq<Step>)
    requires IsRun(s, steps) && steps != []
    ensures var n := |steps| - 1;
            && IsRun(s, steps[..n]) && Enabled(After(s, steps[..n]), steps[n])
            && After(s, steps) == Apply(After(s, steps[..n]), steps[n])
  {
    hide Apply, Enabled;
  }

  /** A turn changes its own operation only, and logs nothing about others. */
  lemma TurnFrame(t: State, step: Step, i: nat)
    requires step.TurnStep? && Enabled(t, step) && i < |t.ops|
    ensures |Apply(t, step).ops| == |t.ops|
    ensures var eff, t' := OnTurn(t.dev, t.ops[i], i, step.tx), Apply(t, step);
            && t'.ops[i] == (if i == step.i then eff.op else t.ops[i])
            && EventsOf(t'.log, i)
               == EventsOf(t.log, i) + (if i == step.i && eff.event.Some? then [eff.event.value] else [])
  {
    var ev := OnTurn(t.dev, t.ops[step.i], step.i, step.tx).event;
    assert Apply(t, step) == Turn(t, step.i, step.tx);
    assert Log(t, ev) == if ev.Some? then t.log + [ev.value] else t.log;
    hide *;
    TurnParts(t, step.i, step.tx);
    TurnMine(t.dev, t.ops[step.i], step.i, step.tx, i);
    if ev.Some? {
      EventsAppend(t.log, ev.value, i);
    }
  }

  lemma TurnMine(dev: Device, op: Op, i: nat, e: TxEnv, j: nat)
    ensures var ev := OnTurn(dev, op, i, e).event;
            ev.Some? ==> (Mine(ev.value, j) <==> j == i)
  {
    hide PacketOf, Encode;
  }

  /** A whole pass: every expired subscription is queued anew; every queued
      subscription whose send succeeds is pending; an operation that owes an
      acknowledgement sends exactly the empty one with the notification's
      message id, once, and only success discharges it; so if all sends succeed
      none stays owed. */
  lemma PassOutcome(s: State, steps: seq<Step>, now: nat, i: nat)
    requires IsRun(s, steps) && IsPass(steps, now) && |steps| == |s.ops| && i < |s.ops|
    ensures |After(s, steps).ops| == |s.ops|
    ensures var op, t, e := s.ops[i], After(s, steps), steps[i].tx;
            && (op.kind == Subscribe && Expired(op, e) ==> t.ops[i] == op.(state := New))
            && (op.kind == Subscribe && op.state == New && e.ok ==>
                  IsRun(s, steps[..i]) && t.ops[i].state == Pending && t.ops[i].mid == After(s, steps[..i]).dev.counter)
            && (OwesAck(op) ==>
                  && t.ops[i] == (if e.ok then op.(state := if op.state == SubAck then Subscribed else Success) else op)
                  && EventsOf(t.log, i) == EventsOf(s.log, i) + [AckSent(i, Encode(AckFor(op.mid)), e.ok)]
                  && Parse(Encode(AckFor(op.mid))) == Some(Message(ACK, 0, op.mid, [], [], [])))
            && (e.ok && TypeOk(op) ==> !OwesAck(t.ops[i]))
  {
    ParseOfEncode(AckFor(s.ops[i].mid));
    hide IsRun, After, EventsOf, Parse, Encode, OnTurn, TypeOk;
    PassTurns(s, steps, now, i);
    TurnOutcome(After(s, steps[..i]).dev, s.ops[i], i, steps[i].tx);
  }

  lemma TurnOutcome(dev: Device, op: Op, i: nat, e: TxEnv)
    ensures var eff := OnTurn(dev, op, i, e);
            && (op.kind == Subscribe && Expired(op, e) ==> eff.op == op.(state := New))
            && (op.kind == Subscribe && op.state == New && e.ok ==> eff.op.state == Pending && eff.op.mid == dev.counter)
            && (OwesAck(op) ==>
                  && eff.op == (if e.ok then op.(state := if op.state == SubAck then Subscribed else Success) else op)
                  && eff.event == Some(AckSent(i, Encode(AckFor(op.mid)), e.ok)))
            && (e.ok && TypeOk(op) ==> !OwesAck(eff.op))
  {
    hide PacketOf, Encode;
  }

  // ------------------------------------------------------------------- idle

  /** No operation is queued or pending: what EXO_IDLE reports. */
  predicate AllIdle(ops: seq<Op>) {
    forall i :: 0 <= i < |ops| ==> ops[i].state != New && ops[i].state != Pending
  }

  /** Reads and writes have succeeded or failed, subscriptions wait or have news,
      no activation is under way. */
  predicate Settled(op: Op) {
    && (op.kind in {Read, Write} ==> op.state in {Success, Error})
    && (op.kind == Subscribe ==> op.state in {Subscribed, SubAck, SubAckNew, Success, Error})
    && (op.kind == Activate ==> op.state == Error)
    && (op.kind == NullOp ==> op.state == Idle)
  }

  /** In every run, idle means that every operation is settled. */
  lemma IdleMeans(s: State, steps: seq<Step>, i: nat, op: Op, h: History)
    requires Reached(s, steps, i, op, h) && AllIdle(After(s, steps).ops)
    ensures Settled(op)
  {
    KindsAndStates(s, steps, i, op, h);
  }

  // --------------------------------------------------------- retransmission

  /** The request in the history is one in the log. */
  lemma {:induction false} OriginalLogged(log: seq<Event>, i: nat)
    ensures var h := HistoryOf(log, i);
            h.original != [] ==>
              exists k :: 0 <= k < |log| && log[k] == Request(i, false, h.first, h.key, h.original, true)
    decreases |log|
  {
    if log != [] {
      var n := |log| - 1;
      OriginalLogged(log[..n], i);
      var h, h' := HistoryOf(log[..n], i), HistoryOf(log, i);
      if h'.original != [] && h.original != [] && h'.original == h.original && h'.first == h.first && h'.key == h.key {
        var k :| 0 <= k < n && log[..n][k] == Request(i, false, h.first, h.key, h.original, true);
        assert log[k] == log[..n][k];
      } else if h'.original != [] {
        assert log[n] == Request(i, false, h'.first, h'.key, h'.original, true);
      }
    }
  }

  /** In every run, a retransmission is compared with the packet that was first
      sent for the operation and is in the log. It carries the same message id,
      but no token where that carried two bytes. Apart from the token it has the
      same bytes, and if that was a message the same meaning, exactly if it is
      an activation, the key is still the same, or the alias left no room for
      the key. */
  lemma RetransmissionExact(s: State, steps: seq<Step>, i: nat, op: Op, h: History, e: TxEnv)
    requires Reached(s, steps, i, op, h) && Resends(op, e)
    ensures var t := After(s, steps);
            var again := PacketOf(t.dev, op, e);
            var same := op.kind == Activate || t.dev.cik == h.key || CrowdsOut(op.alias);
            && (exists k :: 0 <= k < |t.log| && t.log[k] == Request(i, false, h.first, h.key, h.original, true))
            && Turn(t, i, e).log == t.log + [Request(i, true, e.time, t.dev.cik, again, e.ok)]
            && MidOf(again) == MidOf(h.original) == op.mid
            && |h.original| >= HEADER_SIZE + 2 && h.original[0] as int % 16 == 2
            && |again| >= HEADER_SIZE && again[0] as int % 16 == 0
            && (again == Untokened(h.original) <==> same)
            && (WellFormed(h.original) ==> (Parse(again) == Some(Parse(h.original).value.(token := [])) <==> same))
  {
    var t := After(s, steps);
    ReachedInv(s, steps, i, op, h);
    ReachedOk(s, steps, i, op, h);
    PendingOneShot(op, e);
    assert OriginalOk(op, h, t.dev);
    assert Turn(t, i, e).log == t.log + [Request(i, true, e.time, t.dev.cik, PacketOf(t.dev, op, e), e.ok)];
    var a := ArgsOf(t.dev, op);
    assert ArgsOf(t.dev.(cik := h.key), op) == a.(cik := h.key);
    hide Reached, IsRun, After, Inv, OpOk, HistoryOf, RequestBytes, RetransmitBytes, Turn, Parse, Untokened, CrowdsOut, MidOf;
    RetransmitExact(op.kind, op.mid, op.token, a, h.key, t.dev.counter, e.rand);
    OriginalLogged(t.log, i);
  }

  lemma PendingOneShot(op: Op, e: TxEnv)
    requires TypeOk(op) && Resends(op, e)
    ensures op.state == Pending && op.tkl == 0 && op.kind in {Read, Write, Activate}
  {
  }
}

/** What every run of the engine keeps. */
module EngineRuns {
  import opened Bytes
  import opened CoapFormat
  import opened ObserveSeq
  import opened Requests
  import opened EngineModel
  import opened EngineHistory

  predicate About(e: Event, i: nat) {
    match e
    case Queued(j, _, _) => j == i
    case Request(j, _, _, _, _, _) => j == i
    case AckSent(j, _, _) => j == i
    case Notified(j, _, _) => j == i
    case Observed(j, _) => j == i
    case GaveUp(j, _) => j == i
    case ResetSent(_, _) => true
  }

  lemma LogNext(s: State, ev: Option<Event>, i: nat)
    ensures var h, b := HistoryOf(s.log, i), Built(s.log);
            && HistoryOf(Log(s, ev), i) == (if ev.Some? then Note(h, ev.value, i, b) else h)
            && Built(Log(s, ev)) == b + (if ev.Some? && ev.value.Request? then 1 else 0)
  {
    if ev.Some? {
      LogAppend(s.log, ev.value, i);
    }
  }

  /** Changing one operation consistently with its history keeps the invariant. */
  lemma UpdateInv(s: State, s': State, i: nat, ev: Option<Event>, seed: u16)
    requires Inv(s, seed) && i < |s.ops| && |s'.ops| == |s.ops| && s'.ops == s.ops[i := s'.ops[i]]
    requires s'.log == Log(s, ev) && (ev.Some? ==> About(ev.value, i))
    requires CounterAt(s'.dev.counter, seed, Built(s'.log))
    requires SameNames(s.dev, s'.dev) && |s'.dev.cik| == CIK_LENGTH
    requires OpOk(s'.ops[i], HistoryOf(s'.log, i), Built(s'.log), seed)
    requires OriginalOk(s'.ops[i], HistoryOf(s'.log, i), s'.dev)
    requires s'.ops[i].state == Pending ==>
               || (s.ops[i].state == Pending && HistoryOf(s'.log, i).stamp == HistoryOf(s.log, i).stamp)
               || HistoryOf(s'.log, i).stamp == Built(s.log)
    ensures Inv(s', seed)
  {
    hide OpOk, OriginalOk, SameNames, Note, HistoryOf, Built, CounterAt;
    forall j | 0 <= j < |s.ops| && j != i
      ensures OpOk(s'.ops[j], HistoryOf(s'.log, j), Built(s'.log), seed)
      ensures OriginalOk(s'.ops[j], HistoryOf(s'.log, j), s'.dev)
      ensures HistoryOf(s'.log, j) == HistoryOf(s.log, j)
    {
      LogNext(s, ev, j);
      if ev.Some? {
        OtherOk(s.ops[j], HistoryOf(s.log, j), j, ev.value, Built(s.log), seed);
      }
      OriginalFrame(s.ops[j], HistoryOf(s.log, j), s.dev, s'.dev);
    }
    PendingStamps(s, seed);
  }

  /** Stamps of pending operations lie in the past. */
  lemma PendingStamps(s: State, seed: u16)
    requires Inv(s, seed)
    ensures forall j :: 0 <= j < |s.ops| && s.ops[j].state == Pending ==> HistoryOf(s.log, j).stamp < Built(s.log)
  {
    hide HistoryOf, Built, SendOk, AckOk, AddressOk, SeqOk, TypeOk;
    forall j | 0 <= j < |s.ops| && s.ops[j].state == Pending
      ensures HistoryOf(s.log, j).stamp < Built(s.log)
    {
      assert OpOk(s.ops[j], HistoryOf(s.log, j), Built(s.log), seed);
    }
  }

  lemma UserInv(s: State, i: nat, c: Call, seed: u16)
    requires Inv(s, seed) && Enabled(s, UserStep(i, c))
    ensures Inv(Apply(s, UserStep(i, c)), seed)
  {
    var op := OnCall(s.ops[i], c);
    var ev := if op.state == New then Some(QueuedEvent(i, op)) else None;
    CallOk(s.ops[i], HistoryOf(s.log, i), i, c, Built(s.log), seed);
    LogNext(s, ev, i);
    hide OpOk, Note, HistoryOf, Built, OnCall;
    UpdateInv(s, Apply(s, UserStep(i, c)), i, ev, seed);
  }

  lemma ActivateInv(s: State, s': State, seed: u16)
    requires Inv(s, seed) && s'.dev == s.dev
    requires s'.ops == s.ops[0 := ActivateOp(s.ops[0])] && s'.log == s.log + [QueuedEvent(0, s.ops[0])]
    ensures Inv(s', seed)
  {
    var ev := Some(QueuedEvent(0, s.ops[0]));
    assert OpOk(s.ops[0], HistoryOf(s.log, 0), Built(s.log), seed);
    ActivateOk(s.ops[0], HistoryOf(s.log, 0), 0, Built(s.log), seed);
    LogNext(s, ev, 0);
    hide OpOk, Note, HistoryOf, Built;
    UpdateInv(s, s', 0, ev, seed);
  }

  lemma ReceiveInv(s: State, m: Message, e: RxEnv, seed: u16)
    requires Inv(s, seed) && ValidMessage(m)
    ensures Inv(Receive(s, m, e), seed)
  {
    var i := FirstMatch(s.ops, m, 0);
    assert s.ops != [];
    if i == |s.ops| {
      hide Inv, FirstMatch, Encode;
      UnmatchedInv(s, Receive(s, m, e), m, e.ok, seed);
    } else {
      var s1 := Matched(s, m, e, i);
      assert Matches(s.ops[i], m);
      MatchedReceive(s, m, e, i);
      hide *;
      MatchedInv(s, m, e, i, seed);
      if Receive(s, m, e) != s1 {
        ActivateInv(s1, Receive(s, m, e), seed);
      }
    }
  }

  /** The state after a message was matched, before operation 0 is looked at. */
  ghost function Matched(s: State, m: Message, e: RxEnv, i: nat): State
    requires i < |s.ops|
  {
    var eff := OnMatch(s.ops[i], i, m, e);
    s.(ops := s.ops[i := eff.op], dev := OnMatchDevice(s.dev, s.ops[i], m), clock := e.time, log := Log(s, eff.event))
  }

  /** It is the state after the message, or operation 0 is queued besides. */
  lemma MatchedReceive(s: State, m: Message, e: RxEnv, i: nat)
    requires s.ops != [] && ValidMessage(m) && i < |s.ops| && FirstMatch(s.ops, m, 0) == i && Matches(s.ops[i], m)
    ensures var s1, t := Matched(s, m, e, i), Receive(s, m, e);
            && |s1.ops| == |s.ops|
            && (t != s1 ==> && t.dev == s1.dev && t.ops == s1.ops[0 := ActivateOp(s1.ops[0])]
                            && t.log == s1.log + [QueuedEvent(0, s1.ops[0])])
  {
    MatchEvent(s.ops[i], i, m, e);
    hide OnMatch, Encode, FirstMatch, ValidMessage, Matches, OnMatchDevice;
  }

  lemma MatchedInv(s: State, m: Message, e: RxEnv, i: nat, seed: u16)
    requires Inv(s, seed) && ValidMessage(m) && i < |s.ops| && Matches(s.ops[i], m)
    ensures Inv(Matched(s, m, e, i), seed)
  {
    var eff, s1, h, b := OnMatch(s.ops[i], i, m, e), Matched(s, m, e, i), HistoryOf(s.log, i), Built(s.log);
    assert OpOk(s.ops[i], h, b, seed) && OriginalOk(s.ops[i], h, s.dev) && |s.dev.cik| == CIK_LENGTH;
    assert CounterAt(s.dev.counter, seed, b) && m.typ <= 3;
    assert s1.ops == s.ops[i := eff.op] && s1.log == Log(s, eff.event) && s1.dev == OnMatchDevice(s.dev, s.ops[i], m);
    hide *;
    MatchOk(s.ops[i], h, i, m, e, b, seed);
    MatchOriginal(s.ops[i], h, s.dev, i, m, e, b);
    LogNext(s, eff.event, i);
    MatchEvent(s.ops[i], i, m, e);
    MatchDevice(s.dev, s.ops[i], m);
    OriginalFrame(eff.op, HistoryOf(s1.log, i), s.dev, s1.dev);
    MatchStamp(s.ops[i], h, i, m, e, b);
    UpdateInv(s, s1, i, eff.event, seed);
  }

  /** A matched message does not change when the request was built. */
  lemma MatchStamp(op: Op, h: History, i: nat, m: Message, e: RxEnv, built: nat)
    ensures var ev := OnMatch(op, i, m, e).event;
            ev.Some? ==> !ev.value.Request? && Note(h, ev.value, i, built).stamp == h.stamp
  {
    hide Fold, Forgets, ObserveBytes, FreshUntil, Store, Cleared, Renewed;
  }

  /** The event of a matched message is about that operation, and an
      unauthorized response leaves none and does not touch the device. */
  lemma MatchEvent(op: Op, i: nat, m: Message, e: RxEnv)
    requires Matches(op, m)
    ensures var ev := OnMatch(op, i, m, e).event;
            && (ev.Some? ==> About(ev.value, i))
            && (m.typ == ACK && m.code == UNAUTHORIZED ==> ev.None? && forall d :: OnMatchDevice(d, op, m) == d)
    ensures forall d :: OnMatchDevice(d, op, m).counter == d.counter
    ensures var ev := OnMatch(op, i, m, e).event;
            ev.Some? && ev.value.Notified? ==> op.state == Subscribed
  {
    hide Fold, ObserveBytes, FreshUntil, Store, Cleared, LittleEndianValue;
  }

  lemma MatchDevice(dev: Device, op: Op, m: Message)
    requires |dev.cik| == CIK_LENGTH
    ensures SameNames(dev, OnMatchDevice(dev, op, m)) && |OnMatchDevice(dev, op, m).cik| == CIK_LENGTH
  {
  }

  lemma UnmatchedInv(s: State, s': State, m: Message, ok: bool, seed: u16)
    requires Inv(s, seed) && ValidMessage(m) && s'.ops == s.ops && s'.dev == s.dev
    requires s'.log == s.log || s'.log == s.log + [ResetSent(Encode(ResetFor(m)), ok)]
    ensures Inv(s', seed)
  {
    var ev := if s'.log == s.log then None else Some(ResetSent(Encode(ResetFor(m)), ok));
    assert OpOk(s.ops[0], HistoryOf(s.log, 0), Built(s.log), seed);
    LogNext(s, ev, 0);
    hide Encode, HistoryOf, Built, OpOk;
    if s'.log != s.log {
      OtherOk(s.ops[0], HistoryOf(s.log, 0), 0, ev.value, Built(s.log), seed);
    }
    UpdateInv(s, s', 0, ev, seed);
  }

  lemma TurnInv(s: State, i: nat, e: TxEnv, seed: u16)
    requires Inv(s, seed) && i < |s.ops| && e.now <= e.time
    ensures Inv(Turn(s, i, e), seed)
  {
    var eff, t, h, b := OnTurn(s.dev, s.ops[i], i, e), Turn(s, i, e), HistoryOf(s.log, i), Built(s.log);
    assert OpOk(s.ops[i], h, b, seed) && OriginalOk(s.ops[i], h, s.dev) && |s.dev.cik| == CIK_LENGTH;
    assert CounterAt(s.dev.counter, seed, b);
    TurnParts(s, i, e);
    hide *;
    TurnOk(s.dev, s.ops[i], h, i, e, b, seed);
    TurnOriginal(s.dev, s.ops[i], h, i, e, b);
    LogNext(s, eff.event, i);
    OriginalFrame(eff.op, HistoryOf(t.log, i), s.dev, t.dev);
    TurnEvent(s.dev, s.ops[i], i, e);
    CounterStep(s.dev.counter, seed, b);
    UpdateInv(s, t, i, eff.event, seed);
  }

  /** What a turn changes. */
  lemma TurnParts(s: State, i: nat, e: TxEnv)
    requires i < |s.ops|
    ensures var eff, t := OnTurn(s.dev, s.ops[i], i, e), Turn(s, i, e);
            && |t.ops| == |s.ops| && t.ops == s.ops[i := eff.op] && t.ops[i] == eff.op && t.log == Log(s, eff.event)
            && SameNames(s.dev, t.dev) && t.dev.cik == s.dev.cik
            && t.dev.counter == if Sends(s.ops[i], e) then NextMid(s.dev.counter) else s.dev.counter
  {
    hide OnTurn, Log, Sends, NextMid;
  }

  lemma CounterStep(counter: u16, seed: u16, n: nat)
    requires CounterAt(counter, seed, n)
    ensures CounterAt(NextMid(counter), seed, n + 1)
  {
  }

  lemma TurnEvent(dev: Device, op: Op, i: nat, e: TxEnv)
    ensures var ev := OnTurn(dev, op, i, e).event;
            ev.Some? ==> About(ev.value, i)
  {
    hide PacketOf, Encode;
  }

  /** Every step keeps the invariant. */
  lemma StepInv(s: State, step: Step, seed: u16)
    requires Inv(s, seed) && Enabled(s, step)
    ensures Inv(Apply(s, step), seed)
  {
    hide Inv, Receive, Turn;
    match step
    case UserStep(i, c) => UserInv(s, i, c, seed);
    case CheckStep(time) =>
      if NeedsActivation(s, time) {
        ActivateInv(s, Apply(s, step), seed);
      } else {
        ClockInv(s, time, seed);
      }
    case ReceiveStep(m, e) => ReceiveInv(s, m, e, seed);
    case TurnStep(i, e) => TurnInv(s, i, e, seed);
  }

  lemma ClockInv(s: State, time: nat, seed: u16)
    requires Inv(s, seed)
    ensures Inv(s.(clock := time), seed)
  {
  }

  lemma InitialInv(s: State)
    requires Initial(s)
    ensures Inv(s, s.dev.counter)
  {
    hide Fold;
  }

  /** Every state of every run satisfies the invariant. */
  lemma {:induction false} RunInv(s: State, steps: seq<Step>)
    requires Initial(s) && IsRun(s, steps)
    ensures Inv(After(s, steps), s.dev.counter)
    decreases |steps|
  {
    hide Inv, Apply, Enabled;
    if steps == [] {
      InitialInv(s);
    } else {
      var before := steps[..|steps| - 1];
      RunInv(s, before);
      StepInv(After(s, before), steps[|steps| - 1], s.dev.counter);
    }
  }
}

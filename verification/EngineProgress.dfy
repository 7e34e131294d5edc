/** Runs followed from one point on: what a freshly queued operation can count
    on, when a request is given up, and which messages are answered. */
module EngineProgress {
  import opened Bytes
  import opened CoapFormat
  import opened ObserveSeq
  import opened EngineModel
  import opened EngineHistory
  import opened EngineTheorems
  import opened EngineLog
  import opened EngineRefinement
  import Seqs

  // -------------------------------------------------- from a fresh queueing on

  /** The user queues operation i. */
  predicate Queues(step: Step, i: nat) {
    step.UserStep? && step.i == i && (step.c.CallRead? || step.c.CallWrite? || step.c.CallSubscribe?)
  }

  predicate QueuedFor(e: Event, i: nat) {
    e.Queued? && e.i == i
  }

  ghost predicate NotQueued(log: seq<Event>, i: nat) {
    forall k :: 0 <= k < |log| ==> !QueuedFor(log[k], i)
  }

  /** A step extends the log by at most one event, and queues an operation at
      index 1 or above only if the user does. */
  lemma StepLog(s: State, step: Step, i: nat) returns (added: seq<Event>)
    requires Enabled(s, step) && i >= 1 && !Queues(step, i)
    ensures Apply(s, step).log == s.log + added && NotQueued(added, i)
  {
    match step
    case UserStep(j, c) =>
      added := if OnCall(s.ops[j], c).state == New then [QueuedEvent(j, OnCall(s.ops[j], c))] else [];
    case CheckStep(time) =>
      added := if NeedsActivation(s, time) then [QueuedEvent(0, s.ops[0])] else [];
    case ReceiveStep(m, e) =>
      added := ReceiveLog(s, m, e, i);
    case TurnStep(j, e) =>
      var ev := OnTurn(s.dev, s.ops[j], j, e).event;
      TurnNotQueued(s.dev, s.ops[j], j, e);
      hide OnTurn;
      added := if ev.Some? then [ev.value] else [];
  }

  lemma TurnNotQueued(dev: Device, op: Op, i: nat, e: TxEnv)
    ensures var ev := OnTurn(dev, op, i, e).event;
            ev.Some? ==> !ev.value.Queued?
  {
    hide PacketOf, Encode;
  }

  lemma ReceiveLog(s: State, m: Message, e: RxEnv, i: nat) returns (added: seq<Event>)
    requires s.ops != [] && ValidMessage(m) && i >= 1
    ensures Receive(s, m, e).log == s.log + added && NotQueued(added, i)
  {
    var j := FirstMatch(s.ops, m, 0);
    if j == |s.ops| {
      added := if m.typ == CON then [ResetSent(Encode(ResetFor(m)), e.ok)] else [];
    } else {
      var eff := OnMatch(s.ops[j], j, m, e);
      MatchedEvent(s.ops[j], j, m, e);
      hide OnMatch;
      ReceiveMatched(s, m, e, j);
      var op0 := s.ops[j := eff.op][0];
      added := if Reactivates(op0, m, e) then [QueuedEvent(0, op0)] else if eff.event.Some? then [eff.event.value] else [];
    }
  }

  lemma {:induction false} RunLog(s: State, steps: seq<Step>, i: nat) returns (added: seq<Event>)
    requires IsRun(s, steps) && i >= 1 && forall k :: 0 <= k < |steps| ==> !Queues(steps[k], i)
    ensures After(s, steps).log == s.log + added && NotQueued(added, i)
    decreases |steps|
  {
    if steps == [] {
      added := [];
      assert After(s, steps) == s;
    } else {
      var n, before := |steps| - 1, steps[..|steps| - 1];
      hide *;
      RunLast(s, steps);
      var a := RunLog(s, before, i);
      var b := StepLog(After(s, before), steps[n], i);
      Seqs.Assoc(s.log, a, b);
      NotQueuedBoth(a, b, i);
      added := a + b;
    }
  }

  lemma NotQueuedBoth(a: seq<Event>, b: seq<Event>, i: nat)
    requires NotQueued(a, i) && NotQueued(b, i)
    ensures NotQueued(a + b, i)
  {
    hide QueuedFor;
  }

  /** The parts of a log behind the last queueing. */
  lemma NotQueuedLast(log: seq<Event>, added: seq<Event>, i: nat)
    requires NotQueued(added, i) && added != []
    ensures var n := |added| - 1;
            && NotQueued(added[..n], i) && !QueuedFor(added[n], i)
            && log + added == (log + added[..n]) + [added[n]]
  {
    hide QueuedFor;
    Seqs.AppendLast(log, added);
  }

  /** The successful transmissions of operation i. */
  function CountSent(log: seq<Event>, i: nat): nat {
    if log == [] then 0
    else
      var e := log[|log| - 1];
      CountSent(log[..|log| - 1], i) + (if e.Request? && e.i == i && e.ok then 1 else 0)
  }

  /** What the history says of events behind the last queueing. */
  lemma {:induction false} HistoryAfter(log: seq<Event>, added: seq<Event>, i: nat)
    requires NotQueued(added, i)
    ensures var h, h' := HistoryOf(log, i), HistoryOf(log + added, i);
            h'.retries0 == h.retries0 && h'.sends == h.sends + CountSent(added, i)
    decreases |added|
  {
    if added == [] {
      assert log + added == log;
    } else {
      hide HistoryOf, Built, NotQueued, Note;
      var n, before := |added| - 1, added[..|added| - 1];
      NotQueuedLast(log, added, i);
      HistoryAfter(log, before, i);
      LogAppend(log + before, added[n], i);
      NoteCounts(HistoryOf(log + before, i), added[n], i, Built(log + before));
    }
  }

  lemma NoteCounts(h: History, e: Event, i: nat, built: nat)
    requires !QueuedFor(e, i)
    ensures var h' := Note(h, e, i, built);
            h'.retries0 == h.retries0 && h'.sends == h.sends + (if e.Request? && e.i == i && e.ok then 1 else 0)
  {
    hide Renewed;
  }

  /** A run up to which operation i is as initialised, and then queued. */
  ghost predicate FreshlyQueued(s: State, before: seq<Step>, i: nat, c: Call) {
    && Initial(s) && IsRun(s, before) && 1 <= i < |After(s, before).ops| && After(s, before).ops[i] == OpInit()
    && Queues(UserStep(i, c), i) && Enabled(After(s, before), UserStep(i, c))
  }

  /** The state right after the queueing. */
  ghost function AtQueueing(s: State, before: seq<Step>, i: nat, c: Call): State
    requires FreshlyQueued(s, before, i, c)
  {
    Apply(After(s, before), UserStep(i, c))
  }

  /** A state of the run that goes on from there. */
  lemma QueuedReached(s: State, before: seq<Step>, i: nat, c: Call, after: seq<Step>) returns (steps: seq<Step>, added: seq<Event>)
    requires FreshlyQueued(s, before, i, c) && IsRun(AtQueueing(s, before, i, c), after)
    requires forall k :: 0 <= k < |after| ==> !Queues(after[k], i)
    ensures var u := AtQueueing(s, before, i, c);
            var t := After(u, after);
            && Initial(s) && IsRun(s, steps) && After(s, steps) == t
            && t.log == u.log + added && NotQueued(added, i)
            && HistoryOf(u.log, i).retries0 == 0 && HistoryOf(u.log, i).sends == 0
            && HistoryOf(u.log, i).seqKnown && HistoryOf(u.log, i).lastSeq == []
  {
    var q := UserStep(i, c);
    QueuedFresh(After(s, before), i, c);
    hide *;
    QueuedParts(s, before, i, c);
    var u := AtQueueing(s, before, i, c);
    RunAppend(s, before, q);
    RunConcat(s, before + [q], after);
    steps := before + [q] + after;
    added := RunLog(u, after, i);
  }

  lemma QueuedParts(s: State, before: seq<Step>, i: nat, c: Call)
    requires FreshlyQueued(s, before, i, c)
    ensures Initial(s) && IsRun(s, before) && Enabled(After(s, before), UserStep(i, c)) && i >= 1
    ensures AtQueueing(s, before, i, c) == Apply(After(s, before), UserStep(i, c))
  {
    hide IsRun, After, Enabled, Apply, Initial;
  }

  /** In every run, a read or write queued on a freshly initialised operation, at
      index 1 or above, is transmitted at most five times from then on, and is
      given up no earlier than 14 seconds after its first transmission, until
      the user queues the operation again. */
  lemma FreshTimeout(s: State, before: seq<Step>, i: nat, c: Call, after: seq<Step>)
    requires FreshlyQueued(s, before, i, c) && IsRun(AtQueueing(s, before, i, c), after)
    requires forall k :: 0 <= k < |after| ==> !Queues(after[k], i)
    requires i < |After(AtQueueing(s, before, i, c), after).ops| && OneShot(After(AtQueueing(s, before, i, c), after).ops[i])
    ensures var u := AtQueueing(s, before, i, c);
            var t := After(u, after);
            var op, h := t.ops[i], HistoryOf(t.log, i);
            && u.log <= t.log
            && var sent := CountSent(t.log[|u.log|..], i);
            && sent <= 5
            && (h.gaveUp.Some? ==> op.state == Error && sent == 5 && h.gaveUp.value >= h.first + 14000000)
            && (op.state == Pending ==> sent == 1 + op.retries && h.gaveUp.None?)
  {
    hide *;
    var u := AtQueueing(s, before, i, c);
    var t := After(u, after);
    var steps, added := QueuedReached(s, before, i, c, after);
    HistoryAfter(u.log, added, i);
    ReachedAt(s, steps, i);
    TimeoutBound(s, steps, i, t.ops[i], HistoryOf(t.log, i));
    PendingCount(s, steps, i, t.ops[i], HistoryOf(t.log, i));
    assert t.log[|u.log|..] == added;
  }

  lemma ReachedAt(s: State, steps: seq<Step>, i: nat)
    requires Initial(s) && IsRun(s, steps) && i < |After(s, steps).ops|
    ensures Reached(s, steps, i, After(s, steps).ops[i], HistoryOf(After(s, steps).log, i))
  {
    hide IsRun, After, HistoryOf, Initial;
  }

  lemma PendingCount(s: State, steps: seq<Step>, i: nat, op: Op, h: History)
    requires Reached(s, steps, i, op, h) && OneShot(op)
    ensures op.state == Pending ==> h.sends == 1 + op.retries - h.retries0 && h.gaveUp.None?
  {
    ReachedOk(s, steps, i, op, h);
    hide Reached, TypeOk, MidOk, AckOk, AddressOk, SeqOk;
  }

  // --------------------------------------------------- the Observe number known

  /** The Observe value last taken for operation i; none counts as empty. */
  function LastValue(log: seq<Event>, i: nat): seq<byte> {
    if log == [] then []
    else
      match log[|log| - 1]
      case Notified(j, _, Some(v)) => if j == i then v else LastValue(log[..|log| - 1], i)
      case Observed(j, Some(v)) => if j == i then v else LastValue(log[..|log| - 1], i)
      case _ => LastValue(log[..|log| - 1], i)
  }

  /** Every value taken for operation i is canonical, and that of every response
      absorbs the one before. */
  predicate Orderly(log: seq<Event>, i: nat) {
    log == [] ||
    var n := |log| - 1;
    && Orderly(log[..n], i)
    && match log[n]
       case Notified(j, _, v) => j == i ==> v.Some? && Canonical(v.value)
       case Observed(j, v) => j == i ==> v.Some? && Canonical(v.value) && Absorbs(LastValue(log[..n], i), v.value)
       case _ => true
  }

  lemma {:induction false} OrderlyKnown(log: seq<Event>, added: seq<Event>, i: nat)
    requires NotQueued(added, i) && Orderly(added, i) && HistoryOf(log, i).seqKnown && HistoryOf(log, i).lastSeq == []
    ensures var h := HistoryOf(log + added, i);
            h.seqKnown && h.lastSeq == LastValue(added, i) && Canonical(h.lastSeq)
    decreases |added|
  {
    if added == [] {
      assert log + added == log;
    } else {
      var n, before := |added| - 1, added[..|added| - 1];
      assert added == before + [added[n]] && Orderly(before, i);
      hide *;
      NotQueuedLast(log, added, i);
      OrderlyKnown(log, before, i);
      LogAppend(log + before, added[n], i);
      ValueTaken(HistoryOf(log + before, i), added[n], i, Built(log + before), before);
    }
  }

  lemma ValueTaken(h: History, e: Event, i: nat, built: nat, before: seq<Event>)
    requires h.seqKnown && h.lastSeq == LastValue(before, i) && Canonical(h.lastSeq) && !QueuedFor(e, i)
    requires Orderly(before + [e], i)
    ensures var h' := Note(h, e, i, built);
            h'.seqKnown && h'.lastSeq == LastValue(before + [e], i) && Canonical(h'.lastSeq)
  {
    assert (before + [e])[..|before|] == before;
    if e.Observed? && e.i == i {
      AbsorbsExact(h.lastSeq, e.observe.value);
      FoldOntoOld(Fold(0, h.lastSeq), e.observe.value);
    }
    hide Fold, Forgets, Absorbs;
  }

  /** In every run, from a subscription queued on a freshly initialised operation
      on, as long as every Observe value taken for it is canonical and every one
      in a response absorbs the one before, the next notification for it is
      reported as new exactly when its value differs from the last one. */
  lemma Freshness(s: State, before: seq<Step>, i: nat, c: Call, after: seq<Step>, m: Message, e: RxEnv)
    requires FreshlyQueued(s, before, i, c) && IsRun(AtQueueing(s, before, i, c), after)
    requires forall k :: 0 <= k < |after| ==> !Queues(after[k], i)
    requires var u, t := AtQueueing(s, before, i, c), After(AtQueueing(s, before, i, c), after);
             && u.log <= t.log && Orderly(t.log[|u.log|..], i)
             && ValidMessage(m) && FirstMatch(t.ops, m, 0) == i && i < |t.ops| && News(t.ops[i], m)
    ensures After(AtQueueing(s, before, i, c), after).ops != []
    ensures var u, t := AtQueueing(s, before, i, c), After(AtQueueing(s, before, i, c), after);
            var t', last := Receive(t, m, e), LastValue(t.log[|u.log|..], i);
            && i < |t'.ops|
            && (t'.ops[i].state == SubAckNew <==> ObserveBytes(m).value != last)
            && (t'.ops[i].state == SubAck <==> ObserveBytes(m).value == last)
  {
    hide *;
    var u := AtQueueing(s, before, i, c);
    var t := After(u, after);
    var steps, added := QueuedReached(s, before, i, c, after);
    assert t.log[|u.log|..] == added;
    OrderlyKnown(u.log, added, i);
    ReachedAt(s, steps, i);
    NewsReported(s, steps, i, t.ops[i], HistoryOf(t.log, i), m, e);
  }

  // ------------------------------------------------------------ until given up

  /** In every run, a pending request times out within the longest wait after its
      last transmission; so a turn five and a half seconds after that finds it
      expired. */
  lemma TimeoutUpper(s: State, steps: seq<Step>, i: nat, op: Op, h: History, e: TxEnv)
    requires Reached(s, steps, i, op, h) && OneShot(op) && op.state == Pending
    ensures h.last <= op.timeout <= h.last + if h.sends <= 1 then 4000000 else op.retries * 1000000 + 1499999
    ensures e.now >= h.last + 5500000 ==> Expired(op, e)
  {
    ReachedOk(s, steps, i, op, h);
    hide Reached, MidOk, AckOk, AddressOk, SeqOk;
  }

  /** Neither the user nor a received message touches operation i. */
  ghost predicate Undisturbed(s: State, steps: seq<Step>, i: nat) {
    forall k :: 0 <= k < |steps| ==> !(steps[k].UserStep? && steps[k].i == i) && !HitAt(s, steps, k, i)
  }

  /** A turn that finds the operation expired, and sends its request again or
      gives it up. */
  predicate Counts(op: Op, e: TxEnv) {
    Expired(op, e) && (e.ok || op.retries == MAX_RETRANSMIT)
  }

  ghost function ExpiredTurns(s: State, steps: seq<Step>, i: nat): nat
    requires IsRun(s, steps)
    decreases |steps|
  {
    if steps == [] then 0
    else
      var n, t := |steps| - 1, After(s, steps[..|steps| - 1]);
      ExpiredTurns(s, steps[..n], i)
        + (if steps[n].TurnStep? && steps[n].i == i && i < |t.ops| && Counts(t.ops[i], steps[n].tx) then 1 else 0)
  }

  /** What n such turns make of a pending request: it is sent again in each of
      the first ones, and given up in the one after its last retry. */
  predicate Aged(op: Op, op': Op, n: nat) {
    && op'.kind == op.kind
    && if op.retries + n <= MAX_RETRANSMIT then op'.state == Pending && op'.retries == op.retries + n
       else op'.state == Error && op.retries + n == MAX_RETRANSMIT + 1
  }

  lemma TurnAges(dev: Device, op: Op, op': Op, i: nat, e: TxEnv, n: nat)
    requires OneShot(op) && op.retries <= MAX_RETRANSMIT && Aged(op, op', n)
    ensures Aged(op, OnTurn(dev, op', i, e).op, if Counts(op', e) then n + 1 else n)
  {
    hide PacketOf, Encode, Backoff;
  }

  /** Every pending read, write or activation at index 1 or above that is left
      alone is sent again in each turn that finds it expired, and is given up
      exactly in the one after its fourth retry: for a request sent once, in the
      fifth such turn, whatever else happens in the run. */
  lemma {:induction false} GivenUp(s: State, steps: seq<Step>, i: nat)
    requires IsRun(s, steps) && 1 <= i < |s.ops| && Undisturbed(s, steps, i)
    requires s.ops[i].state == Pending && OneShot(s.ops[i]) && s.ops[i].retries <= MAX_RETRANSMIT
    ensures |After(s, steps).ops| == |s.ops|
    ensures Aged(s.ops[i], After(s, steps).ops[i], ExpiredTurns(s, steps, i))
    decreases |steps|
  {
    if steps == [] {
      assert After(s, steps) == s;
    } else {
      var n, before := |steps| - 1, steps[..|steps| - 1];
      var t, step := After(s, before), steps[n];
      RunLast(s, steps);
      UndisturbedPrefix(s, steps, i);
      hide *;
      GivenUp(s, before, i);
      UndisturbedStep(t, step, i);
      TurnsCounted(s, steps, i);
      if step.TurnStep? && step.i == i {
        TurnAges(t.dev, s.ops[i], t.ops[i], i, step.tx, ExpiredTurns(s, before, i));
      }
    }
  }

  lemma TurnsCounted(s: State, steps: seq<Step>, i: nat)
    requires IsRun(s, steps) && steps != [] && IsRun(s, steps[..|steps| - 1]) && i < |After(s, steps[..|steps| - 1]).ops|
    ensures var n, t := |steps| - 1, After(s, steps[..|steps| - 1]);
            ExpiredTurns(s, steps, i)
            == ExpiredTurns(s, steps[..n], i)
               + (if steps[n].TurnStep? && steps[n].i == i && Counts(t.ops[i], steps[n].tx) then 1 else 0)
  {
    hide IsRun, After, Counts;
  }

  lemma UndisturbedPrefix(s: State, steps: seq<Step>, i: nat)
    requires steps != [] && Undisturbed(s, steps, i) && IsRun(s, steps[..|steps| - 1])
    ensures Undisturbed(s, steps[..|steps| - 1], i)
    ensures var n := |steps| - 1;
            && !(steps[n].UserStep? && steps[n].i == i)
            && (steps[n].ReceiveStep? ==> FirstMatch(After(s, steps[..n]).ops, steps[n].m, 0) != i)
  {
    var n, before := |steps| - 1, steps[..|steps| - 1];
    hide IsRun, After, FirstMatch;
    forall k | 0 <= k < n
      ensures !(before[k].UserStep? && before[k].i == i) && !HitAt(s, before, k, i)
    {
      assert before[..k] == steps[..k] && before[k] == steps[k];
      assert !HitAt(s, steps, k, i);
    }
    assert !HitAt(s, steps, n, i);
  }

  /** A step that leaves operation i alone, but for its own turn. */
  lemma UndisturbedStep(t: State, step: Step, i: nat)
    requires Enabled(t, step) && 1 <= i < |t.ops| && !(step.UserStep? && step.i == i)
    requires step.ReceiveStep? ==> FirstMatch(t.ops, step.m, 0) != i
    ensures |Apply(t, step).ops| == |t.ops|
    ensures Apply(t, step).ops[i]
            == if step.TurnStep? && step.i == i then OnTurn(t.dev, t.ops[i], i, step.tx).op else t.ops[i]
  {
    if step.ReceiveStep? {
      DispatchFrame(t, step.m, step.rx);
      hide Receive, FirstMatch, ValidMessage;
    } else {
      hide OnTurn;
    }
  }

  // ----------------------------------------------------------------- answers

  /** A notification that the subscription takes over. */
  predicate TakenOver(op: Op, m: Message) {
    m.typ <= 1 && m.code == 69 && m.payload != [] && |m.payload| + 1 <= op.valueMax
  }

  lemma MatchOwes(op: Op, i: nat, m: Message, e: RxEnv)
    requires TypeOk(op) && Matches(op, m)
    ensures OwesAck(OnMatch(op, i, m, e).op) <==> TakenOver(op, m)
    ensures !OwesAck(op)
  {
    hide Fold, ObserveBytes, FreshUntil, Store, Cleared, LittleEndianValue;
  }

  /** Which messages are answered. In every run, an acknowledgement becomes owed
      exactly for a notification, confirmable or not, that is matched and whose
      payload is not empty and fits; and a reset is sent exactly for a
      confirmable message that is not matched. So a confirmable notification
      that is matched but brings no payload, one that does not fit, or another
      code gets no answer, and one that is not confirmable may get one. */
  lemma AnswersExact(s: State, steps: seq<Step>, m: Message, e: RxEnv, j: nat)
    requires Initial(s) && IsRun(s, steps) && ValidMessage(m) && j < |After(s, steps).ops|
    ensures var t := After(s, steps);
            var i, t' := FirstMatch(t.ops, m, 0), Receive(t, m, e);
            && |t'.ops| == |t.ops|
            && (OwesAck(t'.ops[j]) && !OwesAck(t.ops[j]) <==> j == i && TakenOver(t.ops[j], m))
            && (OwesAck(t.ops[j]) ==> t'.ops[j] == t.ops[j] || j == 0)
            && Resets(t'.log) == Resets(t.log) + (if i == |t.ops| && m.typ == CON then [Encode(ResetFor(m))] else [])
  {
    var t := After(s, steps);
    var op, h := t.ops[j], HistoryOf(t.log, j);
    hide *;
    ReachedAt(s, steps, j);
    ReachedOk(s, steps, j, op, h);
    OpTyped(op, h, Built(t.log), s.dev.counter);
    StepResets(t, m, e);
    ReceiveOwes(t, m, e, j);
  }

  lemma OpTyped(op: Op, h: History, built: nat, seed: u16)
    requires OpOk(op, h, built, seed)
    ensures TypeOk(op)
  {
    hide TypeOk;
  }

  lemma ReceiveOwes(t: State, m: Message, e: RxEnv, j: nat)
    requires j < |t.ops| && ValidMessage(m) && TypeOk(t.ops[j])
    ensures var i, t' := FirstMatch(t.ops, m, 0), Receive(t, m, e);
            && |t'.ops| == |t.ops|
            && (OwesAck(t'.ops[j]) && !OwesAck(t.ops[j]) <==> j == i && TakenOver(t.ops[j], m))
            && (OwesAck(t.ops[j]) ==> t'.ops[j] == t.ops[j] || j == 0)
  {
    var i := FirstMatch(t.ops, m, 0);
    assert i < |t.ops| ==> Matches(t.ops[i], m);
    hide Receive, FirstMatch, OnMatch, ValidMessage, TakenOver, Matches, TypeOk, Encode;
    DispatchFrame(t, m, e);
    if j == i {
      MatchOwes(t.ops[j], j, m, e);
      ReactivatedOwes(t.ops[j], j, m, e);
    }
  }

  /** An unauthorized response is no notification. */
  lemma ReactivatedOwes(op: Op, i: nat, m: Message, e: RxEnv)
    ensures Reactivates(OnMatch(op, i, m, e).op, m, e) ==> !TakenOver(op, m) && !OwesAck(ActivateOp(OnMatch(op, i, m, e).op))
  {
    hide OnMatch;
  }
}

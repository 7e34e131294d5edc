/** The lemmas by which the engine's methods are shown to be runs of the state
    machine. */
module EngineRefinement {
  import opened Bytes
  import opened CoapFormat
  import opened MessageEdits
  import opened Requests
  import opened EngineModel
  import opened EngineHistory
  import opened EngineRuns
  import opened EngineTheorems
  import opened EngineReads
  import opened EngineLog
  import opened Platform
  import Seqs

  lemma RequestCarries(kind: Kind, counter: u16, rnd: nat, a: Args)
    ensures var s := RequestBytes(kind, counter, rnd, a);
            && |s| >= HEADER_SIZE + 2 && s[0] as int % 16 == 2 && 256 * s[2] as int + s[3] as int == counter
            && LittleEndianValue(s[HEADER_SIZE..HEADER_SIZE + 2]) == Low16(rnd)
  {
    RequestFields(kind, counter, rnd, a);
    hide RequestBytes, RequestTail, LittleEndianValue, LittleEndian, RequestHead;
  }

  /** When the stored token is put into a rebuilt request. */
  lemma RetransmitParts(kind: Kind, counter: u16, rnd: nat, a: Args, mid: u16, token: nat, tkl: nat)
    ensures var s := RequestBytes(kind, counter, rnd, a);
            && HEADER_SIZE + 2 <= |s| <= DATAGRAM_SIZE && s[0] as int % 16 == 2
            && var w := WithMid(s, mid);
            && |w| == |s| && w[0] == s[0]
            && RetransmitBytes(kind, counter, rnd, a, mid, token, tkl)
               == (if tkl <= MAX_TOKEN && |s| - 2 + tkl <= DATAGRAM_SIZE then Retoken(w, token, tkl) else w)
  {
    RequestFields(kind, counter, rnd, a);
    hide RequestBytes, RequestTail, LittleEndianValue, LittleEndian, RequestHead, Retoken;
  }

  /** An operation's turn, case by case. */
  lemma TurnNew(dev: Device, op: Op, i: nat, e: TxEnv)
    requires op.state == New && op.kind != NullOp
    ensures OnTurn(dev, op, i, e)
            == Effect(if !e.ok then op else op.(state := Pending, timeout := e.time + ACK_WAIT, mid := dev.counter, token := Low16(e.rand)),
                      Some(Request(i, false, e.time, dev.cik, RequestBytes(op.kind, dev.counter, e.rand, ArgsOf(dev, op)), e.ok)))
    ensures CounterAfter(dev, op, e) == NextMid(dev.counter)
    ensures DatagramsOf(OnTurn(dev, op, i, e).event)
            == [Datagram(RequestBytes(op.kind, dev.counter, e.rand, ArgsOf(dev, op)), e.ok)]
  {
    hide RequestBytes;
  }

  lemma TurnResend(dev: Device, op: Op, i: nat, e: TxEnv)
    requires Resends(op, TxEnv(e.now, false, 0, 0, 0))
    ensures var again := RetransmitBytes(op.kind, dev.counter, e.rand, ArgsOf(dev, op), op.mid, op.token, op.tkl);
            && OnTurn(dev, op, i, e).op
               == (if !e.ok then op else op.(retries := op.retries + 1, timeout := e.time + Backoff(op.retries + 1, e.jitter)))
            && DatagramsOf(OnTurn(dev, op, i, e).event) == [Datagram(again, e.ok)]
    ensures CounterAfter(dev, op, e) == NextMid(dev.counter)
  {
    hide RetransmitBytes;
  }

  lemma TurnAck(dev: Device, op: Op, i: nat, e: TxEnv)
    requires OwesAck(op)
    ensures OnTurn(dev, op, i, e).op == (if !e.ok then op else op.(state := if op.state == SubAck then Subscribed else Success))
    ensures DatagramsOf(OnTurn(dev, op, i, e).event) == [Datagram(Encode(AckFor(op.mid)), e.ok)]
    ensures CounterAfter(dev, op, e) == dev.counter
  {
    hide Encode;
  }

  /** A turn in which nothing is sent. */
  lemma TurnQuiet(dev: Device, op: Op, i: nat, e: TxEnv)
    ensures !Sends(op, e) && !OwesAck(op) ==>
              && OnTurn(dev, op, i, e).op
                 == (if Expired(op, e) && op.kind == Subscribe then op.(state := New)
                     else if Expired(op, e) && op.kind != NullOp then op.(state := Error) else op)
              && DatagramsOf(OnTurn(dev, op, i, e).event) == []
              && CounterAfter(dev, op, e) == dev.counter
  {
    hide PacketOf, Encode;
  }

  lemma TurnTaken(s: State, i: nat, e: TxEnv, t: State)
    requires i < |s.ops| && t.ops == s.ops[i := OnTurn(s.dev, s.ops[i], i, e).op]
    requires t.dev == s.dev.(counter := CounterAfter(s.dev, s.ops[i], e)) && t.clock == e.time
    requires t.log == Log(s, OnTurn(s.dev, s.ops[i], i, e).event)
    ensures t == Turn(s, i, e)
  {
    hide OnTurn, CounterAfter, Log;
  }

  lemma LogSent(sent: seq<Datagram>, s: State, event: Option<Event>)
    ensures Transmitted(sent, s.log, sent + DatagramsOf(event), Log(s, event))
  {
    NothingSent(sent, s.log);
    if event.Some? {
      EventSent(sent, s.log, event.value);
    } else {
      assert sent + [] == sent;
    }
    hide Transmitted;
  }

  /** What exo_operate reports. `OutcomeFault` stands for a read through a null
      pointer: the call does not come back. */
  datatype Outcome = OutcomeIdle | OutcomeWaiting | OutcomeBusy | OutcomeError | OutcomeFault

  /** What one call of exo_operate did: the time of its activation check, how
      many datagrams it handled, the receive steps, and the pass that began at
      `now`. */
  datatype Trace = Trace(time: nat, n: nat, received: seq<Step>, now: nat, pass: seq<Step>) {
    function Steps(): seq<Step> {
      [CheckStep(time)] + received + pass
    }

    predicate AllSent() {
      forall k :: 0 <= k < |pass| ==> pass[k].TurnStep? && pass[k].tx.ok
    }

    /** The receive phase began after the activation check and went as it
        should; resets were sent as they were due. */
    ghost predicate Received(s: State, inbox: seq<seq<byte>>, left: seq<seq<byte>>, fault: bool, log: seq<Event>) {
      && Enabled(s, CheckStep(time))
      && var s1 := Apply(s, CheckStep(time));
      ReceivePhase(s1, inbox, n, received, left, fault) && Resets(log) == Resets(s.log) + ResetsDue(s1, received)
    }
  }

  lemma {:induction false} RunConcat(s: State, a: seq<Step>, b: seq<Step>)
    requires IsRun(s, a) && IsRun(After(s, a), b)
    ensures IsRun(s, a + b) && After(s, a + b) == After(After(s, a), b)
    decreases |b|
  {
    hide *;
    if b == [] {
      assert a + b == a;
      PassStart(After(s, a), 0);
    } else {
      var n := |b| - 1;
      RunLast(After(s, a), b);
      RunConcat(s, a, b[..n]);
      RunAppend(s, a + b[..n], b[n]);
      Seqs.AppendLast(a, b);
    }
  }

  lemma {:induction false} RunKeepsInv(s: State, steps: seq<Step>, seed: u16)
    requires Inv(s, seed) && IsRun(s, steps)
    ensures Inv(After(s, steps), seed)
    decreases |steps|
  {
    hide Inv, Apply, Enabled;
    if steps != [] {
      RunLast(s, steps);
      RunKeepsInv(s, steps[..|steps| - 1], seed);
      StepInv(After(s, steps[..|steps| - 1]), steps[|steps| - 1], seed);
    }
  }

  /** The three phases of a call put together. */
  lemma OperateRun(s: State, s1: State, s2: State, t: State, run: Trace, seed: u16)
    requires Enabled(s, CheckStep(run.time)) && s1 == Apply(s, CheckStep(run.time))
    requires IsRun(s1, run.received) && s2 == After(s1, run.received)
    requires IsRun(s2, run.pass) && t == After(s2, run.pass) && IsPass(run.pass, run.now)
    ensures IsRun(s, run.Steps()) && t == After(s, run.Steps())
    ensures Kept(s, t, seed, |run.pass| == |s2.ops| && run.AllSent())
    ensures |t.ops| == |s2.ops|
  {
    var check := [CheckStep(run.time)];
    OneStep(s, CheckStep(run.time));
    hide IsRun, After, Inv, Enabled, Apply, Settled, OwesAck, IsPass;
    RunConcat(s, check, run.received);
    RunConcat(s, check + run.received, run.pass);
    PassSize(s2, run.pass, run.now);
    if Inv(s, seed) {
      RunKeepsInv(s, check + run.received, seed);
      RunKeepsInv(s2, run.pass, seed);
      if AllIdle(t.ops) {
        IdleSettled(t, seed);
      }
      if |run.pass| == |s2.ops| && run.AllSent() {
        NothingOwed(s2, run.pass, run.now, seed);
      }
    }
  }

  lemma {:induction false} PassSize(s: State, steps: seq<Step>, now: nat)
    requires IsRun(s, steps) && IsPass(steps, now)
    ensures |After(s, steps).ops| == |s.ops|
    decreases |steps|
  {
    if steps != [] {
      var before := steps[..|steps| - 1];
      RunLast(s, steps);
      assert IsPass(before, now);
      hide IsRun, After, OnTurn;
      PassSize(s, before, now);
    }
  }

  /** What a call leaves of the invariant: it is kept; if no operation is queued
      or pending then all are settled; and if all sends of a whole pass
      succeeded then no acknowledgement is owed. */
  ghost predicate Kept(s: State, t: State, seed: u16, allSent: bool) {
    Inv(s, seed) ==>
      && Inv(t, seed)
      && (AllIdle(t.ops) ==> forall i :: 0 <= i < |t.ops| ==> Settled(t.ops[i]))
      && (allSent ==> forall i :: 0 <= i < |t.ops| ==> !OwesAck(t.ops[i]))
  }

  lemma KeptMeans(s: State, t: State, seed: u16, allSent: bool)
    requires Kept(s, t, seed, allSent)
    ensures Inv(s, seed) ==> Inv(t, seed)
    ensures Inv(s, seed) && AllIdle(t.ops) ==> forall i :: 0 <= i < |t.ops| ==> Settled(t.ops[i])
    ensures Inv(s, seed) && allSent ==> forall i :: 0 <= i < |t.ops| ==> !OwesAck(t.ops[i])
  {
    hide Inv, Settled, OwesAck, AllIdle;
  }

  /** Neither the check nor the pass sends a reset. */
  lemma OperateResets(s: State, s1: State, s2: State, t: State, run: Trace)
    requires Enabled(s, CheckStep(run.time)) && s1 == Apply(s, CheckStep(run.time))
    requires IsRun(s1, run.received) && s2 == After(s1, run.received)
    requires Resets(s2.log) == Resets(s1.log) + ResetsDue(s1, run.received)
    requires IsRun(s2, run.pass) && t == After(s2, run.pass) && IsPass(run.pass, run.now)
    ensures Resets(t.log) == Resets(s.log) + ResetsDue(s1, run.received)
  {
    CheckResets(s, run.time);
    hide Resets, ResetsDue, Apply, Enabled, IsRun, After;
    PassResets(s2, run.pass, run.now);
  }

  lemma OperateReceived(s: State, s1: State, s2: State, t: State, run: Trace, inbox: seq<seq<byte>>,
                        left: seq<seq<byte>>, fault: bool)
    requires Enabled(s, CheckStep(run.time)) && s1 == Apply(s, CheckStep(run.time))
    requires ReceivePhase(s1, inbox, run.n, run.received, left, fault)
    requires IsRun(s1, run.received) && s2 == After(s1, run.received)
    requires Resets(s2.log) == Resets(s1.log) + ResetsDue(s1, run.received)
    requires IsRun(s2, run.pass) && t == After(s2, run.pass) && IsPass(run.pass, run.now)
    ensures run.Received(s, inbox, left, fault, t.log)
  {
    OperateResets(s, s1, s2, t, run);
    hide Resets, ResetsDue, Apply, Enabled, IsRun, After, ReceivePhase, IsPass;
  }

  lemma CheckResets(s: State, time: nat)
    requires Enabled(s, CheckStep(time))
    ensures Resets(Apply(s, CheckStep(time)).log) == Resets(s.log)
  {
    ResetsAppend(s.log, QueuedEvent(0, s.ops[0]));
    hide Resets;
  }

  lemma TurnResets(s: State, i: nat, e: TxEnv)
    requires i < |s.ops|
    ensures Resets(Turn(s, i, e).log) == Resets(s.log)
  {
    var ev := OnTurn(s.dev, s.ops[i], i, e).event;
    if ev.Some? {
      ResetsAppend(s.log, ev.value);
    }
    hide Resets, PacketOf, Encode;
  }

  lemma {:induction false} PassResets(s: State, steps: seq<Step>, now: nat)
    requires IsRun(s, steps) && IsPass(steps, now)
    ensures Resets(After(s, steps).log) == Resets(s.log)
    decreases |steps|
  {
    if steps != [] {
      var n := |steps| - 1;
      RunLast(s, steps);
      hide IsRun, After, Turn, Resets;
      PassResets(s, steps[..n], now);
      TurnResets(After(s, steps[..n]), steps[n].i, steps[n].tx);
    }
  }

  lemma OneStep(s: State, step: Step)
    requires Enabled(s, step)
    ensures IsRun(s, [step]) && After(s, [step]) == Apply(s, step)
  {
    PassStart(s, 0);
    RunAppend(s, [], step);
    assert [] + [step] == [step];
    hide Apply, Enabled;
  }

  lemma IdleSettled(t: State, seed: u16)
    requires Inv(t, seed) && AllIdle(t.ops)
    ensures forall i :: 0 <= i < |t.ops| ==> Settled(t.ops[i])
  {
    hide SendOk, MidOk, AckOk, AddressOk, SeqOk, HistoryOf, Built;
    forall i | 0 <= i < |t.ops|
      ensures Settled(t.ops[i])
    {
      assert OpOk(t.ops[i], HistoryOf(t.log, i), Built(t.log), seed);
    }
  }

  lemma NothingOwed(s: State, pass: seq<Step>, now: nat, seed: u16)
    requires Inv(s, seed) && IsRun(s, pass) && IsPass(pass, now) && |pass| == |s.ops|
    requires forall k :: 0 <= k < |pass| ==> pass[k].TurnStep? && pass[k].tx.ok
    ensures |After(s, pass).ops| == |s.ops|
    ensures forall i :: 0 <= i < |s.ops| ==> !OwesAck(After(s, pass).ops[i])
  {
    hide SendOk, MidOk, AckOk, AddressOk, SeqOk, HistoryOf, Built, After, IsRun, OwesAck, TypeOk;
    assert s.ops != [];
    PassOutcome(s, pass, now, 0);
    forall i | 0 <= i < |s.ops|
      ensures !OwesAck(After(s, pass).ops[i])
    {
      assert OpOk(s.ops[i], HistoryOf(s.log, i), Built(s.log), seed);
      PassOutcome(s, pass, now, i);
    }
  }

  // ------------------------------------------------------ runs put together

  lemma PassStart(s: State, now: nat)
    ensures IsPass([], now) && IsRun(s, []) && After(s, []) == s
  {
  }

  /** The clock before a turn does not matter for what the turn does. */
  lemma TurnClock(t: State, clock: nat, i: nat, e: TxEnv)
    requires i < |t.ops|
    ensures Turn(t.(clock := clock), i, e) == Turn(t, i, e)
    ensures |Turn(t, i, e).ops| == |t.ops| && Turn(t, i, e).clock == e.time
  {
    hide OnTurn, CounterAfter;
  }

  lemma PassNext(s: State, steps: seq<Step>, now: nat, e: TxEnv)
    requires IsPass(steps, now) && IsRun(s, steps) && |steps| < |After(s, steps).ops|
    requires e.now == now <= e.time && After(s, steps).clock <= e.time
    ensures var steps' := steps + [TurnStep(|steps|, e)];
            && IsPass(steps', now) && IsRun(s, steps')
            && After(s, steps') == Turn(After(s, steps), |steps|, e)
  {
    RunAppend(s, steps, TurnStep(|steps|, e));
    hide IsRun, After, Turn;
  }

  /** A pass that began at `now` has come to u; the clock may have gone on while
      no turn was taken yet. */
  ghost predicate Passing(s: State, steps: seq<Step>, now: nat, u: State) {
    && IsPass(steps, now) && IsRun(s, steps)
    && u == After(s, steps).(clock := u.clock) && After(s, steps).clock <= u.clock && now <= u.clock
    && (steps != [] ==> u == After(s, steps))
  }

  lemma PassingStart(s: State, now: nat, u: State)
    requires u == s.(clock := u.clock) && s.clock <= u.clock && now <= u.clock
    ensures Passing(s, [], now, u)
  {
    PassStart(s, now);
    hide IsRun, After, IsPass;
  }

  lemma PassingNext(s: State, steps: seq<Step>, now: nat, u: State, e: TxEnv)
    requires Passing(s, steps, now, u) && |steps| < |u.ops| && e.now == now <= e.time && u.clock <= e.time
    ensures Passing(s, steps + [TurnStep(|steps|, e)], now, Turn(u, |steps|, e))
    ensures |Turn(u, |steps|, e).ops| == |u.ops|
  {
    var t := After(s, steps);
    hide IsRun, After, IsPass, Turn;
    PassNext(s, steps, now, e);
    TurnClock(t, u.clock, |steps|, e);
  }

  lemma PassingDone(s: State, steps: seq<Step>, now: nat, u: State)
    requires Passing(s, steps, now, u) && steps != []
    ensures IsPass(steps, now) && IsRun(s, steps) && u == After(s, steps)
  {
    hide IsRun, After, IsPass;
  }

  // --------------------------------------------------- runs of receive steps

  /** The steps receive these messages, in order. */
  ghost predicate Delivers(steps: seq<Step>, ms: seq<Message>) {
    |steps| == |ms| && forall k :: 0 <= k < |steps| ==> steps[k].ReceiveStep? && steps[k].m == ms[k]
  }

  ghost predicate MatchedAt(s: State, steps: seq<Step>, k: nat)
    requires k < |steps|
  {
    && IsRun(s, steps[..k]) && steps[k].ReceiveStep?
    && FirstMatch(After(s, steps[..k]).ops, steps[k].m, 0) < |After(s, steps[..k]).ops|
  }

  /** The messages of the first n steps each concerned an operation. */
  ghost predicate MatchedBefore(s: State, steps: seq<Step>, n: int) {
    forall k :: 0 <= k < n && k < |steps| ==> MatchedAt(s, steps, k)
  }

  /** The last message concerned no operation. */
  ghost predicate Stopped(s: State, steps: seq<Step>) {
    steps != [] && !MatchedAt(s, steps, |steps| - 1)
  }

  /** A reset is due exactly for a confirmable message at which the loop stops,
      and echoes its message id and token. */
  ghost function ResetsDue(s: State, steps: seq<Step>): seq<seq<byte>> {
    if !Stopped(s, steps) then []
    else
      var last := steps[|steps| - 1];
      if last.ReceiveStep? && last.m.typ == CON && ValidMessage(last.m) then [Encode(ResetFor(last.m))] else []
  }

  /** Datagrams handled so far without stopping. */
  ghost predicate Receiving(s: State, inbox: seq<seq<byte>>, n: nat, steps: seq<Step>) {
    && n <= |inbox| && IsRun(s, steps) && Delivers(steps, Messages(inbox[..n]))
    && MatchedBefore(s, steps, |steps|)
  }

  /** A whole receive phase. The messages among the first n datagrams were
      received in order, every one but the last concerning an operation. It ended
      because no datagram was left, at the first message that concerned none, or
      in a fault at the next one. */
  ghost predicate ReceivePhase(s: State, inbox: seq<seq<byte>>, n: nat, steps: seq<Step>,
                               left: seq<seq<byte>>, fault: bool) {
    && n <= |inbox| && IsRun(s, steps) && Delivers(steps, Messages(inbox[..n]))
    && MatchedBefore(s, steps, |steps| - 1)
    && (Stopped(s, steps) ==> !fault && n > 0 && WellFormed(inbox[n - 1]))
    && (!fault ==> left == inbox[n..] && (left == [] || Stopped(s, steps)))
    && (fault ==> n < |inbox| && left == inbox[n + 1..] && WellFormed(inbox[n])
                  && FaultsIn(After(s, steps).ops, Parse(inbox[n]).value))
  }

  lemma StartReceiving(s: State, inbox: seq<seq<byte>>)
    ensures Receiving(s, inbox, 0, []) && After(s, []) == s
  {
    assert inbox[..0] == [];
  }

  lemma NotStopped(s: State, steps: seq<Step>)
    requires MatchedBefore(s, steps, |steps|)
    ensures !Stopped(s, steps) && MatchedBefore(s, steps, |steps| - 1)
  {
    hide MatchedAt;
    if steps != [] {
      assert MatchedAt(s, steps, |steps| - 1);
    }
  }

  /** No datagram was left. */
  lemma PhaseDone(s: State, inbox: seq<seq<byte>>, steps: seq<Step>)
    requires Receiving(s, inbox, |inbox|, steps)
    ensures ReceivePhase(s, inbox, |inbox|, steps, [], false)
  {
    hide IsRun, After, Messages, Delivers, MatchedBefore, Stopped;
    NotStopped(s, steps);
    assert inbox[|inbox|..] == [];
  }

  lemma PhaseFaults(s: State, inbox: seq<seq<byte>>, n: nat, steps: seq<Step>)
    requires Receiving(s, inbox, n, steps) && n < |inbox| && WellFormed(inbox[n])
    requires FaultsIn(After(s, steps).ops, Parse(inbox[n]).value)
    ensures ReceivePhase(s, inbox, n, steps, inbox[n + 1..], true)
  {
    hide IsRun, After, Messages, Delivers, MatchedBefore, Stopped, Parse, FaultsIn;
    NotStopped(s, steps);
  }

  lemma PhaseIsRun(s: State, inbox: seq<seq<byte>>, n: nat, steps: seq<Step>, left: seq<seq<byte>>, fault: bool)
    requires ReceivePhase(s, inbox, n, steps, left, fault)
    ensures IsRun(s, steps)
  {
    hide IsRun, After, Messages, Delivers, MatchedBefore, Stopped, Parse, FaultsIn;
  }

  /** The resets of a receive phase. */
  lemma PhaseResets(s: State, inbox: seq<seq<byte>>, n: nat, steps: seq<Step>, left: seq<seq<byte>>, fault: bool)
    requires ReceivePhase(s, inbox, n, steps, left, fault)
    ensures IsRun(s, steps) && Resets(After(s, steps).log) == Resets(s.log) + ResetsDue(s, steps)
  {
    hide IsRun, After, Messages, MatchedBefore, Stopped, Parse, FaultsIn, Resets, ResetsDue;
    ReceiveResets(s, steps);
  }

  lemma ReceiveResets(s: State, steps: seq<Step>)
    requires IsRun(s, steps) && MatchedBefore(s, steps, |steps| - 1)
    requires forall k :: 0 <= k < |steps| ==> steps[k].ReceiveStep?
    ensures Resets(After(s, steps).log) == Resets(s.log) + ResetsDue(s, steps)
  {
    if steps == [] {
      hide Resets;
    } else {
      var n := |steps| - 1;
      MatchedPrefix(s, steps);
      LastDue(s, steps);
      RunLast(s, steps);
      var t, step := After(s, steps[..n]), steps[n];
      assert ValidMessage(step.m) && t.ops != [] && After(s, steps) == Receive(t, step.m, step.rx);
      hide *;
      MatchedResets(s, steps[..n]);
      StepResets(t, step.m, step.rx);
    }
  }

  lemma LastDue(s: State, steps: seq<Step>)
    requires steps != [] && IsRun(s, steps) && steps[|steps| - 1].ReceiveStep?
    ensures var t, m := After(s, steps[..|steps| - 1]), steps[|steps| - 1].m;
            && ValidMessage(m)
            && ResetsDue(s, steps) == if FirstMatch(t.ops, m, 0) == |t.ops| && m.typ == CON then [Encode(ResetFor(m))] else []
  {
    RunLast(s, steps);
    hide After, IsRun, Encode, FirstMatch;
  }

  lemma MatchedPrefix(s: State, steps: seq<Step>)
    requires steps != [] && MatchedBefore(s, steps, |steps| - 1)
    ensures MatchedBefore(s, steps[..|steps| - 1], |steps| - 1)
  {
    hide IsRun, After, FirstMatch;
    var n := |steps| - 1;
    forall k | 0 <= k < n
      ensures MatchedAt(s, steps[..n], k)
    {
      assert steps[..n][..k] == steps[..k];
      assert MatchedAt(s, steps, k);
    }
  }

  lemma {:induction false} MatchedResets(s: State, steps: seq<Step>)
    requires IsRun(s, steps) && MatchedBefore(s, steps, |steps|)
    requires forall k :: 0 <= k < |steps| ==> steps[k].ReceiveStep?
    ensures Resets(After(s, steps).log) == Resets(s.log)
    decreases |steps|
  {
    if steps != [] {
      var n := |steps| - 1;
      RunLast(s, steps);
      hide IsRun, After, Receive, Resets, FirstMatch;
      NotStopped(s, steps);
      MatchedPrefix(s, steps);
      MatchedResets(s, steps[..n]);
      StepResets(After(s, steps[..n]), steps[n].m, steps[n].rx);
    }
  }

  lemma StepResets(t: State, m: Message, e: RxEnv)
    requires t.ops != [] && ValidMessage(m)
    ensures Resets(Receive(t, m, e).log)
            == Resets(t.log) + (if FirstMatch(t.ops, m, 0) == |t.ops| && m.typ == CON then [Encode(ResetFor(m))] else [])
  {
    var t' := Receive(t, m, e);
    var ev := ResetSent(Encode(ResetFor(m)), e.ok);
    ResetsAppend(t.log, ev);
    if FirstMatch(t.ops, m, 0) < |t.ops| {
      DispatchMatched(t, m, e);
      if t'.log != t.log {
        assert t'.log == t.log + [t'.log[|t.log|]];
        ResetsAppend(t.log, t'.log[|t.log|]);
      }
      hide Receive;
    }
    hide Resets, Encode, FirstMatch, OnMatch;
  }

  // ----------------------------------------------------- what goes to the wire

  /** A matched message hands nothing to the network. */
  lemma MatchedSilent(s: State, m: Message, e: RxEnv, sent: seq<Datagram>)
    requires s.ops != [] && ValidMessage(m) && FirstMatch(s.ops, m, 0) < |s.ops|
    ensures Transmitted(sent, s.log, sent, Receive(s, m, e).log)
  {
    var i := FirstMatch(s.ops, m, 0);
    var eff := OnMatch(s.ops[i], i, m, e);
    var op0 := s.ops[i := eff.op][0];
    MatchedEvent(s.ops[i], i, m, e);
    NothingSent(sent, s.log);
    EventSent(sent, s.log, QueuedEvent(0, op0));
    assert sent + [] == sent;
    if eff.event.Some? {
      EventSent(sent, s.log, eff.event.value);
    }
    hide OnMatch, Encode, Transmitted, FirstMatch;
  }

  // ------------------------------------------------------------- a read's end

  /** The datagram is a success response to the pending read at index i, which
      is not too old to be told from others. */
  ghost predicate Awaiting(t: State, seed: u16, i: nat, d: seq<byte>) {
    Inv(t, seed) && Recent(t) && WellFormed(d) && Answers(t, i, Parse(d).value)
  }

  lemma AwaitedDelivered(t: State, seed: u16, i: nat, d: seq<byte>, e: RxEnv)
    requires Awaiting(t, seed, i, d)
    ensures var m := Parse(d).value;
            var t' := Receive(t, m, e);
            && ValidMessage(m) && t.ops != [] && !FaultsIn(t.ops, m)
            && |t'.ops| == |t.ops| && t' == t.(ops := t.ops[i := t'.ops[i]], clock := e.time)
            && Delivered(t.ops[i], t'.ops[i], m.payload)
  {
    hide Inv, Recent, Parse, Receive, Delivered, ObserveBytes;
    AckMatches(t, seed, i, Parse(d).value);
    DeliverRead(t, seed, i, Parse(d).value, e);
  }

  /** If the datagram answers a pending read, it was delivered to that read and
      nothing else changed, but for the time. */
  ghost predicate ReadsDelivered(t: State, t': State, seed: u16, d: seq<byte>) {
    forall i: nat :: Awaiting(t, seed, i, d) ==>
      && |t'.ops| == |t.ops| && t' == t.(ops := t.ops[i := t'.ops[i]], clock := t'.clock)
      && Delivered(t.ops[i], t'.ops[i], Parse(d).value.payload)
  }

  lemma AllDelivered(t: State, seed: u16, d: seq<byte>, e: RxEnv)
    requires WellFormed(d) && t.ops != [] && ValidMessage(Parse(d).value)
    ensures ReadsDelivered(t, Receive(t, Parse(d).value, e), seed, d)
    ensures FaultsIn(t.ops, Parse(d).value) ==> ReadsDelivered(t, t, seed, d)
  {
    hide Awaiting, Parse, Receive, Delivered, FaultsIn;
    forall i: nat | Awaiting(t, seed, i, d)
      ensures var t' := Receive(t, Parse(d).value, e);
              && !FaultsIn(t.ops, Parse(d).value)
              && |t'.ops| == |t.ops| && i < |t.ops| && t' == t.(ops := t.ops[i := t'.ops[i]], clock := t'.clock)
              && Delivered(t.ops[i], t'.ops[i], Parse(d).value.payload)
    {
      AwaitedIndex(t, seed, i, d);
      AwaitedDelivered(t, seed, i, d, e);
    }
  }

  lemma AwaitedIndex(t: State, seed: u16, i: nat, d: seq<byte>)
    requires Awaiting(t, seed, i, d)
    ensures i < |t.ops|
  {
    hide Inv, Recent, Parse;
  }

  lemma NotAwaited(t: State, t': State, seed: u16, d: seq<byte>)
    requires !WellFormed(d)
    ensures ReadsDelivered(t, t', seed, d)
  {
    hide Inv, Recent, Parse, Answers;
  }

  lemma NoPayloadNoFault(m: Message)
    ensures ObserveBytes(m).None? ==> m.payload != []
  {
  }

  // ------------------------------------------------------- a single datagram

  /** What handling a datagram did: nothing if it is not a message, or if
      handling it faults, and otherwise a receive step; the loop is to stop if
      the message concerns no operation. */
  ghost predicate Handled(s: State, d: seq<byte>, t: State, stop: bool, fault: bool, step: Option<Step>) {
    && (fault <==> WellFormed(d) && FaultsIn(s.ops, Parse(d).value))
    && (step.Some? <==> WellFormed(d) && !fault)
    && (step.None? ==> t == s && !stop)
    && (step.Some? ==>
          && step.value.ReceiveStep? && Parse(d) == Some(step.value.m)
          && Enabled(s, step.value) && t == Apply(s, step.value)
          && (stop <==> FirstMatch(s.ops, step.value.m, 0) == |s.ops|))
  }

  lemma HandledNothing(s: State, d: seq<byte>)
    requires !WellFormed(d)
    ensures Handled(s, d, s, false, false, None)
  {
    hide Parse;
  }

  lemma HandledMessage(s: State, d: seq<byte>, m: Message, e: RxEnv, fault: bool, t: State)
    requires Parse(d) == Some(m) && s.ops != [] && ValidMessage(m) && s.clock <= e.time
    requires fault <==> FaultsIn(s.ops, m)
    requires t == if fault then s else Receive(s, m, e)
    ensures fault ==> Handled(s, d, t, false, true, None)
    ensures !fault ==> Handled(s, d, t, FirstMatch(s.ops, m, 0) == |s.ops|, false, Some(ReceiveStep(m, e)))
  {
    hide Parse, FaultsIn, Receive, FirstMatch, ValidMessage;
  }

  lemma HandledCases(s: State, d: seq<byte>, t: State, stop: bool, fault: bool, step: Option<Step>)
    requires Handled(s, d, t, stop, fault, step)
    ensures fault ==> WellFormed(d) && FaultsIn(s.ops, Parse(d).value)
    ensures step.Some? <==> WellFormed(d) && !fault
    ensures step.None? ==> t == s && !stop
    ensures step.Some? ==>
              && step.value.ReceiveStep? && Parse(d) == Some(step.value.m)
              && Enabled(s, step.value) && t == Apply(s, step.value)
              && (stop <==> FirstMatch(s.ops, step.value.m, 0) == |s.ops|)
  {
    hide Parse, FaultsIn, Enabled, Apply, FirstMatch;
  }

  lemma HandledDelivers(s: State, d: seq<byte>, t: State, stop: bool, fault: bool, step: Option<Step>, seed: u16)
    requires s.ops != [] && Handled(s, d, t, stop, fault, step)
    ensures ReadsDelivered(s, t, seed, d)
  {
    hide Parse, FaultsIn, Receive, FirstMatch, ReadsDelivered;
    if WellFormed(d) {
      EncodeOfParse(d);
      AllDelivered(s, seed, d, if step.Some? then step.value.rx else RxEnv(0, 0, 0, false));
    } else {
      NotAwaited(s, t, seed, d);
    }
  }

  lemma RunAppend(s: State, steps: seq<Step>, step: Step)
    requires IsRun(s, steps) && Enabled(After(s, steps), step)
    ensures IsRun(s, steps + [step]) && After(s, steps + [step]) == Apply(After(s, steps), step)
  {
    assert (steps + [step])[..|steps|] == steps;
    hide Apply, Enabled;
  }

  lemma MessagesNext(ds: seq<seq<byte>>, n: nat)
    requires n < |ds|
    ensures Messages(ds[..n + 1]) == Messages(ds[..n]) + (if WellFormed(ds[n]) then [Parse(ds[n]).value] else [])
  {
    assert ds[..n + 1][..n] == ds[..n];
    hide Parse;
  }

  lemma DeliversNext(steps: seq<Step>, ms: seq<Message>, step: Step)
    requires Delivers(steps, ms) && step.ReceiveStep?
    ensures Delivers(steps + [step], ms + [step.m])
  {
  }

  /** A datagram that validation rejected. */
  lemma RejectedNext(s: State, steps: seq<Step>, inbox: seq<seq<byte>>, n: nat)
    requires Receiving(s, inbox, n, steps) && n < |inbox| && !WellFormed(inbox[n])
    ensures Receiving(s, inbox, n + 1, steps)
  {
    MessagesNext(inbox, n);
    hide Parse, Messages, IsRun, MatchedBefore, Delivers;
  }

  /** A message was received, which ends the phase if it concerned no operation. */
  lemma ReceivedNext(s: State, steps: seq<Step>, inbox: seq<seq<byte>>, n: nat, step: Step)
    requires Receiving(s, inbox, n, steps) && n < |inbox|
    requires step.ReceiveStep? && Parse(inbox[n]) == Some(step.m) && Enabled(After(s, steps), step)
    ensures var t, steps' := After(s, steps), steps + [step];
            && IsRun(s, steps') && After(s, steps') == Apply(t, step)
            && (FirstMatch(t.ops, step.m, 0) < |t.ops| ==> Receiving(s, inbox, n + 1, steps'))
            && (FirstMatch(t.ops, step.m, 0) == |t.ops| ==> ReceivePhase(s, inbox, n + 1, steps', inbox[n + 1..], false))
  {
    MessagesNext(inbox, n);
    hide Parse, Messages, Apply, Enabled, FirstMatch, IsRun, After, Delivers, MatchedAt, MatchedBefore;
    RunAppend(s, steps, step);
    DeliversNext(steps, Messages(inbox[..n]), step);
    MatchedNext(s, steps, step);
  }

  lemma MatchedNext(s: State, steps: seq<Step>, step: Step)
    requires IsRun(s, steps) && MatchedBefore(s, steps, |steps|) && step.ReceiveStep?
    ensures var steps', t := steps + [step], After(s, steps);
            && MatchedBefore(s, steps', |steps|)
            && (MatchedAt(s, steps', |steps|) <==> FirstMatch(t.ops, step.m, 0) < |t.ops|)
            && (MatchedBefore(s, steps', |steps'|) <==> FirstMatch(t.ops, step.m, 0) < |t.ops|)
  {
    hide IsRun, After, FirstMatch;
    var steps' := steps + [step];
    forall k | 0 <= k < |steps|
      ensures MatchedAt(s, steps', k)
    {
      assert steps'[..k] == steps[..k];
      assert MatchedAt(s, steps, k);
    }
    assert steps'[..|steps|] == steps;
  }

  /** The first match is where the search loop stopped. */
  lemma FirstMatchIs(ops: seq<Op>, m: Message, i: nat)
    requires i <= |ops| && (forall j :: 0 <= j < i ==> !Matches(ops[j], m)) && (i < |ops| ==> Matches(ops[i], m))
    ensures FirstMatch(ops, m, 0) == i
  {
    hide Matches;
    var f := FirstMatch(ops, m, 0);
    assert f < i ==> f < |ops|;
  }

  lemma TokenBound(m: Message)
    requires ValidMessage(m)
    ensures |m.token| <= MAX_TOKEN
  {
  }

  /** An unauthorized response leaves no event and does not touch the device. */
  lemma Unauthorized(op: Op, i: nat, m: Message, e: RxEnv)
    requires m.typ == ACK && m.code == UNAUTHORIZED
    ensures OnMatch(op, i, m, e) == Effect(op.(state := Error), None)
    ensures forall d :: OnMatchDevice(d, op, m) == d
  {
  }

  lemma UnauthorizedTime(op: Op, i: nat, m: Message, e: RxEnv, e': RxEnv)
    requires m.typ == ACK && m.code == UNAUTHORIZED
    ensures OnMatch(op, i, m, e) == OnMatch(op, i, m, e')
  {
    Unauthorized(op, i, m, e);
    Unauthorized(op, i, m, e');
  }
}

/** The device's key and state over whole runs, and when activation is queued. */
module EngineDevice {
  import opened Bytes
  import opened CoapFormat
  import opened Requests
  import opened EngineModel
  import opened EngineHistory
  import opened EngineRuns
  import opened EngineTheorems
  import opened EngineReception
  import opened EngineRefinement

  /** The message is a success response, with 40 bytes of payload, to a pending
      activation. */
  ghost predicate BringsKey(t: State, m: Message) {
    && m.typ == 2 && m.code as int / 32 == 2 && |m.payload| == 40
    && exists i: nat :: Addressee(t, m, i) && i < |t.ops| && t.ops[i].kind == Activate
  }

  /** The message is the response 4.04 to a pending request. */
  ghost predicate NotFound(t: State, m: Message) {
    m.typ == 2 && m.code == 132 && exists i: nat :: AddressedAt(t, m, i)
  }

  /** The key after a run: the payload of the last response that brought one. */
  ghost function KeyAfter(s: State, steps: seq<Step>): seq<byte>
    requires IsRun(s, steps)
    decreases |steps|
  {
    if steps == [] then s.dev.cik
    else
      var n := |steps| - 1;
      if steps[n].ReceiveStep? && BringsKey(After(s, steps[..n]), steps[n].m) then steps[n].m.payload
      else KeyAfter(s, steps[..n])
  }

  /** Some response of the run brought a key or was 4.04. */
  ghost predicate Recognised(s: State, steps: seq<Step>)
    requires IsRun(s, steps)
    decreases |steps|
  {
    if steps == [] then false
    else
      var n := |steps| - 1;
      || Recognised(s, steps[..n])
      || (steps[n].ReceiveStep?
          && (BringsKey(After(s, steps[..n]), steps[n].m) || NotFound(After(s, steps[..n]), steps[n].m)))
  }

  /** What each step does to the device. */
  lemma StepDevice(t: State, seed: u16, step: Step)
    requires Inv(t, seed) && Enabled(t, step)
    ensures var dev := Apply(t, step).dev;
            var key := step.ReceiveStep? && BringsKey(t, step.m);
            && SameNames(t.dev, dev)
            && dev.cik == (if key then step.m.payload else t.dev.cik)
            && dev.state == if key || (step.ReceiveStep? && NotFound(t, step.m)) then Good else t.dev.state
  {
    if step.ReceiveStep? {
      hide Inv, Addressee, BringsKey, NotFound, Receive;
      ReceiveDevice(t, seed, step.m, step.rx);
    } else {
      hide OnTurn, Inv;
    }
  }

  lemma ReceiveDevice(t: State, seed: u16, m: Message, e: RxEnv)
    requires Inv(t, seed) && ValidMessage(m) && t.ops != []
    ensures var dev := Receive(t, m, e).dev;
            && SameNames(t.dev, dev)
            && dev.cik == (if BringsKey(t, m) then m.payload else t.dev.cik)
            && dev.state == if BringsKey(t, m) || NotFound(t, m) then Good else t.dev.state
  {
    var i := FirstMatch(t.ops, m, 0);
    assert m.typ <= 3;
    hide *;
    Dispatched(t, seed, m, i);
    Received(t, seed, m, e, i);
    ResponsesAre(t, seed, m, i);
    ReceptionDevice(t, m, e, i, Receive(t, m, e));
  }

  /** The two kinds of response, by the operation that the message is for. */
  lemma ResponsesAre(t: State, seed: u16, m: Message, i: nat)
    requires Inv(t, seed) && m.typ <= 3 && Addressee(t, m, i)
    ensures BringsKey(t, m) <==>
              m.typ == 2 && m.code as int / 32 == 2 && |m.payload| == 40 && i < |t.ops| && t.ops[i].kind == Activate
    ensures NotFound(t, m) <==> m.typ == 2 && m.code == 132 && i < |t.ops|
  {
    hide Inv, AddressedAt;
    forall j: nat
      ensures Addressee(t, m, j) ==> j == i
      ensures AddressedAt(t, m, j) ==> i < |t.ops|
    {
      AddresseeUnique(t, m, i, j);
    }
  }

  lemma AddresseeUnique(t: State, m: Message, i: nat, j: nat)
    requires Addressee(t, m, i)
    ensures Addressee(t, m, j) ==> j == i
    ensures AddressedAt(t, m, j) ==> i < |t.ops|
  {
    hide Addressed;
  }

  lemma ReceptionDevice(t: State, m: Message, e: RxEnv, i: nat, t': State)
    requires Reception(t, m, e, i, t')
    ensures var key := m.typ == 2 && m.code as int / 32 == 2 && |m.payload| == 40 && i < |t.ops| && t.ops[i].kind == Activate;
            && SameNames(t.dev, t'.dev)
            && t'.dev.cik == (if key then m.payload else t.dev.cik)
            && t'.dev.state == if key || (m.typ == 2 && m.code == 132 && i < |t.ops|) then Good else t.dev.state
  {
    hide Taken, TakenEvents, ResetOf;
  }

  /** In every run, the key is the payload of the last success response of 40
      bytes to an activation, and the device is good exactly if it was so or one
      of these or a 4.04 was received; vendor, model and serial number never
      change. */
  lemma {:induction false} DeviceExact(s: State, steps: seq<Step>)
    requires Initial(s) && IsRun(s, steps)
    ensures var dev := After(s, steps).dev;
            && SameNames(s.dev, dev) && dev.cik == KeyAfter(s, steps)
            && dev.state == if Recognised(s, steps) then Good else s.dev.state
    decreases |steps|
  {
    if steps == [] {
      assert After(s, steps) == s;
    } else {
      var n := |steps| - 1;
      RunLast(s, steps);
      hide Inv, Apply, Enabled, BringsKey, NotFound, Initial;
      DeviceExact(s, steps[..n]);
      RunInv(s, steps[..n]);
      StepDevice(After(s, steps[..n]), s.dev.counter, steps[n]);
    }
  }

  // ------------------------------------------------------- activation check

  /** The check at the start of a call queues an activation on operation 0
      exactly if the device is not yet recognised and that operation is idle or
      past its timeout; and does nothing else. */
  lemma CheckExact(s: State, time: nat)
    requires Enabled(s, CheckStep(time))
    ensures var t := Apply(s, CheckStep(time));
            var due := s.dev.state in {Initialized, BadCik} && (s.ops[0].state == Idle || s.ops[0].timeout < time);
            && t.dev == s.dev && t.clock == time && |t.ops| == |s.ops| && t.ops[1..] == s.ops[1..]
            && (if due then ActivationQueued(s.ops[0], t.ops[0]) else t.ops[0] == s.ops[0])
            && t.log == s.log + if due then [Queued(0, s.ops[0].retries, s.ops[0].obsSeq)] else []
  {
  }

  lemma {:induction false} RunPrefix(s: State, steps: seq<Step>, k: nat)
    requires IsRun(s, steps) && k <= |steps|
    ensures IsRun(s, steps[..k])
    decreases |steps|
  {
    if k == |steps| {
      assert steps[..k] == steps;
    } else {
      var n := |steps| - 1;
      RunLast(s, steps);
      RunPrefix(s, steps[..n], k);
      assert steps[..n][..k] == steps[..k];
      hide *;
    }
  }

  lemma {:induction false} StaysGood(s: State, seed: u16, steps: seq<Step>)
    requires Inv(s, seed) && IsRun(s, steps) && s.dev.state == Good
    ensures After(s, steps).dev.state == Good
    decreases |steps|
  {
    if steps == [] {
      assert After(s, steps) == s;
    } else {
      var n := |steps| - 1;
      hide *;
      RunLast(s, steps);
      StaysGood(s, seed, steps[..n]);
      RunKeepsInv(s, steps[..n], seed);
      StepDevice(After(s, steps[..n]), seed, steps[n]);
    }
  }

  /** From a state of a run in which the device is good, it stays so whatever
      happens, and no check queues an activation any more. */
  lemma GoodStays(s: State, seed: u16, steps: seq<Step>, k: nat)
    requires Inv(s, seed) && IsRun(s, steps) && s.dev.state == Good && k < |steps|
    ensures After(s, steps).dev.state == Good
    ensures IsRun(s, steps[..k]) && IsRun(s, steps[..k + 1])
    ensures steps[k].CheckStep? ==> After(s, steps[..k + 1]) == After(s, steps[..k]).(clock := steps[k].time)
  {
    StaysGood(s, seed, steps);
    RunPrefix(s, steps, k);
    RunPrefix(s, steps, k + 1);
    RunLast(s, steps[..k + 1]);
    assert steps[..k + 1][..k] == steps[..k];
    StaysGood(s, seed, steps[..k]);
    hide IsRun, After, Inv;
  }
}

/** The Modbus adapter, which latches after a failed read, and the runtime task that owns it. */
module ModbusDevice {
  import opened Backoff
  import opened DeviceRuntime

  datatype Link = Disconnected | Linked | Faulted

  /** `hasClient` says a client object is held; `created` and `closed` count client objects over the
      adapter's life. */
  datatype Adapter = Adapter(link: Link, hasClient: bool, created: nat, closed: nat)

  const UNUSED := Adapter(Disconnected, false, 0, 0)

  /** Connecting a linked adapter does nothing; otherwise a client is created, and closed again on
      failure. */
  function Opening(a: Adapter, accepts: bool): Adapter {
    if a.link == Linked then a
    else if accepts then a.(link := Linked, hasClient := true, created := a.created + 1)
    else a.(link := Faulted, created := a.created + 1, closed := a.closed + 1)
  }

  predicate ConnectOk(a: Adapter, accepts: bool) { a.link == Linked || accepts }

  function Disconnecting(a: Adapter): Adapter {
    Adapter(Disconnected, false, a.created, a.closed + if a.hasClient then 1 else 0)
  }

  predicate ReadOk(a: Adapter, good: bool) { a.hasClient && a.link == Linked && good }

  function Reading(a: Adapter, good: bool): Adapter {
    if a.hasClient && a.link == Linked && !good then a.(link := Faulted) else a
  }

  /** Clients created, not closed and no longer held. */
  function Leaked(a: Adapter): int {
    a.created - a.closed - if a.hasClient then 1 else 0
  }

  /** Left to itself the adapter leaks a client exactly when it reconnects successfully while still
      holding one from before a failed read. */
  lemma ReconnectLeaksIff(a: Adapter, accepts: bool)
    ensures Leaked(Opening(a, accepts)) == Leaked(a) <==> !(a.link != Linked && a.hasClient && accepts)
  {}

  lemma ReconnectLeaks()
    ensures Leaked(Opening(Reading(Opening(UNUSED, true), false), true)) == 1
  {}

  // ---------------------------------------------------------------- the composed machine

  datatype Register = Register(signal: string, scale: real) {
    function Scaled(raw: int): real { raw as real * scale }
  }
  datatype Response = Value(raw: int) | Refused
  datatype Sink = Persisted | Duplicate | SinkRejects | SinkRaises

  /** One round of environment answers: the TCP connect, the register responses, whether the sample
      passes the telemetry model, and the ingestion sink. */
  datatype Round = Round(accepts: bool, responses: seq<Response>, wellFormed: bool, sink: Sink)

  predicate Good(registers: seq<Register>, round: Round) {
    && |registers| <= |round.responses|
    && (forall i :: 0 <= i < |registers| ==> round.responses[i].Value?)
    && round.wellFormed
  }

  /** The adapter delivers a sample: it is connected, every register answers with a value, and the
      sample passes the telemetry model. */
  ghost predicate Delivers(a: Adapter, registers: seq<Register>, round: Round) {
    && a.hasClient && a.link == Linked && round.wellFormed
    && |registers| <= |round.responses| && forall i :: 0 <= i < |registers| ==> round.responses[i].Value?
  }

  datatype Device = Device(rt: Runtime, ad: Adapter)

  /** What the runtime sees of one round, through the adapter. */
  function AnswerOf(d: Device, registers: seq<Register>, round: Round): Answer {
    Answer(ConnectOk(d.ad, round.accepts),
           if !ReadOk(d.ad, Good(registers, round)) then ReadFailed
           else match round.sink
             case SinkRaises => SinkRaised
             case SinkRejects => Rejected
             case _ => Ingested)
  }

  /** One awaited answer. Leaving the poll loop, and ending, both tear the adapter down. */
  function DeviceStep(p: RetryPolicy, d: Device, registers: seq<Register>, round: Round): Device {
    var rt := Step(p, d.rt, AnswerOf(d, registers, round));
    match d.rt.phase
    case Ended => d
    case Sleeping => Device(rt, d.ad)
    case AtConnect =>
      var ad := Opening(d.ad, round.accepts);
      Device(rt, if rt.phase == Ended then Disconnecting(ad) else ad)
    case AtPoll =>
      var ad := Reading(d.ad, Good(registers, round));
      Device(rt, if rt.phase == AtPoll then ad else Disconnecting(ad))
  }

  function DeviceRun(p: RetryPolicy, d: Device, registers: seq<Register>, rounds: seq<Round>): Device {
    if rounds == [] then d
    else var n := |rounds| - 1; DeviceStep(p, DeviceRun(p, d, registers, rounds[..n]), registers, rounds[n])
  }

  function AnswersOf(p: RetryPolicy, d: Device, registers: seq<Register>, rounds: seq<Round>): seq<Answer> {
    if rounds == [] then []
    else
      var n := |rounds| - 1;
      var before := DeviceRun(p, d, registers, rounds[..n]);
      AnswersOf(p, d, registers, rounds[..n]) + [AnswerOf(before, registers, rounds[n])]
  }

  /** The composed device is a run of the runtime under the answers its adapter lets through, so
      every theorem about runtimes applies to it. */
  lemma {:induction false} RefinesRuntime(p: RetryPolicy, d: Device, registers: seq<Register>, rounds: seq<Round>)
    ensures DeviceRun(p, d, registers, rounds).rt == Run(p, d.rt, AnswersOf(p, d, registers, rounds))
  {
    if rounds == [] {
    } else {
      var n := |rounds| - 1;
      RefinesRuntime(p, d, registers, rounds[..n]);
      var before := DeviceRun(p, d, registers, rounds[..n]);
      Snoc(AnswersOf(p, d, registers, rounds[..n]), AnswerOf(before, registers, rounds[n]));
    }
  }

  // ---------------------------------------------------------------- conservation

  /** A client is held exactly while polling, and none is lost. */
  ghost predicate Conserved(d: Device) {
    && (d.ad.hasClient <==> d.rt.phase == AtPoll)
    && (d.rt.phase in {AtConnect, Sleeping} ==> d.ad.link != Linked)
    && d.ad.created - d.ad.closed == if d.rt.phase == AtPoll then 1 else 0
  }

  /** Client conservation over every environment: created minus closed is 1 while polling and 0
      otherwise, in particular once the task has ended. */
  lemma {:induction false} ClientsConserved(p: RetryPolicy, r: Runtime, registers: seq<Register>, rounds: seq<Round>)
    ensures Conserved(DeviceRun(p, Device(Begin(r), UNUSED), registers, rounds))
  {
    if rounds == [] {
    } else {
      ClientsConserved(p, r, registers, rounds[..|rounds| - 1]);
    }
  }

  // ---------------------------------------------------------------- latching

  /** Latching. Once a read fails inside a poll loop with `c` failures before it, every later poll
      of that loop fails whatever the environment does: nothing is ingested, the counter climbs by
      one per poll, and the loop is left after exactly `max(1, reconnectThreshold - c)` polls. */
  lemma {:induction false} Latches(p: RetryPolicy, d: Device, registers: seq<Register>, rounds: seq<Round>)
    requires d.rt.phase == AtPoll && rounds != [] && !ReadOk(d.ad, Good(registers, rounds[0]))
    requires |rounds| <= Max0(p.reconnectThreshold - d.rt.fails - 1) + 1
    ensures var now := DeviceRun(p, d, registers, rounds);
      && now.rt.ingested == d.rt.ingested
      && now.rt.readErrors == d.rt.readErrors + |rounds|
      && (now.rt.phase != AtPoll <==> |rounds| == Max0(p.reconnectThreshold - d.rt.fails - 1) + 1)
      && (now.rt.phase == AtPoll ==> now.rt.fails == d.rt.fails + |rounds| && !ReadOk(now.ad, true))
  {
    var n := |rounds| - 1;
    if n == 0 {
      assert rounds[..0] == [];
    } else {
      assert rounds[..n][0] == rounds[0];
      Latches(p, d, registers, rounds[..n]);
    }
  }

  // ---------------------------------------------------------------- what becomes of the samples

  /** The rounds polled with a sample delivered and one of these sink verdicts. */
  ghost function Taken(p: RetryPolicy, d: Device, registers: seq<Register>, rounds: seq<Round>, sinks: set<Sink>): nat {
    if rounds == [] then 0
    else
      var n := |rounds| - 1;
      var before := DeviceRun(p, d, registers, rounds[..n]);
      var hit := before.rt.phase == AtPoll && Delivers(before.ad, registers, rounds[n]) && rounds[n].sink in sinks;
      Taken(p, d, registers, rounds[..n], sinks) + if hit then 1 else 0
  }

  /** The rounds polled without a sample. */
  ghost function Missed(p: RetryPolicy, d: Device, registers: seq<Register>, rounds: seq<Round>): nat {
    if rounds == [] then 0
    else
      var n := |rounds| - 1;
      var before := DeviceRun(p, d, registers, rounds[..n]);
      var miss := before.rt.phase == AtPoll && !Delivers(before.ad, registers, rounds[n]);
      Missed(p, d, registers, rounds[..n]) + if miss then 1 else 0
  }

  lemma DeliversIsRead(a: Adapter, registers: seq<Register>, round: Round)
    ensures Delivers(a, registers, round) <==> ReadOk(a, Good(registers, round))
  {}

  /** The sample was delivered and the sink kept it. */
  ghost predicate Kept(a: Adapter, registers: seq<Register>, round: Round) {
    Delivers(a, registers, round) && (round.sink == Persisted || round.sink == Duplicate)
  }

  /** What one poll makes of the counters and the state. */
  ghost predicate PollCounted(p: RetryPolicy, r: Runtime, a: Adapter, registers: seq<Register>, round: Round,
                              t: Runtime)
  {
    var good, kept := Delivers(a, registers, round), Kept(a, registers, round);
    && t.ingested == r.ingested + (if kept then 1 else 0)
    && t.rejected == r.rejected + (if good && round.sink == SinkRejects then 1 else 0)
    && t.sinkRaised == r.sinkRaised + (if good && round.sink == SinkRaises then 1 else 0)
    && t.readErrors == r.readErrors + (if good then 0 else 1)
    && t.fails == (if kept then 0 else r.fails + 1)
    && t.state == (if kept then Connected
                   else if r.fails + 1 >= p.reconnectThreshold then Reconnecting
                   else if r.fails + 1 >= p.failureThreshold then Degraded
                   else r.state)
    && t.attempts == r.attempts && t.waits == r.waits
  }

  lemma PollCounts(p: RetryPolicy, d: Device, registers: seq<Register>, round: Round)
    ensures var poll := AnswerOf(d, registers, round).poll;
      && PollCounted(p, d.rt, d.ad, registers, round, Polled(p, d.rt, poll))
      && (LoopReturns(p, d.rt, poll) <==> !Kept(d.ad, registers, round) && d.rt.fails + 1 >= p.reconnectThreshold)
  {
    DeliversIsRead(d.ad, registers, round);
    match round.sink
    case Persisted =>
    case Duplicate =>
    case SinkRejects =>
    case SinkRaises =>
  }

  /** One step counts at most one sample, where its round says. */
  lemma StepCounts(p: RetryPolicy, d: Device, registers: seq<Register>, round: Round)
    ensures var t, polled := DeviceStep(p, d, registers, round).rt, d.rt.phase == AtPoll;
      var good := Delivers(d.ad, registers, round);
      && t.ingested == d.rt.ingested + (if polled && Kept(d.ad, registers, round) then 1 else 0)
      && t.rejected == d.rt.rejected + (if polled && good && round.sink == SinkRejects then 1 else 0)
      && t.sinkRaised == d.rt.sinkRaised + (if polled && good && round.sink == SinkRaises then 1 else 0)
      && t.readErrors == d.rt.readErrors + (if polled && !good then 1 else 0)
  {
    PollCounts(p, d, registers, round);
  }

  /** Over every run: a sample is ingested exactly in the polled rounds that deliver one the sink
      persists or recognises, rejected exactly where the sink rejects it, and so on. */
  lemma {:induction false} SamplesCounted(p: RetryPolicy, d: Device, registers: seq<Register>, rounds: seq<Round>)
    ensures var t := DeviceRun(p, d, registers, rounds).rt;
      && t.ingested == d.rt.ingested + Taken(p, d, registers, rounds, {Persisted, Duplicate})
      && t.rejected == d.rt.rejected + Taken(p, d, registers, rounds, {SinkRejects})
      && t.sinkRaised == d.rt.sinkRaised + Taken(p, d, registers, rounds, {SinkRaises})
      && t.readErrors == d.rt.readErrors + Missed(p, d, registers, rounds)
  {
    if rounds == [] {
    } else {
      var n := |rounds| - 1;
      SamplesCounted(p, d, registers, rounds[..n]);
      StepCounts(p, DeviceRun(p, d, registers, rounds[..n]), registers, rounds[n]);
    }
  }

  /** A sink that refuses every delivered sample drives the device out of its poll loop: the failures
      add up one by one, the device is DEGRADED from the failure threshold on, and the loop is left
      after exactly `max(1, reconnectThreshold - c)` polls. */
  lemma {:induction false} RefusedSamplesLeave(p: RetryPolicy, d: Device, registers: seq<Register>, rounds: seq<Round>)
    requires d.rt.phase == AtPoll && |rounds| <= Max0(p.reconnectThreshold - d.rt.fails - 1) + 1
    requires forall i :: 0 <= i < |rounds| ==>
      Delivers(d.ad, registers, rounds[i]) && rounds[i].sink in {SinkRejects, SinkRaises}
    ensures var now := DeviceRun(p, d, registers, rounds);
      && now.rt.ingested == d.rt.ingested
      && now.rt.rejected + now.rt.sinkRaised == d.rt.rejected + d.rt.sinkRaised + |rounds|
      && (now.rt.phase != AtPoll <==> |rounds| == Max0(p.reconnectThreshold - d.rt.fails - 1) + 1)
      && (now.rt.phase == AtPoll ==>
            && now.ad == d.ad && now.rt.fails == d.rt.fails + |rounds|
            && (rounds != [] && now.rt.fails >= p.failureThreshold ==> now.rt.state == Degraded))
  {
    if rounds == [] {
    } else {
      var n := |rounds| - 1;
      RefusedSamplesLeave(p, d, registers, rounds[..n]);
      StepCounts(p, DeviceRun(p, d, registers, rounds[..n]), registers, rounds[n]);
      assert rounds[n].sink in {SinkRejects, SinkRaises};
    }
  }

  // ---------------------------------------------------------------- the objects

  class ModbusTcpAdapter {
    const registers: seq<Register>
    var link: Link
    var hasClient: bool
    var created: nat
    var closed: nat

    constructor (registers: seq<Register>)
      ensures this.registers == registers && View() == UNUSED
    {
      this.registers := registers;
      link, hasClient, created, closed := Disconnected, false, 0, 0;
    }

    ghost function View(): Adapter
      reads this
    {
      Adapter(link, hasClient, created, closed)
    }

    method Connect(accepts: bool) returns (ok: bool)
      modifies this
      ensures View() == Opening(old(View()), accepts) && ok == ConnectOk(old(View()), accepts)
      ensures ok <==> old(link) == Linked || accepts
      ensures old(link) == Linked ==> View() == old(View())
      ensures old(link) != Linked ==>
        && created == old(created) + 1 && closed == old(closed) + (if accepts then 0 else 1)
        && link == (if accepts then Linked else Faulted) && hasClient == (accepts || old(hasClient))
    {
      if link == Linked { return true; }
      created := created + 1;
      if !accepts {
        closed := closed + 1;
        link := Faulted;
        return false;
      }
      hasClient := true;
      link := Linked;
      ok := true;
    }

    method Disconnect()
      modifies this
      ensures View() == Disconnecting(old(View()))
      ensures link == Disconnected && !hasClient && created == old(created)
      ensures closed == old(closed) + if old(hasClient) then 1 else 0
    {
      var client := hasClient;
      hasClient := false;
      if client { closed := closed + 1; }
      link := Disconnected;
    }

    /** Read the registers one by one; any bad response latches the adapter and yields nothing. A
        full read yields every signal, scaled. */
    method Read(round: Round) returns (ok: bool, signals: map<string, real>)
      modifies this
      ensures View() == Reading(old(View()), Good(registers, round))
      ensures ok <==> (
        && old(hasClient) && old(link) == Linked && round.wellFormed
        && |registers| <= |round.responses| && forall i :: 0 <= i < |registers| ==> round.responses[i].Value?)
      ensures View() ==
        if old(hasClient) && old(link) == Linked && !ok then old(View()).(link := Faulted) else old(View())
      ensures ok ==> signals == Scaled(registers, round.responses, |registers|)
    {
      signals := map[];
      if !hasClient || link != Linked { return false, map[]; }
      for i := 0 to |registers|
        invariant View() == old(View())
        invariant i <= |round.responses| && forall j :: 0 <= j < i ==> round.responses[j].Value?
        invariant signals == Scaled(registers, round.responses, i)
      {
        if i >= |round.responses| || !round.responses[i].Value? {
          link := Faulted;
          return false, map[];
        }
        var value := registers[i].Scaled(round.responses[i].raw);
        assert Scaled(registers, round.responses, i + 1)
          == Scaled(registers, round.responses, i)[registers[i].signal := value];
        signals := signals[registers[i].signal := value];
      }
      if !round.wellFormed {
        link := Faulted;
        return false, map[];
      }
      ok := true;
    }
  }

  /** The signals of the first `n` registers, as they are filled in one by one. */
  function Scaled(registers: seq<Register>, responses: seq<Response>, n: nat): map<string, real>
    requires n <= |registers| && n <= |responses| && forall i :: 0 <= i < n ==> responses[i].Value?
  {
    if n == 0 then map[]
    else
      var value := registers[n - 1].Scaled(responses[n - 1].raw);
      Scaled(registers, responses, n - 1)[registers[n - 1].signal := value]
  }

  /** A read holds exactly the signals some register names ... */
  lemma {:induction false} ScaledSignals(registers: seq<Register>, responses: seq<Response>, n: nat, signal: string)
    requires n <= |registers| && n <= |responses| && forall i :: 0 <= i < n ==> responses[i].Value?
    ensures signal in Scaled(registers, responses, n) <==> exists i :: 0 <= i < n && registers[i].signal == signal
  {
    if n == 0 {
    } else {
      ScaledSignals(registers, responses, n - 1, signal);
    }
  }

  /** ... each with the scaled value of the last register that names it. */
  lemma {:induction false} ScaledValue(registers: seq<Register>, responses: seq<Response>, n: nat, i: nat)
    requires i < n <= |registers| && n <= |responses| && forall j :: 0 <= j < n ==> responses[j].Value?
    requires forall j :: i < j < n ==> registers[j].signal != registers[i].signal
    ensures var signals := Scaled(registers, responses, n);
      && registers[i].signal in signals
      && signals[registers[i].signal] == responses[i].raw as real * registers[i].scale
  {
    if n == i + 1 {
    } else {
      ScaledValue(registers, responses, n - 1, i);
    }
  }

  class RuntimeTask {
    const policy: RetryPolicy
    var state: DeviceState
    var fails: nat
    var attempts: nat
    var ingested: nat
    var rejected: nat
    var readErrors: nat
    var sinkRaised: nat
    var waits: seq<real>

    constructor (policy: RetryPolicy)
      ensures this.policy == policy && View(Ended) == COLD && state == Stopped && fails == attempts == 0
      ensures ingested == rejected == readErrors == sinkRaised == 0 && waits == []
    {
      this.policy := policy;
      state, fails, attempts := Stopped, 0, 0;
      ingested, rejected, readErrors, sinkRaised, waits := 0, 0, 0, 0, [];
    }

    ghost function View(phase: Phase): Runtime
      reads this
    {
      Runtime(phase, state, fails, attempts, ingested, rejected, readErrors, sinkRaised, waits)
    }

    /** Count a failure; true when reconnection is required. */
    method RecordFailure() returns (reconnect: bool)
      modifies this
      ensures View(AtPoll) == CountFailure(policy, old(View(AtPoll)))
      ensures reconnect <==> fails >= policy.reconnectThreshold
      ensures fails == old(fails) + 1
      ensures state == if fails >= policy.reconnectThreshold then Reconnecting
                       else if fails >= policy.failureThreshold then Degraded else old(state)
      ensures old(View(AtPoll)) == View(AtPoll).(fails := old(fails), state := old(state))
    {
      fails := fails + 1;
      if fails >= policy.reconnectThreshold {
        state := Reconnecting;
        return true;
      }
      if fails >= policy.failureThreshold { state := Degraded; }
      reconnect := false;
    }

    /** Begin to sleep one backoff interval; false when the device must fail. */
    method WaitOrFail() returns (again: bool)
      modifies this
      ensures again <==> old(attempts) < policy.maxReconnectAttempts
      ensures View(if again then Sleeping else Ended) == Retreat(policy, old(View(AtConnect)))
      ensures state == if again then Reconnecting else Error
      ensures attempts == (if again then old(attempts) + 1 else old(attempts)) && fails == old(fails)
      ensures waits == if again then old(waits) + [DelayFor(policy, old(attempts))] else old(waits)
    {
      if attempts >= policy.maxReconnectAttempts {
        state := Error;
        return false;
      }
      state := Reconnecting;
      waits := waits + [DelayFor(policy, attempts)];
      attempts := attempts + 1;
      again := true;
    }

    /** One poll of the adapter and the sink; true when the loop must return. */
    method PollOnce(adapter: ModbusTcpAdapter, round: Round) returns (reconnect: bool, ghost poll: Poll)
      modifies this, adapter
      ensures poll == AnswerOf(Device(old(View(AtPoll)), old(adapter.View())), adapter.registers, round).poll
      ensures View(AtPoll) == Polled(policy, old(View(AtPoll)), poll)
      ensures adapter.View() == Reading(old(adapter.View()), Good(adapter.registers, round))
      ensures reconnect <==> LoopReturns(policy, old(View(AtPoll)), poll)
      ensures PollCounted(policy, old(View(AtPoll)), old(adapter.View()), adapter.registers, round, View(AtPoll))
      ensures reconnect <==>
        !Kept(old(adapter.View()), adapter.registers, round) && old(fails) + 1 >= policy.reconnectThreshold
    {
      PollCounts(policy, Device(View(AtPoll), adapter.View()), adapter.registers, round);
      var ok, signals := adapter.Read(round);
      if !ok {
        poll := ReadFailed;
        readErrors := readErrors + 1;
        reconnect := RecordFailure();
      } else if round.sink.SinkRaises? {
        poll := SinkRaised;
        sinkRaised := sinkRaised + 1;
        reconnect := RecordFailure();
      } else if round.sink.SinkRejects? {
        poll := Rejected;
        rejected := rejected + 1;
        reconnect := RecordFailure();
      } else {
        poll := Ingested;
        ingested := ingested + 1;
        fails := 0;
        state := Connected;
        reconnect := false;
      }
    }

    /** Poll until the reconnect threshold is reached or the environment has no more to say. */
    method PollLoop(adapter: ModbusTcpAdapter, rounds: seq<Round>, start: nat) returns (next: nat, returned: bool)
      requires start <= |rounds|
      modifies this, adapter
      ensures start <= next <= |rounds|
      ensures if returned then start < next && attempts == old(attempts) else next == |rounds|
      ensures DeviceRun(policy, old(Device(View(AtPoll), adapter.View())), adapter.registers, rounds[start..next]) ==
        LoopLeft(policy, returned, Device(View(AtPoll), adapter.View()))
    {
      next := start;
      ghost var first := Device(View(AtPoll), adapter.View());
      while next < |rounds|
        invariant start <= next <= |rounds| && attempts == old(attempts)
        invariant DeviceRun(policy, first, adapter.registers, rounds[start..next]) ==
          Device(View(AtPoll), adapter.View())
      {
        ghost var before := Device(View(AtPoll), adapter.View());
        var reconnect, poll := PollOnce(adapter, rounds[next]);
        PollIsStep(policy, before, adapter.registers, rounds[next]);
        SliceRun(policy, first, adapter.registers, rounds, start, next);
        next := next + 1;
        if reconnect { return next, true; }
      }
      returned := false;
    }

    /** Telemetry was lost: tear the adapter down, then sleep before another attempt or give up. */
    method LeaveLoop(adapter: ModbusTcpAdapter) returns (phase: Phase)
      modifies this, adapter
      ensures phase != AtPoll
      ensures LoopLeft(policy, true, old(Device(View(AtPoll), adapter.View()))) == Device(View(phase), adapter.View())
    {
      adapter.Disconnect();
      var again := WaitOrFail();
      if again { return Sleeping; }
      adapter.Disconnect();
      phase := Ended;
    }

    /** One turn of the task's loop: connect and, if that works, poll until the loop returns. */
    method Turn(adapter: ModbusTcpAdapter, rounds: seq<Round>, start: nat) returns (next: nat, phase: Phase)
      requires start < |rounds|
      modifies this, adapter
      ensures start < next <= |rounds| && phase != AtConnect && (phase == AtPoll ==> next == |rounds|)
      ensures var first := Device(old(View(AtConnect)).(state := Connecting), old(adapter.View()));
        DeviceRun(policy, first, adapter.registers, rounds[start..next]) == Device(View(phase), adapter.View())
    {
      state := Connecting;
      ghost var first := Device(View(AtConnect), adapter.View());
      assert DeviceRun(policy, first, adapter.registers, rounds[start..start + 1])
        == DeviceStep(policy, first, adapter.registers, rounds[start]) by {
        SliceRun(policy, first, adapter.registers, rounds, start, start);
      }
      ConnectIsStep(policy, first, adapter.registers, rounds[start]);
      var ok := adapter.Connect(rounds[start].accepts);
      next := start + 1;
      if !ok {
        var again := WaitOrFail();
        if again { return next, Sleeping; }
        adapter.Disconnect();
        return next, Ended;
      }
      fails, attempts, state := 0, 0, Connected;
      assert Device(View(AtPoll), adapter.View()) == DeviceRun(policy, first, adapter.registers, rounds[start..next]);
      var returned;
      next, returned := PollLoop(adapter, rounds, next);
      RunSplit(policy, first, adapter.registers, rounds, start, start + 1, next);
      if !returned { return next, AtPoll; }
      phase := LeaveLoop(adapter);
    }

    /** The task body. It runs exactly the composed machine, until it ends or waits for the
        environment: so its state is read off what happened, and it holds a client exactly while
        polling. A device that is not registered, or whose adapter cannot be built, fails at once. */
    method RunTask(adapter: ModbusTcpAdapter, prepared: bool, rounds: seq<Round>) returns (phase: Phase)
      modifies this, adapter
      ensures !prepared ==> View(phase) == Launch(false, old(View(Ended))) && adapter.View() == old(adapter.View())
      ensures prepared ==>
        var first := Device(Begin(old(View(Ended))), old(adapter.View()));
        Device(View(phase), adapter.View()) == DeviceRun(policy, first, adapter.registers, rounds)
      ensures prepared ==>
        var first := Device(Begin(old(View(Ended))), old(adapter.View()));
        var answers := AnswersOf(policy, first, adapter.registers, rounds);
        Reads(policy, old(attempts), History(policy, first.rt, answers), View(phase))
      ensures prepared && old(adapter.View()) == UNUSED ==> Conserved(Device(View(phase), adapter.View()))
    {
      if !prepared {
        state := Error;
        return Ended;
      }
      ghost var first := Device(Begin(View(Ended)), adapter.View());
      phase := Loop(adapter, rounds);
      RefinesRuntime(policy, first, adapter.registers, rounds);
      StateIsHistory(policy, old(View(Ended)), AnswersOf(policy, first, adapter.registers, rounds));
      ClientsConserved(policy, old(View(Ended)), adapter.registers, rounds);
    }

    method Loop(adapter: ModbusTcpAdapter, rounds: seq<Round>) returns (phase: Phase)
      modifies this, adapter
      ensures Device(View(phase), adapter.View())
        == DeviceRun(policy, Device(Begin(old(View(Ended))), old(adapter.View())), adapter.registers, rounds)
    {
      ghost var first := Device(Begin(View(Ended)), adapter.View());
      var i := 0;
      state, phase := Connecting, AtConnect;
      while i < |rounds|
        invariant i <= |rounds| && phase in {AtConnect, Sleeping} && (phase == AtConnect ==> state == Connecting)
        invariant Device(View(phase), adapter.View()) == DeviceRun(policy, first, adapter.registers, rounds[0..i])
      {
        ghost var from := i;
        if phase == Sleeping {
          assert DeviceRun(policy, first, adapter.registers, rounds[0..i + 1])
            == Device(Wake(View(phase)), adapter.View()) by {
            SliceRun(policy, first, adapter.registers, rounds, 0, i);
          }
          fails, state, phase := 0, Connecting, AtConnect;
          i := i + 1;
        } else {
          i, phase := Turn(adapter, rounds, i);
          RunSplit(policy, first, adapter.registers, rounds, 0, from, i);
          if phase == Ended || phase == AtPoll { break; }
        }
      }
      RunOver(policy, first, adapter.registers, rounds, i);
    }
  }

  /** A device whose poll loop was just left, or is still going. */
  function LoopLeft(p: RetryPolicy, returned: bool, d: Device): Device {
    if returned then Device(Retreat(p, d.rt), Disconnecting(d.ad)) else d
  }

  /** One poll, told as the poll and then the exit from the loop. */
  lemma PollIsStep(p: RetryPolicy, d: Device, registers: seq<Register>, round: Round)
    requires d.rt.phase == AtPoll
    ensures var poll := AnswerOf(d, registers, round).poll;
      DeviceStep(p, d, registers, round) ==
        LoopLeft(p, LoopReturns(p, d.rt, poll), Device(Polled(p, d.rt, poll), Reading(d.ad, Good(registers, round))))
  {}

  /** One connection attempt, told by its outcome. */
  lemma ConnectIsStep(p: RetryPolicy, d: Device, registers: seq<Register>, round: Round)
    requires d.rt.phase == AtConnect
    ensures DeviceStep(p, d, registers, round) ==
      var ad := Opening(d.ad, round.accepts);
      if ConnectOk(d.ad, round.accepts) then
        Device(d.rt.(phase := AtPoll, state := Connected, fails := 0, attempts := 0), ad)
      else if d.rt.attempts < p.maxReconnectAttempts then Device(Retreat(p, d.rt), ad)
      else Device(Retreat(p, d.rt), Disconnecting(ad))
  {}

  lemma RunSnoc(p: RetryPolicy, d: Device, registers: seq<Register>, rounds: seq<Round>, round: Round)
    ensures DeviceRun(p, d, registers, rounds + [round]) ==
      DeviceStep(p, DeviceRun(p, d, registers, rounds), registers, round)
  {
    Snoc(rounds, round);
  }

  lemma SliceRun(p: RetryPolicy, d: Device, registers: seq<Register>, rounds: seq<Round>, start: nat, next: nat)
    requires start <= next < |rounds|
    ensures DeviceRun(p, d, registers, rounds[start..next + 1]) ==
      DeviceStep(p, DeviceRun(p, d, registers, rounds[start..next]), registers, rounds[next])
  {
    assert rounds[start..next + 1] == rounds[start..next] + [rounds[next]];
    RunSnoc(p, d, registers, rounds[start..next], rounds[next]);
  }

  lemma SplitLast<T>(a: seq<T>, b: seq<T>)
    requires b != []
    ensures a + b == (a + b[..|b| - 1]) + [b[|b| - 1]]
  {}

  lemma {:induction false} RunConcat(p: RetryPolicy, d: Device, registers: seq<Register>, a: seq<Round>, b: seq<Round>)
    ensures DeviceRun(p, d, registers, a + b) == DeviceRun(p, DeviceRun(p, d, registers, a), registers, b)
  {
    if b == [] {
      assert a + b == a;
    } else {
      var n := |b| - 1;
      var init := a + b[..n];
      SplitLast(a, b);
      RunConcat(p, d, registers, a, b[..n]);
      RunSnoc(p, d, registers, init, b[n]);
    }
  }

  lemma RunSplit(p: RetryPolicy, d: Device, registers: seq<Register>, rounds: seq<Round>, from: nat, i: nat, to: nat)
    requires from <= i <= to <= |rounds|
    ensures DeviceRun(p, d, registers, rounds[from..to]) ==
      DeviceRun(p, DeviceRun(p, d, registers, rounds[from..i]), registers, rounds[i..to])
  {
    assert rounds[from..to] == rounds[from..i] + rounds[i..to];
    RunConcat(p, d, registers, rounds[from..i], rounds[i..to]);
  }

  lemma {:induction false} EndedRun(p: RetryPolicy, d: Device, registers: seq<Register>, rounds: seq<Round>)
    requires d.rt.phase == Ended
    ensures DeviceRun(p, d, registers, rounds) == d
  {
    if rounds == [] {
    } else {
      EndedRun(p, d, registers, rounds[..|rounds| - 1]);
    }
  }

  /** Nothing happens to a task that has ended, or that has seen everything. */
  lemma RunOver(p: RetryPolicy, d: Device, registers: seq<Register>, rounds: seq<Round>, i: nat)
    requires i <= |rounds|
    requires i == |rounds| || DeviceRun(p, d, registers, rounds[0..i]).rt.phase == Ended
    ensures DeviceRun(p, d, registers, rounds) == DeviceRun(p, d, registers, rounds[0..i])
  {
    if i == |rounds| {
      assert rounds[0..i] == rounds;
    } else {
      assert rounds == rounds[0..i] + rounds[i..];
      RunConcat(p, d, registers, rounds[0..i], rounds[i..]);
      EndedRun(p, DeviceRun(p, d, registers, rounds[0..i]), registers, rounds[i..]);
    }
  }
}

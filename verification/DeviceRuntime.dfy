/** One device's lifecycle: the connect, poll and retreat machine, driven by an arbitrary
    environment. Nothing here depends on the protocol behind the adapter. */
module DeviceRuntime {
  import opened Backoff

  datatype DeviceState = Starting | Connecting | Connected | Degraded | Reconnecting | Error | Stopped

  /** How one poll ends: the read raised, the sink raised, the sample was rejected, or it was
      taken (persisted or recognised as a duplicate). */
  datatype Poll = ReadFailed | SinkRaised | Rejected | Ingested

  /** What the environment would answer next, whichever question is asked. */
  datatype Answer = Answer(connectOk: bool, poll: Poll)

  /** Where the task is suspended: awaiting a connection, awaiting a poll, sleeping out a backoff
      interval, or finished. */
  datatype Phase = AtConnect | AtPoll | Sleeping | Ended

  datatype Runtime = Runtime(
    phase: Phase,
    state: DeviceState,
    fails: nat,
    attempts: nat,
    ingested: nat,
    rejected: nat,
    readErrors: nat,
    sinkRaised: nat,
    waits: seq<real>)

  const COLD := Runtime(Ended, Stopped, 0, 0, 0, 0, 0, 0, [])

  /** Starting a task keeps every counter, the reconnect counter included. */
  function Begin(r: Runtime): Runtime {
    r.(phase := AtConnect, state := Connecting)
  }

  /** What starting makes of a runtime: a device that is not registered, or whose adapter cannot be
      built, fails before its first connection. */
  function Launch(prepared: bool, r: Runtime): Runtime {
    if prepared then Begin(r) else r.(phase := Ended, state := Error)
  }

  /** Begin to sleep one bounded interval, or give up for good. */
  function Retreat(p: RetryPolicy, r: Runtime): Runtime {
    if r.attempts >= p.maxReconnectAttempts then r.(phase := Ended, state := Error)
    else r.(phase := Sleeping, state := Reconnecting,
            waits := r.waits + [DelayFor(p, r.attempts)], attempts := r.attempts + 1)
  }

  /** The interval is over: forget the failures and connect again. */
  function Wake(r: Runtime): Runtime {
    r.(phase := AtConnect, state := Connecting, fails := 0)
  }

  /** Count one failed poll. */
  function CountFailure(p: RetryPolicy, r: Runtime): Runtime {
    var n := r.fails + 1;
    r.(fails := n,
       state := if n >= p.reconnectThreshold then Reconnecting
                else if n >= p.failureThreshold then Degraded
                else r.state)
  }

  function Polled(p: RetryPolicy, r: Runtime, poll: Poll): Runtime {
    match poll
    case ReadFailed => CountFailure(p, r.(readErrors := r.readErrors + 1))
    case SinkRaised => CountFailure(p, r.(sinkRaised := r.sinkRaised + 1))
    case Rejected => CountFailure(p, r.(rejected := r.rejected + 1))
    case Ingested => r.(ingested := r.ingested + 1, fails := 0, state := Connected)
  }

  /** The poll loop returns exactly when a failure reaches the reconnect threshold. */
  predicate LoopReturns(p: RetryPolicy, r: Runtime, poll: Poll) {
    poll != Ingested && r.fails + 1 >= p.reconnectThreshold
  }

  function Step(p: RetryPolicy, r: Runtime, a: Answer): Runtime {
    match r.phase
    case Ended => r
    case Sleeping => Wake(r)
    case AtConnect =>
      if a.connectOk then r.(phase := AtPoll, state := Connected, fails := 0, attempts := 0) else Retreat(p, r)
    case AtPoll =>
      var next := Polled(p, r, a.poll);
      if LoopReturns(p, r, a.poll) then Retreat(p, next) else next
  }

  function Run(p: RetryPolicy, r: Runtime, answers: seq<Answer>): Runtime {
    if answers == [] then r
    else var n := |answers| - 1; Step(p, Run(p, r, answers[..n]), answers[n])
  }

  // ---------------------------------------------------------------- history

  datatype Event = Connect(ok: bool) | Sample(poll: Poll) | Woke

  /** What one answer looks like to an observer of a task that has not ended. */
  function EventOf(r: Runtime, a: Answer): Event {
    match r.phase
    case AtConnect => Connect(a.connectOk)
    case AtPoll => Sample(a.poll)
    case _ => Woke
  }

  /** What an observer sees happen. */
  function History(p: RetryPolicy, r: Runtime, answers: seq<Answer>): seq<Event> {
    if answers == [] then []
    else
      var n := |answers| - 1;
      var before, now := History(p, r, answers[..n]), Run(p, r, answers[..n]);
      if now.phase == Ended then before else before + [EventOf(now, answers[n])]
  }

  predicate FailedSample(e: Event) { e.Sample? && e.poll != Ingested }

  /** A refused connection, or the end of a backoff interval. */
  predicate Retrying(e: Event) { e == Connect(false) || e == Woke }

  /** The trailing run of failed polls since the last success, connect or backoff. */
  function FailRun(h: seq<Event>): nat {
    if h != [] && FailedSample(h[|h| - 1]) then 1 + FailRun(h[..|h| - 1]) else 0
  }

  /** The refused connections since the last accepted connection or poll. */
  function RefusalRun(h: seq<Event>): nat {
    if h == [] || !Retrying(h[|h| - 1]) then 0
    else RefusalRun(h[..|h| - 1]) + if h[|h| - 1] == Connect(false) then 1 else 0
  }

  predicate OnlyRetries(h: seq<Event>) {
    h == [] || (Retrying(h[|h| - 1]) && OnlyRetries(h[..|h| - 1]))
  }

  /** The reconnect counter those refusals started from: the start value of a task that never
      connected, or 1 after a telemetry loss. */
  function RefusalBase(h: seq<Event>, start: nat): nat {
    if OnlyRetries(h) then start else 1
  }

  function Count(h: seq<Event>, poll: Poll): nat {
    if h == [] then 0
    else (if h[|h| - 1] == Sample(poll) then 1 else 0) + Count(h[..|h| - 1], poll)
  }

  function Polls(h: seq<Event>): nat {
    if h == [] then 0 else (if h[|h| - 1].Sample? then 1 else 0) + Polls(h[..|h| - 1])
  }

  function Refusals(h: seq<Event>): nat {
    if h == [] then 0 else (if h[|h| - 1] == Connect(false) then 1 else 0) + Refusals(h[..|h| - 1])
  }

  /** The last event is a failed poll that makes the poll loop return. */
  predicate TelemetryLost(p: RetryPolicy, h: seq<Event>) {
    h != [] && FailedSample(h[|h| - 1]) && FailRun(h) >= p.reconnectThreshold
  }

  /** The runtime read off the history alone. */
  predicate Reads(p: RetryPolicy, start: nat, h: seq<Event>, r: Runtime) {
    var spent := RefusalBase(h, start) + RefusalRun(h);
    if h == [] then r.phase == AtConnect && r.state == Connecting && r.attempts == start
    else match h[|h| - 1]
      case Connect(true) => r.phase == AtPoll && r.attempts == 0 && r.fails == 0 && r.state == Connected
      case Connect(false) =>
        if spent - 1 >= p.maxReconnectAttempts then r.phase == Ended && r.state == Error && r.attempts == spent - 1
        else r.phase == Sleeping && r.state == Reconnecting && r.attempts == spent
      case Woke =>
        r.phase == AtConnect && r.state == Connecting && r.attempts == spent <= p.maxReconnectAttempts && r.fails == 0
      case Sample(_) =>
        if TelemetryLost(p, h) then
          if p.maxReconnectAttempts <= 0 then r.phase == Ended && r.state == Error && r.attempts == 0
          else r.phase == Sleeping && r.state == Reconnecting && r.attempts == 1
        else
          && r.phase == AtPoll && r.attempts == 0 && r.fails == FailRun(h)
          && r.state == if FailRun(h) > 0 && FailRun(h) >= p.failureThreshold then Degraded else Connected
  }

  lemma Snoc<T>(s: seq<T>, x: T)
    ensures (s + [x])[..|s + [x]| - 1] == s && (s + [x])[|s + [x]| - 1] == x
  {}

  /** How the readings of a history move with one more event. */
  lemma RunsSnoc(h: seq<Event>, e: Event)
    ensures FailRun(h + [e]) == if FailedSample(e) then 1 + FailRun(h) else 0
    ensures OnlyRetries(h + [e]) <==> Retrying(e) && OnlyRetries(h)
    ensures RefusalRun(h + [e]) ==
      if e == Connect(false) then RefusalRun(h) + 1 else if e == Woke then RefusalRun(h) else 0
  {
    Snoc(h, e);
  }

  lemma ReadsConnect(p: RetryPolicy, start: nat, h: seq<Event>, r: Runtime, a: Answer)
    requires Reads(p, start, h, r) && r.phase == AtConnect
    ensures Reads(p, start, h + [Connect(a.connectOk)], Step(p, r, a))
  {
    Snoc(h, Connect(a.connectOk));
    RunsSnoc(h, Connect(a.connectOk));
  }

  lemma ReadsPoll(p: RetryPolicy, start: nat, h: seq<Event>, r: Runtime, a: Answer)
    requires Reads(p, start, h, r) && r.phase == AtPoll
    ensures Reads(p, start, h + [Sample(a.poll)], Step(p, r, a))
  {
    Snoc(h, Sample(a.poll));
    RunsSnoc(h, Sample(a.poll));
  }

  lemma ReadsWake(p: RetryPolicy, start: nat, h: seq<Event>, r: Runtime)
    requires Reads(p, start, h, r) && r.phase == Sleeping
    ensures Reads(p, start, h + [Woke], Wake(r))
  {
    Snoc(h, Woke);
    RunsSnoc(h, Woke);
  }

  lemma ReadsStep(p: RetryPolicy, start: nat, h: seq<Event>, r: Runtime, a: Answer)
    requires Reads(p, start, h, r) && r.phase != Ended
    ensures Reads(p, start, h + [EventOf(r, a)], Step(p, r, a))
  {
    match r.phase
    case AtConnect => ReadsConnect(p, start, h, r, a);
    case AtPoll => ReadsPoll(p, start, h, r, a);
    case Sleeping => ReadsWake(p, start, h, r);
  }

  /** State is a function of history, over every environment: phase, lifecycle state and both
      counters of any run are read off its observed events. */
  lemma {:induction false} StateIsHistory(p: RetryPolicy, r: Runtime, answers: seq<Answer>)
    ensures Reads(p, r.attempts, History(p, Begin(r), answers), Run(p, Begin(r), answers))
  {
    if answers == [] {
    } else {
      var n := |answers| - 1;
      StateIsHistory(p, r, answers[..n]);
      var before := Run(p, Begin(r), answers[..n]);
      if before.phase != Ended {
        ReadsStep(p, r.attempts, History(p, Begin(r), answers[..n]), before, answers[n]);
      }
    }
  }

  /** While polling, the failure counter is the trailing run of failed polls, that run has not
      reached the reconnect threshold, and the device is DEGRADED exactly when it has reached the
      failure threshold. */
  lemma {:induction false} PollingState(p: RetryPolicy, r: Runtime, answers: seq<Answer>)
    ensures var h, now := History(p, Begin(r), answers), Run(p, Begin(r), answers);
      now.phase == AtPoll ==>
        && now.fails == FailRun(h)
        && (FailRun(h) > 0 ==> FailRun(h) < p.reconnectThreshold)
        && (now.state == Degraded <==> FailRun(h) > 0 && FailRun(h) >= p.failureThreshold)
        && (now.state == Connected <==> FailRun(h) == 0 || FailRun(h) < p.failureThreshold)
  {
    StateIsHistory(p, r, answers);
  }

  /** The reported state and the place the task is suspended at say the same: RECONNECTING is
      exactly the backoff sleep, CONNECTING the open attempt, ERROR the end. */
  lemma {:induction false} StateShowsPhase(p: RetryPolicy, r: Runtime, answers: seq<Answer>)
    ensures var now := Run(p, Begin(r), answers);
      && (now.state == Reconnecting <==> now.phase == Sleeping)
      && (now.state == Connecting <==> now.phase == AtConnect)
      && (now.state in {Connected, Degraded} <==> now.phase == AtPoll)
      && (now.state == Error <==> now.phase == Ended)
  {
    StateIsHistory(p, r, answers);
  }

  /** The four counters grew by what the history shows, and these are all the polls. */
  predicate Tallied(r: Runtime, now: Runtime, h: seq<Event>) {
    && now.ingested == r.ingested + Count(h, Ingested)
    && now.rejected == r.rejected + Count(h, Rejected)
    && now.readErrors == r.readErrors + Count(h, ReadFailed)
    && now.sinkRaised == r.sinkRaised + Count(h, SinkRaised)
    && Polls(h) == Count(h, Ingested) + Count(h, Rejected) + Count(h, ReadFailed) + Count(h, SinkRaised)
  }

  lemma CountSnoc(h: seq<Event>, e: Event, poll: Poll)
    ensures Count(h + [e], poll) == Count(h, poll) + if e == Sample(poll) then 1 else 0
  {
    Snoc(h, e);
  }

  lemma TalliedSnoc(r: Runtime, before: Runtime, now: Runtime, h: seq<Event>, e: Event)
    requires Tallied(r, before, h)
    requires now.ingested == before.ingested + if e == Sample(Ingested) then 1 else 0
    requires now.rejected == before.rejected + if e == Sample(Rejected) then 1 else 0
    requires now.readErrors == before.readErrors + if e == Sample(ReadFailed) then 1 else 0
    requires now.sinkRaised == before.sinkRaised + if e == Sample(SinkRaised) then 1 else 0
    ensures Tallied(r, now, h + [e])
  {
    CountSnoc(h, e, Ingested);
    CountSnoc(h, e, Rejected);
    CountSnoc(h, e, ReadFailed);
    CountSnoc(h, e, SinkRaised);
    assert Polls(h + [e]) == Polls(h) + if e.Sample? then 1 else 0 by { Snoc(h, e); }
    if e.Sample? {
      match e.poll
      case Ingested =>
      case Rejected =>
      case ReadFailed =>
      case SinkRaised =>
    }
  }

  /** Every poll is accounted for exactly once, under the outcome it had. */
  lemma {:induction false} PollsConserved(p: RetryPolicy, r: Runtime, answers: seq<Answer>)
    ensures Tallied(r, Run(p, r, answers), History(p, r, answers))
  {
    if answers == [] {
    } else {
      var n := |answers| - 1;
      PollsConserved(p, r, answers[..n]);
      var before, h := Run(p, r, answers[..n]), History(p, r, answers[..n]);
      if before.phase != Ended {
        TalliedSnoc(r, before, Step(p, before, answers[n]), h, EventOf(before, answers[n]));
      }
    }
  }

  // ---------------------------------------------------------------- budgets

  ghost predicate AllRefused(answers: seq<Answer>) {
    forall i :: 0 <= i < |answers| ==> !answers[i].connectOk
  }

  function Max0(x: int): nat { if x < 0 then 0 else x }

  /** The refusals a task with this counter survives, and the one that ends it. */
  function Budget(p: RetryPolicy, attempts: nat): nat { Max0(p.maxReconnectAttempts - attempts) + 1 }

  lemma {:induction false} ScheduleSnoc(p: RetryPolicy, a: int, m: int)
    requires a <= m
    ensures Schedule(p, a, m + 1) == Schedule(p, a, m) + [DelayFor(p, m)]
    decreases m - a
  {
    if a == m {
    } else {
      ScheduleSnoc(p, a + 1, m);
    }
  }

  /** What `k` uninterrupted refusals make of a task that was between polls. */
  predicate AfterRefusals(p: RetryPolicy, r: Runtime, k: nat, now: Runtime) {
    && k <= Budget(p, r.attempts)
    && (now.phase == Ended <==> k == Budget(p, r.attempts))
    && (now.phase == Ended ==> now.state == Error)
    && (now.phase != Ended ==> now.phase in {AtConnect, Sleeping} && now.attempts == r.attempts + k)
  }

  lemma RefusalsSnoc(h: seq<Event>, e: Event)
    ensures Refusals(h + [e]) == Refusals(h) + if e == Connect(false) then 1 else 0
  {
    Snoc(h, e);
  }

  /** One if the task awaits a connection. */
  function Awaiting(r: Runtime): int { if r.phase == AtConnect then 1 else 0 }

  /** Every second answer of a task that has not ended is a refusal. */
  predicate Paced(r: Runtime, k: nat, now: Runtime, n: nat) {
    now.phase == Ended || n == 2 * k + Awaiting(now) - Awaiting(r)
  }

  lemma RefusedStep(p: RetryPolicy, r: Runtime, k: nat, now: Runtime, a: Answer, n: nat)
    requires r.phase in {AtConnect, Sleeping} && AfterRefusals(p, r, k, now) && Paced(r, k, now, n)
    requires !a.connectOk
    ensures AfterRefusals(p, r, k + Awaiting(now), Step(p, now, a))
    ensures Paced(r, k + Awaiting(now), Step(p, now, a), n + 1)
  {}

  lemma RefusalsStep(p: RetryPolicy, r: Runtime, answers: seq<Answer>)
    requires answers != [] && !answers[|answers| - 1].connectOk
    ensures var n := |answers| - 1;
      Refusals(History(p, r, answers)) == Refusals(History(p, r, answers[..n])) + Awaiting(Run(p, r, answers[..n]))
  {
    var n := |answers| - 1;
    var before, h := Run(p, r, answers[..n]), History(p, r, answers[..n]);
    if before.phase != Ended { RefusalsSnoc(h, EventOf(before, answers[n])); }
  }

  /** Exact retry budget. A task that awaits a connection, or sleeps before one, with counter `a`
      under limit `M` ends in ERROR at exactly its `max(0, M - a) + 1`-st uninterrupted refusal and
      not one earlier. Every second answer is a refusal, so it does end. */
  lemma {:induction false} ExactBudget(p: RetryPolicy, r: Runtime, answers: seq<Answer>)
    requires r.phase in {AtConnect, Sleeping} && AllRefused(answers)
    ensures var now, k := Run(p, r, answers), Refusals(History(p, r, answers));
      AfterRefusals(p, r, k, now) && Paced(r, k, now, |answers|)
  {
    if answers == [] {
    } else {
      var n := |answers| - 1;
      ExactBudget(p, r, answers[..n]);
      RefusalsStep(p, r, answers);
      RefusedStep(p, r, Refusals(History(p, r, answers[..n])), Run(p, r, answers[..n]), answers[n], n);
    }
  }

  /** `waits` followed by the delays `a .. m-1`. */
  function Extended(p: RetryPolicy, waits: seq<real>, a: int, m: int): seq<real>
    decreases m - a
  {
    if m <= a then waits else Extended(p, waits, a, m - 1) + [DelayFor(p, m - 1)]
  }

  lemma {:induction false} ExtendedBySchedule(p: RetryPolicy, waits: seq<real>, a: int, m: int)
    ensures Extended(p, waits, a, m) == waits + Schedule(p, a, m)
    decreases m - a
  {
    if m <= a {
      assert waits + [] == waits;
    } else {
      ExtendedBySchedule(p, waits, a, m - 1);
      ScheduleSnoc(p, a, m - 1);
    }
  }

  predicate SleptUpTo(p: RetryPolicy, r: Runtime, now: Runtime) {
    r.attempts <= now.attempts && now.waits == Extended(p, r.waits, r.attempts, now.attempts)
  }

  lemma SleptStep(p: RetryPolicy, r: Runtime, now: Runtime, a: Answer)
    requires SleptUpTo(p, r, now) && now.phase != AtPoll && !a.connectOk
    ensures SleptUpTo(p, r, Step(p, now, a))
  {}

  lemma {:induction false} SleepsUpTo(p: RetryPolicy, r: Runtime, answers: seq<Answer>)
    requires r.phase in {AtConnect, Sleeping} && AllRefused(answers)
    ensures SleptUpTo(p, r, Run(p, r, answers)) && Run(p, r, answers).phase != AtPoll
  {
    if answers == [] {
    } else {
      var n := |answers| - 1;
      SleepsUpTo(p, r, answers[..n]);
      SleptStep(p, r, Run(p, r, answers[..n]), answers[n]);
    }
  }

  /** What the counter is at the end. */
  lemma {:induction false} EndsAtLimit(p: RetryPolicy, r: Runtime, answers: seq<Answer>)
    requires r.phase in {AtConnect, Sleeping} && AllRefused(answers)
    ensures Run(p, r, answers).phase == Ended ==>
      Run(p, r, answers).attempts == r.attempts + Max0(p.maxReconnectAttempts - r.attempts)
  {
    if answers == [] {
    } else {
      EndsAtLimit(p, r, answers[..|answers| - 1]);
      ExactBudget(p, r, answers[..|answers| - 1]);
      ExactBudget(p, r, answers);
      RefusalsStep(p, r, answers);
    }
  }

  /** On the way the task sleeps exactly the delays from its counter up to what the counter has
      become, so exactly `a .. M-1` by the time it ends. */
  lemma ExactWaits(p: RetryPolicy, r: Runtime, answers: seq<Answer>)
    requires r.phase in {AtConnect, Sleeping} && AllRefused(answers)
    ensures var now := Run(p, r, answers);
      && now.waits == r.waits + Schedule(p, r.attempts, now.attempts)
      && (now.phase == Ended ==> now.attempts == r.attempts + Max0(p.maxReconnectAttempts - r.attempts))
  {
    SleepsUpTo(p, r, answers);
    ExtendedBySchedule(p, r.waits, r.attempts, Run(p, r, answers).attempts);
    EndsAtLimit(p, r, answers);
  }

  /** The wait before exhaustion is the backoff total from the counter to the limit. */
  lemma ExhaustionWait(p: RetryPolicy, r: Runtime, answers: seq<Answer>)
    requires r.phase == AtConnect && AllRefused(answers) && r.waits == []
    requires Run(p, r, answers).phase == Ended
    ensures Sum(Run(p, r, answers).waits) == TotalWait(p, r.attempts, p.maxReconnectAttempts)
  {
    ExactWaits(p, r, answers);
    var slept := Schedule(p, r.attempts, p.maxReconnectAttempts);
    assert [] + slept == slept;
  }

  /** After a telemetry loss the task sleeps the first delay, with one attempt spent; with no reconnect
      allowed it ends at once, having slept nothing. */
  lemma LossWait(p: RetryPolicy, r: Runtime, loss: Answer)
    requires r.phase == AtPoll && r.attempts == 0 && loss.poll != Ingested && r.fails + 1 >= p.reconnectThreshold
    ensures var now := Step(p, r, loss);
      if p.maxReconnectAttempts >= 1
      then now.phase == Sleeping && now.attempts == 1 && now.waits == r.waits + [DelayFor(p, 0)]
      else now.phase == Ended && now.state == Error && now.waits == r.waits
  {}

  /** A task ended by exactly its `b`-th refusal and not before. */
  ghost predicate EndsAtRefusal(p: RetryPolicy, r: Runtime, answers: seq<Answer>, b: nat) {
    var k := Refusals(History(p, r, answers));
    k <= b && (Run(p, r, answers).phase == Ended <==> k == b)
  }

  /** A task whose connect loop ended, however it ended, had used up its reconnect counter. */
  lemma {:induction false} EndedIsSpent(p: RetryPolicy, r: Runtime, answers: seq<Answer>)
    ensures var last := Run(p, Begin(r), answers);
      last.phase == Ended ==> last.attempts >= p.maxReconnectAttempts
  {
    StateIsHistory(p, r, answers);
  }

  /** The three budgets an operator sees: `M + 1` refusals from cold, `M` after a telemetry loss,
      and a single one when a device whose connect loop had ended is started again. A task that
      failed before its first connection keeps its counter, so the next one has the budget this one
      would have had. */
  lemma {:induction false} BudgetsInUse(p: RetryPolicy, r: Runtime, loss: Answer, before: seq<Answer>,
                                        answers: seq<Answer>)
    requires AllRefused(answers)
    ensures EndsAtRefusal(p, Begin(COLD), answers, Max0(p.maxReconnectAttempts) + 1)
    ensures r.phase == AtPoll && r.attempts == 0 && LoopReturns(p, r, loss.poll) && p.maxReconnectAttempts >= 1 ==>
      EndsAtRefusal(p, Step(p, r, loss), answers, p.maxReconnectAttempts)
    ensures var last := Run(p, Begin(r), before);
      last.phase == Ended ==> EndsAtRefusal(p, Begin(last), answers, 1)
    ensures EndsAtRefusal(p, Begin(Launch(false, r)), answers, Budget(p, r.attempts))
  {
    ExactBudget(p, Begin(COLD), answers);
    ExactBudget(p, Begin(Launch(false, r)), answers);
    if r.phase == AtPoll && r.attempts == 0 && LoopReturns(p, r, loss.poll) && p.maxReconnectAttempts >= 1 {
      ExactBudget(p, Step(p, r, loss), answers);
    }
    EndedIsSpent(p, r, before);
    ExactBudget(p, Begin(Run(p, Begin(r), before)), answers);
  }

  // ---------------------------------------------------------------- what ends a task

  /** The trailing refusals used up exactly the budget they started with. */
  predicate Exhausted(p: RetryPolicy, start: nat, h: seq<Event>) {
    && h != [] && h[|h| - 1] == Connect(false)
    && RefusalRun(h) == Budget(p, RefusalBase(h, start))
  }

  lemma EndingStep(p: RetryPolicy, start: nat, h: seq<Event>, r: Runtime, a: Answer)
    requires Reads(p, start, h, r) && r.phase != Ended && Step(p, r, a).phase == Ended
    ensures var now := h + [EventOf(r, a)];
      Exhausted(p, start, now) || (p.maxReconnectAttempts <= 0 && TelemetryLost(p, now))
  {
    Snoc(h, EventOf(r, a));
    RunsSnoc(h, EventOf(r, a));
  }

  lemma {:induction false} EndedBy(p: RetryPolicy, r: Runtime, answers: seq<Answer>)
    requires Run(p, Begin(r), answers).phase == Ended
    ensures var h := History(p, Begin(r), answers);
      Exhausted(p, r.attempts, h) || (p.maxReconnectAttempts <= 0 && TelemetryLost(p, h))
  {
    var n := |answers| - 1;
    var before := Run(p, Begin(r), answers[..n]);
    if before.phase == Ended {
      EndedBy(p, r, answers[..n]);
    } else {
      StateIsHistory(p, r, answers[..n]);
      EndingStep(p, r.attempts, History(p, Begin(r), answers[..n]), before, answers[n]);
    }
  }

  /** What ends a task, for every policy and environment: a refusal that uses up the budget, or a
      telemetry loss when no reconnect is allowed at all. */
  lemma {:induction false} EndsIff(p: RetryPolicy, r: Runtime, answers: seq<Answer>)
    ensures var h := History(p, Begin(r), answers);
      Run(p, Begin(r), answers).phase == Ended <==>
        (Exhausted(p, r.attempts, h) || (p.maxReconnectAttempts <= 0 && TelemetryLost(p, h)))
  {
    StateIsHistory(p, r, answers);
    if Run(p, Begin(r), answers).phase == Ended { EndedBy(p, r, answers); }
  }

  ghost predicate NoneRefused(answers: seq<Answer>) {
    forall i :: 0 <= i < |answers| ==> answers[i].connectOk
  }

  lemma {:induction false} NoRefusalSeen(p: RetryPolicy, r: Runtime, answers: seq<Answer>)
    requires NoneRefused(answers)
    ensures RefusalRun(History(p, r, answers)) == 0
  {
    if answers == [] {
    } else {
      var n := |answers| - 1;
      NoRefusalSeen(p, r, answers[..n]);
      var before := Run(p, r, answers[..n]);
      if before.phase != Ended { RunsSnoc(History(p, r, answers[..n]), EventOf(before, answers[n])); }
    }
  }

  /** Failed reads and rejected samples alone, with every connection accepted, end a task exactly
      when no reconnect is allowed and a poll loop has returned. */
  lemma {:induction false} FailuresAloneEndIff(p: RetryPolicy, r: Runtime, answers: seq<Answer>)
    requires NoneRefused(answers)
    ensures Run(p, Begin(r), answers).phase == Ended <==>
      p.maxReconnectAttempts <= 0 && TelemetryLost(p, History(p, Begin(r), answers))
  {
    EndsIff(p, r, answers);
    NoRefusalSeen(p, Begin(r), answers);
  }

  /** The settings a policy has by default. */
  const DEFAULT := RetryPolicy(3, 6, 5, 1.0, 30.0, 2.0)

  /** `n` answers of a device that accepts every connection and fails every read. */
  function Unreadable(n: nat): seq<Answer> { seq(n, _ => Answer(true, ReadFailed)) }

  /** Under the default policy such a device is retried for ever ... */
  lemma UnreadableNeverEnds(n: nat)
    ensures Run(DEFAULT, Begin(COLD), Unreadable(n)).phase != Ended
  {
    FailuresAloneEndIff(DEFAULT, COLD, Unreadable(n));
  }

  lemma UnreadablePolls(p: RetryPolicy, n: nat)
    requires p.reconnectThreshold == 6 && n <= 5
    ensures var now := Run(p, Begin(COLD), Unreadable(n + 1));
      now.phase == AtPoll && now.fails == n && now.attempts == 0
  {
    var answers := Unreadable(n + 1);
    assert answers[..n] == Unreadable(n);
    if n == 0 {
    } else {
      UnreadablePolls(p, n - 1);
    }
  }

  /** ... while with no reconnect allowed its sixth failed read is the end. */
  lemma UnreadableEndsWithoutReconnects()
    ensures Run(DEFAULT.(maxReconnectAttempts := 0), Begin(COLD), Unreadable(7)).phase == Ended
  {
    UnreadablePolls(DEFAULT.(maxReconnectAttempts := 0), 5);
    assert Unreadable(7)[..6] == Unreadable(6);
  }
}

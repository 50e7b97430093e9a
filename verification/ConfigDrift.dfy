/** Honest drift: when `in_sync` tells the truth, over every run, with any number of requests of one
    device in flight and with restarts that could not read the database. */
module ConfigDrift {
  import opened Options
  import opened Gateway
  import opened ConfigStore
  import opened ConfigProtocol
  import opened ConfigStartup

  // ---------------------------------------------------------------- what the gateway was last told

  /** The gateway accepts a call of this device. */
  predicate Swaps(s: System, request: nat, trial: Trial, d: string) {
    Calls(s, request) && s.requests[request].device == d && Accepted(s.requests[request].definition, trial)
  }

  /** Whether the last accepted call or confirmation of a device, since the process last came up,
      carried version `v`; `before` is the answer before the step. */
  ghost predicate NamedAfter(s: System, step: Step, d: string, v: nat, before: bool) {
    match step
    case CallGateway(request, trial) => if Swaps(s, request, trial, d) then s.requests[request].version == v else before
    case Crash => false
    case Restart(_, _, connected, _) =>
      if !s.Up() && Next(s, step).Up()
      then IsPublished(s.rows, d, v) && Ready(s.rows[Key(d, v)].config, d in connected)
      else before
    case BlindRestart(_, _, _) => before && !(!s.Up() && Next(s, step).Up())
    case _ => before
  }

  /** The last accepted call or confirmation of the device carried `v`: read off the run alone. */
  ghost predicate LastNamed(steps: seq<Step>, d: string, v: nat) {
    if steps == [] then false
    else var n := |steps| - 1; NamedAfter(Run(steps[..n]), steps[n], d, v, LastNamed(steps[..n], d, v))
  }

  ghost predicate Tells(s: System, d: string, v: nat, named: bool) {
    s.Up() ==> (s.gateway.value.AppliedVersion(d) == Some(v) <==> named)
  }

  lemma CallTells(s: System, request: nat, trial: Trial, d: string, v: nat, before: bool)
    requires RequestsOk(s.rows, s.requests) && Tells(s, d, v, before)
    ensures var step := CallGateway(request, trial);
      Tells(Next(s, step), d, v, NamedAfter(s, step, d, v, before))
  {
    if Calls(s, request) {
      var q := s.requests[request];
      assert RequestOk(s.rows, q);
      if q.device != d { ApplyElsewhere(s.gateway.value, q.definition, Some(q.version), trial, d); }
    }
  }

  /** After a start with the database, exactly the ready published versions are named. */
  lemma StartTells(s: System, t: System, items: seq<Resolved>, connected: set<string>, d: string, v: nat)
    requires RowsOk(s.rows) && CameUp(s, t, items, connected) && Distinct(items)
    requires Faithful(s.rows, items) && Complete(s.rows, items)
    ensures t.gateway.value.AppliedVersion(d) == Some(v) <==>
      IsPublished(s.rows, d, v) && Ready(s.rows[Key(d, v)].config, d in connected)
  {
    if d in Devices(items) {
      var i :| 0 <= i < |items| && items[i].device == d;
      assert Started(t, items[i], connected);
      if items[i].source == Database {
        assert ListedOk(s.rows, items[i]);
        if IsPublished(s.rows, d, v) { assert Key(d, v) == Key(d, items[i].version.value); }
      } else {
        NotPublished(s.rows, items, d, i);
      }
    } else {
      NotListed(s.rows, items, d);
      assert LeftAlone(s, t, d);
    }
  }

  /** A device the file contributes has no published version. */
  lemma NotPublished(rows: Rows, items: seq<Resolved>, d: string, i: nat)
    requires Complete(rows, items) && Distinct(items)
    requires i < |items| && items[i].device == d && items[i].source == Bootstrap
    ensures !HasPublished(rows, d)
  {}

  lemma RestartTells(s: System, step: Step, d: string, v: nat)
    requires Inv(s) && step.Restart? && !s.Up() && Next(s, step).Up()
    ensures Tells(Next(s, step), d, v, NamedAfter(s, step, d, v, false))
  {
    var items := Resolve(step.published, step.bootstrap);
    RestartItems(s.rows, step.published, step.bootstrap);
    ComesUp(s, items, step.connected, step.writes);
    LoadableMeansDistinct(items);
    StartTells(s, ComeUp(s, items, step.connected, step.writes), items, step.connected, d, v);
  }

  lemma BlindTells(s: System, step: Step, d: string, v: nat)
    requires step.BlindRestart? && !s.Up() && Next(s, step).Up()
    ensures Tells(Next(s, step), d, v, false)
  {
    BlindRuns(s, step.bootstrap, step.connected, step.writes, d);
  }

  /** Steps that do not touch the gateway. */
  predicate LeavesGateway(step: Step) {
    !step.CallGateway? && !step.Crash? && !step.Restart? && !step.BlindRestart?
  }

  lemma GatewayLeft(s: System, step: Step)
    requires LeavesGateway(step)
    ensures Next(s, step).gateway == s.gateway
  {}

  lemma StartFails(s: System, step: Step)
    requires (step.Restart? || step.BlindRestart?) && (s.Up() || !Next(s, step).Up())
    ensures Next(s, step) == s
  {}

  lemma StepTells(s: System, step: Step, d: string, v: nat, before: bool)
    requires Inv(s) && Tells(s, d, v, before)
    ensures Tells(Next(s, step), d, v, NamedAfter(s, step, d, v, before))
  {
    if LeavesGateway(step) {
      GatewayLeft(s, step);
    } else if step.CallGateway? {
      CallTells(s, step.request, step.trial, d, v, before);
    } else if step.Crash? {
    } else if s.Up() || !Next(s, step).Up() {
      StartFails(s, step);
    } else if step.Restart? {
      RestartTells(s, step, d, v);
    } else {
      BlindTells(s, step, d, v);
    }
  }

  /** The version the live gateway names is exactly the one its last accepted call or confirmation
      carried, however requests interleave. */
  lemma {:induction false} GatewayNamesLast(steps: seq<Step>, d: string, v: nat)
    ensures Run(steps).Up() ==>
      (Run(steps).gateway.value.AppliedVersion(d) == Some(v) <==> LastNamed(steps, d, v))
  {
    if steps == [] {
    } else {
      var n := |steps| - 1;
      GatewayNamesLast(steps[..n], d, v);
      Reachable(steps[..n]);
      StepTells(Run(steps[..n]), steps[n], d, v, LastNamed(steps[..n], d, v));
    }
  }

  /** What `in_sync` promises: the device runs its one published version, from exactly that version's
      stored configuration, and the gateway says so. */
  ghost predicate Synced(s: System, device: string, v: nat) {
    && s.Up() && IsPublished(s.rows, device, v)
    && (forall w: nat :: IsPublished(s.rows, device, w) ==> w == v)
    && s.gateway.value.AppliedVersion(device) == Some(v)
    && RunsFor(s.gateway.value, device) == Some(s.rows[Key(device, v)].config)
  }

  /** `in_sync` tells the truth if and only if the last accepted gateway call or confirmation of the
      device carried the version its row records: over every run, whatever is in flight. */
  lemma {:induction false} InSyncTrueIff(steps: seq<Step>, device: string)
    requires Run(steps).Up() && InSync(Run(steps), device)
    ensures var v := Run(steps).status[device].applied.value;
      Synced(Run(steps), device, v) <==> LastNamed(steps, device, v)
  {
    var s := Run(steps);
    var v := s.status[device].applied.value;
    Reachable(steps);
    GatewayNamesLast(steps, device, v);
    assert OkFor(s, device);
    forall w | IsPublished(s.rows, device, w) ensures w == v { assert Key(device, w) == Key(device, v); }
  }

  // ---------------------------------------------------------------- one request per device at a time

  /** A request starts only when its device has none in flight. */
  predicate StartsAlone(s: System, step: Step) {
    match step
    case Publish(_, key, _, _) => s.Idle(key.device)
    case ApplyCurrent(_, device, _) => s.Idle(device)
    case _ => true
  }

  ghost predicate Serial(steps: seq<Step>) {
    steps == [] || (var n := |steps| - 1; Serial(steps[..n]) && StartsAlone(Run(steps[..n]), steps[n]))
  }

  /** Whether the row of a device is stale after a step. A start without the database makes every row
      stale that the file does not overwrite; the next marked apply of the device, or a start with
      the database, ends that. */
  ghost predicate StaleAfter(s: System, step: Step, d: string, before: bool) {
    match step
    case BlindRestart(bootstrap, _, _) => if !s.Up() && Next(s, step).Up() then !InFile(bootstrap, d) else before
    case Restart(_, _, _, _) => before && !(!s.Up() && Next(s, step).Up())
    case MarkApplying(request) => before && !(Marks(s, request) && s.requests[request].device == d)
    case _ => before
  }

  ghost predicate Stale(steps: seq<Step>, d: string) {
    if steps == [] then false
    else var n := |steps| - 1; StaleAfter(Run(steps[..n]), steps[n], d, Stale(steps[..n], d))
  }

  /** The one request of the device: once marked, the row says APPLYING, and once the gateway has
      accepted it, the gateway names its version. */
  ghost predicate Alone(s: System, d: string) {
    && (forall r, q :: r in s.requests && q in s.requests && s.requests[r].device == d == s.requests[q].device ==>
          r == q)
    && (forall r :: r in s.requests && s.requests[r].device == d ==> InStep(s, d, s.requests[r]))
  }

  ghost predicate InStep(s: System, d: string, q: Request) {
    && (!q.Committed? ==> d in s.status && s.status[d].apply == Applying)
    && (q.Called? && q.ok && s.Up() ==> s.gateway.value.AppliedVersion(d) == Some(q.version))
  }

  /** An APPLIED row names the version the live gateway names. */
  ghost predicate HonestFor(s: System, d: string) {
    s.Up() && d in s.status && s.status[d].apply == Applied ==>
      s.status[d].applied == s.gateway.value.AppliedVersion(d)
  }

  /** The device's row may be stale: the gateway names no version and no apply has been marked. */
  ghost predicate StaleFor(s: System, d: string) {
    s.Up() ==>
      && s.gateway.value.AppliedVersion(d) == None
      && forall r :: r in s.requests && s.requests[r].device == d ==> s.requests[r].Committed?
  }

  ghost predicate Judged(s: System, d: string, stale: bool) {
    Alone(s, d) && if stale then StaleFor(s, d) else HonestFor(s, d)
  }

  /** A new request of this device, which had none, or of another one. */
  lemma NewJudged(s: System, t: System, request: nat, q: Request, d: string, stale: bool)
    requires Judged(s, d, stale) && (q.device == d ==> s.Idle(d)) && q.Committed? && request !in s.requests
    requires t.requests == s.requests[request := q] && t.status == s.status && t.gateway == s.gateway
    ensures Judged(t, d, stale)
  {
    forall r | r in t.requests && t.requests[r].device == d ensures InStep(t, d, t.requests[r]) {
      if r != request { assert InStep(s, d, s.requests[r]); }
    }
  }

  /** A step of another device's request. */
  lemma OtherRequest(s: System, t: System, request: nat, d: string, stale: bool)
    requires Judged(s, d, stale) && s.Up() && t.Up() && SameElsewhere(s, t, d)
    requires request in s.requests && s.requests[request].device != d
    requires forall r :: r != request ==> (r in t.requests <==> r in s.requests)
    requires forall r :: r != request && r in s.requests ==> t.requests[r] == s.requests[r]
    requires request in t.requests ==> t.requests[request].device != d
    ensures Judged(t, d, stale)
  {
    forall r | r in t.requests && t.requests[r].device == d ensures InStep(t, d, t.requests[r]) {
      assert InStep(s, d, s.requests[r]);
    }
  }

  lemma MarkJudged(s: System, request: nat, d: string, stale: bool)
    requires Judged(s, d, stale)
    ensures Judged(MarkStep(s, request), d, StaleAfter(s, MarkApplying(request), d, stale))
  {
    if Marks(s, request) && s.requests[request].device != d {
      OtherRequest(s, MarkStep(s, request), request, d, stale);
    }
  }

  lemma CallJudged(s: System, request: nat, trial: Trial, d: string, stale: bool)
    requires RequestsOk(s.rows, s.requests) && Judged(s, d, stale)
    ensures Judged(CallStep(s, request, trial), d, stale)
  {
    if Calls(s, request) {
      var q := s.requests[request];
      assert RequestOk(s.rows, q);
      if q.device != d {
        ApplyElsewhere(s.gateway.value, q.definition, Some(q.version), trial, d);
        OtherRequest(s, CallStep(s, request, trial), request, d, stale);
      } else {
        assert InStep(s, d, q);
      }
    }
  }

  lemma RecordJudged(s: System, request: nat, d: string, stale: bool)
    requires Judged(s, d, stale)
    ensures Judged(RecordStep(s, request), d, stale)
  {
    if Records(s, request) {
      var q := s.requests[request];
      if q.device != d {
        OtherRequest(s, RecordStep(s, request), request, d, stale);
      } else {
        assert InStep(s, d, q);
      }
    }
  }

  lemma PublishJudged(s: System, step: Step, d: string, stale: bool)
    requires Judged(s, d, stale) && step.Publish? && StartsAlone(s, step)
    ensures Judged(Next(s, step), d, stale)
  {
    var t, key := Next(s, step), step.key;
    if t.requests != s.requests {
      NewJudged(s, t, step.request, Committed(key.device, key.version), d, stale);
    }
  }

  lemma ApplyJudged(s: System, step: Step, d: string, stale: bool)
    requires Judged(s, d, stale) && step.ApplyCurrent? && StartsAlone(s, step)
    ensures Judged(Next(s, step), d, stale)
  {
    var t := Next(s, step);
    if t != s { NewJudged(s, t, step.request, Committed(step.device, step.version), d, stale); }
  }

  /** A removed device had no configuration, so no request either. */
  lemma RetireJudged(s: System, device: string, d: string, stale: bool)
    requires RequestsOk(s.rows, s.requests) && Judged(s, d, stale)
    ensures Judged(RetireStep(s, device), d, stale)
  {
    var t := RetireStep(s, device);
    forall r | r in t.requests && t.requests[r].device == d ensures InStep(t, d, t.requests[r]) {
      assert RequestOk(s.rows, s.requests[r]) && InStep(s, d, s.requests[r]);
      var q := s.requests[r];
      assert Key(q.device, q.version) in s.rows;
    }
  }

  lemma AbandonJudged(s: System, request: nat, d: string, stale: bool)
    requires Judged(s, d, stale)
    ensures Judged(s.(requests := s.requests - {request}), d, stale)
  {
    var t := s.(requests := s.requests - {request});
    forall r | r in t.requests && t.requests[r].device == d ensures InStep(t, d, t.requests[r]) {
      assert InStep(s, d, s.requests[r]);
    }
  }

  /** A start with the database makes every row honest. */
  lemma HonestStart(s: System, t: System, items: seq<Resolved>, connected: set<string>, d: string)
    requires Inv(s) && CameUp(s, t, items, connected) && Complete(s.rows, items)
    ensures HonestFor(t, d)
  {
    assert OkFor(s, d);
    if d in Devices(items) {
      var i :| 0 <= i < |items| && items[i].device == d;
      assert Started(t, items[i], connected);
    } else {
      NotListed(s.rows, items, d);
      assert LeftAlone(s, t, d);
    }
  }

  lemma StartJudged(s: System, step: Step, d: string)
    requires Inv(s) && step.Restart? && !s.Up() && Next(s, step).Up()
    ensures Judged(Next(s, step), d, false)
  {
    var items := Resolve(step.published, step.bootstrap);
    RestartItems(s.rows, step.published, step.bootstrap);
    ComesUp(s, items, step.connected, step.writes);
    HonestStart(s, ComeUp(s, items, step.connected, step.writes), items, step.connected, d);
  }

  /** A start without it is honest about the devices in the file, whose rows now say PENDING. */
  lemma BlindJudged(s: System, step: Step, d: string)
    requires step.BlindRestart? && !s.Up() && Next(s, step).Up()
    ensures Judged(Next(s, step), d, !InFile(step.bootstrap, d))
  {
    var items, t := Resolve([], step.bootstrap), Next(s, step);
    BlindItems(step.bootstrap);
    ComesUp(s, items, step.connected, step.writes);
    FileDevices(step.bootstrap, d);
    if d in Devices(items) {
      var i :| 0 <= i < |items| && items[i].device == d;
      assert Started(t, items[i], step.connected);
    } else {
      assert LeftAlone(s, t, d);
    }
  }

  lemma RestJudged(s: System, step: Step, d: string, stale: bool)
    requires Judged(s, d, stale) && (step.Enroll? || step.Edit? || step.Crash?)
    ensures Judged(Next(s, step), d, stale)
  {
    var t := Next(s, step);
    assert t.requests == s.requests || t.requests == map[];
    forall r | r in t.requests && t.requests[r].device == d ensures InStep(t, d, t.requests[r]) {
      assert InStep(s, d, s.requests[r]);
    }
  }

  lemma StartStepJudged(s: System, step: Step, d: string, stale: bool)
    requires Inv(s) && Judged(s, d, stale) && (step.Restart? || step.BlindRestart?)
    ensures Judged(Next(s, step), d, StaleAfter(s, step, d, stale))
  {
    if s.Up() || !Next(s, step).Up() {
      StartFails(s, step);
    } else if step.Restart? {
      StartJudged(s, step, d);
    } else {
      BlindJudged(s, step, d);
    }
  }

  lemma StepJudged(s: System, step: Step, d: string, stale: bool)
    requires Inv(s) && Judged(s, d, stale) && StartsAlone(s, step)
    ensures Judged(Next(s, step), d, StaleAfter(s, step, d, stale))
  {
    match step
    case Retire(device) => RetireJudged(s, device, d, stale);
    case Publish(_, _, _, _) => PublishJudged(s, step, d, stale);
    case ApplyCurrent(_, _, _) => ApplyJudged(s, step, d, stale);
    case MarkApplying(request) => MarkJudged(s, request, d, stale);
    case CallGateway(request, trial) => CallJudged(s, request, trial, d, stale);
    case RecordApply(request) => RecordJudged(s, request, d, stale);
    case Abandon(request) => AbandonJudged(s, request, d, stale);
    case Restart(_, _, _, _) => StartStepJudged(s, step, d, stale);
    case BlindRestart(_, _, _) => StartStepJudged(s, step, d, stale);
    case _ => RestJudged(s, step, d, stale);
  }

  lemma {:induction false} SerialJudged(steps: seq<Step>, d: string)
    requires Serial(steps)
    ensures Judged(Run(steps), d, Stale(steps, d))
  {
    if steps == [] {
    } else {
      var n := |steps| - 1;
      SerialJudged(steps[..n], d);
      Reachable(steps[..n]);
      StepJudged(Run(steps[..n]), steps[n], d, Stale(steps[..n], d));
    }
  }

  /** Without restarts that could not read the database nothing is ever stale. */
  lemma {:induction false} NeverStale(steps: seq<Step>, d: string)
    requires forall i :: 0 <= i < |steps| ==> !steps[i].BlindRestart?
    ensures !Stale(steps, d)
  {
    if steps == [] {
    } else {
      NeverStale(steps[..|steps| - 1], d);
    }
  }

  /** With one request per device at a time nothing overtakes: the last accepted call carried the
      recorded version unless the row is stale from a start without the database. */
  lemma {:induction false} SerialNamesUnlessStale(steps: seq<Step>, device: string)
    requires Serial(steps) && Run(steps).Up() && InSync(Run(steps), device)
    ensures LastNamed(steps, device, Run(steps).status[device].applied.value) <==> !Stale(steps, device)
  {
    SerialJudged(steps, device);
    GatewayNamesLast(steps, device, Run(steps).status[device].applied.value);
  }

  /** Honest drift. With one request per device at a time, a device reported in sync, and not stale,
      runs exactly its one published version, from exactly that version's stored configuration. */
  lemma {:induction false} HonestDrift(steps: seq<Step>, device: string)
    requires Serial(steps) && Run(steps).Up() && InSync(Run(steps), device) && !Stale(steps, device)
    ensures Synced(Run(steps), device, Run(steps).status[device].applied.value)
  {
    SerialNamesUnlessStale(steps, device);
    InSyncTrueIff(steps, device);
  }
}

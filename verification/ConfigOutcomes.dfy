/** What a request, run to its end, and the environment do to the state: each step's whole effect. */
module ConfigOutcomes {
  import opened Options
  import opened Gateway
  import opened ConfigStore
  import opened ConfigProtocol

  /** Marking and calling, whatever else is in flight. */
  lemma MarkAndCall(s: System, request: nat, trial: Trial)
    requires Marks(s, request)
    ensures var t := CallStep(MarkStep(s, request), request, trial); var q := s.requests[request];
      var config := s.rows[Key(q.device, q.version)].config;
      && t.rows == s.rows && t.registered == s.registered && t.Up()
      && t.gateway.value == Apply(s.gateway.value, config, Some(q.version), trial)
      && t.requests == s.requests[request := Called(q.device, q.version, Accepted(config, trial))]
      && t.status == s.status[q.device :=
           StatusRow(Some(q.version), s.gateway.value.AppliedVersion(q.device), Applying, Database)]
  {
    var q, marked := s.requests[request], MarkStep(s, request);
    assert marked.requests[request] == Marked(q.device, q.version, s.rows[Key(q.device, q.version)].config);
  }

  lemma RecordOutcome(s: System, request: nat)
    requires Records(s, request)
    ensures var t := RecordStep(s, request); var Called(d, v, ok) := s.requests[request];
      && t.gateway == s.gateway && t.rows == s.rows && t.registered == s.registered
      && t.requests == s.requests - {request}
      && t.status == s.status[d :=
           StatusRow(Some(v), if ok then Some(v) else s.gateway.value.AppliedVersion(d),
                     if ok then Applied else Failed, Database)]
  {}

  /** From the committed publication on: the three remaining steps of a request. */
  lemma ApplyOutcome(s: System, request: nat, device: string, version: nat, trial: Trial)
    requires s.Up() && request in s.requests && s.requests[request] == Committed(device, version)
    requires IsPublished(s.rows, device, version) && s.rows[Key(device, version)].config.deviceId == device
    ensures var config := s.rows[Key(device, version)].config;
      var t := Finish(s, request, trial);
      && t.Up() && t.requests == s.requests - {request} && t.rows == s.rows && t.registered == s.registered
      && t.gateway.value == Apply(s.gateway.value, config, Some(version), trial)
      && t.status == s.status[device :=
           if Accepted(config, trial) then StatusRow(Some(version), Some(version), Applied, Database)
           else StatusRow(Some(version), s.gateway.value.AppliedVersion(device), Failed, Database)]
  {
    var called := CallStep(MarkStep(s, request), request, trial);
    MarkAndCall(s, request, trial);
    RecordOutcome(called, request);
    assert called.requests - {request} == s.requests - {request};
  }

  lemma PublishedRow(rows: Rows, key: Key, now: int)
    requires RowsOk(rows) && key in rows && !rows[key].Promoted()
    ensures var after := PublishVersion(rows, key, true, now); var again := Key(key.device, key.version);
      && again == key && IsPublished(after, key.device, key.version)
      && after[key].config == rows[key].config && rows[key].config.deviceId == key.device
  {
    assert RowOk(key, rows[key]);
  }

  /** A publish request that runs to its end undisturbed reports in sync exactly when the gateway
      accepted the new runtime; otherwise the version is published all the same, the drift is
      recorded as FAILED, and the gateway still runs what it ran. */
  lemma PublishOutcome(s: System, request: nat, key: Key, now: int, trial: Trial)
    requires RowsOk(s.rows) && s.Up() && request !in s.requests && key in s.rows && !s.rows[key].Promoted()
    ensures var config := s.rows[key].config;
      var t := Finish(PublishStep(s, request, key, true, now), request, trial);
      && t.Up() && t.requests == s.requests && IsPublished(t.rows, key.device, key.version)
      && t.status[key.device].desired == Some(key.version) && t.status[key.device].source == Database
      && (InSync(t, key.device) <==>
            trial.Waited? && (!config.enabled || config.protocol == Mqtt || trial.connected))
      && (!InSync(t, key.device) ==>
            && t.status[key.device].apply == Failed
            && t.status[key.device].applied == s.gateway.value.AppliedVersion(key.device)
            && t.gateway.value.registry == s.gateway.value.registry
            && t.gateway.value.runtimes == s.gateway.value.runtimes
            && t.gateway.value.applied == s.gateway.value.applied)
  {
    PublishedRow(s.rows, key, now);
    var s1 := PublishStep(s, request, key, true, now);
    assert s1.requests - {request} == s.requests;
    ApplyOutcome(s1, request, key.device, key.version, trial);
  }

  /** A disabled device, or one that only listens, needs no connection: publishing it over any wait
      ends in sync, with the new definition installed. */
  lemma PassivePublishes(s: System, request: nat, key: Key, now: int, connected: bool)
    requires RowsOk(s.rows) && s.Up() && request !in s.requests && key in s.rows && !s.rows[key].Promoted()
    requires !s.rows[key].config.enabled || s.rows[key].config.protocol == Mqtt
    ensures var t := Finish(PublishStep(s, request, key, true, now), request, Waited(connected));
      && t.Up() && InSync(t, key.device)
      && t.gateway.value.AppliedVersion(key.device) == Some(key.version)
      && RunsFor(t.gateway.value, key.device) == Some(s.rows[key].config)
  {
    PublishOutcome(s, request, key, now, Waited(connected));
    PublishedRow(s.rows, key, now);
    ApplyOutcome(PublishStep(s, request, key, true, now), request, key.device, key.version, Waited(connected));
  }

  /** Retrying the published version: in sync exactly when the gateway accepted it, and the row says
      which version was asked for. */
  lemma ApplyCurrentOutcome(s: System, request: nat, device: string, version: nat, trial: Trial)
    requires RowsOk(s.rows) && s.Up() && request !in s.requests && IsPublished(s.rows, device, version)
    ensures var config := s.rows[Key(device, version)].config;
      var t := Finish(Next(s, ApplyCurrent(request, device, version)), request, trial);
      && t.Up() && t.rows == s.rows && t.requests == s.requests
      && t.status[device].desired == Some(version) && t.status[device].source == Database
      && (InSync(t, device) <==> trial.Waited? && (!config.enabled || config.protocol == Mqtt || trial.connected))
  {
    var s1 := ApplyStep(s, request, device, version);
    assert s1.requests - {request} == s.requests;
    assert RowOk(Key(device, version), s.rows[Key(device, version)]);
    ApplyOutcome(s1, request, device, version, trial);
  }

  /** Removing a device takes its status row with it, and is refused exactly while it has
      configuration rows. */
  lemma RetireHolds(s: System, device: string)
    ensures var t := Next(s, Retire(device));
      if exists k :: k in s.rows && k.device == device then t == s
      else
        && t.registered == s.registered - {device} && t.status == s.status - {device}
        && t.rows == s.rows && t.gateway == s.gateway && t.requests == s.requests
  {}

  /** What the environment does to the state: a crash leaves exactly the database, an abandoned request
      takes only itself away, and adding a device adds only that. */
  lemma EnvironmentHolds(s: System, request: nat, device: string)
    ensures Next(s, Crash) == System(s.registered, s.rows, s.status, None, map[])
    ensures var t := Next(s, Abandon(request));
      && request !in t.requests && (forall r :: r != request && r in s.requests ==> r in t.requests)
      && (forall r :: r in t.requests ==> r in s.requests && t.requests[r] == s.requests[r])
      && t == s.(requests := t.requests)
    ensures var t := Next(s, Enroll(device));
      t == s.(registered := t.registered) && forall d :: d in t.registered <==> d in s.registered || d == device
  {}
}

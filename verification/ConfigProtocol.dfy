/** Publishing, applying and recovering a configuration, as a protocol between the durable
    database and the volatile gateway. Each step is one commit, one gateway call, a crash, an
    abandoned request or a start that ran to its end. Any number of requests may be in flight, for
    one device or for many, and their steps interleave freely. */
module ConfigProtocol {
  import opened Options
  import opened Gateway
  import opened ConfigStore

  datatype ApplyStatus = Pending | Applying | Applied | Failed
  datatype Source = Database | Bootstrap

  /** A row of `device_configuration_runtime_status`. */
  datatype StatusRow = StatusRow(desired: Option<nat>, applied: Option<nat>, apply: ApplyStatus, source: Source)

  /** Where an in-flight request stands: `Committed` after the publish commit (or after an apply
      request read the published version), `Marked` after the APPLYING commit, `Called` after the
      gateway answered. */
  datatype Request =
    | Committed(device: string, version: nat)
    | Marked(device: string, version: nat, definition: Definition)
    | Called(device: string, version: nat, ok: bool)

  /** `registered` are the ids of the `devices` table, which both configuration tables refer to. */
  datatype System = System(
    registered: set<string>,
    rows: Rows,
    status: map<string, StatusRow>,
    gateway: Option<State>,
    requests: map<nat, Request>)
  {
    predicate Up() { gateway.Some? }
    predicate Idle(device: string) { forall r :: r in requests ==> requests[r].device != device }
  }

  /** One device's effective definition and where it came from. */
  datatype Resolved = Resolved(device: string, definition: Definition, version: Option<nat>, source: Source)

  /** Requests are told apart by a number. `writes` says whether the database accepts the status rows
      of a start. */
  datatype Step =
    | Enroll(device: string)
    | Retire(device: string)
    | Edit(tx: Tx)
    | Publish(request: nat, key: Key, valid: bool, now: int)
    | ApplyCurrent(request: nat, device: string, version: nat)
    | MarkApplying(request: nat)
    | CallGateway(request: nat, trial: Trial)
    | RecordApply(request: nat)
    | Abandon(request: nat)
    | Crash
    | Restart(published: seq<Resolved>, bootstrap: seq<Definition>, connected: set<string>, writes: bool)
    | BlindRestart(bootstrap: seq<Definition>, connected: set<string>, writes: bool)

  const INIT := System({}, map[], map[], None, map[])

  // ---------------------------------------------------------------- request steps

  /** The foreign keys: a device with configuration rows cannot be removed, and its status row goes
      with it. */
  function RetireStep(s: System, device: string): System {
    if exists k :: k in s.rows && k.device == device then s
    else s.(registered := s.registered - {device}, status := s.status - {device})
  }

  /** Editing and cloning go through existing rows; a new draft needs a registered device. */
  ghost function EditStep(s: System, tx: Tx): System {
    if !s.Up() || tx.TxPublish? || (tx.TxCreate? && tx.device !in s.registered) then s
    else s.(rows := Commit(s.rows, tx))
  }

  ghost function PublishStep(s: System, request: nat, key: Key, valid: bool, now: int): System {
    if !s.Up() || request in s.requests then s
    else if key in s.rows && !s.rows[key].Promoted() && valid then
      s.(rows := PublishVersion(s.rows, key, valid, now),
         requests := s.requests[request := Committed(key.device, key.version)])
    else s.(rows := PublishVersion(s.rows, key, valid, now))
  }

  ghost function ApplyStep(s: System, request: nat, device: string, version: nat): System {
    if s.Up() && request !in s.requests && IsPublished(s.rows, device, version)
    then s.(requests := s.requests[request := Committed(device, version)])
    else s
  }

  /** The request is about to commit its APPLYING row. */
  predicate Marks(s: System, request: nat) {
    && s.Up() && request in s.requests && s.requests[request].Committed?
    && Key(s.requests[request].device, s.requests[request].version) in s.rows
  }

  ghost function MarkStep(s: System, request: nat): System {
    if Marks(s, request) then
      var Committed(d, v) := s.requests[request];
      s.(status := s.status[d := StatusRow(Some(v), s.gateway.value.AppliedVersion(d), Applying, Database)],
         requests := s.requests[request := Marked(d, v, s.rows[Key(d, v)].config)])
    else s
  }

  /** The request is about to call the gateway. */
  predicate Calls(s: System, request: nat) {
    s.Up() && request in s.requests && s.requests[request].Marked?
  }

  function CallStep(s: System, request: nat, trial: Trial): System {
    if Calls(s, request) then
      var Marked(d, v, definition) := s.requests[request];
      s.(gateway := Some(Apply(s.gateway.value, definition, Some(v), trial)),
         requests := s.requests[request := Called(d, v, Accepted(definition, trial))])
    else s
  }

  /** The request is about to commit its outcome. */
  predicate Records(s: System, request: nat) {
    s.Up() && request in s.requests && s.requests[request].Called?
  }

  function RecordStep(s: System, request: nat): System {
    if Records(s, request) then
      var Called(d, v, ok) := s.requests[request];
      var applied := if ok then Some(v) else s.gateway.value.AppliedVersion(d);
      s.(status := s.status[d := StatusRow(Some(v), applied, if ok then Applied else Failed, Database)],
         requests := s.requests - {request})
    else s
  }

  /** What is left of a request once its publication is committed: mark, call, record. */
  ghost function Finish(s: System, request: nat, trial: Trial): System {
    RecordStep(CallStep(MarkStep(s, request), request, trial), request)
  }

  // ---------------------------------------------------------------- restart

  /** The published rows, each listed once. */
  ghost predicate Lists(rows: Rows, published: seq<Resolved>) {
    && (forall i :: 0 <= i < |published| ==> ListedOk(rows, published[i]))
    && (forall i, j :: 0 <= i < j < |published| ==> published[i].device != published[j].device)
    && (forall d :: HasPublished(rows, d) ==> d in Devices(published))
  }

  ghost predicate ListedOk(rows: Rows, item: Resolved) {
    && item.source == Database && item.version.Some?
    && IsPublished(rows, item.device, item.version.value)
    && item.definition == rows[Key(item.device, item.version.value)].config
  }

  /** The bootstrap file fills in the devices that have no published version. */
  function FillIn(managed: set<string>, bootstrap: seq<Definition>): seq<Resolved> {
    if bootstrap == [] then []
    else
      var n := |bootstrap| - 1;
      var d, before := bootstrap[n], FillIn(managed, bootstrap[..n]);
      if d.deviceId in managed then before else before + [Resolved(d.deviceId, d, None, Bootstrap)]
  }

  lemma {:induction false} FilledIn(managed: set<string>, bootstrap: seq<Definition>, i: nat)
    requires i < |FillIn(managed, bootstrap)|
    ensures var item := FillIn(managed, bootstrap)[i];
      && item.source == Bootstrap && item.version == None
      && item.device !in managed && item.device == item.definition.deviceId
  {
    var n := |bootstrap| - 1;
    if i < |FillIn(managed, bootstrap[..n])| { FilledIn(managed, bootstrap[..n], i); }
  }

  function Devices(items: seq<Resolved>): set<string> {
    set i | 0 <= i < |items| :: items[i].device
  }

  /** Published devices first, then the bootstrap devices that have no published version. */
  function Resolve(published: seq<Resolved>, bootstrap: seq<Definition>): seq<Resolved> {
    published + FillIn(Devices(published), bootstrap)
  }

  function Definitions(items: seq<Resolved>): seq<Definition> {
    seq(|items|, i requires 0 <= i < |items| => items[i].definition)
  }

  /** Confirm each resolved device in turn and write its status row. */
  function Reconcile(g: State, status: map<string, StatusRow>, items: seq<Resolved>, connected: set<string>)
    : (State, map<string, StatusRow>)
  {
    if items == [] then (g, status)
    else
      var n := |items| - 1;
      var (h, table) := Reconcile(g, status, items[..n], connected);
      var item := items[n];
      if item.source == Database then
        var ok := item.device in h.runtimes.at
          && Ready(h.runtimes.at[item.device].definition, item.device in connected);
        (ConfirmReady(h, item.device, item.version, item.device in connected),
         table[item.device :=
           StatusRow(item.version, if ok then item.version else None, if ok then Applied else Failed, Database)])
      else
        (h, table[item.device := StatusRow(item.version, None, Pending, Bootstrap)])
  }

  /** The status rows of a start can be written: there are none, or the database takes them, which
      for its foreign key means that every device is registered. */
  predicate Writable(s: System, items: seq<Resolved>, writes: bool) {
    items == [] || (writes && Devices(items) <= s.registered)
  }

  /** Build a gateway from the resolved definitions and reconcile. A repeated device id, or a status
      row that cannot be written, stops the process from coming up and leaves nothing behind. */
  function ComeUp(s: System, items: seq<Resolved>, connected: set<string>, writes: bool): System {
    if !s.Up() && Loadable(EMPTY.registry, Definitions(items)) && Writable(s, items, writes) then
      var (g, table) := Reconcile(RegisterAll(EMPTY, Definitions(items)), s.status, items, connected);
      s.(gateway := Some(g), status := table, requests := map[])
    else s
  }

  ghost function RestartStep(s: System, published: seq<Resolved>, bootstrap: seq<Definition>, connected: set<string>,
                             writes: bool): System
  {
    if Lists(s.rows, published) then ComeUp(s, Resolve(published, bootstrap), connected, writes) else s
  }

  /** A restart whose database read failed starts from the bootstrap file alone. */
  function BlindStep(s: System, bootstrap: seq<Definition>, connected: set<string>, writes: bool): System {
    ComeUp(s, Resolve([], bootstrap), connected, writes)
  }

  // ---------------------------------------------------------------- runs

  ghost function Next(s: System, step: Step): System {
    match step
    case Enroll(device) => s.(registered := s.registered + {device})
    case Retire(device) => RetireStep(s, device)
    case Edit(tx) => EditStep(s, tx)
    case Publish(request, key, valid, now) => PublishStep(s, request, key, valid, now)
    case ApplyCurrent(request, device, version) => ApplyStep(s, request, device, version)
    case MarkApplying(request) => MarkStep(s, request)
    case CallGateway(request, trial) => CallStep(s, request, trial)
    case RecordApply(request) => RecordStep(s, request)
    case Abandon(request) => s.(requests := s.requests - {request})
    case Crash => s.(gateway := None, requests := map[])
    case Restart(published, bootstrap, connected, writes) => RestartStep(s, published, bootstrap, connected, writes)
    case BlindRestart(bootstrap, connected, writes) => BlindStep(s, bootstrap, connected, writes)
  }

  ghost function Run(steps: seq<Step>): System {
    if steps == [] then INIT else var n := |steps| - 1; Next(Run(steps[..n]), steps[n])
  }

  lemma RunSnoc(steps: seq<Step>, step: Step)
    ensures Run(steps + [step]) == Next(Run(steps), step)
  {
    assert (steps + [step])[..|steps|] == steps;
  }

  lemma RunPrefix(steps: seq<Step>, i: nat)
    requires i < |steps|
    ensures Run(steps[..i + 1]) == Next(Run(steps[..i]), steps[i])
  {
    assert steps[..i + 1] == steps[..i] + [steps[i]];
    RunSnoc(steps[..i], steps[i]);
  }

  // ---------------------------------------------------------------- what status() reports

  /** `status(device)["in_sync"]`: the desired version is the recorded applied version, and the
      last recorded attempt succeeded. */
  ghost predicate InSync(s: System, device: string) {
    && device in s.status
    && s.status[device].apply == Applied
    && s.status[device].applied.Some?
    && IsPublished(s.rows, device, s.status[device].applied.value)
  }

  // ---------------------------------------------------------------- invariant

  ghost predicate PromotedAny(rows: Rows, device: string, version: nat) {
    Key(device, version) in rows && rows[Key(device, version)].Promoted()
  }

  ghost predicate PromotedAs(rows: Rows, device: string, version: nat, d: Definition) {
    PromotedAny(rows, device, version) && rows[Key(device, version)].config == d
  }

  function Get<V>(m: map<string, V>, k: string): Option<V> {
    if k in m then Some(m[k]) else None
  }

  function RunsFor(g: State, device: string): Option<Definition> {
    if device in g.runtimes.at then Some(g.runtimes.at[device].definition) else None
  }

  /** A row that says APPLIED or APPLYING belongs to a device with a published version. */
  ghost predicate BackedFor(s: System, device: string) {
    device in s.status && s.status[device].apply in {Applied, Applying} ==> HasPublished(s.rows, device)
  }

  /** The version the gateway names is a promoted row, and the runtime was built from it. */
  ghost predicate RunsPromoted(rows: Rows, device: string, runs: Option<Definition>, applied: Option<nat>) {
    applied.Some? ==> runs.Some? && PromotedAs(rows, device, applied.value, runs.value)
  }

  ghost predicate OkFor(s: System, device: string) {
    && BackedFor(s, device)
    && (s.Up() ==>
          RunsPromoted(s.rows, device, RunsFor(s.gateway.value, device), s.gateway.value.AppliedVersion(device)))
  }

  /** A request is about a promoted version of a device that has a published one. */
  ghost predicate RequestOk(rows: Rows, q: Request) {
    && HasPublished(rows, q.device) && PromotedAny(rows, q.device, q.version)
    && (q.Marked? ==> PromotedAs(rows, q.device, q.version, q.definition) && q.definition.deviceId == q.device)
  }

  ghost predicate RequestsOk(rows: Rows, requests: map<nat, Request>) {
    forall r :: r in requests ==> RequestOk(rows, requests[r])
  }

  /** The foreign keys hold. */
  ghost predicate KeysHold(s: System) {
    && (forall k :: k in s.rows ==> k.device in s.registered)
    && (forall d :: d in s.status ==> d in s.registered)
  }

  ghost predicate Inv(s: System) {
    && RowsOk(s.rows)
    && KeysHold(s)
    && (s.Up() ==> s.gateway.value.Agree())
    && (!s.Up() ==> s.requests == map[])
    && RequestsOk(s.rows, s.requests)
    && (forall d :: OkFor(s, d))
  }

  /** Evolving rows keep everything the invariant says about promoted rows. */
  lemma RowsMove(s: System, rows: Rows)
    requires Inv(s) && RowsOk(rows) && Evolves(s.rows, rows) && forall k :: k in rows ==> k.device in s.registered
    ensures Inv(s.(rows := rows))
  {
    forall d ensures OkFor(s.(rows := rows), d) { assert OkFor(s, d); }
    forall r | r in s.requests ensures RequestOk(rows, s.requests[r]) { assert RequestOk(s.rows, s.requests[r]); }
  }

  /** A step that only changes requests. */
  lemma RequestsMove(s: System, requests: map<nat, Request>)
    requires Inv(s) && s.Up() && RequestsOk(s.rows, requests)
    ensures Inv(s.(requests := requests))
  {
    forall d ensures OkFor(s.(requests := requests), d) { assert OkFor(s, d); }
  }

  /** A step that leaves rows and registrations alone only has to answer for its own device. */
  lemma OneDevice(s: System, t: System, device: string)
    requires Inv(s) && s.Up() && t.Up() && t.rows == s.rows && t.registered == s.registered
    requires t.gateway.value.Agree() && RequestsOk(t.rows, t.requests)
    requires device in s.registered && OkFor(t, device)
    requires forall d :: d != device ==> SameElsewhere(s, t, d)
    ensures Inv(t)
  {
    forall d ensures OkFor(t, d) {
      if d != device { assert OkFor(s, d) && SameElsewhere(s, t, d); }
    }
    forall d | d in t.status ensures d in t.registered {
      if d != device { assert SameElsewhere(s, t, d); }
    }
  }

  ghost predicate SameElsewhere(s: System, t: System, d: string)
    requires s.Up() && t.Up()
  {
    && Get(t.status, d) == Get(s.status, d)
    && RunsFor(t.gateway.value, d) == RunsFor(s.gateway.value, d)
    && t.gateway.value.AppliedVersion(d) == s.gateway.value.AppliedVersion(d)
  }

  lemma CommittedKeeps(s: System, request: nat, device: string, version: nat)
    requires Inv(s) && s.Up() && IsPublished(s.rows, device, version)
    ensures Inv(s.(requests := s.requests[request := Committed(device, version)]))
  {
    assert RequestOk(s.rows, Committed(device, version));
    RequestsMove(s, s.requests[request := Committed(device, version)]);
  }

  lemma PublishKeeps(s: System, request: nat, key: Key, valid: bool, now: int)
    requires Inv(s)
    ensures Inv(PublishStep(s, request, key, valid, now))
  {
    if s.Up() && request !in s.requests {
      PublishOk(s.rows, key, valid, now);
      RowsMove(s, PublishVersion(s.rows, key, valid, now));
      if key in s.rows && !s.rows[key].Promoted() && valid { PublishAccepted(s, request, key, now); }
    }
  }

  lemma PublishAccepted(s: System, request: nat, key: Key, now: int)
    requires RowsOk(s.rows) && s.Up() && request !in s.requests && key in s.rows && !s.rows[key].Promoted()
    requires Inv(s.(rows := PublishVersion(s.rows, key, true, now)))
    ensures Inv(PublishStep(s, request, key, true, now))
  {
    PublishEvolves(s.rows, key, now);
    CommittedKeeps(s.(rows := PublishVersion(s.rows, key, true, now)), request, key.device, key.version);
  }

  lemma MarkOk(s: System, request: nat)
    requires Inv(s) && Marks(s, request)
    ensures var t := MarkStep(s, request); var d := s.requests[request].device;
      OkFor(t, d) && RequestsOk(t.rows, t.requests) && d in s.registered
  {
    var q := s.requests[request];
    assert RequestOk(s.rows, q) && OkFor(s, q.device);
    assert RowOk(Key(q.device, q.version), s.rows[Key(q.device, q.version)]);
  }

  lemma MarkKeeps(s: System, request: nat)
    requires Inv(s)
    ensures Inv(MarkStep(s, request))
  {
    if Marks(s, request) {
      MarkOk(s, request);
      OneDevice(s, MarkStep(s, request), s.requests[request].device);
    }
  }

  lemma ApplyElsewhere(g: State, d: Definition, version: Option<nat>, trial: Trial, e: string)
    requires e != d.deviceId
    ensures RunsFor(Apply(g, d, version, trial), e) == RunsFor(g, e)
    ensures Apply(g, d, version, trial).AppliedVersion(e) == g.AppliedVersion(e)
  {}

  lemma CallOk(s: System, request: nat, trial: Trial)
    requires Inv(s) && Calls(s, request)
    ensures var d := s.requests[request].device;
      OkFor(CallStep(s, request, trial), d) && d in s.registered && s.requests[request].definition.deviceId == d
  {
    var q := s.requests[request];
    assert RequestOk(s.rows, q) && OkFor(s, q.device);
  }

  lemma CalledOk(s: System, request: nat, trial: Trial)
    requires RequestsOk(s.rows, s.requests) && Calls(s, request)
    ensures RequestsOk(s.rows, CallStep(s, request, trial).requests)
  {
    assert RequestOk(s.rows, s.requests[request]);
  }

  lemma CallKeeps(s: System, request: nat, trial: Trial)
    requires Inv(s)
    ensures Inv(CallStep(s, request, trial))
  {
    if Calls(s, request) {
      var Marked(d, v, definition) := s.requests[request];
      var t := CallStep(s, request, trial);
      CallOk(s, request, trial);
      CalledOk(s, request, trial);
      forall e | e != d ensures SameElsewhere(s, t, e) {
        ApplyElsewhere(s.gateway.value, definition, Some(v), trial, e);
      }
      ApplyKeeps(s.gateway.value, definition, Some(v), trial);
      OneDevice(s, t, d);
    }
  }

  lemma RecordOk(s: System, request: nat)
    requires Inv(s) && Records(s, request)
    ensures var t := RecordStep(s, request); var d := s.requests[request].device;
      OkFor(t, d) && RequestsOk(t.rows, t.requests) && d in s.registered
  {
    var q := s.requests[request];
    assert RequestOk(s.rows, q) && OkFor(s, q.device);
  }

  lemma RecordKeeps(s: System, request: nat)
    requires Inv(s)
    ensures Inv(RecordStep(s, request))
  {
    if Records(s, request) {
      RecordOk(s, request);
      OneDevice(s, RecordStep(s, request), s.requests[request].device);
    }
  }

  lemma AbandonKeeps(s: System, request: nat)
    requires Inv(s)
    ensures Inv(s.(requests := s.requests - {request}))
  {
    if s.Up() {
      RequestsMove(s, s.requests - {request});
    } else {
      assert s.(requests := s.requests - {request}) == s;
    }
  }

  lemma CrashKeeps(s: System)
    requires Inv(s)
    ensures Inv(s.(gateway := None, requests := map[]))
  {
    forall d ensures OkFor(s.(gateway := None, requests := map[]), d) { assert OkFor(s, d); }
  }

  lemma EnrollKeeps(s: System, device: string)
    requires Inv(s)
    ensures Inv(s.(registered := s.registered + {device}))
  {
    forall d ensures OkFor(s.(registered := s.registered + {device}), d) { assert OkFor(s, d); }
  }

  lemma RetireKeeps(s: System, device: string)
    requires Inv(s)
    ensures Inv(RetireStep(s, device))
  {
    forall d ensures OkFor(RetireStep(s, device), d) { assert OkFor(s, d); }
  }

  // ---------------------------------------------------------------- reconciliation

  ghost predicate Distinct(items: seq<Resolved>) {
    forall i, j :: 0 <= i < j < |items| ==> items[i].device != items[j].device
  }

  /** The verdict on one reconciled device: applied exactly when it came from the database and its
      runtime is ready, and then the gateway names the same version. */
  ghost predicate Settled(g: State, status: map<string, StatusRow>, item: Resolved, connected: set<string>) {
    var ok := item.source == Database && item.device in g.runtimes.at
              && Ready(g.runtimes.at[item.device].definition, item.device in connected);
    && item.device in status
    && status[item.device].apply == (if ok then Applied else if item.source == Database then Failed else Pending)
    && status[item.device].applied == (if ok then item.version else None)
    && status[item.device].desired == item.version && status[item.device].source == item.source
    && g.AppliedVersion(item.device) == (if ok then item.version else None)
  }

  lemma {:induction false} ReconcileFrame(g: State, status: map<string, StatusRow>, items: seq<Resolved>,
                                          connected: set<string>, d: string)
    ensures var (h, table) := Reconcile(g, status, items, connected);
      && h.registry == g.registry && h.runtimes == g.runtimes
      && (d !in Devices(items) ==> Get(table, d) == Get(status, d) && Get(h.applied, d) == Get(g.applied, d))
  {
    if items == [] {
    } else {
      var n := |items| - 1;
      ReconcileFrame(g, status, items[..n], connected, d);
      DevicesSnoc(items);
    }
  }

  lemma DevicesSnoc(items: seq<Resolved>)
    requires items != []
    ensures var n := |items| - 1; Devices(items) == Devices(items[..n]) + {items[n].device}
  {
    var n := |items| - 1;
    forall d | d in Devices(items[..n]) ensures d in Devices(items) {
      var i :| 0 <= i < n && items[..n][i].device == d;
      assert items[i].device == d;
    }
    forall d | d in Devices(items) && d != items[n].device ensures d in Devices(items[..n]) {
      var i :| 0 <= i < |items| && items[i].device == d;
      assert items[..n][i].device == d;
    }
  }

  lemma {:induction false} ReconcileSettles(g: State, status: map<string, StatusRow>, items: seq<Resolved>,
                                            connected: set<string>, i: nat)
    requires Distinct(items) && i < |items| && g.applied == map[]
    ensures var (h, table) := Reconcile(g, status, items, connected);
      Settled(h, table, items[i], connected)
  {
    var n := |items| - 1;
    var (h0, t0) := Reconcile(g, status, items[..n], connected);
    if i < n {
      ReconcileSettles(g, status, items[..n], connected, i);
      assert items[..n][i] == items[i] && items[i].device != items[n].device;
    } else {
      assert items[n].device !in Devices(items[..n]);
      ReconcileFrame(g, status, items[..n], connected, items[n].device);
      assert h0.AppliedVersion(items[n].device) == None;
    }
  }

  /** Every item is about the device its definition names. */
  ghost predicate Named(items: seq<Resolved>) {
    forall i :: 0 <= i < |items| ==> items[i].definition.deviceId == items[i].device
  }

  lemma LoadableMeansDistinct(items: seq<Resolved>)
    requires Loadable(EMPTY.registry, Definitions(items)) && Named(items)
    ensures Distinct(items)
  {
    forall i, j | 0 <= i < j < |items| ensures items[i].device != items[j].device {
      assert Definitions(items)[i].deviceId != Definitions(items)[j].deviceId;
    }
  }

  /** A resolved device after the start: its verdict, and the definition it runs. */
  ghost predicate Started(t: System, item: Resolved, connected: set<string>)
    requires t.Up()
  {
    && Settled(t.gateway.value, t.status, item, connected)
    && RunsFor(t.gateway.value, item.device) == Some(item.definition)
  }

  ghost predicate LeftAlone(s: System, t: System, d: string)
    requires t.Up()
  {
    && Get(t.status, d) == Get(s.status, d)
    && t.gateway.value.AppliedVersion(d) == None && RunsFor(t.gateway.value, d) == None
  }

  /** What a completed start leaves behind. */
  ghost predicate CameUp(s: System, t: System, items: seq<Resolved>, connected: set<string>) {
    && t.Up() && t.gateway.value.Agree() && t.requests == map[]
    && t.rows == s.rows && t.registered == s.registered && Devices(items) <= s.registered
    && (forall i :: 0 <= i < |items| ==> Started(t, items[i], connected))
    && (forall d :: d !in Devices(items) ==> LeftAlone(s, t, d))
  }

  /** The gateway a start builds, before anything is confirmed. */
  lemma LoadedGateway(items: seq<Resolved>)
    requires Loadable(EMPTY.registry, Definitions(items)) && Named(items)
    ensures var g := RegisterAll(EMPTY, Definitions(items));
      && g.Agree() && g.applied == map[]
      && (forall i :: 0 <= i < |items| ==> RunsFor(g, items[i].device) == Some(items[i].definition))
      && (forall d :: d !in Devices(items) ==> RunsFor(g, d) == None)
  {
    var batch := Definitions(items);
    RegisterAllIsSequential(EMPTY, batch);
    RegisterEachKeeps(EMPTY, batch);
    FreshlyUnversioned(batch);
    var g := RegisterEach(EMPTY, batch);
    forall i | 0 <= i < |items| ensures RunsFor(g, items[i].device) == Some(items[i].definition) {
      FreshlyLoaded(batch, i);
    }
    forall d | d !in Devices(items) ensures RunsFor(g, d) == None {
      NamedIds(items, d);
      UnknownId(batch, d);
    }
  }

  lemma NamedIds(items: seq<Resolved>, d: string)
    requires Named(items)
    ensures d in Ids(Definitions(items)) <==> d in Devices(items)
  {
    var ids := Ids(Definitions(items));
    if d in Devices(items) {
      var i :| 0 <= i < |items| && items[i].device == d;
      assert ids[i] == d;
    }
    if d in ids {
      var i :| 0 <= i < |ids| && ids[i] == d;
      assert items[i].device == d;
    }
  }

  /** Confirming names versions only of devices that have a runtime. */
  lemma ConfirmedAgrees(g: State, status: map<string, StatusRow>, items: seq<Resolved>, connected: set<string>)
    requires g.Agree() && g.applied == map[]
    requires forall i :: 0 <= i < |items| ==> RunsFor(g, items[i].device) == Some(items[i].definition)
    ensures var h := Reconcile(g, status, items, connected).0;
      h.Agree() && h.registry == g.registry && h.runtimes == g.runtimes
  {
    var h := Reconcile(g, status, items, connected).0;
    ReconcileFrame(g, status, items, connected, "");
    forall d | d in h.applied ensures d in g.runtimes.at {
      ReconcileFrame(g, status, items, connected, d);
      assert d in Devices(items);
      var i :| 0 <= i < |items| && items[i].device == d;
      assert RunsFor(g, items[i].device) == Some(items[i].definition);
    }
  }

  lemma ComesUp(s: System, items: seq<Resolved>, connected: set<string>, writes: bool)
    requires !s.Up() && ComeUp(s, items, connected, writes).Up() && Named(items)
    ensures CameUp(s, ComeUp(s, items, connected, writes), items, connected)
  {
    var g, t := RegisterAll(EMPTY, Definitions(items)), ComeUp(s, items, connected, writes);
    LoadedGateway(items);
    LoadableMeansDistinct(items);
    ConfirmedAgrees(g, s.status, items, connected);
    forall d | d !in Devices(items) ensures LeftAlone(s, t, d) {
      ReconcileFrame(g, s.status, items, connected, d);
    }
    forall i | 0 <= i < |items| ensures Started(t, items[i], connected) {
      ReconcileSettles(g, s.status, items, connected, i);
    }
  }

  /** The database items are the published versions. */
  ghost predicate Faithful(rows: Rows, items: seq<Resolved>) {
    forall i :: 0 <= i < |items| && items[i].source == Database ==> ListedOk(rows, items[i])
  }

  /** Every device that has a published version is among the database items. */
  ghost predicate Complete(rows: Rows, items: seq<Resolved>) {
    forall d :: HasPublished(rows, d) ==> Covered(items, d)
  }

  ghost predicate Covered(items: seq<Resolved>, d: string) {
    exists i :: 0 <= i < |items| && items[i].source == Database && items[i].device == d
  }

  lemma RestartItems(rows: Rows, published: seq<Resolved>, bootstrap: seq<Definition>)
    requires RowsOk(rows) && Lists(rows, published)
    ensures var items := Resolve(published, bootstrap);
      && Named(items) && Faithful(rows, items) && Complete(rows, items)
      && |published| <= |items| && items[..|published|] == published
      && forall i :: |published| <= i < |items| ==> items[i].source == Bootstrap
  {
    var items := Resolve(published, bootstrap);
    assert items[..|published|] == published;
    forall i | |published| <= i < |items| ensures items[i].source == Bootstrap {
      FilledIn(Devices(published), bootstrap, i - |published|);
    }
    forall i | 0 <= i < |items|
      ensures items[i].definition.deviceId == items[i].device
      ensures items[i].source == Database ==> ListedOk(rows, items[i])
    {
      if i < |published| {
        assert items[i] == published[i] && ListedOk(rows, published[i]);
      } else {
        FilledIn(Devices(published), bootstrap, i - |published|);
      }
    }
    forall d | HasPublished(rows, d) ensures Covered(items, d) {
      var i :| 0 <= i < |published| && published[i].device == d;
      assert items[i] == published[i] && ListedOk(rows, published[i]);
    }
  }

  /** Without the database every item comes from the file. */
  lemma BlindItems(bootstrap: seq<Definition>)
    ensures var items := Resolve([], bootstrap);
      Named(items) && forall i :: 0 <= i < |items| ==> items[i].source == Bootstrap
  {
    var items := Resolve([], bootstrap);
    assert Devices([]) == {};
    forall i | 0 <= i < |items|
      ensures items[i].definition.deviceId == items[i].device && items[i].source == Bootstrap
    {
      FilledIn({}, bootstrap, i);
    }
  }

  /** After a start, a listed device satisfies the invariant by its verdict ... */
  lemma ListedDeviceOk(t: System, item: Resolved, connected: set<string>)
    requires t.Up() && RowsOk(t.rows) && (item.source == Database ==> ListedOk(t.rows, item))
    requires Started(t, item, connected)
    ensures OkFor(t, item.device)
  {
    assert item.source == Database ==> HasPublished(t.rows, item.device);
  }

  /** ... and any other device keeps its row and runs nothing. */
  lemma UnlistedDeviceOk(s: System, t: System, d: string)
    requires t.Up() && t.rows == s.rows && BackedFor(s, d) && LeftAlone(s, t, d)
    ensures OkFor(t, d)
  {
    assert d in t.status ==> t.status[d] == s.status[d];
  }

  lemma StartedOk(s: System, t: System, items: seq<Resolved>, connected: set<string>, d: string)
    requires CameUp(s, t, items, connected) && RowsOk(s.rows) && Faithful(s.rows, items) && BackedFor(s, d)
    ensures OkFor(t, d)
  {
    if d in Devices(items) {
      var i :| 0 <= i < |items| && items[i].device == d;
      assert Started(t, items[i], connected);
      ListedDeviceOk(t, items[i], connected);
    } else {
      UnlistedDeviceOk(s, t, d);
    }
  }

  lemma StartKeeps(s: System, t: System, items: seq<Resolved>, connected: set<string>)
    requires Inv(s) && CameUp(s, t, items, connected) && Faithful(s.rows, items)
    ensures Inv(t)
  {
    forall d ensures OkFor(t, d) {
      assert OkFor(s, d);
      StartedOk(s, t, items, connected, d);
    }
    forall d | d in t.status ensures d in t.registered {
      if d !in Devices(items) { assert LeftAlone(s, t, d); }
    }
  }

  lemma RestartKeeps(s: System, published: seq<Resolved>, bootstrap: seq<Definition>, connected: set<string>,
                     writes: bool)
    requires Inv(s)
    ensures Inv(Next(s, Restart(published, bootstrap, connected, writes)))
  {
    var items := Resolve(published, bootstrap);
    if Lists(s.rows, published) && !s.Up() && ComeUp(s, items, connected, writes).Up() {
      RestartItems(s.rows, published, bootstrap);
      ComesUp(s, items, connected, writes);
      StartKeeps(s, ComeUp(s, items, connected, writes), items, connected);
    }
  }

  /** A start from the file alone keeps the invariant as well. */
  lemma BlindKeeps(s: System, bootstrap: seq<Definition>, connected: set<string>, writes: bool)
    requires Inv(s)
    ensures Inv(Next(s, BlindRestart(bootstrap, connected, writes)))
  {
    var items := Resolve([], bootstrap);
    if !s.Up() && ComeUp(s, items, connected, writes).Up() {
      BlindItems(bootstrap);
      ComesUp(s, items, connected, writes);
      StartKeeps(s, ComeUp(s, items, connected, writes), items, connected);
    }
  }

  /** New keys of a transaction belong to its own device, which has rows already unless it creates. */
  lemma CommitKeys(rows: Rows, tx: Tx, k: Key)
    requires k in Commit(rows, tx) && k !in rows
    ensures (tx.TxCreate? && k.device == tx.device) || exists j :: j in rows && j.device == k.device
  {
    if tx.TxClone? { assert tx.key in rows && k.device == tx.key.device; }
  }

  lemma EditKeeps(s: System, tx: Tx)
    requires Inv(s)
    ensures Inv(Next(s, Edit(tx)))
  {
    if s.Up() && !tx.TxPublish? && (tx.TxCreate? ==> tx.device in s.registered) {
      var rows := Commit(s.rows, tx);
      CommitOk(s.rows, tx);
      forall k | k in rows ensures k.device in s.registered {
        if k !in s.rows { CommitKeys(s.rows, tx, k); }
      }
      RowsMove(s, rows);
    }
  }

  lemma RequestKeeps(s: System, step: Step)
    requires Inv(s)
    requires step.Publish? || step.ApplyCurrent? || step.MarkApplying? || step.CallGateway? || step.RecordApply?
    ensures Inv(Next(s, step))
  {
    match step
    case Publish(request, key, valid, now) => PublishKeeps(s, request, key, valid, now);
    case ApplyCurrent(request, device, version) =>
      if s.Up() && request !in s.requests && IsPublished(s.rows, device, version) {
        CommittedKeeps(s, request, device, version);
      }
    case MarkApplying(request) => MarkKeeps(s, request);
    case CallGateway(request, trial) => CallKeeps(s, request, trial);
    case RecordApply(request) => RecordKeeps(s, request);
  }

  lemma NextKeeps(s: System, step: Step)
    requires Inv(s)
    ensures Inv(Next(s, step))
  {
    match step
    case Enroll(device) => EnrollKeeps(s, device);
    case Retire(device) => RetireKeeps(s, device);
    case Edit(tx) => EditKeeps(s, tx);
    case Abandon(request) => AbandonKeeps(s, request);
    case Crash => CrashKeeps(s);
    case Restart(published, bootstrap, connected, writes) =>
      RestartKeeps(s, published, bootstrap, connected, writes);
    case BlindRestart(bootstrap, connected, writes) => BlindKeeps(s, bootstrap, connected, writes);
    case _ => RequestKeeps(s, step);
  }

  lemma OtherStepsKeepRows(s: System, step: Step)
    requires !step.Edit? && !step.Publish?
    ensures Next(s, step).rows == s.rows
  {}

  lemma NextEvolves(s: System, step: Step)
    requires RowsOk(s.rows)
    ensures Evolves(s.rows, Next(s, step).rows)
  {
    if step.Edit? { CommitOk(s.rows, step.tx); }
    else if step.Publish? { PublishOk(s.rows, step.key, step.valid, step.now); }
    else { OtherStepsKeepRows(s, step); }
  }

  lemma {:induction false} Reachable(steps: seq<Step>)
    ensures Inv(Run(steps))
  {
    if steps == [] {
    } else {
      var n := |steps| - 1;
      Reachable(steps[..n]);
      NextKeeps(Run(steps[..n]), steps[n]);
    }
  }

  // ---------------------------------------------------------------- theorems

  /** Snapshot fidelity. The version the gateway names is a promoted row, and the installed runtime
      was built from that row's configuration. */
  lemma {:induction false} SnapshotFidelity(steps: seq<Step>, device: string, version: nat)
    requires Run(steps).Up() && Run(steps).gateway.value.AppliedVersion(device) == Some(version)
    ensures var s := Run(steps); var g := s.gateway.value; var key := Key(device, version);
      && device in g.runtimes.at
      && key in s.rows && s.rows[key].status in {Published, Archived}
      && g.runtimes.at[device].definition == s.rows[key].config
  {
    Reachable(steps);
    assert OkFor(Run(steps), device);
  }

  /** Published history is immutable across crashes and restarts: what was promoted at moment `i`
      is promoted with the same content at every later moment. */
  lemma {:induction false} HistoryIsImmutable(steps: seq<Step>, i: nat)
    requires i <= |steps|
    ensures Evolves(Run(steps[..i]).rows, Run(steps).rows)
  {
    if i == |steps| {
      assert steps[..i] == steps;
    } else {
      var n := |steps| - 1;
      HistoryIsImmutable(steps[..n], i);
      assert steps[..n][..i] == steps[..i];
      Reachable(steps[..n]);
      NextEvolves(Run(steps[..n]), steps[n]);
      EvolvesTrans(Run(steps[..i]).rows, Run(steps[..n]).rows, Run(steps).rows);
    }
  }
}

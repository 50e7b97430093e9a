/** The device registry and the protocol gateway: who owns which runtime, and which
    configuration version that runtime was built from. */
module Gateway {
  import opened Options

  /** An insertion-ordered dictionary keyed by device id. Overwriting a key keeps its position. */
  datatype Dict<V> = Dict(order: seq<string>, at: map<string, V>) {
    /** The order lists the keys; as many entries as keys means no key twice (`NoRepeats`). */
    ghost predicate Valid() {
      (forall k :: k in order <==> k in at) && |order| == |at|
    }

    function Put(k: string, v: V): (d: Dict<V>)
      ensures Valid() ==> d.Valid()
      ensures order <= d.order
    {
      Dict(if k in at then order else order + [k], at[k := v])
    }
  }

  /** Position kept or last, one entry set, the others as they were: that is `Put`. */
  lemma PutIsUnique<V>(before: Dict<V>, after: Dict<V>, k: string, v: V)
    requires after.order == if k in before.at then before.order else before.order + [k]
    requires after.at.Keys == before.at.Keys + {k} && after.at[k] == v
    requires forall j :: j in before.at && j != k ==> after.at[j] == before.at[j]
    ensures after == before.Put(k, v)
  {
    assert after.at == before.at[k := v];
  }

  lemma {:induction false} CoveredBy(keys: set<string>, order: seq<string>)
    requires forall k :: k in keys ==> k in order
    ensures |keys| <= |order|
  {
    if order == [] {
      assert keys == {};
    } else {
      var rest := keys - {order[0]};
      forall k | k in rest ensures k in order[1..] { assert order == [order[0]] + order[1..]; }
      CoveredBy(rest, order[1..]);
      assert keys <= rest + {order[0]};
      assert |keys| <= |rest + {order[0]}| by { SubsetSize(keys, rest + {order[0]}); }
    }
  }

  lemma SubsetSize(a: set<string>, b: set<string>)
    requires a <= b
    ensures |a| <= |b|
  {
    assert b == a + (b - a);
  }

  /** No device is listed twice. */
  lemma NoRepeats<V>(d: Dict<V>, i: nat, j: nat)
    requires d.Valid() && i < j < |d.order|
    ensures d.order[i] != d.order[j]
  {
    var rest := d.order[..j] + d.order[j + 1..];
    if d.order[i] == d.order[j] {
      forall k | k in d.at.Keys ensures k in rest {
        var l :| 0 <= l < |d.order| && d.order[l] == k;
        var m := if l < j then l else if l == j then i else l - 1;
        assert rest[m] == k;
      }
      CoveredBy(d.at.Keys, rest);
    }
  }

  datatype Protocol = ModbusTcp | OpcUa | Simulator | Mqtt

  /** A device definition. `body` stands for the protocol block and the state labels,
      which the gateway passes on without looking at them. */
  datatype Definition = Definition(deviceId: string, protocol: Protocol, enabled: bool, body: string) {
    predicate Polled() { protocol != Mqtt }
  }

  /** A constructed device runtime. `serial` is its object identity. */
  datatype Runtime = Runtime(serial: nat, definition: Definition)

  /** What the environment decides while a candidate runtime is started and awaited. */
  datatype Trial = StartRaised | Waited(connected: bool)

  /** The gateway's volatile state. */
  datatype State = State(
    registry: Dict<Definition>,
    runtimes: Dict<Runtime>,
    applied: map<string, Option<nat>>,
    nextSerial: nat)
  {
    function AppliedVersion(device: string): Option<nat> {
      if device in applied then applied[device] else None
    }

    /** Registry and runtimes name the same devices in the same order, and every installed
        runtime was built from the registered definition of its device. */
    ghost predicate Agree() {
      && registry.Valid()
      && runtimes.Valid()
      && registry.order == runtimes.order
      && (forall k :: k in registry.at ==>
            k in runtimes.at && runtimes.at[k].definition == registry.at[k] && registry.at[k].deviceId == k)
      && (forall k :: k in runtimes.at ==> k in registry.at)
      && (forall k :: k in applied ==> k in runtimes.at)
    }
  }

  const EMPTY := State(Dict([], map[]), Dict([], map[]), map[], 0)

  // ---------------------------------------------------------------- transitions

  function RuntimeFor(g: State, d: Definition): State {
    if d.deviceId in g.runtimes.at then g
    else g.(runtimes := g.runtimes.Put(d.deviceId, Runtime(g.nextSerial, d)), nextSerial := g.nextSerial + 1)
  }

  function Register(g: State, d: Definition): State {
    if d.deviceId in g.registry.at then g
    else RuntimeFor(g.(registry := g.registry.Put(d.deviceId, d)), d)
  }

  /** A batch is loadable when it repeats no id and names no registered device. */
  predicate Loadable(known: Dict<Definition>, batch: seq<Definition>) {
    && (forall i :: 0 <= i < |batch| ==> batch[i].deviceId !in known.at)
    && (forall i, j :: 0 <= i < j < |batch| ==> batch[i].deviceId != batch[j].deviceId)
  }

  function PutAll(known: Dict<Definition>, batch: seq<Definition>): Dict<Definition> {
    if batch == [] then known
    else var n := |batch| - 1; PutAll(known, batch[..n]).Put(batch[n].deviceId, batch[n])
  }

  function RuntimesFor(g: State, batch: seq<Definition>): State {
    if batch == [] then g
    else var n := |batch| - 1; RuntimeFor(RuntimesFor(g, batch[..n]), batch[n])
  }

  function RegisterAll(g: State, batch: seq<Definition>): State {
    if Loadable(g.registry, batch) then RuntimesFor(g.(registry := PutAll(g.registry, batch)), batch) else g
  }

  /** A disabled or passive device has no connection of its own and counts as ready. */
  predicate Ready(d: Definition, connected: bool) {
    !d.enabled || !d.Polled() || connected
  }

  predicate Accepted(d: Definition, trial: Trial) {
    trial.Waited? && Ready(d, trial.connected)
  }

  /** Replace one device's runtime by a proven-healthy candidate, or leave everything alone. */
  function Apply(g: State, d: Definition, version: Option<nat>, trial: Trial): State {
    var built := g.(nextSerial := g.nextSerial + 1);
    if Accepted(d, trial) then
      built.(runtimes := g.runtimes.Put(d.deviceId, Runtime(g.nextSerial, d)),
             registry := g.registry.Put(d.deviceId, d),
             applied := g.applied[d.deviceId := version])
    else built
  }

  function ConfirmReady(g: State, device: string, version: Option<nat>, connected: bool): State {
    if device in g.runtimes.at && Ready(g.runtimes.at[device].definition, connected)
    then g.(applied := g.applied[device := version])
    else g
  }

  // ---------------------------------------------------------------- runs

  datatype Op =
    | OpRegister(d: Definition)
    | OpRegisterAll(batch: seq<Definition>)
    | OpApply(d: Definition, version: Option<nat>, trial: Trial)
    | OpConfirm(device: string, version: Option<nat>, connected: bool)

  function Do(g: State, op: Op): State {
    match op
    case OpRegister(d) => Register(g, d)
    case OpRegisterAll(batch) => RegisterAll(g, batch)
    case OpApply(d, version, trial) => Apply(g, d, version, trial)
    case OpConfirm(device, version, connected) => ConfirmReady(g, device, version, connected)
  }

  function RunOps(g: State, ops: seq<Op>): State {
    if ops == [] then g else var n := |ops| - 1; Do(RunOps(g, ops[..n]), ops[n])
  }

  function Ids(batch: seq<Definition>): seq<string> {
    seq(|batch|, i requires 0 <= i < |batch| => batch[i].deviceId)
  }

  lemma LoadableSnoc(known: Dict<Definition>, batch: seq<Definition>, i: nat)
    requires i < |batch|
    ensures Loadable(known, batch[..i + 1]) <==>
      Loadable(known, batch[..i]) && batch[i].deviceId !in known.at && batch[i].deviceId !in Ids(batch[..i])
  {
    var longer, shorter, id := batch[..i + 1], batch[..i], batch[i].deviceId;
    assert longer == shorter + [batch[i]];
    if Loadable(known, longer) {
      forall j | 0 <= j < i ensures Ids(shorter)[j] != id { assert longer[j] == shorter[j] && longer[i] == batch[i]; }
      forall j | 0 <= j < i ensures shorter[j].deviceId !in known.at { assert longer[j] == shorter[j]; }
      forall j, l | 0 <= j < l < i ensures shorter[j].deviceId != shorter[l].deviceId {
        assert longer[j] == shorter[j] && longer[l] == shorter[l];
      }
      assert longer[i] == batch[i];
    } else if Loadable(known, shorter) && id !in known.at && id !in Ids(shorter) {
      forall j | 0 <= j < i ensures shorter[j].deviceId != id { assert Ids(shorter)[j] == shorter[j].deviceId; }
    }
  }

  lemma {:induction false} PutAllKeys(known: Dict<Definition>, batch: seq<Definition>, k: string)
    ensures k in PutAll(known, batch).at <==> k in known.at || k in Ids(batch)
  {
    if batch == [] {
    } else {
      var n := |batch| - 1;
      PutAllKeys(known, batch[..n], k);
      assert Ids(batch) == Ids(batch[..n]) + [batch[n].deviceId];
    }
  }

  /** Registering the batch one device at a time. */
  function RegisterEach(g: State, batch: seq<Definition>): State {
    if batch == [] then g
    else var n := |batch| - 1; Register(RegisterEach(g, batch[..n]), batch[n])
  }

  /** Loading the registry first and building the runtimes afterwards gives exactly the state of
      registering a loadable batch one device at a time. */
  lemma {:induction false} BatchIsSequential(g: State, batch: seq<Definition>)
    requires Loadable(g.registry, batch)
    ensures RuntimesFor(g, batch).registry == g.registry && RuntimesFor(g, batch).applied == g.applied
    ensures RegisterEach(g, batch) == RuntimesFor(g, batch).(registry := PutAll(g.registry, batch))
  {
    if batch == [] {
    } else {
      var n := |batch| - 1;
      assert batch[..n + 1] == batch;
      LoadableSnoc(g.registry, batch, n);
      BatchIsSequential(g, batch[..n]);
      PutAllKeys(g.registry, batch[..n], batch[n].deviceId);
    }
  }

  lemma {:induction false} RegistryIrrelevant(g: State, reg: Dict<Definition>, batch: seq<Definition>)
    ensures RuntimesFor(g.(registry := reg), batch) == RuntimesFor(g, batch).(registry := reg)
  {
    if batch == [] {
    } else {
      RegistryIrrelevant(g, reg, batch[..|batch| - 1]);
    }
  }

  lemma RegisterAllIsSequential(g: State, batch: seq<Definition>)
    ensures RegisterAll(g, batch) == if Loadable(g.registry, batch) then RegisterEach(g, batch) else g
  {
    if Loadable(g.registry, batch) {
      BatchIsSequential(g, batch);
      RegistryIrrelevant(g, PutAll(g.registry, batch), batch);
    }
  }

  /** What must survive a step: agreement, and the configured order as a prefix. */
  ghost predicate Keeps(g: State, h: State) {
    g.Agree() ==> h.Agree() && g.registry.order <= h.registry.order
  }

  /** Registering a definition and installing its runtime under the same id. */
  lemma InstallKeeps(g: State, h: State, d: Definition)
    requires g.Agree() && h.registry == g.registry.Put(d.deviceId, d)
    requires h.runtimes == g.runtimes.Put(d.deviceId, Runtime(g.nextSerial, d))
    requires forall k :: k in h.applied ==> k in g.applied || k == d.deviceId
    ensures h.Agree() && g.registry.order <= h.registry.order
  {}

  lemma RegisterKeeps(g: State, d: Definition)
    ensures Keeps(g, Register(g, d))
  {
    if g.Agree() && d.deviceId !in g.registry.at { InstallKeeps(g, Register(g, d), d); }
  }

  lemma ApplyKeeps(g: State, d: Definition, version: Option<nat>, trial: Trial)
    ensures Keeps(g, Apply(g, d, version, trial))
  {
    if g.Agree() && Accepted(d, trial) { InstallKeeps(g, Apply(g, d, version, trial), d); }
  }

  lemma ConfirmKeeps(g: State, device: string, version: Option<nat>, connected: bool)
    ensures Keeps(g, ConfirmReady(g, device, version, connected))
  {}

  lemma {:induction false} RegisterEachKeeps(g: State, batch: seq<Definition>)
    ensures Keeps(g, RegisterEach(g, batch))
  {
    if batch == [] {
    } else {
      var n := |batch| - 1;
      RegisterEachKeeps(g, batch[..n]);
      RegisterKeeps(RegisterEach(g, batch[..n]), batch[n]);
    }
  }

  /** Every operation keeps agreement, and the configured order only ever grows at its end. */
  lemma DoKeeps(g: State, op: Op)
    ensures Keeps(g, Do(g, op))
  {
    match op
    case OpRegister(d) => RegisterKeeps(g, d);
    case OpRegisterAll(batch) => RegisterAllIsSequential(g, batch); RegisterEachKeeps(g, batch);
    case OpApply(d, version, trial) => ApplyKeeps(g, d, version, trial);
    case OpConfirm(device, version, connected) => ConfirmKeeps(g, device, version, connected);
  }

  /** Over all runs: agreement holds at the end of every run. */
  lemma {:induction false} RunsAgree(g: State, ops: seq<Op>)
    requires g.Agree()
    ensures RunOps(g, ops).Agree()
  {
    if ops == [] {
    } else {
      var n := |ops| - 1;
      RunsAgree(g, ops[..n]);
      DoKeeps(RunOps(g, ops[..n]), ops[n]);
    }
  }

  /** The device order of any earlier moment is a prefix of the order of any later one. */
  lemma {:induction false} RunsKeepOrder(g: State, ops: seq<Op>, i: nat)
    requires g.Agree() && i <= |ops|
    ensures RunOps(g, ops[..i]).registry.order <= RunOps(g, ops).registry.order
  {
    if i == |ops| {
      assert ops[..i] == ops;
    } else {
      var n := |ops| - 1;
      RunsKeepOrder(g, ops[..n], i);
      assert ops[..n][..i] == ops[..i];
      RunsAgree(g, ops[..n]);
      DoKeeps(RunOps(g, ops[..n]), ops[n]);
    }
  }

  /** No two devices share a runtime object, and no object of the future is installed yet. */
  ghost predicate Separate(g: State) {
    && (forall k :: k in g.runtimes.at ==> g.runtimes.at[k].serial < g.nextSerial)
    && (forall j, k :: j in g.runtimes.at && k in g.runtimes.at && j != k ==>
          g.runtimes.at[j].serial != g.runtimes.at[k].serial)
  }

  lemma {:induction false} RegisterEachSeparate(g: State, batch: seq<Definition>)
    requires Separate(g)
    ensures Separate(RegisterEach(g, batch))
  {
    if batch == [] {
    } else {
      RegisterEachSeparate(g, batch[..|batch| - 1]);
    }
  }

  lemma DoSeparate(g: State, op: Op)
    requires Separate(g)
    ensures Separate(Do(g, op))
  {
    if op.OpRegisterAll? {
      RegisterAllIsSequential(g, op.batch);
      RegisterEachSeparate(g, op.batch);
    }
  }

  /** Over all runs no two devices ever share a runtime object. */
  lemma {:induction false} RunsStaySeparate(g: State, ops: seq<Op>)
    requires Separate(g)
    ensures Separate(RunOps(g, ops))
  {
    if ops == [] {
    } else {
      var n := |ops| - 1;
      RunsStaySeparate(g, ops[..n]);
      DoSeparate(RunOps(g, ops[..n]), ops[n]);
    }
  }

  /** The view another device has of the gateway. */
  ghost predicate SameFor(device: string, g: State, h: State) {
    && (device in g.runtimes.at ==> device in h.runtimes.at && h.runtimes.at[device] == g.runtimes.at[device])
    && (device in g.registry.at ==> device in h.registry.at && h.registry.at[device] == g.registry.at[device])
    && h.AppliedVersion(device) == g.AppliedVersion(device)
  }

  predicate Targets(op: Op, device: string) {
    (op.OpApply? && op.d.deviceId == device) || (op.OpConfirm? && op.device == device)
  }

  lemma {:induction false} RegisterEachSame(g: State, batch: seq<Definition>, device: string)
    ensures SameFor(device, g, RegisterEach(g, batch))
  {
    if batch == [] {
    } else {
      RegisterEachSame(g, batch[..|batch| - 1], device);
    }
  }

  /** An installed runtime, its definition and its version change only through an apply or a
      confirmation of that very device that was accepted: any other run leaves the same object. */
  lemma {:induction false} RunsAreIsolated(g: State, ops: seq<Op>, device: string)
    requires forall op :: op in ops && Targets(op, device) ==> op.OpApply? && !Accepted(op.d, op.trial)
    ensures SameFor(device, g, RunOps(g, ops))
  {
    if ops == [] {
    } else {
      var n := |ops| - 1;
      RunsAreIsolated(g, ops[..n], device);
      var before, op := RunOps(g, ops[..n]), ops[n];
      assert op in ops;
      if op.OpRegisterAll? {
        RegisterAllIsSequential(before, op.batch);
        RegisterEachSame(before, op.batch, device);
      }
    }
  }

  /** A freshly built gateway runs exactly the loaded batch ... */
  lemma {:induction false} FreshlyLoaded(batch: seq<Definition>, i: nat)
    requires Loadable(EMPTY.registry, batch) && i < |batch|
    ensures var g := RegisterEach(EMPTY, batch);
      batch[i].deviceId in g.runtimes.at && g.runtimes.at[batch[i].deviceId].definition == batch[i]
  {
    var n := |batch| - 1;
    assert batch[..n + 1] == batch;
    LoadableSnoc(EMPTY.registry, batch, n);
    if i < n {
      FreshlyLoaded(batch[..n], i);
    } else {
      UnknownId(batch[..n], batch[n].deviceId);
    }
  }

  lemma UnknownId(batch: seq<Definition>, id: string)
    requires Loadable(EMPTY.registry, batch) && id !in Ids(batch)
    ensures id !in RegisterEach(EMPTY, batch).registry.at && id !in RegisterEach(EMPTY, batch).runtimes.at
  {
    RegisterEachKeeps(EMPTY, batch);
    BatchIsSequential(EMPTY, batch);
    PutAllKeys(EMPTY.registry, batch, id);
  }

  /** ... and names no version yet. */
  lemma {:induction false} FreshlyUnversioned(batch: seq<Definition>)
    ensures RegisterEach(EMPTY, batch).applied == map[]
  {
    if batch == [] {
    } else {
      FreshlyUnversioned(batch[..|batch| - 1]);
    }
  }

  // ---------------------------------------------------------------- the objects

  class DeviceRegistry {
    var devices: Dict<Definition>

    constructor ()
      ensures devices == Dict([], map[])
    {
      devices := Dict([], map[]);
    }

    method Register(d: Definition) returns (raised: bool)
      modifies this
      ensures raised <==> d.deviceId in old(devices).at
      ensures devices == if raised then old(devices) else old(devices).Put(d.deviceId, d)
    {
      raised := d.deviceId in devices.at;
      if !raised { devices := devices.Put(d.deviceId, d); }
    }

    /** All or nothing: the first loop only looks, the second only writes. */
    method Load(batch: seq<Definition>) returns (raised: bool)
      modifies this
      ensures raised <==> !Loadable(old(devices), batch)
      ensures devices == if raised then old(devices) else PutAll(old(devices), batch)
    {
      var seen: set<string> := {};
      var duplicates: seq<string> := [];
      for i := 0 to |batch|
        invariant devices == old(devices)
        invariant forall k :: k in seen <==> k in Ids(batch[..i])
        invariant duplicates == [] <==> Loadable(devices, batch[..i])
      {
        assert Ids(batch[..i + 1]) == Ids(batch[..i]) + [batch[i].deviceId];
        LoadableSnoc(devices, batch, i);
        if batch[i].deviceId in seen || batch[i].deviceId in devices.at {
          duplicates := duplicates + [batch[i].deviceId];
        }
        seen := seen + {batch[i].deviceId};
      }
      assert batch[..|batch|] == batch;
      if duplicates != [] { return true; }
      for i := 0 to |batch|
        invariant devices == PutAll(old(devices), batch[..i])
      {
        assert batch[..i + 1][..i] == batch[..i];
        devices := devices.Put(batch[i].deviceId, batch[i]);
      }
      assert batch[..|batch|] == batch;
      raised := false;
    }

    /** Insert or supersede one definition. A known device keeps its position, a new one comes last,
        and nothing else changes. */
    method Replace(d: Definition)
      modifies this
      ensures devices.order ==
        if d.deviceId in old(devices).at then old(devices).order else old(devices).order + [d.deviceId]
      ensures devices.at.Keys == old(devices).at.Keys + {d.deviceId} && devices.at[d.deviceId] == d
      ensures forall k :: k in old(devices).at && k != d.deviceId ==> devices.at[k] == old(devices).at[k]
    {
      devices := devices.Put(d.deviceId, d);
    }
  }

  class IndustrialProtocolGateway {
    const registry: DeviceRegistry
    const enabled: bool
    var runtimes: Dict<Runtime>
    var applied: map<string, Option<nat>>
    var nextSerial: nat

    ghost function View(): State
      reads this, registry
    {
      State(registry.devices, runtimes, applied, nextSerial)
    }

    constructor (enabled: bool)
      ensures this.enabled == enabled && fresh(registry) && View() == EMPTY
    {
      var devices := new DeviceRegistry();
      this.registry := devices;
      this.enabled := enabled;
      runtimes, applied, nextSerial := Dict([], map[]), map[], 0;
    }

    method RuntimeForDefinition(d: Definition)
      modifies this
      ensures View() == RuntimeFor(old(View()), d)
      ensures d.deviceId in old(runtimes).at ==> runtimes == old(runtimes) && nextSerial == old(nextSerial)
      ensures d.deviceId !in old(runtimes).at ==>
        && runtimes.at == old(runtimes).at[d.deviceId := Runtime(old(nextSerial), d)]
        && runtimes.order == old(runtimes).order + [d.deviceId] && nextSerial == old(nextSerial) + 1
      ensures applied == old(applied)
    {
      if d.deviceId in runtimes.at { return; }
      runtimes := runtimes.Put(d.deviceId, Runtime(nextSerial, d));
      nextSerial := nextSerial + 1;
    }

    /** Register one more device. It is registered last, and runs a runtime of its own built from this
        definition; nothing else changes. */
    method RegisterDevice(d: Definition) returns (raised: bool)
      modifies this, registry
      ensures raised <==> d.deviceId in old(registry.devices).at
      ensures View() == Register(old(View()), d)
      ensures raised ==> View() == old(View())
      ensures !raised ==>
        && registry.devices.at == old(registry.devices).at[d.deviceId := d]
        && registry.devices.order == old(registry.devices).order + [d.deviceId] && applied == old(applied)
      ensures !raised && d.deviceId !in old(runtimes).at ==>
        runtimes.at == old(runtimes).at[d.deviceId := Runtime(old(nextSerial), d)]
    {
      raised := registry.Register(d);
      if !raised { RuntimeForDefinition(d); }
    }

    method RegisterBatch(batch: seq<Definition>) returns (raised: bool)
      modifies this, registry
      ensures raised <==> !Loadable(old(registry.devices), batch)
      ensures View() == RegisterAll(old(View()), batch)
    {
      raised := registry.Load(batch);
      if raised { return; }
      ghost var loaded := View();
      for i := 0 to |batch|
        invariant View() == RuntimesFor(loaded, batch[..i])
      {
        assert batch[..i + 1][..i] == batch[..i];
        RuntimeForDefinition(batch[i]);
      }
      assert batch[..|batch|] == batch;
    }

    /** Start the candidate first; touch the installed runtime only once it is healthy. A disabled
        device, or one that only listens, counts as healthy at once. A swap installs the new object
        and touches no other device; a failure touches nothing. */
    method ApplyDefinition(d: Definition, version: Option<nat>, trial: Trial) returns (ok: bool)
      modifies this, registry
      ensures ok <==> enabled && trial.Waited? && (!d.enabled || d.protocol == Mqtt || trial.connected)
      ensures View() == if enabled then Apply(old(View()), d, version, trial) else old(View())
      ensures ok ==>
        && runtimes.at == old(runtimes).at[d.deviceId := Runtime(old(nextSerial), d)]
        && registry.devices.at == old(registry.devices).at[d.deviceId := d]
        && applied == old(applied)[d.deviceId := version]
      ensures !ok ==> runtimes == old(runtimes) && registry.devices == old(registry.devices) && applied == old(applied)
    {
      if !enabled { return false; }
      var candidate := Runtime(nextSerial, d);
      nextSerial := nextSerial + 1;
      if trial.StartRaised? { return false; }
      if trial.Waited? && !Ready(d, trial.connected) { return false; }
      runtimes := runtimes.Put(d.deviceId, candidate);
      registry.Replace(d);
      PutIsUnique(old(registry.devices), registry.devices, d.deviceId, d);
      applied := applied[d.deviceId := version];
      ok := true;
    }

    method Confirm(device: string, version: Option<nat>, connected: bool) returns (ok: bool)
      modifies this
      ensures runtimes == old(runtimes)
      ensures ok <==> (
        && device in runtimes.at
        && var d := runtimes.at[device].definition; !d.enabled || d.protocol == Mqtt || connected)
      ensures applied == if ok then old(applied)[device := version] else old(applied)
      ensures View() == ConfirmReady(old(View()), device, version, connected)
    {
      if device !in runtimes.at { return false; }
      if !Ready(runtimes.at[device].definition, connected) { return false; }
      applied := applied[device := version];
      ok := true;
    }
  }
}

/** The configuration service as the objects run it: one uninterrupted request at a time against
    the stored rows and the live gateway. Each request is tied to the protocol steps it performs. */
module ConfigService {
  import opened Options
  import opened Gateway
  import opened ConfigStore
  import opened ConfigProtocol
  import opened ConfigOutcomes
  import opened ConfigStartup

  class ConfigurationService {
    const gateway: IndustrialProtocolGateway
    const registered: set<string>
    var rows: Rows
    var status: map<string, StatusRow>

    constructor (gateway: IndustrialProtocolGateway, registered: set<string>)
      ensures Valid() && this.gateway == gateway && this.registered == registered && rows == map[] && status == map[]
    {
      this.gateway := gateway;
      this.registered := registered;
      rows, status := map[], map[];
    }

    ghost predicate Valid()
      reads this
    {
      RowsOk(rows) && forall k :: k in rows ==> k.device in registered
    }

    /** The protocol state with no request in flight. */
    ghost function View(): System
      reads this, gateway, gateway.registry
    {
      System(registered, rows, status, Some(gateway.View()), map[])
    }

    /** An edit keeps the rows sound. */
    lemma EditIsValid(tx: Tx)
      requires Valid() && !tx.TxPublish?
      ensures var after := Next(View(), Edit(tx)).rows;
        RowsOk(after) && forall k :: k in after ==> k.device in registered
    {
      CommitOk(rows, tx);
      var after := Next(View(), Edit(tx)).rows;
      forall k | k in after ensures k.device in registered {
        if k !in rows { CommitKeys(rows, tx, k); }
      }
    }

    /** `max(version) + 1`. */
    method NextVersionFor(device: string) returns (v: nat)
      ensures v == NextVersion(rows, device)
    {
      HighestExists(rows, device);
      var h: nat :| IsHighest(rows, device, h);
      v := h + 1;
    }

    method CurrentPublished(device: string) returns (v: Option<nat>)
      requires Valid()
      ensures v.None? <==> !HasPublished(rows, device)
      ensures v.Some? ==> IsPublished(rows, device, v.value)
      ensures forall w: nat :: IsPublished(rows, device, w) ==> v == Some(w)
    {
      if exists k :: k in rows && k.device == device && rows[k].status == Published {
        var k :| k in rows && k.device == device && rows[k].status == Published;
        v := Some(k.version);
        assert IsPublished(rows, device, k.version) by { assert k == Key(device, k.version); }
        assert forall w: nat :: IsPublished(rows, device, w) ==> Key(device, w) == k;
      } else {
        v := None;
        assert forall w: nat :: IsPublished(rows, device, w) ==> Key(device, w) in rows;
      }
    }

    method CreateDraft(device: string, config: Definition) returns (reply: Reply, version: nat)
      requires Valid()
      modifies `rows
      ensures Valid() && View() == Next(old(View()), Edit(TxCreate(device, config)))
      ensures reply == if device !in registered then NoDevice else if config.deviceId != device then Mismatch else Done
      ensures reply == Done ==>
        && version == NextVersion(old(rows), device)
        && rows == old(rows)[Key(device, version) := Row(Draft, config, None, None, None, None)]
      ensures reply != Done ==> rows == old(rows)
    {
      EditIsValid(TxCreate(device, config));
      if device !in registered { return NoDevice, 0; }
      if config.deviceId != device { return Mismatch, 0; }
      version := NextVersionFor(device);
      rows := rows[Key(device, version) := NewDraft(config)];
      reply := Done;
    }

    method UpdateDraft(key: Key, config: Definition) returns (reply: Reply)
      requires Valid()
      modifies `rows
      ensures Valid() && View() == Next(old(View()), Edit(TxUpdate(key, config)))
      ensures reply == (
        if key.device !in registered then NoDevice
        else if key !in old(rows) then NotFound
        else if old(rows)[key].status == Published || old(rows)[key].status == Archived then Immutable
        else if config.deviceId != key.device then Mismatch
        else Done)
      ensures reply == Done ==>
        && key in rows && OnlyAt(old(rows), rows, key)
        && rows[key] == old(rows)[key].(config := config, status := Draft, validatedAt := None, validation := None)
      ensures reply != Done ==> rows == old(rows)
    {
      EditIsValid(TxUpdate(key, config));
      if key.device !in registered { return NoDevice; }
      if key !in rows { return NotFound; }
      if !rows[key].Mutable() { return Immutable; }
      if config.deviceId != key.device { return Mismatch; }
      var row := rows[key].(config := config);
      row := row.(status := Draft);
      row := row.(validatedAt := None, validation := None);
      rows := rows[key := row];
      reply := Done;
    }

    method DeleteDraft(key: Key) returns (reply: Reply)
      requires Valid()
      modifies `rows
      ensures Valid() && View() == Next(old(View()), Edit(TxDelete(key)))
      ensures reply == (
        if key.device !in registered then NoDevice
        else if key !in old(rows) then NotFound
        else if old(rows)[key].status != Draft then WrongState
        else Done)
      ensures if reply == Done then key !in rows && OnlyAt(old(rows), rows, key) else rows == old(rows)
    {
      EditIsValid(TxDelete(key));
      if key.device !in registered { return NoDevice; }
      if key !in rows { return NotFound; }
      if rows[key].status != Draft { return WrongState; }
      rows := rows - {key};
      reply := Done;
    }

    method CloneVersion(key: Key) returns (reply: Reply, version: nat)
      requires Valid()
      modifies `rows
      ensures Valid() && View() == Next(old(View()), Edit(TxClone(key)))
      ensures reply == if key.device !in registered then NoDevice else if key !in old(rows) then NotFound else Done
      ensures reply == Done ==>
        var copy := Key(key.device, version);
        && version == NextVersion(old(rows), key.device) && copy !in old(rows)
        && rows == old(rows)[copy := Row(Draft, old(rows)[key].config, None, None, None, None)]
      ensures reply != Done ==> rows == old(rows)
    {
      EditIsValid(TxClone(key));
      if key.device !in registered { return NoDevice, 0; }
      if key !in rows { return NotFound, 0; }
      version := NextVersionFor(key.device);
      rows := rows[Key(key.device, version) := NewDraft(rows[key].config)];
      reply := Done;
    }

    method ValidateVersion(key: Key, valid: bool, now: int) returns (reply: Reply)
      requires Valid()
      modifies `rows
      ensures Valid() && View() == Next(old(View()), Edit(TxValidate(key, valid, now)))
      ensures reply == if key.device !in registered then NoDevice else if key !in old(rows) then NotFound else Done
      ensures rows.Keys == old(rows).Keys && OnlyAt(old(rows), rows, key)
      ensures key in rows && old(rows)[key].status in {Draft, Validated} ==>
        && rows[key].validation == Some(valid) && rows[key].config == old(rows)[key].config
        && (if valid then rows[key].status == Validated && rows[key].validatedAt == Some(now)
            else rows[key].status == old(rows)[key].status && rows[key].validatedAt == old(rows)[key].validatedAt)
      ensures key in rows && old(rows)[key].status in {Published, Archived} ==> rows[key] == old(rows)[key]
    {
      EditIsValid(TxValidate(key, valid, now));
      if key.device !in registered { return NoDevice; }
      if key !in rows { return NotFound; }
      if rows[key].Mutable() {
        var row := rows[key].(validation := Some(valid));
        if valid { row := row.(status := Validated, validatedAt := Some(now)); }
        rows := rows[key := row];
      }
      reply := Done;
    }

    /** The bulk demotion, as one statement. */
    method ArchivePublishedExcept(key: Key, now: int)
      modifies `rows
      ensures rows == ArchiveExcept(old(rows), key, now) && rows.Keys == old(rows).Keys
      ensures forall v: nat :: v != key.version ==> !IsPublished(rows, key.device, v)
      ensures forall k :: k in rows && rows[k] != old(rows)[k] ==>
        && k.device == key.device && k.version != key.version && old(rows)[k].status == Published
        && rows[k] == old(rows)[k].(status := Archived, archivedAt := Some(now))
    {
      rows := map k | k in rows ::
        if k.device == key.device && k.version != key.version && rows[k].status == Published
        then rows[k].(status := Archived, archivedAt := Some(now))
        else rows[k];
    }

    /** Publish and apply. A refused request only leaves the failed validation on the draft; an
        accepted one is exactly the run publish, mark, call, record. */
    method Publish(key: Key, valid: bool, now: int, trial: Trial) returns (reply: Reply)
      requires Valid()
      modifies this, gateway, gateway.registry
      ensures Valid()
      ensures reply == (
        if key.device !in registered then NoDevice
        else if key !in old(rows) then NotFound
        else if old(rows)[key].status == Published || old(rows)[key].status == Archived then WrongState
        else if !valid then Invalid
        else Done)
      ensures reply == Done ==>
        && rows.Keys == old(rows).Keys
        && rows[key] == old(rows)[key].(status := Published, publishedAt := Some(now), validatedAt := Some(now),
                                        validation := Some(true))
        && forall k :: k in rows && k != key ==>
             rows[k] == if k.device == key.device && old(rows)[k].status == Published
                        then old(rows)[k].(status := Archived, archivedAt := Some(now)) else old(rows)[k]
      ensures reply == Done && gateway.enabled ==>
        var config := old(rows)[key].config;
        InSync(View(), key.device) <==> trial.Waited? && (!config.enabled || config.protocol == Mqtt || trial.connected)
      ensures reply != Done ==> View() == PublishStep(old(View()), 0, key, valid, now)
      ensures reply == Done && gateway.enabled ==>
        View() == Finish(PublishStep(old(View()), 0, key, valid, now), 0, trial)
      ensures reply == Done && !gateway.enabled ==>
        && rows == PublishVersion(old(rows), key, valid, now) && gateway.View() == old(gateway.View())
        && !InSync(View(), key.device)
    {
      if key.device !in registered { return NoDevice; }
      if key !in rows { return NotFound; }
      if rows[key].Promoted() { return WrongState; }
      if !valid {
        PublishOk(rows, key, valid, now);
        rows := rows[key := rows[key].(validation := Some(false))];
        return Invalid;
      }
      PublishOutcome(old(View()), 0, key, now, trial);
      CommitPublication(key, now);
      assert View().(requests := map[0 := Committed(key.device, key.version)])
        == PublishStep(old(View()), 0, key, valid, now);
      ApplyPublished(key, trial);
      reply := Done;
    }

    /** The publication itself, in one transaction: demote first, promote second. At each statement
        the device has at most one published row. */
    method CommitPublication(key: Key, now: int)
      requires Valid() && key in rows && !rows[key].Promoted()
      modifies `rows
      ensures Valid() && rows == PublishVersion(old(rows), key, true, now)
      ensures rows.Keys == old(rows).Keys
      ensures rows[key] == old(rows)[key].(status := Published, publishedAt := Some(now), validatedAt := Some(now),
                                           validation := Some(true))
      ensures forall k :: k in rows && k != key ==>
        rows[k] == if k.device == key.device && old(rows)[k].status == Published
                   then old(rows)[k].(status := Archived, archivedAt := Some(now)) else old(rows)[k]
    {
      var row := rows[key].(validation := Some(true));
      PublishHolds(rows, key, true, now);
      assert RowsOk(PublishVersion(rows, key, true, now)) by { PublishOk(rows, key, true, now); }
      assert SinglePublished(ArchiveExcept(rows, key, now)) by { EveryStatementSinglePublished(rows, key, now); }
      ArchivePublishedExcept(key, now);
      assert SinglePublished(rows);
      rows := rows[key := row.(status := Published, publishedAt := Some(now), validatedAt := Some(now))];
      assert SinglePublished(rows);
    }

    method ApplyPublished(key: Key, trial: Trial)
      requires Valid() && key in rows
      modifies this, gateway, gateway.registry
      ensures rows == old(rows)
      ensures gateway.enabled ==>
        View() == Finish(old(View()).(requests := map[0 := Committed(key.device, key.version)]), 0, trial)
      ensures !gateway.enabled ==>
        && gateway.View() == old(gateway.View())
        && status == old(status)[key.device :=
             StatusRow(Some(key.version), gateway.View().AppliedVersion(key.device), Pending, Database)]
    {
      assert Key(key.device, key.version) == key;
      var definition := rows[key].config;
      if !gateway.enabled {
        var running := GatewayApplied(key.device);
        status := status[key.device := StatusRow(Some(key.version), running, Pending, Database)];
        return;
      }
      ghost var first := View().(requests := map[0 := Committed(key.device, key.version)]);
      ghost var called := CallStep(MarkStep(first, 0), 0, trial);
      MarkAndCall(first, 0, trial);
      var before := GatewayApplied(key.device);
      status := status[key.device := StatusRow(Some(key.version), before, Applying, Database)];
      var ok := gateway.ApplyDefinition(definition, Some(key.version), trial);
      assert gateway.View() == called.gateway.value && status == called.status;
      RecordOutcome(called, 0);
      var after := GatewayApplied(key.device);
      status := status[key.device :=
        StatusRow(Some(key.version), if ok then Some(key.version) else after,
                  if ok then Applied else Failed, Database)];
      assert called.requests - {0} == map[];
    }

    method GatewayApplied(device: string) returns (v: Option<nat>)
      ensures v == gateway.View().AppliedVersion(device)
    {
      v := if device in gateway.applied then gateway.applied[device] else None;
    }

    method ApplyCurrent(device: string, trial: Trial) returns (reply: Reply)
      requires Valid()
      modifies this, gateway, gateway.registry
      ensures Valid() && rows == old(rows)
      ensures reply == (
        if device !in registered then NoDevice
        else if !HasPublished(old(rows), device) then NotFound
        else if !gateway.enabled then WrongState
        else Done)
      ensures reply != Done ==> View() == old(View())
      ensures forall v :: reply == Done && IsPublished(old(rows), device, v) ==>
        View() == Finish(Next(old(View()), ConfigProtocol.ApplyCurrent(0, device, v)), 0, trial)
    {
      if device !in registered { return NoDevice; }
      var v := CurrentPublished(device);
      if v.None? { return NotFound; }
      if !gateway.enabled { return WrongState; }
      ApplyPublished(Key(device, v.value), trial);
      reply := Done;
    }

    /** `status(device)["in_sync"]`, computed as the service computes it. */
    method ReportsInSync(device: string) returns (inSync: bool)
      requires Valid()
      ensures inSync <==> InSync(View(), device)
      ensures inSync <==> (
        && device in status && status[device].apply == Applied && status[device].applied.Some?
        && var key := Key(device, status[device].applied.value); key in rows && rows[key].status == Published)
    {
      var desired := CurrentPublished(device);
      var applied := if device in status then status[device].applied else None;
      var apply := if device in status then status[device].apply else Pending;
      inSync := desired.Some? && desired == applied && apply == Applied;
    }
  }

  /** Read every published configuration. */
  method PublishedDefinitions(rows: Rows) returns (published: seq<Resolved>)
    requires SinglePublished(rows)
    ensures Lists(rows, published)
  {
    var keys := set k | k in rows && rows[k].status == Published;
    var left := keys;
    published := [];
    while left != {}
      invariant left <= keys && ListsKeys(rows, keys - left, published)
    {
      var k :| k in left;
      var done := keys - left;
      assert (done + {k}) - {k} == done && keys - (left - {k}) == done + {k};
      ListsSnoc(rows, done + {k}, published, k);
      published := published + [ItemFor(rows, k)];
      left := left - {k};
    }
    assert keys - left == keys;
    AllKeysListed(rows, keys, published);
  }

  /** The effective definition of every device: the published ones, if the database can be read, then
      the devices of the file, if it can be read, that have none. */
  method ResolveDefinitions(rows: Rows, readable: bool, file: Option<seq<Definition>>)
    returns (items: seq<Resolved>, published: seq<Resolved>)
    requires SinglePublished(rows)
    ensures if readable then Lists(rows, published) else published == []
    ensures items == Resolve(published, FileOf(file))
  {
    published := [];
    if readable { published := PublishedDefinitions(rows); }
    var managed := Devices(published);
    var bootstrap := FileOf(file);
    var extra: seq<Resolved> := [];
    for i := 0 to |bootstrap|
      invariant extra == FillIn(managed, bootstrap[..i])
    {
      var d := bootstrap[i];
      assert bootstrap[..i + 1][..i] == bootstrap[..i];
      if d.deviceId !in managed { extra := extra + [Resolved(d.deviceId, d, None, Bootstrap)]; }
    }
    assert bootstrap[..|bootstrap|] == bootstrap;
    items := published + extra;
  }

  /** Confirm each device in turn and write its status row. A write that the database does not take,
      an unregistered device among them, raises and is rolled back. */
  method ReconcileDevices(gateway: IndustrialProtocolGateway, stored: map<string, StatusRow>, items: seq<Resolved>,
                          connected: set<string>, registered: set<string>, writes: bool)
    returns (raised: bool, status: map<string, StatusRow>)
    modifies gateway
    ensures raised <==> !(items == [] || (writes && Devices(items) <= registered))
    ensures raised ==> status == stored
    ensures !raised ==> (gateway.View(), status) == Reconcile(old(gateway.View()), stored, items, connected)
  {
    status := stored;
    for i := 0 to |items|
      invariant (gateway.View(), status) == Reconcile(old(gateway.View()), stored, items[..i], connected)
      invariant i > 0 ==> writes
      invariant forall j :: 0 <= j < i ==> items[j].device in registered
    {
      var item := items[i];
      assert items[..i + 1][..i] == items[..i];
      var ok := item.source == Database;
      if ok { ok := gateway.Confirm(item.device, item.version, item.device in connected); }
      if !writes || item.device !in registered {
        assert item.device in Devices(items);
        return true, stored;
      }
      status := status[item.device :=
        if item.source == Database then
          StatusRow(item.version, if ok then item.version else None, if ok then Applied else Failed, Database)
        else StatusRow(item.version, None, Pending, Bootstrap)];
    }
    assert items[..|items|] == items;
    raised := false;
  }

  /** Build the gateway from the resolved definitions and reconcile, or raise: on a repeated id, or on
      a status row that cannot be written. */
  method StartGateway(stored: map<string, StatusRow>, items: seq<Resolved>, connected: set<string>,
                      registered: set<string>, writes: bool, ghost rows: Rows)
    returns (raised: bool, gateway: IndustrialProtocolGateway, status: map<string, StatusRow>)
    ensures fresh(gateway)
    ensures ComeUp(System(registered, rows, stored, None, map[]), items, connected, writes)
      == System(registered, rows, status, if raised then None else Some(gateway.View()), map[])
  {
    gateway := new IndustrialProtocolGateway(true);
    raised := gateway.RegisterBatch(Definitions(items));
    status := stored;
    if !raised { raised, status := ReconcileDevices(gateway, stored, items, connected, registered, writes); }
  }

  /** The restart step of the protocol: the managed one if the database could be read, else the
      blind one. */
  function StartStep(readable: bool, published: seq<Resolved>, file: Option<seq<Definition>>, connected: set<string>,
                     writes: bool): Step
  {
    if readable then Restart(published, FileOf(file), connected, writes)
    else BlindRestart(FileOf(file), connected, writes)
  }

  /** The definitions of the file; none if it is absent or cannot be read. */
  function FileOf(file: Option<seq<Definition>>): seq<Definition> {
    if file.Some? then file.value else []
  }

  /** File and database let the start come up. */
  ghost predicate Startable(s: System, readable: bool, file: Option<seq<Definition>>, writes: bool) {
    if readable then StartOk(s, FileOf(file), writes) else BlindOk(s, FileOf(file), writes)
  }

  lemma ManagedStart(s: System, published: seq<Resolved>, bootstrap: seq<Definition>, connected: set<string>,
                     writes: bool)
    requires RowsOk(s.rows) && KeysHold(s) && !s.Up() && Lists(s.rows, published)
    ensures var t := ComeUp(s, Resolve(published, bootstrap), connected, writes);
      Next(s, Restart(published, bootstrap, connected, writes)) == t && (t.Up() <==> StartOk(s, bootstrap, writes))
  {
    RestartUpIff(s, published, bootstrap, connected, writes);
  }

  lemma BlindStart(s: System, bootstrap: seq<Definition>, connected: set<string>, writes: bool)
    requires !s.Up()
    ensures var t := ComeUp(s, Resolve([], bootstrap), connected, writes);
      Next(s, BlindRestart(bootstrap, connected, writes)) == t && (t.Up() <==> BlindOk(s, bootstrap, writes))
  {
    BlindUpIff(s, bootstrap, connected, writes);
  }

  lemma StartIsStep(s: System, readable: bool, published: seq<Resolved>, file: Option<seq<Definition>>,
                    connected: set<string>, writes: bool)
    requires RowsOk(s.rows) && KeysHold(s) && !s.Up()
    requires if readable then Lists(s.rows, published) else published == []
    ensures var t := ComeUp(s, Resolve(published, FileOf(file)), connected, writes);
      && Next(s, StartStep(readable, published, file, connected, writes)) == t
      && (t.Up() <==> Startable(s, readable, file, writes))
  {
    if readable {
      ManagedStart(s, published, FileOf(file), connected, writes);
    } else {
      BlindStart(s, FileOf(file), connected, writes);
    }
  }

  /** Start-up: read, build the gateway from the resolved definitions, reconcile. It raises exactly
      when the file repeats an id it should not, names an unregistered device, or status rows cannot
      be written; otherwise it is the protocol's restart step. */
  method BuildManagedGateway(registered: set<string>, rows: Rows, stored: map<string, StatusRow>, readable: bool,
                             file: Option<seq<Definition>>, connected: set<string>, writes: bool)
    returns (raised: bool, gateway: IndustrialProtocolGateway, status: map<string, StatusRow>,
             ghost published: seq<Resolved>)
    requires RowsOk(rows) && KeysHold(System(registered, rows, stored, None, map[]))
    ensures fresh(gateway)
    ensures raised <==> !Startable(System(registered, rows, stored, None, map[]), readable, file, writes)
    ensures Next(System(registered, rows, stored, None, map[]), StartStep(readable, published, file, connected, writes))
      == System(registered, rows, status, if raised then None else Some(gateway.View()), map[])
  {
    ghost var before := System(registered, rows, stored, None, map[]);
    var items;
    items, published := ResolveDefinitions(rows, readable, file);
    StartIsStep(before, readable, published, file, connected, writes);
    raised, gateway, status := StartGateway(stored, items, connected, registered, writes, rows);
  }
}

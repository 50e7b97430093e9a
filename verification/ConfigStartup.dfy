/** Start-up: when a restart comes up at all, and what it leaves behind. */
module ConfigStartup {
  import opened Options
  import opened Gateway
  import opened ConfigStore
  import opened ConfigProtocol

  // ---------------------------------------------------------------- the listing of published rows

  /** The items are the published rows with these keys, each device once. */
  ghost predicate ListsKeys(rows: Rows, keys: set<Key>, items: seq<Resolved>) {
    && (forall i :: 0 <= i < |items| ==> OfKey(rows, keys, items[i]))
    && Distinct(items)
    && (forall k :: k in keys ==> k.device in Devices(items))
  }

  ghost predicate OfKey(rows: Rows, keys: set<Key>, item: Resolved) {
    ListedOk(rows, item) && Key(item.device, item.version.value) in keys
  }

  function ItemFor(rows: Rows, k: Key): Resolved
    requires k in rows
  {
    Resolved(k.device, rows[k].config, Some(k.version), Database)
  }

  lemma DevicesAppend(items: seq<Resolved>, item: Resolved)
    ensures Devices(items + [item]) == Devices(items) + {item.device}
  {
    var longer := items + [item];
    DevicesSnoc(longer);
    assert longer[..|items|] == items;
  }

  lemma ListsSnoc(rows: Rows, keys: set<Key>, items: seq<Resolved>, k: Key)
    requires SinglePublished(rows) && ListsKeys(rows, keys - {k}, items)
    requires k in keys && k in rows && rows[k].status == Published
    ensures ListsKeys(rows, keys, items + [ItemFor(rows, k)])
  {
    var item := ItemFor(rows, k);
    assert Key(k.device, k.version) == k;
    assert OfKey(rows, keys, item);
    forall i | 0 <= i < |items| ensures OfKey(rows, keys, items[i]) && items[i].device != k.device {
      assert OfKey(rows, keys - {k}, items[i]);
      var j := Key(items[i].device, items[i].version.value);
      assert j in keys - {k} && rows[j].status == Published;
    }
    DevicesAppend(items, item);
    forall j | j in keys ensures j.device in Devices(items) + {k.device} {
      if j != k { assert j in keys - {k}; }
    }
  }

  lemma {:induction false} ListingOf(rows: Rows, keys: set<Key>) returns (items: seq<Resolved>)
    requires SinglePublished(rows) && forall k :: k in keys ==> k in rows && rows[k].status == Published
    ensures ListsKeys(rows, keys, items)
  {
    if keys == {} {
      items := [];
    } else {
      var k :| k in keys;
      var rest := ListingOf(rows, keys - {k});
      ListsSnoc(rows, keys, rest, k);
      items := rest + [ItemFor(rows, k)];
    }
  }

  lemma AllKeysListed(rows: Rows, keys: set<Key>, items: seq<Resolved>)
    requires ListsKeys(rows, keys, items) && forall k :: k in rows && rows[k].status == Published ==> k in keys
    ensures Lists(rows, items)
  {
    forall i | 0 <= i < |items| ensures ListedOk(rows, items[i]) { assert OfKey(rows, keys, items[i]); }
    forall d | HasPublished(rows, d) ensures d in Devices(items) {
      var v :| IsPublished(rows, d, v);
      assert Key(d, v) in keys;
    }
  }

  /** Every table has a listing, so a successful read always has an answer. */
  lemma ListingExists(rows: Rows) returns (published: seq<Resolved>)
    requires SinglePublished(rows)
    ensures Lists(rows, published)
  {
    var keys := set k | k in rows && rows[k].status == Published;
    published := ListingOf(rows, keys);
    AllKeysListed(rows, keys, published);
  }

  /** A listing names exactly the devices that have a published version, each under its own name. */
  lemma ListedDevices(rows: Rows, published: seq<Resolved>, d: string)
    requires RowsOk(rows) && Lists(rows, published)
    ensures Named(published) && Distinct(published)
    ensures d in Devices(published) <==> HasPublished(rows, d)
  {
    forall i | 0 <= i < |published| ensures published[i].definition.deviceId == published[i].device {
      assert ListedOk(rows, published[i]);
    }
    if d in Devices(published) {
      var i :| 0 <= i < |published| && published[i].device == d;
      assert ListedOk(rows, published[i]);
    }
  }

  // ---------------------------------------------------------------- which files let a start come up

  /** Every id the file repeats belongs to one of the `managed` devices. */
  ghost predicate RepeatsManaged(managed: set<string>, bootstrap: seq<Definition>) {
    forall i, j :: 0 <= i < j < |bootstrap| && bootstrap[i].deviceId == bootstrap[j].deviceId ==>
      bootstrap[i].deviceId in managed
  }

  lemma RepeatsSnoc(managed: set<string>, bootstrap: seq<Definition>, d: Definition)
    ensures RepeatsManaged(managed, bootstrap + [d]) <==>
      RepeatsManaged(managed, bootstrap) && (d.deviceId in managed || d.deviceId !in Ids(bootstrap))
  {
    var longer, ids := bootstrap + [d], Ids(bootstrap);
    assert longer[|bootstrap|] == d && forall i :: 0 <= i < |bootstrap| ==> longer[i] == bootstrap[i];
    assert forall i :: 0 <= i < |bootstrap| ==> ids[i] == bootstrap[i].deviceId;
    if RepeatsManaged(managed, longer) {
      forall i, j | 0 <= i < j < |bootstrap| && bootstrap[i].deviceId == bootstrap[j].deviceId
        ensures bootstrap[i].deviceId in managed
      {
        assert longer[i].deviceId == longer[j].deviceId;
      }
      if d.deviceId in ids {
        var i :| 0 <= i < |ids| && ids[i] == d.deviceId;
        assert longer[i].deviceId == longer[|bootstrap|].deviceId;
      }
    }
  }

  lemma LoadableAppend(known: Dict<Definition>, batch: seq<Definition>, d: Definition)
    ensures Loadable(known, batch + [d]) <==>
      Loadable(known, batch) && d.deviceId !in known.at && d.deviceId !in Ids(batch)
  {
    var longer := batch + [d];
    LoadableSnoc(known, longer, |batch|);
    assert longer[..|batch| + 1] == longer && longer[..|batch|] == batch;
  }

  /** The file contributes exactly its unmanaged ids. */
  lemma {:induction false} FilledIds(managed: set<string>, bootstrap: seq<Definition>, id: string)
    ensures id in Ids(Definitions(FillIn(managed, bootstrap))) <==> id !in managed && id in Ids(bootstrap)
  {
    if bootstrap == [] {
    } else {
      var n := |bootstrap| - 1;
      var d, before := bootstrap[n], FillIn(managed, bootstrap[..n]);
      FilledIds(managed, bootstrap[..n], id);
      assert Ids(bootstrap) == Ids(bootstrap[..n]) + [d.deviceId];
      if d.deviceId !in managed { IdsAppend(before, Resolved(d.deviceId, d, None, Bootstrap)); }
    }
  }

  lemma IdsAppend(items: seq<Resolved>, item: Resolved)
    ensures Definitions(items + [item]) == Definitions(items) + [item.definition]
    ensures Ids(Definitions(items + [item])) == Ids(Definitions(items)) + [item.definition.deviceId]
  {}

  lemma ResolvedIds(published: seq<Resolved>, bootstrap: seq<Definition>, id: string)
    requires Named(published)
    ensures id in Ids(Definitions(Resolve(published, bootstrap))) <==> id in Devices(published) || id in Ids(bootstrap)
  {
    var filled := FillIn(Devices(published), bootstrap);
    assert Ids(Definitions(published + filled)) == Ids(Definitions(published)) + Ids(Definitions(filled));
    NamedIds(published, id);
    FilledIds(Devices(published), bootstrap, id);
  }

  lemma ResolveSnoc(published: seq<Resolved>, bootstrap: seq<Definition>)
    requires bootstrap != []
    ensures var n := |bootstrap| - 1;
      Definitions(Resolve(published, bootstrap)) ==
        if bootstrap[n].deviceId in Devices(published) then Definitions(Resolve(published, bootstrap[..n]))
        else Definitions(Resolve(published, bootstrap[..n])) + [bootstrap[n]]
  {
    var n := |bootstrap| - 1;
    var d := bootstrap[n];
    var before := FillIn(Devices(published), bootstrap[..n]);
    if d.deviceId !in Devices(published) {
      var item := Resolved(d.deviceId, d, None, Bootstrap);
      assert published + (before + [item]) == (published + before) + [item];
      IdsAppend(published + before, item);
    }
  }

  lemma PublishedLoad(published: seq<Resolved>)
    requires Named(published) && Distinct(published)
    ensures Loadable(EMPTY.registry, Definitions(Resolve(published, [])))
  {
    assert Resolve(published, []) == published;
  }

  lemma LoadableStep(published: seq<Resolved>, init: seq<Definition>, d: Definition)
    requires Named(published)
    ensures var before := Definitions(Resolve(published, init));
      Loadable(EMPTY.registry, Definitions(Resolve(published, init + [d]))) <==>
        (Loadable(EMPTY.registry, before) && (d.deviceId in Devices(published) || d.deviceId !in Ids(init)))
  {
    var bootstrap := init + [d];
    assert bootstrap[..|init|] == init && bootstrap[|init|] == d;
    ResolveSnoc(published, bootstrap);
    ResolvedIds(published, init, d.deviceId);
    LoadableAppend(EMPTY.registry, Definitions(Resolve(published, init)), d);
  }

  /** The exact condition under which the registry takes the resolved devices: the file may repeat
      an id only if that device is published. */
  lemma {:induction false} LoadableIff(published: seq<Resolved>, bootstrap: seq<Definition>)
    requires Named(published) && Distinct(published)
    ensures Loadable(EMPTY.registry, Definitions(Resolve(published, bootstrap))) <==>
      RepeatsManaged(Devices(published), bootstrap)
  {
    if bootstrap == [] {
      PublishedLoad(published);
    } else {
      var n := |bootstrap| - 1;
      var init, d := bootstrap[..n], bootstrap[n];
      assert bootstrap == init + [d];
      LoadableIff(published, init);
      RepeatsSnoc(Devices(published), init, d);
      LoadableStep(published, init, d);
    }
  }

  /** Every id the file repeats has a published version. */
  ghost predicate FileOk(rows: Rows, bootstrap: seq<Definition>) {
    forall i, j :: 0 <= i < j < |bootstrap| && bootstrap[i].deviceId == bootstrap[j].deviceId ==>
      HasPublished(rows, bootstrap[i].deviceId)
  }

  lemma FileOkIff(rows: Rows, published: seq<Resolved>, bootstrap: seq<Definition>)
    requires RowsOk(rows) && Lists(rows, published)
    ensures FileOk(rows, bootstrap) <==> RepeatsManaged(Devices(published), bootstrap)
  {
    forall d ensures d in Devices(published) <==> HasPublished(rows, d) { ListedDevices(rows, published, d); }
  }

  /** Every device of the file is registered. */
  ghost predicate FileRegistered(s: System, bootstrap: seq<Definition>) {
    forall i :: 0 <= i < |bootstrap| ==> bootstrap[i].deviceId in s.registered
  }

  lemma RegisteredIff(s: System, published: seq<Resolved>, bootstrap: seq<Definition>)
    requires Named(published) && Devices(published) <= s.registered
    ensures Devices(Resolve(published, bootstrap)) <= s.registered <==> FileRegistered(s, bootstrap)
  {
    var items, ids := Resolve(published, bootstrap), Ids(bootstrap);
    forall d ensures d in Devices(items) <==> d in Devices(published) || d in ids {
      ResolvedDevices(published, bootstrap, d);
    }
    forall i | 0 <= i < |bootstrap| ensures ids[i] == bootstrap[i].deviceId && ids[i] in ids {}
  }

  lemma ResolvedDevices(published: seq<Resolved>, bootstrap: seq<Definition>, d: string)
    requires Named(published)
    ensures d in Devices(Resolve(published, bootstrap)) <==> d in Devices(published) || d in Ids(bootstrap)
  {
    var items := Resolve(published, bootstrap);
    forall i | 0 <= i < |items| ensures items[i].definition.deviceId == items[i].device {
      if i >= |published| { FilledIn(Devices(published), bootstrap, i - |published|); }
    }
    NamedIds(items, d);
    ResolvedIds(published, bootstrap, d);
  }

  lemma PublishedRegistered(s: System, published: seq<Resolved>)
    requires KeysHold(s) && Lists(s.rows, published)
    ensures Devices(published) <= s.registered
  {
    forall d | d in Devices(published) ensures d in s.registered {
      var i :| 0 <= i < |published| && published[i].device == d;
      assert ListedOk(s.rows, published[i]);
      assert Key(d, published[i].version.value) in s.rows;
    }
  }

  /** A start writes no status row: nothing is published and the file is empty. */
  ghost predicate NothingToWrite(rows: Rows, bootstrap: seq<Definition>) {
    bootstrap == [] && forall d :: !HasPublished(rows, d)
  }

  lemma NothingIff(rows: Rows, published: seq<Resolved>, bootstrap: seq<Definition>)
    requires RowsOk(rows) && Lists(rows, published)
    ensures Resolve(published, bootstrap) == [] <==> NothingToWrite(rows, bootstrap)
  {
    ListedDevices(rows, published, "");
    if published == [] {
      assert Devices(published) == {};
      FileItems(bootstrap);
      forall d ensures !HasPublished(rows, d) { ListedDevices(rows, published, d); }
    } else {
      assert ListedOk(rows, published[0]);
      assert HasPublished(rows, published[0].device);
    }
  }

  /** The file and the database let a managed start come up. */
  ghost predicate StartOk(s: System, bootstrap: seq<Definition>, writes: bool) {
    && FileOk(s.rows, bootstrap) && FileRegistered(s, bootstrap)
    && (writes || NothingToWrite(s.rows, bootstrap))
  }

  /** A managed restart comes up exactly when every id the bootstrap file repeats is published, every
      device it names is registered, and the status rows, if there are any, can be written. */
  lemma RestartUpIff(s: System, published: seq<Resolved>, bootstrap: seq<Definition>, connected: set<string>,
                     writes: bool)
    requires RowsOk(s.rows) && KeysHold(s) && !s.Up() && Lists(s.rows, published)
    ensures RestartStep(s, published, bootstrap, connected, writes).Up() <==> StartOk(s, bootstrap, writes)
  {
    var items := Resolve(published, bootstrap);
    ListedDevices(s.rows, published, "");
    LoadableIff(published, bootstrap);
    FileOkIff(s.rows, published, bootstrap);
    PublishedRegistered(s, published);
    RegisteredIff(s, published, bootstrap);
    NothingIff(s.rows, published, bootstrap);
    if items == [] { assert Devices(items) == {}; }
  }

  /** The file and the database let a start come up that could not read the database. */
  ghost predicate BlindOk(s: System, bootstrap: seq<Definition>, writes: bool) {
    RepeatsManaged({}, bootstrap) && FileRegistered(s, bootstrap) && (writes || bootstrap == [])
  }

  /** Such a restart comes up exactly when the file repeats no id, every device it names is
      registered, and the database that could not be read takes the status rows, if any. */
  lemma BlindUpIff(s: System, bootstrap: seq<Definition>, connected: set<string>, writes: bool)
    requires !s.Up()
    ensures BlindStep(s, bootstrap, connected, writes).Up() <==> BlindOk(s, bootstrap, writes)
  {
    var none: seq<Resolved> := [];
    assert Devices(none) == {};
    LoadableIff(none, bootstrap);
    RegisteredIff(s, none, bootstrap);
    FileItems(bootstrap);
    assert Resolve(none, bootstrap) == FillIn({}, bootstrap);
    if bootstrap == [] { assert Devices(Resolve(none, bootstrap)) == {}; }
  }

  // ---------------------------------------------------------------- starts that fail, and one that does not

  lemma EmptyDatabase(s: System)
    requires s.rows == map[] && s.status == map[]
    ensures RowsOk(s.rows) && KeysHold(s) && Lists(s.rows, []) && forall d :: !HasPublished(s.rows, d)
  {}

  /** A file that repeats one id stops a start over an empty database ... */
  lemma RepeatStops(e: Definition, connected: set<string>, writes: bool)
    ensures !Run([Enroll(e.deviceId), Restart([], [e, e], connected, writes)]).Up()
  {
    var s := Next(INIT, Enroll(e.deviceId));
    RunOfTwo(Enroll(e.deviceId), Restart([], [e, e], connected, writes));
    EmptyDatabase(s);
    RestartUpIff(s, [], [e, e], connected, writes);
    var file := [e, e];
    assert file[0].deviceId == file[1].deviceId && !HasPublished(map[], file[0].deviceId);
  }

  /** ... and is harmless once that device has a published version. */
  lemma RepeatIsHarmless(s: System, published: seq<Resolved>, e: Definition, connected: set<string>)
    requires RowsOk(s.rows) && KeysHold(s) && !s.Up() && Lists(s.rows, published) && HasPublished(s.rows, e.deviceId)
    ensures Next(s, Restart(published, [e, e], connected, true)).Up()
  {
    var v :| IsPublished(s.rows, e.deviceId, v);
    assert Key(e.deviceId, v) in s.rows;
    RestartUpIff(s, published, [e, e], connected, true);
  }

  /** A file naming one device that is not in the devices table stops a start. */
  lemma UnregisteredStops(e: Definition, connected: set<string>, writes: bool)
    ensures !Run([Restart([], [e], connected, writes)]).Up()
  {
    var file := [e];
    RunOfOne(Restart([], file, connected, writes));
    EmptyDatabase(INIT);
    RestartUpIff(INIT, [], file, connected, writes);
    assert file[0].deviceId !in INIT.registered;
  }

  /** A database that stays unreachable stops a start whose file names a device; one that fails the
      read and takes the status rows does not. */
  lemma UnreachableStops(e: Definition, connected: set<string>)
    ensures !Run([Enroll(e.deviceId), BlindRestart([e], connected, false)]).Up()
    ensures Run([Enroll(e.deviceId), BlindRestart([e], connected, true)]).Up()
  {
    var s := Next(INIT, Enroll(e.deviceId));
    RunOfTwo(Enroll(e.deviceId), BlindRestart([e], connected, false));
    RunOfTwo(Enroll(e.deviceId), BlindRestart([e], connected, true));
    BlindUpIff(s, [e], connected, false);
    BlindUpIff(s, [e], connected, true);
  }

  lemma RunOfOne(step: Step)
    ensures Run([step]) == Next(INIT, step)
  {
    var none: seq<Step> := [];
    RunSnoc(none, step);
    assert none + [step] == [step];
  }

  lemma RunOfTwo(first: Step, second: Step)
    ensures Run([first, second]) == Next(Next(INIT, first), second)
  {
    RunOfOne(first);
    RunSnoc([first], second);
    assert [first] + [second] == [first, second];
  }

  // ---------------------------------------------------------------- what a start leaves behind

  lemma NotListed(rows: Rows, items: seq<Resolved>, d: string)
    requires Complete(rows, items) && d !in Devices(items)
    ensures !HasPublished(rows, d)
  {}

  lemma NothingApplying(s: System, t: System, items: seq<Resolved>, connected: set<string>, d: string)
    requires CameUp(s, t, items, connected) && Complete(s.rows, items) && BackedFor(s, d)
    ensures d in t.status ==> t.status[d].apply != Applying
  {
    if d in Devices(items) {
      var i :| 0 <= i < |items| && items[i].device == d;
      assert Started(t, items[i], connected);
    } else {
      NotListed(s.rows, items, d);
      assert LeftAlone(s, t, d);
    }
  }

  lemma PublishedStarts(s: System, t: System, items: seq<Resolved>, connected: set<string>, device: string,
                        version: nat)
    requires CameUp(s, t, items, connected) && Faithful(s.rows, items) && Complete(s.rows, items) && RowsOk(s.rows)
    requires IsPublished(s.rows, device, version)
    ensures var config := t.rows[Key(device, version)].config;
      && RunsFor(t.gateway.value, device) == Some(config)
      && (InSync(t, device) <==> !config.enabled || config.protocol == Mqtt || device in connected)
      && device in t.status && t.status[device].desired == Some(version) && t.status[device].source == Database
  {
    assert HasPublished(s.rows, device) && Covered(items, device);
    var i :| 0 <= i < |items| && items[i].source == Database && items[i].device == device;
    assert ListedOk(s.rows, items[i]) && Started(t, items[i], connected);
    assert Key(device, items[i].version.value) == Key(device, version);
  }

  /** What a managed restart that came up says about every device: nothing is left in APPLYING, what
      is published runs as stored, and what only the file names runs as the file says. */
  ghost predicate Reconciled(t: System, bootstrap: seq<Definition>, connected: set<string>) {
    && (forall d :: d in t.status ==> t.status[d].apply != Applying)
    && (forall d, v :: IsPublished(t.rows, d, v) ==> PublishedRuns(t, connected, d, v))
    && (forall i :: 0 <= i < |bootstrap| && !HasPublished(t.rows, bootstrap[i].deviceId) ==> FileRuns(t, bootstrap[i]))
  }

  /** A published device runs its stored configuration, and is in sync exactly when it is disabled,
      only listens, or was found connected. */
  ghost predicate PublishedRuns(t: System, connected: set<string>, d: string, v: nat)
    requires Key(d, v) in t.rows
  {
    var config := t.rows[Key(d, v)].config;
    && t.Up()
    && RunsFor(t.gateway.value, d) == Some(config)
    && (InSync(t, d) <==> !config.enabled || config.protocol == Mqtt || d in connected)
    && d in t.status && t.status[d].desired == Some(v) && t.status[d].source == Database
  }

  /** An unpublished device of the file runs the file's definition, under a PENDING row. */
  ghost predicate FileRuns(t: System, e: Definition) {
    && t.Up()
    && RunsFor(t.gateway.value, e.deviceId) == Some(e)
    && t.gateway.value.AppliedVersion(e.deviceId) == None
    && Get(t.status, e.deviceId) == Some(StatusRow(None, None, Pending, Bootstrap))
  }

  lemma {:induction false} FileItem(managed: set<string>, bootstrap: seq<Definition>, i: nat)
    requires i < |bootstrap| && bootstrap[i].deviceId !in managed
    ensures Resolved(bootstrap[i].deviceId, bootstrap[i], None, Bootstrap) in FillIn(managed, bootstrap)
  {
    var n := |bootstrap| - 1;
    if i == n {
    } else {
      FileItem(managed, bootstrap[..n], i);
    }
  }

  lemma FileStarts(s: System, t: System, published: seq<Resolved>, bootstrap: seq<Definition>, connected: set<string>,
                   i: nat)
    requires CameUp(s, t, Resolve(published, bootstrap), connected) && RowsOk(s.rows) && Lists(s.rows, published)
    requires i < |bootstrap| && !HasPublished(s.rows, bootstrap[i].deviceId)
    ensures FileRuns(t, bootstrap[i])
  {
    var items, e := Resolve(published, bootstrap), bootstrap[i];
    var item := Resolved(e.deviceId, e, None, Bootstrap);
    ListedDevices(s.rows, published, e.deviceId);
    FileItem(Devices(published), bootstrap, i);
    var j :| 0 <= j < |FillIn(Devices(published), bootstrap)| && FillIn(Devices(published), bootstrap)[j] == item;
    assert items[|published| + j] == item;
    assert Started(t, items[|published| + j], connected);
  }

  lemma StartReconciles(s: System, published: seq<Resolved>, bootstrap: seq<Definition>, connected: set<string>,
                        writes: bool)
    requires Inv(s) && !s.Up() && Lists(s.rows, published)
    requires RestartStep(s, published, bootstrap, connected, writes).Up()
    ensures Reconciled(RestartStep(s, published, bootstrap, connected, writes), bootstrap, connected)
  {
    var items := Resolve(published, bootstrap);
    RestartItems(s.rows, published, bootstrap);
    ComesUp(s, items, connected, writes);
    var t := ComeUp(s, items, connected, writes);
    forall d | d in t.status ensures t.status[d].apply != Applying {
      assert OkFor(s, d);
      NothingApplying(s, t, items, connected, d);
    }
    forall d, v | IsPublished(t.rows, d, v) ensures PublishedRuns(t, connected, d, v) {
      PublishedStarts(s, t, items, connected, d, v);
    }
    forall i | 0 <= i < |bootstrap| && !HasPublished(t.rows, bootstrap[i].deviceId) ensures FileRuns(t, bootstrap[i]) {
      FileStarts(s, t, published, bootstrap, connected, i);
    }
  }

  /** Recovery. After any run, a managed restart comes up exactly when every id the bootstrap file
      repeats is published, every device it names is registered, and the status rows can be written;
      then no device is left in APPLYING, every published device runs its own stored configuration,
      in sync exactly when it is disabled, only listens or was found connected, and every other device
      of the file runs the file's definition. */
  lemma {:induction false} RestartReconciles(steps: seq<Step>, published: seq<Resolved>, bootstrap: seq<Definition>,
                                             connected: set<string>, writes: bool)
    requires !Run(steps).Up() && Lists(Run(steps).rows, published)
    ensures var t := Run(steps + [Restart(published, bootstrap, connected, writes)]);
      && (t.Up() <==> StartOk(Run(steps), bootstrap, writes))
      && (t.Up() ==> Reconciled(t, bootstrap, connected))
  {
    RunSnoc(steps, Restart(published, bootstrap, connected, writes));
    Reachable(steps);
    RestartUpIff(Run(steps), published, bootstrap, connected, writes);
    if StartOk(Run(steps), bootstrap, writes) {
      StartReconciles(Run(steps), published, bootstrap, connected, writes);
    }
  }

  /** So after any run that left the process down, a restart with a fitting file and a writable
      database recovers. */
  lemma {:induction false} RecoveryIsPossible(steps: seq<Step>, bootstrap: seq<Definition>, connected: set<string>)
    returns (published: seq<Resolved>)
    requires !Run(steps).Up() && FileOk(Run(steps).rows, bootstrap) && FileRegistered(Run(steps), bootstrap)
    ensures Run(steps + [Restart(published, bootstrap, connected, true)]).Up()
  {
    Reachable(steps);
    published := ListingExists(Run(steps).rows);
    RestartReconciles(steps, published, bootstrap, connected, true);
  }

  lemma {:induction false} PutAllOrder(batch: seq<Definition>)
    requires Loadable(EMPTY.registry, batch)
    ensures PutAll(EMPTY.registry, batch).order == Ids(batch)
  {
    if batch == [] {
    } else {
      var n := |batch| - 1;
      assert batch[..n + 1] == batch;
      LoadableSnoc(EMPTY.registry, batch, n);
      PutAllOrder(batch[..n]);
      PutAllKeys(EMPTY.registry, batch[..n], batch[n].deviceId);
      assert Ids(batch) == Ids(batch[..n]) + [batch[n].deviceId];
    }
  }

  /** A started gateway lists its devices in the order they were resolved: the published ones first. */
  lemma StartOrder(s: System, items: seq<Resolved>, connected: set<string>, writes: bool)
    requires !s.Up() && ComeUp(s, items, connected, writes).Up()
    ensures ComeUp(s, items, connected, writes).gateway.value.registry.order == Ids(Definitions(items))
  {
    var batch := Definitions(items);
    PutAllOrder(batch);
    BatchIsSequential(EMPTY, batch);
    RegistryIrrelevant(EMPTY, PutAll(EMPTY.registry, batch), batch);
    ReconcileFrame(RegisterAll(EMPTY, batch), s.status, items, connected, "");
  }

  // ---------------------------------------------------------------- a restart without the database

  lemma {:induction false} FileItems(bootstrap: seq<Definition>)
    ensures FillIn({}, bootstrap) ==
      seq(|bootstrap|, i requires 0 <= i < |bootstrap| =>
        Resolved(bootstrap[i].deviceId, bootstrap[i], None, Bootstrap))
  {
    if bootstrap == [] {
    } else {
      FileItems(bootstrap[..|bootstrap| - 1]);
    }
  }

  ghost predicate InFile(bootstrap: seq<Definition>, device: string) {
    exists i :: 0 <= i < |bootstrap| && bootstrap[i].deviceId == device
  }

  lemma FileDevices(bootstrap: seq<Definition>, device: string)
    ensures device in Devices(Resolve([], bootstrap)) <==> InFile(bootstrap, device)
  {
    var items := Resolve([], bootstrap);
    FileItems(bootstrap);
    assert Devices([]) == {};
    assert items == FillIn({}, bootstrap);
    if InFile(bootstrap, device) {
      var i :| 0 <= i < |bootstrap| && bootstrap[i].deviceId == device;
      assert items[i].device == device;
    }
  }

  /** After a restart whose database read failed, every device the file names runs the file's
      definition and nothing else runs: so a published device falls back to the file exactly when
      the file names it. No device has a version. */
  lemma BlindRuns(s: System, bootstrap: seq<Definition>, connected: set<string>, writes: bool, device: string)
    requires !s.Up() && BlindStep(s, bootstrap, connected, writes).Up()
    ensures var g := BlindStep(s, bootstrap, connected, writes).gateway.value;
      && g.AppliedVersion(device) == None
      && (RunsFor(g, device).Some? <==> InFile(bootstrap, device))
      && (forall i :: 0 <= i < |bootstrap| && bootstrap[i].deviceId == device ==>
            RunsFor(g, device) == Some(bootstrap[i]))
  {
    var items, t := Resolve([], bootstrap), BlindStep(s, bootstrap, connected, writes);
    BlindItems(bootstrap);
    ComesUp(s, items, connected, writes);
    FileItems(bootstrap);
    FileDevices(bootstrap, device);
    assert Devices([]) == {};
    assert items == FillIn({}, bootstrap);
    forall i | 0 <= i < |bootstrap| && bootstrap[i].deviceId == device
      ensures RunsFor(t.gateway.value, device) == Some(bootstrap[i])
    {
      assert Started(t, items[i], connected);
    }
    if InFile(bootstrap, device) {
      var i :| 0 <= i < |bootstrap| && bootstrap[i].deviceId == device;
      assert Started(t, items[i], connected);
    } else {
      assert LeftAlone(s, t, device);
    }
  }

  /** Such a restart stays honest about a device exactly when that device was not reported in sync
      before it, or the bootstrap file names it. */
  lemma BlindRestartHonestIff(s: System, bootstrap: seq<Definition>, connected: set<string>, writes: bool,
                              device: string)
    requires !s.Up() && BlindStep(s, bootstrap, connected, writes).Up()
    ensures var t := BlindStep(s, bootstrap, connected, writes);
      (InSync(t, device) ==> t.gateway.value.AppliedVersion(device) == t.status[device].applied)
      <==> (!InSync(s, device) || InFile(bootstrap, device))
  {
    var items, t := Resolve([], bootstrap), BlindStep(s, bootstrap, connected, writes);
    BlindItems(bootstrap);
    ComesUp(s, items, connected, writes);
    FileDevices(bootstrap, device);
    if device in Devices(items) {
      var i :| 0 <= i < |items| && items[i].device == device;
      assert Started(t, items[i], connected);
    } else {
      assert LeftAlone(s, t, device);
    }
  }
}

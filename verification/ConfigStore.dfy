/** Versioned device configurations: the rows of `device_configurations` and the transactions
    that change them. */
module ConfigStore {
  import opened Options
  import opened Gateway

  datatype Status = Draft | Validated | Published | Archived

  /** `config` is the stored snapshot; `validation` is `validation_result.valid`, absent while the
      result is the empty object. */
  datatype Row = Row(
    status: Status,
    config: Definition,
    validation: Option<bool>,
    validatedAt: Option<int>,
    publishedAt: Option<int>,
    archivedAt: Option<int>)
  {
    predicate Promoted() { status == Published || status == Archived }
    predicate Mutable() { status == Draft || status == Validated }
  }

  datatype Key = Key(device: string, version: nat)

  type Rows = map<Key, Row>

  datatype Reply = Done | NoDevice | NotFound | Mismatch | Immutable | WrongState | Invalid

  // ---------------------------------------------------------------- queries

  /** `max(version)` over the device's rows, with `0` for no rows. */
  predicate IsHighest(rows: Rows, device: string, h: nat) {
    && (forall k :: k in rows && k.device == device ==> k.version <= h)
    && (h == 0 || Key(device, h) in rows)
  }

  lemma {:induction false} HighestExists(rows: Rows, device: string)
    ensures exists h: nat :: IsHighest(rows, device, h)
    decreases |rows|
  {
    if k :| k in rows && k.device == device {
      var rest := rows - {k};
      assert rest.Keys == rows.Keys - {k};
      assert |rest.Keys| < |rows.Keys|;
      HighestExists(rest, device);
      var r: nat :| IsHighest(rest, device, r);
      var h := if k.version > r then k.version else r;
      assert k == Key(device, k.version);
      forall j | j in rows && j.device == device ensures j.version <= h {
        if j != k { assert j in rest; }
      }
      assert IsHighest(rows, device, h);
    } else {
      assert IsHighest(rows, device, 0);
    }
  }

  ghost function HighestVersion(rows: Rows, device: string): (h: nat)
    ensures IsHighest(rows, device, h)
  {
    HighestExists(rows, device);
    var h: nat :| IsHighest(rows, device, h);
    h
  }

  /** One more than the highest version: fresh, and above every version the device has. */
  ghost function NextVersion(rows: Rows, device: string): (v: nat)
    ensures v > 0 && Key(device, v) !in rows
    ensures forall k :: k in rows && k.device == device ==> k.version < v
    ensures v == 1 || Key(device, v - 1) in rows
  {
    HighestVersion(rows, device) + 1
  }

  ghost predicate IsPublished(rows: Rows, device: string, version: nat) {
    Key(device, version) in rows && rows[Key(device, version)].status == Published
  }

  ghost predicate HasPublished(rows: Rows, device: string) {
    exists v :: IsPublished(rows, device, v)
  }

  // ---------------------------------------------------------------- transactions

  function NewDraft(config: Definition): Row {
    Row(Draft, config, None, None, None, None)
  }

  ghost function CreateDraft(rows: Rows, device: string, config: Definition): Rows {
    if config.deviceId != device then rows
    else rows[Key(device, NextVersion(rows, device)) := NewDraft(config)]
  }

  function UpdateDraft(rows: Rows, key: Key, config: Definition): Rows {
    if key !in rows || !rows[key].Mutable() || config.deviceId != key.device then rows
    else rows[key := rows[key].(config := config, status := Draft, validatedAt := None, validation := None)]
  }

  function DeleteDraft(rows: Rows, key: Key): Rows {
    if key !in rows || rows[key].status != Draft then rows else rows - {key}
  }

  ghost function CloneVersion(rows: Rows, key: Key): Rows {
    if key !in rows then rows
    else rows[Key(key.device, NextVersion(rows, key.device)) := NewDraft(rows[key].config)]
  }

  function ValidateVersion(rows: Rows, key: Key, valid: bool, now: int): Rows {
    if key !in rows || !rows[key].Mutable() then rows
    else if valid then rows[key := rows[key].(validation := Some(true), status := Validated, validatedAt := Some(now))]
    else rows[key := rows[key].(validation := Some(false))]
  }

  /** The bulk demotion of every other published version of the device. */
  function ArchiveExcept(rows: Rows, key: Key, now: int): Rows {
    map k | k in rows ::
      if k.device == key.device && k.version != key.version && rows[k].status == Published
      then rows[k].(status := Archived, archivedAt := Some(now))
      else rows[k]
  }

  function Promote(rows: Rows, key: Key, now: int): Rows
    requires key in rows
  {
    rows[key := rows[key].(status := Published, publishedAt := Some(now), validatedAt := Some(now),
                           validation := Some(true))]
  }

  /** Demote first, promote second, commit once. */
  function PublishVersion(rows: Rows, key: Key, valid: bool, now: int): Rows {
    if key !in rows || rows[key].Promoted() then rows
    else if valid then Promote(ArchiveExcept(rows, key, now), key, now)
    else rows[key := rows[key].(validation := Some(false))]
  }

  // ---------------------------------------------------------------- invariants

  ghost predicate SinglePublished(rows: Rows) {
    forall k, j :: k in rows && j in rows && rows[k].status == Published && rows[j].status == Published ==>
      k.device == j.device ==> k == j
  }

  ghost predicate RowOk(key: Key, row: Row) {
    && key.version > 0
    && row.config.deviceId == key.device
    && (row.publishedAt.Some? <==> row.Promoted())
    && (row.Promoted() ==> row.validation == Some(true))
    && (row.archivedAt.Some? <==> row.status == Archived)
    && (row.validatedAt.None? <==> row.status == Draft)
    && (row.status == Draft ==> row.validation != Some(true))
  }

  ghost predicate RowsOk(rows: Rows) {
    && SinglePublished(rows)
    && (forall k :: k in rows ==> RowOk(k, rows[k]))
  }

  /** History is append-only: a promoted snapshot stays, with the same content and publication
      time, and an archived one stays archived. A published device stays published. */
  ghost predicate Evolves(before: Rows, after: Rows) {
    && (forall k :: k in before && before[k].Promoted() ==>
          && k in after && after[k].Promoted()
          && after[k].config == before[k].config
          && after[k].publishedAt == before[k].publishedAt
          && (before[k].status == Archived ==> after[k].status == Archived))
    && (forall d :: HasPublished(before, d) ==> HasPublished(after, d))
  }

  lemma EvolvesTrans(a: Rows, b: Rows, c: Rows)
    requires Evolves(a, b) && Evolves(b, c)
    ensures Evolves(a, c)
  {}

  datatype Tx =
    | TxCreate(device: string, config: Definition)
    | TxUpdate(key: Key, config: Definition)
    | TxDelete(key: Key)
    | TxClone(key: Key)
    | TxValidate(key: Key, valid: bool, now: int)
    | TxPublish(key: Key, valid: bool, now: int)

  ghost function Commit(rows: Rows, tx: Tx): Rows {
    match tx
    case TxCreate(device, config) => CreateDraft(rows, device, config)
    case TxUpdate(key, config) => UpdateDraft(rows, key, config)
    case TxDelete(key) => DeleteDraft(rows, key)
    case TxClone(key) => CloneVersion(rows, key)
    case TxValidate(key, valid, now) => ValidateVersion(rows, key, valid, now)
    case TxPublish(key, valid, now) => PublishVersion(rows, key, valid, now)
  }

  /** A change of rows that touches no promoted row and leaves no new promoted row. */
  lemma UntouchedHistory(before: Rows, after: Rows)
    requires forall k :: k in before && before[k].Promoted() ==> k in after && after[k] == before[k]
    requires forall k :: k in after && after[k].Promoted() ==> k in before && after[k] == before[k]
    ensures Evolves(before, after)
    ensures SinglePublished(before) ==> SinglePublished(after)
  {
    forall d | HasPublished(before, d) ensures HasPublished(after, d) {
      var v :| IsPublished(before, d, v);
      assert IsPublished(after, d, v);
    }
  }

  /** The unique index holds after the demotion and again after the promotion. */
  lemma EveryStatementSinglePublished(rows: Rows, key: Key, now: int)
    requires SinglePublished(rows) && key in rows
    ensures SinglePublished(ArchiveExcept(rows, key, now))
    ensures SinglePublished(Promote(ArchiveExcept(rows, key, now), key, now))
  {}

  /** The other order breaks the index exactly when a different version is published. */
  lemma PromoteFirstBreaksIndex(rows: Rows, key: Key, now: int)
    requires SinglePublished(rows) && key in rows
    ensures SinglePublished(Promote(rows, key, now)) <==>
      forall v :: v != key.version ==> !IsPublished(rows, key.device, v)
  {
    var after := Promote(rows, key, now);
    forall k | k in rows && k != key
      ensures after[k] == rows[k]
      ensures rows[k].status == Published ==> IsPublished(rows, k.device, k.version)
    { assert Key(k.device, k.version) == k; }
    forall v ensures v != key.version ==> Key(key.device, v) != key {}
  }

  lemma PublishRowsOk(rows: Rows, key: Key, now: int)
    requires RowsOk(rows) && key in rows && !rows[key].Promoted()
    ensures RowsOk(PublishVersion(rows, key, true, now))
  {
    EveryStatementSinglePublished(rows, key, now);
    var after := PublishVersion(rows, key, true, now);
    forall k | k in after ensures RowOk(k, after[k]) { assert RowOk(k, rows[k]); }
  }

  lemma PublishHistory(rows: Rows, key: Key, now: int)
    requires key in rows && !rows[key].Promoted()
    ensures var after := PublishVersion(rows, key, true, now);
      Evolves(rows, after) && IsPublished(after, key.device, key.version)
  {
    var after := PublishVersion(rows, key, true, now);
    assert Key(key.device, key.version) == key;
    forall d | HasPublished(rows, d) ensures HasPublished(after, d) {
      var v :| IsPublished(rows, d, v);
      if d == key.device { assert IsPublished(after, d, key.version); } else { assert IsPublished(after, d, v); }
    }
  }

  lemma PublishEvolves(rows: Rows, key: Key, now: int)
    requires RowsOk(rows) && key in rows && !rows[key].Promoted()
    ensures var after := PublishVersion(rows, key, true, now);
      && RowsOk(after) && Evolves(rows, after) && IsPublished(after, key.device, key.version)
  {
    PublishRowsOk(rows, key, now);
    PublishHistory(rows, key, now);
  }

  /** Writing a row that is not promoted, over a key that is absent or not promoted. */
  lemma WriteDraft(rows: Rows, key: Key, row: Row)
    requires RowsOk(rows) && (key in rows ==> !rows[key].Promoted()) && RowOk(key, row) && !row.Promoted()
    ensures RowsOk(rows[key := row]) && Evolves(rows, rows[key := row])
  {
    UntouchedHistory(rows, rows[key := row]);
  }

  lemma DropDraft(rows: Rows, key: Key)
    requires RowsOk(rows) && (key in rows ==> !rows[key].Promoted())
    ensures RowsOk(rows - {key}) && Evolves(rows, rows - {key})
  {
    UntouchedHistory(rows, rows - {key});
  }

  /** Every transaction keeps the row invariants and only appends to history. */
  lemma CommitOk(rows: Rows, tx: Tx)
    requires RowsOk(rows)
    ensures RowsOk(Commit(rows, tx)) && Evolves(rows, Commit(rows, tx))
  {
    match tx
    case TxCreate(device, config) =>
      if config.deviceId == device { WriteDraft(rows, Key(device, NextVersion(rows, device)), NewDraft(config)); }
    case TxUpdate(key, config) =>
      var after := UpdateDraft(rows, key, config);
      if after != rows { WriteDraft(rows, key, after[key]); }
    case TxDelete(key) =>
      if DeleteDraft(rows, key) != rows { DropDraft(rows, key); }
    case TxClone(key) =>
      if key in rows { WriteDraft(rows, Key(key.device, NextVersion(rows, key.device)), NewDraft(rows[key].config)); }
    case TxValidate(key, valid, now) =>
      var after := ValidateVersion(rows, key, valid, now);
      if after != rows { WriteDraft(rows, key, after[key]); }
    case TxPublish(key, valid, now) => PublishOk(rows, key, valid, now);
  }

  lemma PublishOk(rows: Rows, key: Key, valid: bool, now: int)
    requires RowsOk(rows)
    ensures RowsOk(PublishVersion(rows, key, valid, now)) && Evolves(rows, PublishVersion(rows, key, valid, now))
  {
    if key in rows && !rows[key].Promoted() {
      if valid {
        PublishEvolves(rows, key, now);
      } else {
        WriteDraft(rows, key, rows[key].(validation := Some(false)));
      }
    }
  }

  // ---------------------------------------------------------------- what each transaction does

  /** Nothing but this row differs. */
  ghost predicate OnlyAt(before: Rows, after: Rows, key: Key) {
    forall k :: k != key ==> (k in after <==> k in before) && (k in before ==> after[k] == before[k])
  }

  /** A new draft: that content, no validation, no times, and no other row touched. */
  lemma CreateHolds(rows: Rows, device: string, config: Definition)
    ensures var after := Commit(rows, TxCreate(device, config)); var key := Key(device, NextVersion(rows, device));
      if config.deviceId != device then after == rows
      else key in after && after[key] == Row(Draft, config, None, None, None, None) && OnlyAt(rows, after, key)
  {}

  /** A clone is a new draft with the source's content, whatever the source's status. */
  lemma CloneHolds(rows: Rows, key: Key)
    ensures var after := Commit(rows, TxClone(key)); var copy := Key(key.device, NextVersion(rows, key.device));
      if key !in rows then after == rows
      else
        && copy in after && after[copy] == Row(Draft, rows[key].config, None, None, None, None)
        && OnlyAt(rows, after, copy)
  {}

  /** Deleting removes exactly a draft. */
  lemma DeleteHolds(rows: Rows, key: Key)
    ensures var after := Commit(rows, TxDelete(key));
      if key in rows && rows[key].status == Draft then key !in after && OnlyAt(rows, after, key) else after == rows
  {}

  /** Validating stores the verdict on a DRAFT or VALIDATED row; only a passed validation makes it
      VALIDATED, with its time. Any other row is left alone. */
  lemma ValidateHolds(rows: Rows, key: Key, valid: bool, now: int)
    ensures var after := Commit(rows, TxValidate(key, valid, now));
      if key in rows && (rows[key].status == Draft || rows[key].status == Validated) then
        && key in after && OnlyAt(rows, after, key)
        && after[key].validation == Some(valid) && after[key].config == rows[key].config
        && after[key].status == (if valid then Validated else rows[key].status)
        && after[key].validatedAt == (if valid then Some(now) else rows[key].validatedAt)
        && after[key].publishedAt == rows[key].publishedAt && after[key].archivedAt == rows[key].archivedAt
      else after == rows
  {}

  /** Publishing promotes exactly a DRAFT or VALIDATED row that passes validation, with its content
      and both times, and archives exactly the other published versions of the device. A row that
      fails only keeps the failed verdict. */
  lemma PublishHolds(rows: Rows, key: Key, valid: bool, now: int)
    ensures var after := Commit(rows, TxPublish(key, valid, now));
      if key !in rows || rows[key].status == Published || rows[key].status == Archived then after == rows
      else if !valid then
        key in after && after[key] == rows[key].(validation := Some(false)) && OnlyAt(rows, after, key)
      else
        && after.Keys == rows.Keys
        && after[key] == Row(Published, rows[key].config, Some(true), Some(now), Some(now), rows[key].archivedAt)
        && (forall k :: k in rows && k != key ==>
              after[k] == if k.device == key.device && rows[k].status == Published
                          then rows[k].(status := Archived, archivedAt := Some(now)) else rows[k])
  {
    if key in rows {
      forall k | k in rows && k != key ensures k.device == key.device ==> k.version != key.version {}
    }
  }

  /** An edit stores its content exactly on a DRAFT or VALIDATED row of the device the content names,
      which it drops back to an unvalidated draft; otherwise nothing changes. */
  lemma UpdateStoresIff(rows: Rows, key: Key, config: Definition)
    ensures var after := Commit(rows, TxUpdate(key, config));
      if key in rows && (rows[key].status == Draft || rows[key].status == Validated) && config.deviceId == key.device
      then
        && key in after && OnlyAt(rows, after, key)
        && after[key] == Row(Draft, config, None, None, rows[key].publishedAt, rows[key].archivedAt)
      else after == rows
  {}

  /** A VALIDATED row is mutable: its content changes, and it falls back to DRAFT. */
  lemma ValidatedIsMutable()
    ensures var one, two := Definition("x", Simulator, true, "first"), Definition("x", Simulator, true, "second");
      var key, row := Key("x", 1), Row(Validated, one, Some(true), Some(0), None, None);
      var after := Commit(map[key := row], TxUpdate(key, two));
      RowOk(key, row) && after[key].config == two != row.config && after[key].status == Draft
  {}

  ghost function CommitAll(rows: Rows, txs: seq<Tx>): Rows {
    if txs == [] then rows else var n := |txs| - 1; Commit(CommitAll(rows, txs[..n]), txs[n])
  }

  lemma {:induction false} RowsStayOk(txs: seq<Tx>)
    ensures RowsOk(CommitAll(map[], txs))
  {
    if txs == [] {
    } else {
      var n := |txs| - 1;
      RowsStayOk(txs[..n]);
      CommitOk(CommitAll(map[], txs[..n]), txs[n]);
    }
  }

  /** The lifecycle over every run of transactions: at most one published version per device,
      publication times exactly on promoted rows, promoted rows validated, and every snapshot
      promoted by moment `i` still there, unchanged, at every later moment. */
  lemma {:induction false} LifecycleHolds(txs: seq<Tx>, i: nat)
    requires i <= |txs|
    ensures RowsOk(CommitAll(map[], txs))
    ensures Evolves(CommitAll(map[], txs[..i]), CommitAll(map[], txs))
  {
    RowsStayOk(txs);
    if i == |txs| {
      assert txs[..i] == txs;
    } else {
      var n := |txs| - 1;
      assert txs[..n][..i] == txs[..i];
      assert Evolves(CommitAll(map[], txs[..i]), CommitAll(map[], txs[..n])) by { LifecycleHolds(txs[..n], i); }
      assert Evolves(CommitAll(map[], txs[..n]), CommitAll(map[], txs)) by {
        RowsStayOk(txs[..n]);
        CommitOk(CommitAll(map[], txs[..n]), txs[n]);
      }
      EvolvesTrans(CommitAll(map[], txs[..i]), CommitAll(map[], txs[..n]), CommitAll(map[], txs));
    }
  }

  /** A version number that was ever promoted is never handed out again. */
  lemma {:induction false} NeverReissued(txs: seq<Tx>, i: nat, key: Key)
    requires i <= |txs|
    requires var then_ := CommitAll(map[], txs[..i]); key in then_ && then_[key].Promoted()
    ensures NextVersion(CommitAll(map[], txs), key.device) > key.version
  {
    LifecycleHolds(txs, i);
  }
}

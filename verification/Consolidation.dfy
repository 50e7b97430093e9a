/** The migration that folds duplicate open alarms into one open instance per device and rule. */
module Consolidation {
  import opened Options

  datatype Status = Active | Acknowledged | Cleared

  datatype Row = Row(
    id: int,
    device: string,
    rule: string,
    startedAt: int,
    status: Status,
    occurrences: int,
    lastTriggeredAt: Option<int>,
    clearedAt: Option<int>,
    clearReason: Option<string>)
  {
    predicate Open() { status != Cleared }
  }

  const SUPERSEDED := "SUPERSEDED_ON_MIGRATION_20260923_07"

  predicate SameGroup(x: Row, y: Row) { x.device == y.device && x.rule == y.rule }

  /** The order inside a group: by start, then by id. */
  predicate Earlier(x: Row, y: Row) { x.startedAt < y.startedAt || (x.startedAt == y.startedAt && x.id < y.id) }

  // ---------------------------------------------------------------- window functions

  /** `count(*)` over the open rows of the group. */
  function GroupSize(rows: seq<Row>, r: Row): nat {
    if rows == [] then 0
    else (if rows[0].Open() && SameGroup(rows[0], r) then 1 else 0) + GroupSize(rows[1..], r)
  }

  /** `row_number() - 1`: the open rows of the group that come before `r`. */
  function EarlierCount(rows: seq<Row>, r: Row): nat {
    if rows == [] then 0
    else (if rows[0].Open() && SameGroup(rows[0], r) && Earlier(rows[0], r) then 1 else 0) + EarlierCount(rows[1..], r)
  }

  /** `max(started_at)` over the open rows of the group, at least `r`'s own. */
  function GroupLast(rows: seq<Row>, r: Row): int {
    if rows == [] then r.startedAt
    else
      var rest := GroupLast(rows[1..], r);
      if rows[0].Open() && SameGroup(rows[0], r) && rows[0].startedAt > rest then rows[0].startedAt else rest
  }

  predicate First(rows: seq<Row>, r: Row) { EarlierCount(rows, r) == 0 }

  /** The values one row is updated to. */
  function Updated(rows: seq<Row>, r: Row): Row {
    if !r.Open() then r
    else if First(rows, r) then r.(occurrences := GroupSize(rows, r), lastTriggeredAt := Some(GroupLast(rows, r)))
    else r.(occurrences := 1, lastTriggeredAt := Some(r.startedAt), status := Cleared,
            clearedAt := Some(r.startedAt), clearReason := Some(SUPERSEDED))
  }

  function Consolidate(rows: seq<Row>): seq<Row> {
    seq(|rows|, i requires 0 <= i < |rows| => Updated(rows, rows[i]))
  }

  /** The statement, applied in place: every value comes from the table as it was. */
  method ConsolidateDuplicates(table: array<Row>)
    modifies table
    ensures table[..] == Consolidate(old(table[..]))
  {
    var before := table[..];
    for i := 0 to table.Length
      invariant forall j :: 0 <= j < i ==> table[j] == Updated(before, before[j])
      invariant forall j :: i <= j < table.Length ==> table[j] == before[j]
    {
      table[i] := Updated(before, table[i]);
    }
  }

  // ---------------------------------------------------------------- meaning of the window functions

  lemma {:induction false} EarlierCountZero(rows: seq<Row>, r: Row)
    ensures EarlierCount(rows, r) == 0 <==>
      forall i :: 0 <= i < |rows| && rows[i].Open() && SameGroup(rows[i], r) ==> !Earlier(rows[i], r)
  {
    if rows == [] {
    } else {
      EarlierCountZero(rows[1..], r);
      forall i | 0 < i < |rows| ensures rows[i] == rows[1..][i - 1] {}
      assert forall i :: 0 <= i < |rows[1..]| ==> rows[1..][i] == rows[i + 1];
    }
  }

  lemma {:induction false} GroupLastIsMax(rows: seq<Row>, r: Row)
    ensures r.startedAt <= GroupLast(rows, r)
    ensures forall i :: (
      0 <= i < |rows| && rows[i].status != Cleared && rows[i].device == r.device && rows[i].rule == r.rule ==>
        rows[i].startedAt <= GroupLast(rows, r))
    ensures GroupLast(rows, r) == r.startedAt ||
      exists i :: 0 <= i < |rows| && rows[i].status != Cleared && rows[i].device == r.device && rows[i].rule == r.rule
                  && rows[i].startedAt == GroupLast(rows, r)
  {
    if rows == [] {
    } else {
      GroupLastIsMax(rows[1..], r);
      assert forall i :: 0 <= i < |rows[1..]| ==> rows[1..][i] == rows[i + 1];
      forall i | 0 < i < |rows| ensures rows[i] == rows[1..][i - 1] {}
    }
  }

  ghost predicate UniqueIds(rows: seq<Row>) {
    forall i, j :: 0 <= i < j < |rows| ==> rows[i].id != rows[j].id
  }

  ghost predicate Survives(rows: seq<Row>, i: int) {
    0 <= i < |rows| && rows[i].Open() && First(rows, rows[i])
  }

  /** The open rows of a group have exactly one earliest. */
  lemma SurvivorUnique(rows: seq<Row>, i: int, j: int)
    requires UniqueIds(rows) && Survives(rows, i) && Survives(rows, j) && SameGroup(rows[i], rows[j])
    ensures i == j
  {
    EarlierCountZero(rows, rows[i]);
    EarlierCountZero(rows, rows[j]);
  }

  lemma {:induction false} SurvivorExists(rows: seq<Row>, i: nat) returns (s: nat)
    requires UniqueIds(rows) && i < |rows| && rows[i].Open()
    ensures Survives(rows, s) && SameGroup(rows[s], rows[i])
    decreases EarlierCount(rows, rows[i])
  {
    EarlierCountZero(rows, rows[i]);
    if First(rows, rows[i]) {
      s := i;
    } else {
      var j :| 0 <= j < |rows| && rows[j].Open() && SameGroup(rows[j], rows[i]) && Earlier(rows[j], rows[i]);
      EarlierCountSmaller(rows, rows[j], rows[i], j);
      s := SurvivorExists(rows, j);
    }
  }

  lemma {:induction false} EarlierCountMonotone(rows: seq<Row>, x: Row, y: Row)
    requires SameGroup(x, y) && Earlier(x, y)
    ensures EarlierCount(rows, x) <= EarlierCount(rows, y)
  {
    if rows == [] {
    } else {
      EarlierCountMonotone(rows[1..], x, y);
    }
  }

  lemma {:induction false} EarlierCountSmaller(rows: seq<Row>, x: Row, y: Row, j: nat)
    requires j < |rows| && rows[j] == x && x.Open() && SameGroup(x, y) && Earlier(x, y)
    ensures EarlierCount(rows, x) < EarlierCount(rows, y)
  {
    if j == 0 {
      EarlierCountMonotone(rows[1..], x, y);
    } else {
      EarlierCountSmaller(rows[1..], x, y, j - 1);
    }
  }

  // ---------------------------------------------------------------- what the migration establishes

  /** The unique index the migration must enable. */
  ghost predicate OneOpenPerGroup(rows: seq<Row>) {
    forall i, j :: 0 <= i < j < |rows| && rows[i].Open() && rows[j].Open() ==> !SameGroup(rows[i], rows[j])
  }

  /** The index in plain words: no two rows that are not CLEARED share device and rule. */
  lemma IndexIs(rows: seq<Row>)
    ensures OneOpenPerGroup(rows) <==>
      forall i, j :: 0 <= i < j < |rows| && rows[i].status != Cleared && rows[j].status != Cleared ==>
        !(rows[i].device == rows[j].device && rows[i].rule == rows[j].rule)
  {
    forall i, j | 0 <= i < j < |rows|
      ensures SameGroup(rows[i], rows[j]) <==> rows[i].device == rows[j].device && rows[i].rule == rows[j].rule
    {}
  }

  /** Surviving means being the earliest: every other open row of the device and rule started later, or
      at the same time with a larger id. */
  lemma SurvivorIsEarliest(rows: seq<Row>, i: nat)
    requires UniqueIds(rows) && i < |rows|
    ensures Survives(rows, i) <==> (
      && rows[i].status != Cleared
      && forall j :: 0 <= j < |rows| && j != i && rows[j].status != Cleared
                     && rows[j].device == rows[i].device && rows[j].rule == rows[i].rule ==>
           rows[i].startedAt < rows[j].startedAt
           || (rows[i].startedAt == rows[j].startedAt && rows[i].id < rows[j].id))
  {
    EarlierCountZero(rows, rows[i]);
  }

  /** The open rows of a device and rule, by their positions from `k` on. */
  ghost function Group(rows: seq<Row>, r: Row, k: nat): set<int> {
    set i | k <= i < |rows| && rows[i].status != Cleared && rows[i].device == r.device && rows[i].rule == r.rule
  }

  lemma {:induction false} GroupFrom(rows: seq<Row>, r: Row, k: nat)
    requires k <= |rows|
    ensures GroupSize(rows[k..], r) == |Group(rows, r, k)|
    decreases |rows| - k
  {
    var here := Group(rows, r, k);
    if k == |rows| {
      assert here == {};
    } else {
      var rest := Group(rows, r, k + 1);
      GroupFrom(rows, r, k + 1);
      assert rows[k..][0] == rows[k] && rows[k..][1..] == rows[k + 1..];
      if k in here {
        assert here == rest + {k};
      } else {
        assert here == rest;
      }
    }
  }

  /** The recorded size is the number of open rows of the device and rule. */
  lemma GroupSizeIsCount(rows: seq<Row>, r: Row)
    ensures GroupSize(rows, r) == |Group(rows, r, 0)|
  {
    GroupFrom(rows, r, 0);
    assert rows[0..] == rows;
  }

  /** Afterwards each device and rule has at most one open row; a row stays open exactly when it was
      the earliest open row of its group, and then it carries the group's size and latest start. No
      row is added, dropped or renamed, and an already cleared row is untouched. */
  lemma ConsolidationHolds(rows: seq<Row>)
    requires UniqueIds(rows)
    ensures var after := Consolidate(rows);
      && |after| == |rows| && OneOpenPerGroup(after)
      && (forall i :: 0 <= i < |rows| ==> SameIdentity(rows[i], after[i]))
      && (forall i :: 0 <= i < |rows| && !rows[i].Open() ==> after[i] == rows[i])
      && (forall i :: 0 <= i < |rows| ==> (after[i].Open() <==> Survives(rows, i)))
      && (forall i :: 0 <= i < |rows| && Survives(rows, i) ==>
            && after[i].status == rows[i].status
            && after[i].clearedAt == rows[i].clearedAt && after[i].clearReason == rows[i].clearReason
            && after[i].occurrences == GroupSize(rows, rows[i]) >= 1
            && after[i].lastTriggeredAt == Some(GroupLast(rows, rows[i])))
      && (forall i :: 0 <= i < |rows| && rows[i].Open() && !Survives(rows, i) ==>
            && after[i].status == Cleared && after[i].occurrences == 1
            && after[i].clearReason == Some("SUPERSEDED_ON_MIGRATION_20260923_07")
            && after[i].clearedAt == Some(rows[i].startedAt) && after[i].lastTriggeredAt == Some(rows[i].startedAt))
  {
    var after := Consolidate(rows);
    forall i, j | 0 <= i < j < |rows| && after[i].Open() && after[j].Open() ensures !SameGroup(after[i], after[j]) {
      if SameGroup(rows[i], rows[j]) { SurvivorUnique(rows, i, j); }
    }
    forall i | 0 <= i < |rows| && rows[i].Open() ensures GroupSize(rows, rows[i]) >= 1 {
      OneInGroup(rows, rows[i], i);
    }
  }

  predicate SameIdentity(x: Row, y: Row) {
    x.id == y.id && x.device == y.device && x.rule == y.rule && x.startedAt == y.startedAt
  }

  // ---------------------------------------------------------------- conservation

  function OpenCount(rows: seq<Row>): nat {
    if rows == [] then 0 else (if rows[0].Open() then 1 else 0) + OpenCount(rows[1..])
  }

  /** The occurrence counts of the open rows. */
  function OpenOccurrences(rows: seq<Row>): int {
    if rows == [] then 0 else (if rows[0].Open() then rows[0].occurrences else 0) + OpenOccurrences(rows[1..])
  }

  /** Group sizes counted over `table`, summed over the survivors listed in `part`. */
  function SizeSum(rows: seq<Row>, part: seq<Row>, table: seq<Row>): nat {
    if part == [] then 0
    else
      var size := if part[0].Open() && First(rows, part[0]) then GroupSize(table, part[0]) else 0;
      size + SizeSum(rows, part[1..], table)
  }

  /** The survivors listed in `part` that own row `x`. */
  function Owners(rows: seq<Row>, part: seq<Row>, x: Row): nat {
    if part == [] then 0
    else (if part[0].Open() && First(rows, part[0]) && SameGroup(x, part[0]) then 1 else 0) + Owners(rows, part[1..], x)
  }

  /** The owners of the open rows of `table`, summed. */
  function OwnerSum(rows: seq<Row>, part: seq<Row>, table: seq<Row>): nat {
    if table == [] then 0
    else (if table[0].Open() then Owners(rows, part, table[0]) else 0) + OwnerSum(rows, part, table[1..])
  }

  lemma {:induction false} SizeSumSplits(rows: seq<Row>, part: seq<Row>, table: seq<Row>)
    requires table != []
    ensures SizeSum(rows, part, table) ==
      (if table[0].Open() then Owners(rows, part, table[0]) else 0) + SizeSum(rows, part, table[1..])
  {
    if part == [] {
    } else {
      SizeSumSplits(rows, part[1..], table);
    }
  }

  /** Counting a group from its survivor or from its rows is the same count. */
  lemma {:induction false} SumsSwap(rows: seq<Row>, part: seq<Row>, table: seq<Row>)
    ensures SizeSum(rows, part, table) == OwnerSum(rows, part, table)
  {
    if table != [] {
      SizeSumSplits(rows, part, table);
      SumsSwap(rows, part, table[1..]);
    } else {
      NoSizes(rows, part);
    }
  }

  lemma {:induction false} NoSizes(rows: seq<Row>, part: seq<Row>)
    ensures SizeSum(rows, part, []) == 0
  {
    if part == [] {
    } else {
      NoSizes(rows, part[1..]);
    }
  }

  lemma {:induction false} OneOwner(rows: seq<Row>, x: Row, s: nat, k: nat)
    requires UniqueIds(rows) && k <= |rows| && Survives(rows, s) && SameGroup(x, rows[s])
    ensures Owners(rows, rows[k..], x) == if k <= s then 1 else 0
    decreases |rows| - k
  {
    if k == |rows| {
    } else {
      OneOwner(rows, x, s, k + 1);
      assert rows[k..][0] == rows[k] && rows[k..][1..] == rows[k + 1..];
      if Survives(rows, k) && SameGroup(x, rows[k]) { SurvivorUnique(rows, k, s); }
    }
  }

  lemma {:induction false} EveryRowOwnedOnce(rows: seq<Row>, k: nat)
    requires UniqueIds(rows) && k <= |rows|
    ensures OwnerSum(rows, rows, rows[k..]) == OpenCount(rows[k..])
    decreases |rows| - k
  {
    if k == |rows| {
    } else {
      EveryRowOwnedOnce(rows, k + 1);
      assert rows[k..][0] == rows[k] && rows[k..][1..] == rows[k + 1..];
      if rows[k].Open() {
        var s := SurvivorExists(rows, k);
        OneOwner(rows, rows[k], s, 0);
        assert rows[0..] == rows;
      }
    }
  }

  lemma {:induction false} OccurrencesAreSizes(rows: seq<Row>, k: nat)
    requires k <= |rows|
    ensures OpenOccurrences(Consolidate(rows)[k..]) == SizeSum(rows, rows[k..], rows)
    decreases |rows| - k
  {
    var after := Consolidate(rows);
    if k == |rows| {
    } else {
      OccurrencesAreSizes(rows, k + 1);
      assert after[k..][0] == Updated(rows, rows[k]) && after[k..][1..] == after[k + 1..];
      assert rows[k..][0] == rows[k] && rows[k..][1..] == rows[k + 1..];
    }
  }

  /** Conservation: the survivors' occurrence counts add up to the number of rows open before. */
  lemma OccurrencesConserved(rows: seq<Row>)
    requires UniqueIds(rows)
    ensures OpenOccurrences(Consolidate(rows)) == OpenCount(rows)
  {
    OccurrencesAreSizes(rows, 0);
    SumsSwap(rows, rows, rows);
    EveryRowOwnedOnce(rows, 0);
    assert Consolidate(rows)[0..] == Consolidate(rows) && rows[0..] == rows;
  }

  // ---------------------------------------------------------------- running it again

  lemma {:induction false} AloneInGroup(rows: seq<Row>, i: nat, k: nat)
    requires k <= |rows| && i < |rows| && rows[i].Open()
    requires forall j :: 0 <= j < |rows| && j != i && rows[j].Open() ==> !SameGroup(rows[j], rows[i])
    ensures GroupSize(rows[k..], rows[i]) == if k <= i then 1 else 0
    ensures EarlierCount(rows[k..], rows[i]) == 0 && GroupLast(rows[k..], rows[i]) == rows[i].startedAt
    decreases |rows| - k
  {
    if k == |rows| {
    } else {
      AloneInGroup(rows, i, k + 1);
      assert rows[k..][0] == rows[k] && rows[k..][1..] == rows[k + 1..];
    }
  }

  /** A second run resets every open row to one occurrence, at its own start. */
  lemma SecondRun(rows: seq<Row>, i: nat)
    requires OneOpenPerGroup(rows) && i < |rows| && rows[i].Open()
    ensures Consolidate(rows)[i] == rows[i].(occurrences := 1, lastTriggeredAt := Some(rows[i].startedAt))
  {
    AloneInGroup(rows, i, 0);
    assert rows[0..] == rows;
  }

  /** So the statement is idempotent exactly on tables without duplicate open rows. */
  lemma IdempotentIff(rows: seq<Row>)
    requires UniqueIds(rows)
    ensures Consolidate(Consolidate(rows)) == Consolidate(rows) <==> OneOpenPerGroup(rows)
  {
    var once := Consolidate(rows);
    var twice := Consolidate(once);
    ConsolidationHolds(rows);
    forall i | 0 <= i < |rows| && once[i].Open()
      ensures twice[i] == once[i].(occurrences := 1, lastTriggeredAt := Some(once[i].startedAt))
    {
      SecondRun(once, i);
    }
    if OneOpenPerGroup(rows) {
      forall i | 0 <= i < |rows| ensures twice[i] == once[i] {
        if rows[i].Open() { SecondRun(rows, i); }
      }
    } else {
      var i, j :| 0 <= i < j < |rows| && rows[i].Open() && rows[j].Open() && SameGroup(rows[i], rows[j]);
      var s := SurvivorExists(rows, i);
      TwoInGroup(rows, rows[s], i, j);
      assert once[s].occurrences >= 2 && twice[s].occurrences == 1;
    }
  }

  /** Two open rows of one group: the first run counts them, a second run forgets the count. */
  lemma SecondRunForgets()
    ensures var first := Row(1, "device", "rule", 10, Active, 1, None, None, None);
      var rows := [first, first.(id := 2, startedAt := 20)];
      && UniqueIds(rows)
      && Consolidate(rows)[0].occurrences == 2
      && Consolidate(Consolidate(rows))[0].occurrences == 1
  {
    var first := Row(1, "device", "rule", 10, Active, 1, None, None, None);
    var second := first.(id := 2, startedAt := 20);
    var rows := [first, second];
    assert rows[1..] == [second] && GroupSize([second], first) == 1;
    ConsolidationHolds(rows);
    SurvivorIsEarliest(rows, 0);
    SecondRun(Consolidate(rows), 0);
  }

  lemma {:induction false} TwoInGroup(rows: seq<Row>, r: Row, i: nat, j: nat)
    requires i < j < |rows| && rows[i].Open() && rows[j].Open() && SameGroup(rows[i], r) && SameGroup(rows[j], r)
    ensures GroupSize(rows, r) >= 2
  {
    if i == 0 { OneInGroup(rows[1..], r, j - 1); } else { TwoInGroup(rows[1..], r, i - 1, j - 1); }
  }

  lemma {:induction false} OneInGroup(rows: seq<Row>, r: Row, j: nat)
    requires j < |rows| && rows[j].Open() && SameGroup(rows[j], r)
    ensures GroupSize(rows, r) >= 1
  {
    if j == 0 {
    } else {
      OneInGroup(rows[1..], r, j - 1);
    }
  }
}

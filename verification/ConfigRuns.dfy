/** Runs worked out in full: the inputs on which the drift theorems' exceptions are real. */
module ConfigRuns {
  import opened Options
  import opened Gateway
  import opened ConfigStore
  import opened ConfigProtocol
  import opened ConfigOutcomes
  import opened ConfigStartup
  import opened ConfigDrift

  const ONE := Definition("x", Simulator, true, "first")
  const TWO := Definition("x", Simulator, true, "second")
  const KEY1 := Key("x", 1)
  const KEY2 := Key("x", 2)
  const OK := Waited(true)

  function PublishedRow(d: Definition): Row { Row(Published, d, Some(true), Some(0), Some(0), None) }
  function AppliedRow(v: nat): StatusRow { StatusRow(Some(v), Some(v), Applied, Database) }
  function Live(rows: Rows, requests: map<nat, Request>): System {
    System({"x"}, rows, map[], Some(EMPTY), requests)
  }

  lemma NothingStarts(s: System)
    requires !s.Up()
    ensures ComeUp(s, [], {}, true) == s.(gateway := Some(EMPTY), requests := map[])
  {
    assert Definitions([]) == [];
  }

  lemma NothingResolved(s: System)
    requires s.rows == map[]
    ensures RestartStep(s, [], [], {}, true) == ComeUp(s, [], {}, true)
  {
    assert Lists(s.rows, []);
    assert Resolve([], []) == [];
  }

  lemma EmptyStart()
    ensures Next(Next(INIT, Enroll("x")), Restart([], [], {}, true)) == Live(map[], map[])
  {
    var s := System({"x"}, map[], map[], None, map[]);
    assert Next(INIT, Enroll("x")) == s;
    NothingResolved(s);
    NothingStarts(s);
  }

  lemma FirstDraft()
    ensures CreateDraft(map[], "x", ONE) == map[KEY1 := NewDraft(ONE)]
  {
    assert NextVersion(map[], "x") == 1;
  }

  lemma SecondDraft()
    ensures CreateDraft(map[KEY1 := NewDraft(ONE)], "x", TWO) == map[KEY1 := NewDraft(ONE), KEY2 := NewDraft(TWO)]
  {
    var rows := map[KEY1 := NewDraft(ONE)];
    assert KEY1 in rows && NextVersion(rows, "x") > 1;
    assert forall k :: k in rows ==> k == KEY1;
    assert NextVersion(rows, "x") == 2;
  }

  // ---------------------------------------------------------------- a restart without the database

  /** Enrol, start, create, publish, mark, call, record, crash. */
  const LIFE: seq<Step> := [
    Enroll("x"), Restart([], [], {}, true), Edit(TxCreate("x", ONE)), Publish(0, KEY1, true, 0),
    MarkApplying(0), CallGateway(0, OK), RecordApply(0), Crash]

  lemma LifeDrafts()
    ensures Run(LIFE[..3]) == Live(map[KEY1 := NewDraft(ONE)], map[])
  {
    EmptyStart();
    FirstDraft();
    RunPrefix(LIFE, 0);
    RunPrefix(LIFE, 1);
    RunPrefix(LIFE, 2);
    assert LIFE[..0] == [];
  }

  lemma FirstPublication()
    ensures PublishStep(Live(map[KEY1 := NewDraft(ONE)], map[]), 0, KEY1, true, 0)
      == Live(map[KEY1 := PublishedRow(ONE)], map[0 := Committed("x", 1)])
  {
    assert PublishVersion(map[KEY1 := NewDraft(ONE)], KEY1, true, 0) == map[KEY1 := PublishedRow(ONE)];
  }

  lemma LifePublishes()
    ensures Run(LIFE[..4]) == Live(map[KEY1 := PublishedRow(ONE)], map[0 := Committed("x", 1)])
  {
    LifeDrafts();
    FirstPublication();
    RunPrefix(LIFE, 3);
  }

  lemma LifeRequests()
    ensures Run(LIFE[..7]) == Finish(Run(LIFE[..4]), 0, OK)
  {
    RunPrefix(LIFE, 4);
    RunPrefix(LIFE, 5);
    RunPrefix(LIFE, 6);
  }

  lemma LifeApplies()
    ensures var s := Run(LIFE[..7]);
      && s.rows == map[KEY1 := PublishedRow(ONE)] && s.registered == {"x"}
      && s.status == map["x" := AppliedRow(1)]
  {
    LifePublishes();
    LifeRequests();
    FirstApplies();
  }

  lemma FirstApplies()
    ensures var s := Finish(Live(map[KEY1 := PublishedRow(ONE)], map[0 := Committed("x", 1)]), 0, OK);
      && s.rows == map[KEY1 := PublishedRow(ONE)] && s.registered == {"x"}
      && s.status == map["x" := AppliedRow(1)]
  {
    ApplyOutcome(Live(map[KEY1 := PublishedRow(ONE)], map[0 := Committed("x", 1)]), 0, "x", 1, OK);
  }

  lemma LifeEnds()
    ensures Run(LIFE) == System({"x"}, map[KEY1 := PublishedRow(ONE)], map["x" := AppliedRow(1)], None, map[])
  {
    LifeApplies();
    RunPrefix(LIFE, 7);
    assert LIFE[..8] == LIFE;
  }

  lemma BlindComesUp(file: seq<Definition>)
    requires |file| <= 1 && forall d :: d in file ==> d.deviceId == "x"
    ensures Run(LIFE + [BlindRestart(file, {}, true)]) == BlindStep(Run(LIFE), file, {}, true)
    ensures Run(LIFE + [BlindRestart(file, {}, true)]).Up()
  {
    LifeEnds();
    RunSnoc(LIFE, BlindRestart(file, {}, true));
    BlindUpIff(Run(LIFE), file, {}, true);
  }

  /** At the end of that run a restart that could not read the database, with an empty file, reports
      the device in sync while the gateway names no version and runs nothing. */
  lemma BlindRestartLies()
    ensures var t := Run(LIFE + [BlindRestart([], {}, true)]);
      && t.Up() && InSync(t, "x")
      && t.gateway.value.AppliedVersion("x") == None && RunsFor(t.gateway.value, "x") == None
  {
    LifeEnds();
    BlindComesUp([]);
    BlindRuns(Run(LIFE), [], {}, true, "x");
    assert IsPublished(Run(LIFE).rows, "x", 1);
    BlindRestartHonestIff(Run(LIFE), [], {}, true, "x");
  }

  /** With a file that names the device, and a database that fails the read but takes the status rows
      of the same start, it runs the file's definition instead of the published one. */
  lemma BlindRestartFallsBack()
    ensures var t := Run(LIFE + [BlindRestart([TWO], {}, true)]);
      && t.Up() && IsPublished(t.rows, "x", 1) && t.rows[KEY1].config == ONE
      && RunsFor(t.gateway.value, "x") == Some(TWO)
  {
    LifeEnds();
    BlindComesUp([TWO]);
    BlindRuns(Run(LIFE), [TWO], {}, true, "x");
    assert [TWO][0].deviceId == "x";
  }

  /** If the database does not take them either, that start does not come up. */
  lemma BlindRestartNeedsTheWrite()
    ensures !Run(LIFE + [BlindRestart([TWO], {}, false)]).Up()
  {
    LifeEnds();
    RunSnoc(LIFE, BlindRestart([TWO], {}, false));
    BlindUpIff(Run(LIFE), [TWO], {}, false);
  }

  /** A file that repeats the published device does not stop a managed restart there. */
  lemma RepeatedPublishedDevice()
    ensures Run(LIFE + [Restart([ItemFor(map[KEY1 := PublishedRow(ONE)], KEY1)], [TWO, TWO], {}, true)]).Up()
  {
    var item := ItemFor(map[KEY1 := PublishedRow(ONE)], KEY1);
    LifeEnds();
    Reachable(LIFE);
    assert IsPublished(Run(LIFE).rows, "x", 1);
    assert [item][0].device == "x" && ListedOk(Run(LIFE).rows, item);
    assert Lists(Run(LIFE).rows, [item]);
    RunSnoc(LIFE, Restart([item], [TWO, TWO], {}, true));
    RepeatIsHarmless(Run(LIFE), [item], TWO, {});
  }

  // ---------------------------------------------------------------- two requests of one device

  /** Two versions are published, each by its own request. The second request marks and calls; the
      first one marks and calls after it; then the second records. */
  const RACE: seq<Step> := [
    Enroll("x"), Restart([], [], {}, true), Edit(TxCreate("x", ONE)), Edit(TxCreate("x", TWO)),
    Publish(1, KEY1, true, 0), Publish(2, KEY2, true, 0),
    MarkApplying(2), CallGateway(2, OK), MarkApplying(1), CallGateway(1, OK), RecordApply(2)]

  const RACED: Rows := map[
    KEY1 := Row(Archived, ONE, Some(true), Some(0), Some(0), Some(0)), KEY2 := PublishedRow(TWO)]

  lemma RaceDrafts()
    ensures Run(RACE[..4]) == Live(map[KEY1 := NewDraft(ONE), KEY2 := NewDraft(TWO)], map[])
  {
    EmptyStart();
    FirstDraft();
    SecondDraft();
    RunPrefix(RACE, 0);
    RunPrefix(RACE, 1);
    RunPrefix(RACE, 2);
    RunPrefix(RACE, 3);
    assert RACE[..0] == [];
  }

  lemma FirstOfTwo()
    ensures PublishStep(Live(map[KEY1 := NewDraft(ONE), KEY2 := NewDraft(TWO)], map[]), 1, KEY1, true, 0)
      == Live(map[KEY1 := PublishedRow(ONE), KEY2 := NewDraft(TWO)], map[1 := Committed("x", 1)])
  {
    assert PublishVersion(map[KEY1 := NewDraft(ONE), KEY2 := NewDraft(TWO)], KEY1, true, 0)
      == map[KEY1 := PublishedRow(ONE), KEY2 := NewDraft(TWO)];
  }

  lemma SecondOfTwo()
    ensures PublishStep(Live(map[KEY1 := PublishedRow(ONE), KEY2 := NewDraft(TWO)], map[1 := Committed("x", 1)]),
                        2, KEY2, true, 0) == Live(RACED, BOTH)
  {
    assert PublishVersion(map[KEY1 := PublishedRow(ONE), KEY2 := NewDraft(TWO)], KEY2, true, 0) == RACED;
  }

  const BOTH: map<nat, Request> := map[1 := Committed("x", 1), 2 := Committed("x", 2)]

  lemma RacePublishSteps()
    ensures Run(RACE[..6]) == PublishStep(PublishStep(Run(RACE[..4]), 1, KEY1, true, 0), 2, KEY2, true, 0)
  {
    RunPrefix(RACE, 4);
    RunPrefix(RACE, 5);
  }

  lemma RacePublishes()
    ensures Run(RACE[..6]) == Live(RACED, BOTH)
  {
    RaceDrafts();
    FirstOfTwo();
    SecondOfTwo();
    RacePublishSteps();
  }

  lemma RaceCallSteps()
    ensures Run(RACE[..8]) == CallStep(MarkStep(Run(RACE[..6]), 2), 2, OK)
    ensures Run(RACE[..10]) == CallStep(MarkStep(Run(RACE[..8]), 1), 1, OK)
  {
    RunPrefix(RACE, 6);
    RunPrefix(RACE, 7);
    RunPrefix(RACE, 8);
    RunPrefix(RACE, 9);
  }

  lemma RaceLastStep()
    ensures Run(RACE) == RecordStep(Run(RACE[..10]), 2)
  {
    RunPrefix(RACE, 10);
    assert RACE[..11] == RACE;
  }

  /** Rows, gateway and requests after both calls. */
  ghost predicate BothCalled(s: System) {
    && s.rows == RACED && s.registered == {"x"} && s.Up()
    && s.gateway.value == Apply(Apply(EMPTY, TWO, Some(2), OK), ONE, Some(1), OK)
    && s.requests == map[1 := Called("x", 1, true), 2 := Called("x", 2, true)]
  }

  ghost predicate SecondCalled(s: System) {
    && s.rows == RACED && s.registered == {"x"} && s.Up()
    && s.gateway.value == Apply(EMPTY, TWO, Some(2), OK)
    && s.requests == map[1 := Committed("x", 1), 2 := Called("x", 2, true)]
  }

  lemma SecondCalls(s: System)
    requires s.rows == RACED && s.registered == {"x"} && s.requests == BOTH && s.gateway == Some(EMPTY)
    ensures SecondCalled(CallStep(MarkStep(s, 2), 2, OK))
  {
    MarkAndCall(s, 2, OK);
    assert BOTH[2 := Called("x", 2, true)] == map[1 := Committed("x", 1), 2 := Called("x", 2, true)];
  }

  lemma FirstCalls(s: System)
    requires SecondCalled(s)
    ensures BothCalled(CallStep(MarkStep(s, 1), 1, OK))
  {
    MarkAndCall(s, 1, OK);
    assert s.requests[1 := Called("x", 1, true)] == map[1 := Called("x", 1, true), 2 := Called("x", 2, true)];
  }

  lemma RecordsLate(s: System)
    requires BothCalled(s)
    ensures var t := RecordStep(s, 2);
      && t.Up() && InSync(t, "x") && t.status["x"].applied == Some(2)
      && t.gateway.value.AppliedVersion("x") == Some(1) && RunsFor(t.gateway.value, "x") == Some(ONE)
  {
    assert IsPublished(RACED, "x", 2);
  }

  lemma RaceEnds()
    ensures var t := Run(RACE);
      && t.Up() && InSync(t, "x") && t.status["x"].applied == Some(2)
      && t.gateway.value.AppliedVersion("x") == Some(1) && RunsFor(t.gateway.value, "x") == Some(ONE)
  {
    RacePublishes();
    RaceCallSteps();
    RaceLastStep();
    SecondCalls(Run(RACE[..6]));
    FirstCalls(Run(RACE[..8]));
    RecordsLate(Run(RACE[..10]));
  }

  /** The run ends with version 2 reported in sync while the gateway names version 1 and runs its
      configuration: the last accepted call carried another version than the row records. No row was
      stale; the requests were not one at a time. */
  lemma OvertakenLies()
    ensures var t := Run(RACE);
      && t.Up() && InSync(t, "x") && t.status["x"].applied == Some(2)
      && t.gateway.value.AppliedVersion("x") == Some(1) && RunsFor(t.gateway.value, "x") == Some(ONE)
    ensures LastNamed(RACE, "x", 1) && !LastNamed(RACE, "x", 2) && !Stale(RACE, "x") && !Serial(RACE)
  {
    RaceEnds();
    GatewayNamesLast(RACE, "x", 1);
    GatewayNamesLast(RACE, "x", 2);
    NeverStale(RACE, "x");
    if Serial(RACE) { SerialNamesUnlessStale(RACE, "x"); }
  }
}

/** Alarm-to-incident correlation: an online merge, one alarm at a time, against batch session
    windowing over a device's whole alarm history. */
module Correlation {
  import opened Options

  datatype Severity = Info | Minor | Warning | Major | Critical | Unknown(name: string)
  datatype Priority = Low | Medium | High | Urgent

  /** One alarm instance as the engine sees it; `activity` is its last trigger, or its start. */
  datatype Alarm = Alarm(id: int, device: string, severity: Severity, activity: int)

  /** An incident row with its links. `evidence` records, in order, what the engine absorbed into
      it; `engine` says the correlation engine opened it, `live` that its status is still open. */
  datatype Incident = Incident(
    id: int,
    device: Option<string>,
    engine: bool,
    live: bool,
    severity: Option<Severity>,
    priority: Priority,
    createdAt: int,
    lastAlarmAt: Option<int>,
    links: seq<int>,
    evidence: seq<Alarm>)
  {
    function Anchor(): int { if lastAlarmAt.Some? then lastAlarmAt.value else createdAt }
  }

  // ---------------------------------------------------------------- severity

  function Rank(s: Option<Severity>): int {
    match s
    case None => -1
    case Some(Unknown(_)) => -1
    case Some(Info) => 0
    case Some(Minor) => 1
    case Some(Warning) => 2
    case Some(Major) => 3
    case Some(Critical) => 4
  }

  function PriorityOf(s: Severity): Priority {
    match s
    case Critical => Urgent
    case Major => High
    case Warning => Medium
    case Minor => Low
    case Info => Low
    case Unknown(_) => Medium
  }

  /** The severities strictly above one. Nothing, and an unknown name, are below every known one. */
  function Above(s: Option<Severity>): set<Severity> {
    match s
    case Some(Critical) => {}
    case Some(Major) => {Critical}
    case Some(Warning) => {Major, Critical}
    case Some(Minor) => {Warning, Major, Critical}
    case Some(Info) => {Minor, Warning, Major, Critical}
    case _ => {Info, Minor, Warning, Major, Critical}
  }

  /** The numeric ranks order severities exactly so. */
  lemma RankIsAbove(a: Severity, s: Option<Severity>)
    ensures Rank(Some(a)) > Rank(s) <==> a in Above(s)
  {}

  /** The scheduling priority a severity calls for. */
  ghost predicate PriorityFits(s: Severity, p: Priority) {
    && (p == Urgent <==> s == Critical)
    && (p == High <==> s == Major)
    && (p == Low <==> s == Minor || s == Info)
    && (p == Medium <==> s == Warning || s.Unknown?)
  }

  lemma PriorityOfFits(s: Severity)
    ensures PriorityFits(s, PriorityOf(s))
  {}

  // ---------------------------------------------------------------- the engine

  predicate WithinWindow(i: Incident, a: Alarm, window: int) {
    i.Anchor() <= a.activity <= i.Anchor() + window
  }

  /** Move the anchor forward and raise the severity; never the other way. */
  function Absorb(i: Incident, a: Alarm): Incident {
    var moved :=
      if i.lastAlarmAt.None? || a.activity > i.lastAlarmAt.value then i.(lastAlarmAt := Some(a.activity)) else i;
    if Rank(Some(a.severity)) > Rank(i.severity)
    then moved.(severity := Some(a.severity), priority := PriorityOf(a.severity))
    else moved
  }

  /** Link once, absorb every time. */
  function Attach(i: Incident, a: Alarm): Incident {
    var linked := if a.id in i.links then i else i.(links := i.links + [a.id]);
    Absorb(linked, a).(evidence := i.evidence + [a])
  }

  function Opened(a: Alarm, id: int, now: int): Incident {
    Incident(id, Some(a.device), true, true, Some(a.severity), PriorityOf(a.severity), now, Some(a.activity), [], [])
  }

  /** `chosen` is the live incident the lookup returned, if any. */
  function CorrelateWith(incidents: seq<Incident>, a: Alarm, chosen: Option<nat>, window: int, id: int, now: int)
    : seq<Incident>
  {
    if chosen.Some? && chosen.value < |incidents| && WithinWindow(incidents[chosen.value], a, window)
    then incidents[chosen.value := Attach(incidents[chosen.value], a)]
    else incidents + [Attach(Opened(a, id, now), a)]
  }

  /** The most recently active live incident of the device exists and the alarm falls into the window
      after its last alarm, or after its creation if it has none. */
  ghost predicate Joined(incidents: seq<Incident>, a: Alarm, window: int) {
    var k := FindOpen(incidents, a.device);
    && k.Some?
    && var i := incidents[k.value];
       var anchor := if i.lastAlarmAt.Some? then i.lastAlarmAt.value else i.createdAt;
       anchor <= a.activity <= anchor + window
  }

  predicate OpenFor(i: Incident, device: string) { i.live && i.device == Some(device) }

  /** The order of the lookup: most recent activity first, then the larger id. */
  predicate Before(x: Incident, y: Incident) {
    x.Anchor() > y.Anchor() || (x.Anchor() == y.Anchor() && x.id >= y.id)
  }

  /** The most recently active live incident of the device. */
  function FindOpen(incidents: seq<Incident>, device: string): (r: Option<nat>)
    ensures r.None? <==> forall i :: 0 <= i < |incidents| ==> !OpenFor(incidents[i], device)
    ensures r.Some? ==> r.value < |incidents| && OpenFor(incidents[r.value], device)
    ensures r.Some? ==> forall i :: 0 <= i < |incidents| && incidents[i].live && incidents[i].device == Some(device) ==>
      var first, other := incidents[r.value], incidents[i];
      first.Anchor() > other.Anchor() || (first.Anchor() == other.Anchor() && first.id >= other.id)
  {
    if incidents == [] then None
    else
      var n := |incidents| - 1;
      var r := FindOpen(incidents[..n], device);
      if OpenFor(incidents[n], device) && (r.None? || Before(incidents[n], incidents[r.value])) then Some(n) else r
  }

  function Correlate(incidents: seq<Incident>, a: Alarm, window: int, id: int, now: int): seq<Incident> {
    CorrelateWith(incidents, a, FindOpen(incidents, a.device), window, id, now)
  }

  // ---------------------------------------------------------------- invariants for any lookup

  /** The alarms are all of this device. */
  ghost predicate OfDevice(device: Option<string>, e: seq<Alarm>) {
    forall k :: 0 <= k < |e| ==> device == Some(e[k].device)
  }

  /** One link per alarm id, and a link for every alarm. */
  ghost predicate LinkedOnce(links: seq<int>, e: seq<Alarm>) {
    && (forall i, j :: 0 <= i < j < |links| ==> links[i] != links[j])
    && (forall x :: x in links <==> x in Ids(e))
  }

  function Ids(e: seq<Alarm>): seq<int> {
    seq(|e|, k requires 0 <= k < |e| => e[k].id)
  }

  /** Activities never go back and never jump by more than the window, and `last` is the latest. */
  ghost predicate Steady(e: seq<Alarm>, window: int, last: Option<int>) {
    && e != [] && last == Some(e[|e| - 1].activity)
    && (forall k :: 0 < k < |e| ==> e[k - 1].activity <= e[k].activity <= e[k - 1].activity + window)
    && (forall k :: 0 <= k < |e| ==> e[k].activity <= last.value)
  }

  /** The severity is one of those absorbed, none of them ranks higher, and the priority follows. */
  ghost predicate Graded(e: seq<Alarm>, severity: Option<Severity>, priority: Priority) {
    && severity.Some? && priority == PriorityOf(severity.value)
    && (exists k :: 0 <= k < |e| && severity == Some(e[k].severity))
    && (forall k :: 0 <= k < |e| ==> Rank(Some(e[k].severity)) <= Rank(severity))
  }

  /** What is true of every incident the engine opened, whatever the lookup picked and whatever
      operators did in between. */
  ghost predicate EngineOk(i: Incident, window: int) {
    && OfDevice(i.device, i.evidence)
    && LinkedOnce(i.links, i.evidence)
    && Steady(i.evidence, window, i.lastAlarmAt)
    && Graded(i.evidence, i.severity, i.priority)
  }

  ghost predicate Has(e: seq<Alarm>, s: Severity) {
    exists k :: 0 <= k < |e| && e[k].severity == s
  }

  /** The severity told without ranks: the worst known one among the alarms, or an unknown name if
      they all are. */
  ghost predicate WorstOf(e: seq<Alarm>, s: Severity) {
    && (s == Critical <==> Has(e, Critical))
    && (s == Major <==> Has(e, Major) && !Has(e, Critical))
    && (s == Warning <==> Has(e, Warning) && !Has(e, Major) && !Has(e, Critical))
    && (s == Minor <==> Has(e, Minor) && !Has(e, Warning) && !Has(e, Major) && !Has(e, Critical))
    && (s == Info <==> Has(e, Info) && !Has(e, Minor) && !Has(e, Warning) && !Has(e, Major) && !Has(e, Critical))
    && (s.Unknown? <==> forall k :: 0 <= k < |e| ==> e[k].severity.Unknown?)
  }

  /** The grading of an incident, in plain words. */
  ghost predicate PlainlyGraded(i: Incident) {
    i.severity.Some? && WorstOf(i.evidence, i.severity.value) && PriorityFits(i.severity.value, i.priority)
  }

  lemma NoneAbove(e: seq<Alarm>, severity: Severity, worse: Severity)
    requires forall k :: 0 <= k < |e| ==> Rank(Some(e[k].severity)) <= Rank(Some(severity))
    requires worse in Above(Some(severity))
    ensures !Has(e, worse)
  {
    RankIsAbove(worse, Some(severity));
  }

  lemma GradedPlainly(i: Incident)
    requires Graded(i.evidence, i.severity, i.priority)
    ensures PlainlyGraded(i)
  {
    var e, s := i.evidence, i.severity.value;
    PriorityOfFits(s);
    assert Has(e, s);
    forall worse | worse in Above(Some(s)) ensures !Has(e, worse) { NoneAbove(e, s, worse); }
    if s.Unknown? {
      forall k | 0 <= k < |e| ensures e[k].severity.Unknown? {
        RankIsAbove(e[k].severity, Some(s));
        AllKnown(e[k].severity);
      }
    }
  }

  lemma AllKnown(s: Severity)
    ensures s.Unknown? || s in {Info, Minor, Warning, Major, Critical}
  {
    match s
    case Info =>
    case Minor =>
    case Warning =>
    case Major =>
    case Critical =>
    case Unknown(_) =>
  }

  datatype Move =
    | Alarmed(a: Alarm, chosen: Option<nat>, id: int, now: int)
    | Operated(i: nat, live: bool)
    | Manual(incident: Incident)

  /** A lookup may answer with any live incident of the device, or with none. Operators may move any
      incident between live and not, and create incidents of their own. */
  function Apply(incidents: seq<Incident>, move: Move, window: int): seq<Incident> {
    match move
    case Alarmed(a, chosen, id, now) =>
      if chosen.Some? && !(chosen.value < |incidents| && OpenFor(incidents[chosen.value], a.device)) then incidents
      else CorrelateWith(incidents, a, chosen, window, id, now)
    case Operated(i, live) => if i < |incidents| then incidents[i := incidents[i].(live := live)] else incidents
    case Manual(incident) => if incident.engine then incidents else incidents + [incident]
  }

  function ApplyAll(moves: seq<Move>, window: int): seq<Incident> {
    if moves == [] then [] else var n := |moves| - 1; Apply(ApplyAll(moves[..n], window), moves[n], window)
  }

  lemma FreshIncidentOk(a: Alarm, id: int, now: int, window: int)
    ensures EngineOk(Attach(Opened(a, id, now), a), window)
  {
    var i := Attach(Opened(a, id, now), a);
    assert i.evidence == [a] && i.links == [a.id];
    assert Ids(i.evidence) == [a.id];
    assert i.severity == Some(i.evidence[0].severity);
  }

  lemma LinkedSnoc(links: seq<int>, e: seq<Alarm>, a: Alarm)
    requires LinkedOnce(links, e)
    ensures LinkedOnce(if a.id in links then links else links + [a.id], e + [a])
  {
    assert Ids(e + [a]) == Ids(e) + [a.id];
  }

  lemma GradedSnoc(i: Incident, a: Alarm)
    requires Graded(i.evidence, i.severity, i.priority)
    ensures Graded(i.evidence + [a], Absorb(i, a).severity, Absorb(i, a).priority)
  {
    var e, j := i.evidence, Absorb(i, a);
    assert (e + [a])[|e|] == a;
    var k :| 0 <= k < |e| && i.severity == Some(e[k].severity);
    assert (e + [a])[k] == e[k];
    assert exists m :: 0 <= m < |e + [a]| && j.severity == Some((e + [a])[m].severity);
  }

  lemma SteadySnoc(e: seq<Alarm>, window: int, last: Option<int>, a: Alarm)
    requires Steady(e, window, last) && last.value <= a.activity <= last.value + window
    ensures Steady(e + [a], window, Some(a.activity))
  {}

  lemma OfDeviceSnoc(device: Option<string>, e: seq<Alarm>, a: Alarm)
    requires OfDevice(device, e) && device == Some(a.device)
    ensures OfDevice(device, e + [a])
  {}

  /** Attaching, field by field. */
  lemma AttachFields(i: Incident, a: Alarm)
    ensures var j := Attach(i, a);
      && j.device == i.device && j.evidence == i.evidence + [a]
      && j.links == (if a.id in i.links then i.links else i.links + [a.id])
      && j.severity == Absorb(i, a).severity && j.priority == Absorb(i, a).priority
      && (i.lastAlarmAt.Some? && i.lastAlarmAt.value <= a.activity ==> j.lastAlarmAt == Some(a.activity))
  {}

  lemma AttachedOk(i: Incident, a: Alarm, window: int)
    requires EngineOk(i, window) && i.device == Some(a.device) && WithinWindow(i, a, window)
    ensures EngineOk(Attach(i, a), window)
  {
    AttachFields(i, a);
    OfDeviceSnoc(i.device, i.evidence, a);
    LinkedSnoc(i.links, i.evidence, a);
    SteadySnoc(i.evidence, window, i.lastAlarmAt, a);
    GradedSnoc(i, a);
  }

  ghost predicate AllOk(incidents: seq<Incident>, window: int) {
    forall i :: 0 <= i < |incidents| && incidents[i].engine ==> EngineOk(incidents[i], window)
  }

  lemma CorrelateKeepsOk(incidents: seq<Incident>, a: Alarm, chosen: Option<nat>, window: int, id: int, now: int)
    requires AllOk(incidents, window)
    requires chosen.Some? ==> chosen.value < |incidents| && OpenFor(incidents[chosen.value], a.device)
    ensures AllOk(CorrelateWith(incidents, a, chosen, window, id, now), window)
  {
    FreshIncidentOk(a, id, now, window);
    if chosen.Some? && WithinWindow(incidents[chosen.value], a, window) && incidents[chosen.value].engine {
      AttachedOk(incidents[chosen.value], a, window);
    }
  }

  /** Over every run, under every lookup: each engine-opened incident holds only its device's alarms,
      each linked once; its activities never go back and never jump more than the window; its
      anchor is the latest, its severity the highest absorbed, its priority the mapping of that. */
  lemma IncidentsStayOk(moves: seq<Move>, window: int)
    ensures var incidents := ApplyAll(moves, window);
      && AllOk(incidents, window)
      && forall i :: 0 <= i < |incidents| && incidents[i].engine ==> PlainlyGraded(incidents[i])
  {
    RunsStayOk(moves, window);
    var incidents := ApplyAll(moves, window);
    forall i | 0 <= i < |incidents| && incidents[i].engine ensures PlainlyGraded(incidents[i]) {
      GradedPlainly(incidents[i]);
    }
  }

  lemma {:induction false} RunsStayOk(moves: seq<Move>, window: int)
    ensures AllOk(ApplyAll(moves, window), window)
  {
    if moves == [] {
    } else {
      var n := |moves| - 1;
      RunsStayOk(moves[..n], window);
      var before, move := ApplyAll(moves[..n], window), moves[n];
      if move.Alarmed? &&
         (move.chosen.Some? ==> move.chosen.value < |before| && OpenFor(before[move.chosen.value], move.a.device)) {
        CorrelateKeepsOk(before, move.a, move.chosen, window, move.id, move.now);
      }
    }
  }

  // ---------------------------------------------------------------- batch session windowing

  /** The groups of a device's alarms: a new group starts wherever the gap to the previous alarm
      exceeds the window. */
  function Sessions(alarms: seq<Alarm>, window: int): (g: seq<seq<Alarm>>)
    ensures alarms == [] <==> g == []
    ensures g != [] ==> g[|g| - 1] != [] && g[|g| - 1][|g[|g| - 1]| - 1] == alarms[|alarms| - 1]
  {
    if alarms == [] then []
    else
      var n := |alarms| - 1;
      var g := Sessions(alarms[..n], window);
      if n > 0 && alarms[n].activity - alarms[n - 1].activity <= window
      then g[|g| - 1 := g[|g| - 1] + [alarms[n]]]
      else g + [[alarms[n]]]
  }

  function Flatten(g: seq<seq<Alarm>>): seq<Alarm> {
    if g == [] then [] else Flatten(g[..|g| - 1]) + g[|g| - 1]
  }

  ghost predicate Close(run: seq<Alarm>, window: int) {
    run != [] && forall l :: 0 < l < |run| ==> run[l].activity - run[l - 1].activity <= window
  }

  ghost predicate Apart(x: seq<Alarm>, y: seq<Alarm>, window: int) {
    x != [] && y != [] && y[0].activity - x[|x| - 1].activity > window
  }

  /** Groups whose consecutive alarms are close, and whose boundaries are not. */
  ghost predicate MaximalRuns(g: seq<seq<Alarm>>, window: int) {
    && (forall k :: 0 <= k < |g| ==> Close(g[k], window))
    && (forall k :: 0 < k < |g| ==> Apart(g[k - 1], g[k], window))
  }

  lemma ExtendLast(g: seq<seq<Alarm>>, a: Alarm, window: int)
    requires MaximalRuns(g, window) && g != []
    requires var run := g[|g| - 1]; a.activity - run[|run| - 1].activity <= window
    ensures var h := g[|g| - 1 := g[|g| - 1] + [a]]; MaximalRuns(h, window) && Flatten(h) == Flatten(g) + [a]
  {
    var m := |g| - 1;
    var h := g[m := g[m] + [a]];
    assert h[..m] == g[..m];
    assert Close(h[m], window) by { assert Close(g[m], window); }
    if m > 0 { assert Apart(g[m - 1], g[m], window); }
  }

  lemma NewGroup(g: seq<seq<Alarm>>, a: Alarm, window: int)
    requires MaximalRuns(g, window)
    requires g != [] ==> var run := g[|g| - 1]; a.activity - run[|run| - 1].activity > window
    ensures MaximalRuns(g + [[a]], window) && Flatten(g + [[a]]) == Flatten(g) + [a]
  {
    var h := g + [[a]];
    assert h[..|g|] == g;
    assert Close(h[|g|], window);
    if g != [] { assert Close(g[|g| - 1], window); assert Apart(h[|g| - 1], h[|g|], window); }
  }

  lemma SessionsNew(alarms: seq<Alarm>, a: Alarm, window: int)
    requires alarms != [] ==> a.activity - alarms[|alarms| - 1].activity > window
    ensures Sessions(alarms + [a], window) == Sessions(alarms, window) + [[a]]
  {
    assert (alarms + [a])[..|alarms|] == alarms;
  }

  lemma SessionsExtend(alarms: seq<Alarm>, a: Alarm, window: int)
    requires alarms != [] && a.activity - alarms[|alarms| - 1].activity <= window
    ensures var g := Sessions(alarms, window);
      Sessions(alarms + [a], window) == g[|g| - 1 := g[|g| - 1] + [a]]
  {
    assert (alarms + [a])[..|alarms|] == alarms;
  }

  /** The sessions are the alarms, in order, cut into maximal runs. */
  ghost predicate Partitioned(alarms: seq<Alarm>, window: int) {
    Flatten(Sessions(alarms, window)) == alarms && MaximalRuns(Sessions(alarms, window), window)
  }

  lemma PartitionedJoin(alarms: seq<Alarm>, a: Alarm, window: int)
    requires Partitioned(alarms, window) && alarms != [] && a.activity - alarms[|alarms| - 1].activity <= window
    ensures Partitioned(alarms + [a], window)
  {
    SessionsExtend(alarms, a, window);
    ExtendLast(Sessions(alarms, window), a, window);
  }

  lemma PartitionedOpen(alarms: seq<Alarm>, a: Alarm, window: int)
    requires Partitioned(alarms, window)
    requires alarms != [] ==> a.activity - alarms[|alarms| - 1].activity > window
    ensures Partitioned(alarms + [a], window)
  {
    SessionsNew(alarms, a, window);
    NewGroup(Sessions(alarms, window), a, window);
  }

  lemma PartitionedLast(alarms: seq<Alarm>, window: int)
    requires alarms != [] && Partitioned(alarms[..|alarms| - 1], window)
    ensures Partitioned(alarms, window)
  {
    var n := |alarms| - 1;
    var before, a := alarms[..n], alarms[n];
    if n > 0 && a.activity - before[n - 1].activity <= window {
      PartitionedJoin(before, a, window);
    } else {
      PartitionedOpen(before, a, window);
    }
    assert before + [a] == alarms;
  }

  /** The sessions partition the alarms, in order, into maximal runs of gaps within the window. */
  lemma {:induction false} SessionsAreMaximalRuns(alarms: seq<Alarm>, window: int)
    ensures Partitioned(alarms, window)
  {
    if alarms == [] {
    } else {
      SessionsAreMaximalRuns(alarms[..|alarms| - 1], window);
      PartitionedLast(alarms, window);
    }
  }

  lemma GroupEndsFlatten(g: seq<seq<Alarm>>)
    requires g != [] && g[|g| - 1] != []
    ensures Flatten(g) != [] && Flatten(g)[|Flatten(g)| - 1] == g[|g| - 1][|g[|g| - 1]| - 1]
  {}

  lemma SessionsGrow(init: seq<seq<Alarm>>, base: seq<Alarm>, run: seq<Alarm>, a: Alarm, window: int)
    requires run != [] && a.activity - run[|run| - 1].activity <= window
    requires Sessions(base + run, window) == init + [run]
    ensures Sessions(base + (run + [a]), window) == init + [run + [a]]
  {
    assert base + (run + [a]) == (base + run) + [a];
    SessionsExtend(base + run, a, window);
    assert (init + [run])[|init| := run + [a]] == init + [run + [a]];
  }

  lemma SessionsStart(init: seq<seq<Alarm>>, a: Alarm, window: int)
    requires init == Sessions(Flatten(init), window)
    requires init != [] ==> Apart(init[|init| - 1], [a], window)
    ensures Sessions(Flatten(init) + [a], window) == init + [[a]]
  {
    if init != [] { GroupEndsFlatten(init); }
    SessionsNew(Flatten(init), a, window);
  }

  /** A close run that starts apart from everything before it becomes the last session. */
  lemma {:induction false} SessionsRun(init: seq<seq<Alarm>>, run: seq<Alarm>, window: int)
    requires init == Sessions(Flatten(init), window) && Close(run, window)
    requires init != [] ==> Apart(init[|init| - 1], run, window)
    ensures Sessions(Flatten(init) + run, window) == init + [run]
  {
    var n := |run| - 1;
    if n == 0 {
      assert run == [run[0]];
      SessionsStart(init, run[0], window);
    } else {
      assert run == run[..n] + [run[n]];
      assert Close(run[..n], window);
      SessionsRun(init, run[..n], window);
      SessionsGrow(init, Flatten(init), run[..n], run[n], window);
    }
  }

  lemma RunsPrefix(g: seq<seq<Alarm>>, window: int)
    requires MaximalRuns(g, window) && g != []
    ensures var m := |g| - 1;
      && MaximalRuns(g[..m], window) && Close(g[m], window)
      && (m > 0 ==> Apart(g[..m][m - 1], g[m], window))
  {}

  /** There is only one partition into maximal runs. */
  lemma {:induction false} MaximalRunsAreUnique(g: seq<seq<Alarm>>, window: int)
    requires MaximalRuns(g, window)
    ensures g == Sessions(Flatten(g), window)
  {
    if g == [] {
    } else {
      var m := |g| - 1;
      var init := g[..m];
      RunsPrefix(g, window);
      assert init == Sessions(Flatten(init), window) by { MaximalRunsAreUnique(init, window); }
      assert Sessions(Flatten(init) + g[m], window) == init + [g[m]] by { SessionsRun(init, g[m], window); }
      assert g == init + [g[m]];
    }
  }

  // ---------------------------------------------------------------- online equals batch

  /** An arriving alarm, with the id and creation time a new incident would get. */
  datatype Arrival = Arrival(a: Alarm, id: int, now: int)

  function Online(trace: seq<Arrival>, window: int): seq<Incident> {
    if trace == [] then []
    else
      var n := |trace| - 1;
      Correlate(Online(trace[..n], window), trace[n].a, window, trace[n].id, trace[n].now)
  }

  /** The alarms of one device, in arrival order. */
  function Of(trace: seq<Arrival>, device: string): seq<Alarm> {
    if trace == [] then []
    else
      var n := |trace| - 1;
      var before := Of(trace[..n], device);
      if trace[n].a.device == device then before + [trace[n].a] else before
  }

  /** What the incidents of one device absorbed, in creation order. */
  function Evidence(incidents: seq<Incident>, device: string): seq<seq<Alarm>> {
    if incidents == [] then []
    else
      var n := |incidents| - 1;
      var before := Evidence(incidents[..n], device);
      if incidents[n].device == Some(device) then before + [incidents[n].evidence] else before
  }

  /** Each device's alarms arrive in activity order; devices interleave freely. */
  ghost predicate InOrder(trace: seq<Arrival>) {
    forall i, j :: 0 <= i < j < |trace| && trace[i].a.device == trace[j].a.device ==>
      trace[i].a.activity <= trace[j].a.activity
  }

  lemma {:induction false} EvidenceElsewhere(incidents: seq<Incident>, k: nat, x: Incident, device: string)
    requires k < |incidents| && incidents[k].device == x.device != Some(device)
    ensures Evidence(incidents[k := x], device) == Evidence(incidents, device)
  {
    var n := |incidents| - 1;
    if k < n {
      EvidenceElsewhere(incidents[..n], k, x, device);
      assert incidents[k := x][..n] == incidents[..n][k := x];
    } else {
      assert incidents[k := x][..n] == incidents[..n];
    }
  }

  ghost predicate IsLast(incidents: seq<Incident>, k: nat, device: string) {
    && k < |incidents| && incidents[k].device == Some(device)
    && forall j :: k < j < |incidents| ==> incidents[j].device != Some(device)
  }

  lemma {:induction false} EvidenceLast(incidents: seq<Incident>, device: string) returns (k: nat)
    requires Evidence(incidents, device) != []
    ensures IsLast(incidents, k, device)
    ensures var g := Evidence(incidents, device); g[|g| - 1] == incidents[k].evidence
  {
    var n := |incidents| - 1;
    if incidents[n].device == Some(device) { k := n; } else { k := EvidenceLast(incidents[..n], device); }
  }

  lemma {:induction false} EvidenceUpdate(incidents: seq<Incident>, k: nat, x: Incident, device: string)
    requires IsLast(incidents, k, device) && x.device == Some(device)
    ensures var g := Evidence(incidents, device);
      g != [] && Evidence(incidents[k := x], device) == g[|g| - 1 := x.evidence]
  {
    var n := |incidents| - 1;
    if k < n {
      assert IsLast(incidents[..n], k, device);
      EvidenceUpdate(incidents[..n], k, x, device);
      assert incidents[k := x][..n] == incidents[..n][k := x];
    } else {
      assert incidents[k := x][..n] == incidents[..n];
    }
  }

  lemma {:induction false} NoEvidence(incidents: seq<Incident>, device: string)
    requires Evidence(incidents, device) == []
    ensures forall i :: 0 <= i < |incidents| ==> incidents[i].device != Some(device)
  {
    if incidents == [] {
    } else {
      NoEvidence(incidents[..|incidents| - 1], device);
    }
  }

  lemma EvidenceSnoc(incidents: seq<Incident>, x: Incident, device: string)
    ensures Evidence(incidents + [x], device) ==
      if x.device == Some(device) then Evidence(incidents, device) + [x.evidence] else Evidence(incidents, device)
  {
    assert (incidents + [x])[..|incidents|] == incidents;
  }

  /** A device's later incident is strictly more recent. */
  ghost predicate Recent(incidents: seq<Incident>) {
    forall i, j :: 0 <= i < j < |incidents| && incidents[i].device == incidents[j].device ==>
      incidents[i].Anchor() < incidents[j].Anchor()
  }

  ghost predicate AllLive(incidents: seq<Incident>) {
    forall i :: 0 <= i < |incidents| ==> incidents[i].engine && incidents[i].live
  }

  /** With nobody intervening, all incidents are the engine's and live. */
  ghost predicate Quiet(incidents: seq<Incident>, window: int) {
    && AllOk(incidents, window)
    && AllLive(incidents)
    && (window >= 0 ==> Recent(incidents))
  }

  /** Under a usable window the lookup finds the device's last incident. */
  lemma FindsLast(incidents: seq<Incident>, k: nat, device: string)
    requires AllLive(incidents) && Recent(incidents) && IsLast(incidents, k, device)
    ensures FindOpen(incidents, device) == Some(k)
  {
    var r := FindOpen(incidents, device);
    assert OpenFor(incidents[k], device);
    assert Before(incidents[r.value], incidents[k]);
  }

  /** The incident an arriving alarm joins, if any, is the device's last one, exactly when the gap
      to the device's previous alarm is within the window. */
  lemma Joins(incidents: seq<Incident>, k: nat, a: Alarm, window: int, id: int, now: int)
    requires AllLive(incidents) && (window >= 0 ==> Recent(incidents))
    requires IsLast(incidents, k, a.device) && incidents[k].Anchor() <= a.activity
    ensures Correlate(incidents, a, window, id, now) ==
      if a.activity - incidents[k].Anchor() <= window then incidents[k := Attach(incidents[k], a)]
      else incidents + [Attach(Opened(a, id, now), a)]
  {
    if window >= 0 { FindsLast(incidents, k, a.device); }
  }

  lemma Opens(incidents: seq<Incident>, a: Alarm, window: int, id: int, now: int)
    requires Evidence(incidents, a.device) == []
    ensures Correlate(incidents, a, window, id, now) == incidents + [Attach(Opened(a, id, now), a)]
  {
    NoEvidence(incidents, a.device);
  }

  lemma RecentAttach(incidents: seq<Incident>, k: nat, x: Incident, device: string)
    requires Recent(incidents) && IsLast(incidents, k, device) && x.device ==
      Some(device) && incidents[k].Anchor() <= x.Anchor()
    ensures Recent(incidents[k := x])
  {}

  lemma RecentOpen(incidents: seq<Incident>, x: Incident)
    requires Recent(incidents)
    requires forall i :: 0 <= i < |incidents| && incidents[i].device == x.device ==> incidents[i].Anchor() < x.Anchor()
    ensures Recent(incidents + [x])
  {}

  lemma LiveKept(incidents: seq<Incident>, a: Alarm, window: int, id: int, now: int)
    requires AllLive(incidents)
    ensures AllLive(Correlate(incidents, a, window, id, now))
  {}

  lemma AnchorMoves(i: Incident, a: Alarm)
    requires i.Anchor() <= a.activity
    ensures i.Anchor() <= Attach(i, a).Anchor() && Attach(i, a).device == i.device
  {}

  lemma RecentOpened(incidents: seq<Incident>, a: Alarm, id: int, now: int)
    requires Recent(incidents)
    requires forall i :: 0 <= i < |incidents| && incidents[i].device == Some(a.device) ==>
      incidents[i].Anchor() < a.activity
    ensures Recent(incidents + [Attach(Opened(a, id, now), a)])
  {
    RecentOpen(incidents, Attach(Opened(a, id, now), a));
  }

  lemma RecentKept(incidents: seq<Incident>, a: Alarm, window: int, id: int, now: int)
    requires AllLive(incidents) && Recent(incidents) && window >= 0
    requires forall i :: 0 <= i < |incidents| && incidents[i].device == Some(a.device) ==>
      incidents[i].Anchor() <= a.activity
    ensures Recent(Correlate(incidents, a, window, id, now))
  {
    if Evidence(incidents, a.device) == [] {
      Opens(incidents, a, window, id, now);
      NoEvidence(incidents, a.device);
      RecentOpened(incidents, a, id, now);
    } else {
      var k := EvidenceLast(incidents, a.device);
      Joins(incidents, k, a, window, id, now);
      if a.activity - incidents[k].Anchor() <= window {
        AnchorMoves(incidents[k], a);
        RecentAttach(incidents, k, Attach(incidents[k], a), a.device);
      } else {
        OthersEarlier(incidents, k, a.device);
        RecentOpened(incidents, a, id, now);
      }
    }
  }

  lemma QuietKept(incidents: seq<Incident>, a: Alarm, window: int, id: int, now: int)
    requires Quiet(incidents, window)
    requires forall i :: 0 <= i < |incidents| && incidents[i].device == Some(a.device) ==>
      incidents[i].Anchor() <= a.activity
    ensures Quiet(Correlate(incidents, a, window, id, now), window)
  {
    CorrelateKeepsOk(incidents, a, FindOpen(incidents, a.device), window, id, now);
    LiveKept(incidents, a, window, id, now);
    if window >= 0 { RecentKept(incidents, a, window, id, now); }
  }

  lemma OthersEarlier(incidents: seq<Incident>, k: nat, device: string)
    requires Recent(incidents) && IsLast(incidents, k, device)
    ensures forall i :: 0 <= i < |incidents| && incidents[i].device == Some(device) ==>
      incidents[i].Anchor() <= incidents[k].Anchor()
  {}

  /** Every anchor is the activity of an alarm of that device that has arrived. */
  ghost predicate Seen(trace: seq<Arrival>, i: Incident) {
    exists j :: 0 <= j < |trace| && i.device == Some(trace[j].a.device) && i.lastAlarmAt == Some(trace[j].a.activity)
  }

  /** After one alarm, each incident is as old as before or as recent as the alarm. */
  lemma AnchorsStep(incidents: seq<Incident>, a: Alarm, window: int, id: int, now: int, i: nat)
    requires i < |Correlate(incidents, a, window, id, now)|
    ensures var x := Correlate(incidents, a, window, id, now)[i];
      || (x.device == Some(a.device) && x.lastAlarmAt == Some(a.activity))
      || (i < |incidents| && x.device == incidents[i].device && x.lastAlarmAt == incidents[i].lastAlarmAt)
  {}

  lemma SeenLater(trace: seq<Arrival>, n: nat, i: Incident)
    requires n <= |trace| && Seen(trace[..n], i)
    ensures Seen(trace, i)
  {
    var j :| 0 <= j < n && i.device == Some(trace[..n][j].a.device) && i.lastAlarmAt == Some(trace[..n][j].a.activity);
    assert trace[..n][j] == trace[j];
  }

  lemma {:induction false} AnchorsSeen(trace: seq<Arrival>, window: int)
    ensures forall i :: 0 <= i < |Online(trace, window)| ==> Seen(trace, Online(trace, window)[i])
  {
    if trace == [] {
    } else {
      var n := |trace| - 1;
      AnchorsSeen(trace[..n], window);
      var before, after := Online(trace[..n], window), Online(trace, window);
      forall i | 0 <= i < |after| ensures Seen(trace, after[i]) {
        AnchorsStep(before, trace[n].a, window, trace[n].id, trace[n].now, i);
        if after[i].device == Some(trace[n].a.device) && after[i].lastAlarmAt == Some(trace[n].a.activity) {
        } else {
          SeenLater(trace, n, before[i]);
        }
      }
    }
  }

  lemma AnchorsBelow(trace: seq<Arrival>, window: int, i: nat)
    requires InOrder(trace) && trace != []
    requires var n := |trace| - 1;
      i < |Online(trace[..n], window)| && Online(trace[..n], window)[i].device == Some(trace[n].a.device)
    ensures Online(trace[..|trace| - 1], window)[i].Anchor() <= trace[|trace| - 1].a.activity
  {
    var n := |trace| - 1;
    AnchorsSeen(trace[..n], window);
    var x := Online(trace[..n], window)[i];
    var j :| 0 <= j < n && x.device == Some(trace[..n][j].a.device) && x.lastAlarmAt == Some(trace[..n][j].a.activity);
    assert trace[j].a.activity <= trace[n].a.activity;
  }

  lemma {:induction false} OnlineQuiet(trace: seq<Arrival>, window: int)
    requires InOrder(trace)
    ensures Quiet(Online(trace, window), window)
  {
    if trace == [] {
    } else {
      var n := |trace| - 1;
      OnlineQuiet(trace[..n], window);
      var before := Online(trace[..n], window);
      forall i | 0 <= i < |before| && before[i].device == Some(trace[n].a.device)
        ensures before[i].Anchor() <= trace[n].a.activity {
        AnchorsBelow(trace, window, i);
      }
      QuietKept(before, trace[n].a, window, trace[n].id, trace[n].now);
    }
  }

  /** Alarms of other devices change nothing a device sees. */
  lemma OtherDevice(incidents: seq<Incident>, a: Alarm, window: int, id: int, now: int, device: string)
    requires device != a.device
    ensures Evidence(Correlate(incidents, a, window, id, now), device) == Evidence(incidents, device)
  {
    var r := FindOpen(incidents, a.device);
    if r.Some? && WithinWindow(incidents[r.value], a, window) {
      EvidenceElsewhere(incidents, r.value, Attach(incidents[r.value], a), device);
    } else {
      EvidenceSnoc(incidents, Attach(Opened(a, id, now), a), device);
    }
  }

  lemma JoinMoves(incidents: seq<Incident>, k: nat, alarms: seq<Alarm>, a: Alarm, window: int)
    requires IsLast(incidents, k, a.device) && alarms != []
    requires var g := Evidence(incidents, a.device);
      g == Sessions(alarms, window) && g[|g| - 1] == incidents[k].evidence
    requires a.activity - alarms[|alarms| - 1].activity <= window
    ensures Evidence(incidents[k := Attach(incidents[k], a)], a.device) == Sessions(alarms + [a], window)
  {
    EvidenceUpdate(incidents, k, Attach(incidents[k], a), a.device);
    SessionsExtend(alarms, a, window);
  }

  lemma OpenMoves(incidents: seq<Incident>, alarms: seq<Alarm>, a: Alarm, window: int, id: int, now: int)
    requires Evidence(incidents, a.device) == Sessions(alarms, window)
    requires alarms != [] ==> a.activity - alarms[|alarms| - 1].activity > window
    ensures Evidence(incidents + [Attach(Opened(a, id, now), a)], a.device) == Sessions(alarms + [a], window)
  {
    assert Attach(Opened(a, id, now), a).evidence == [a];
    EvidenceSnoc(incidents, Attach(Opened(a, id, now), a), a.device);
    SessionsNew(alarms, a, window);
  }

  lemma LastAnchor(incidents: seq<Incident>, k: nat, alarms: seq<Alarm>, device: string, window: int)
    requires k < |incidents| && EngineOk(incidents[k], window) && alarms != []
    requires var g := Evidence(incidents, device); g == Sessions(alarms, window) && g[|g| - 1] == incidents[k].evidence
    ensures incidents[k].Anchor() == alarms[|alarms| - 1].activity
  {}

  /** One more alarm of the device moves the online groups exactly as it moves the sessions. */
  lemma SameDevice(incidents: seq<Incident>, alarms: seq<Alarm>, a: Alarm, window: int, id: int, now: int)
    requires Quiet(incidents, window) && Evidence(incidents, a.device) == Sessions(alarms, window)
    requires forall i :: 0 <= i < |incidents| && incidents[i].device == Some(a.device) ==>
      incidents[i].Anchor() <= a.activity
    ensures Evidence(Correlate(incidents, a, window, id, now), a.device) == Sessions(alarms + [a], window)
  {
    if alarms == [] {
      Opens(incidents, a, window, id, now);
      OpenMoves(incidents, alarms, a, window, id, now);
    } else {
      var k := EvidenceLast(incidents, a.device);
      LastAnchor(incidents, k, alarms, a.device, window);
      Joins(incidents, k, a, window, id, now);
      if a.activity - incidents[k].Anchor() <= window {
        JoinMoves(incidents, k, alarms, a, window);
      } else {
        OpenMoves(incidents, alarms, a, window, id, now);
      }
    }
  }

  /** Online equals batch. Whatever the interleaving of devices, as long as each device's alarms
      arrive in activity order, a device's incidents hold exactly the sessions of its alarms. */
  lemma {:induction false} OnlineIsBatch(trace: seq<Arrival>, window: int, device: string)
    requires InOrder(trace)
    ensures Evidence(Online(trace, window), device) == Sessions(Of(trace, device), window)
  {
    if trace == [] {
    } else {
      var n := |trace| - 1;
      OnlineIsBatch(trace[..n], window, device);
      OnlineQuiet(trace[..n], window);
      var before, x := Online(trace[..n], window), trace[n];
      if x.a.device == device {
        forall i | 0 <= i < |before| && before[i].device == Some(device) ensures before[i].Anchor() <= x.a.activity {
          AnchorsBelow(trace, window, i);
        }
        SameDevice(before, Of(trace[..n], device), x.a, window, x.id, x.now);
      } else {
        OtherDevice(before, x.a, window, x.id, x.now, device);
        assert Of(trace, device) == Of(trace[..n], device);
      }
    }
  }

  // ---------------------------------------------------------------- the service

  class IncidentCorrelationService {
    var incidents: seq<Incident>

    constructor ()
      ensures incidents == []
    {
      incidents := [];
    }

    /** Link one alarm to one incident, idempotently; refuse another device's incident. True when
        the link is new. */
    method AttachAlarm(i: nat, a: Alarm) returns (raised: bool, linked: bool)
      requires i < |incidents|
      modifies this
      ensures raised <==> old(incidents)[i].device.Some? && old(incidents)[i].device != Some(a.device)
      ensures incidents == if raised then old(incidents) else old(incidents)[i := Attach(old(incidents)[i], a)]
      ensures linked <==> !raised && a.id !in old(incidents)[i].links
      ensures |incidents| == |old(incidents)|
      ensures !raised ==>
        var was, now := old(incidents)[i], incidents[i];
        && now.links == (if a.id in was.links then was.links else was.links + [a.id])
        && now.lastAlarmAt == (if was.lastAlarmAt.Some? && was.lastAlarmAt.value >= a.activity
                               then was.lastAlarmAt else Some(a.activity))
        && now.severity == (if a.severity in Above(was.severity) then Some(a.severity) else was.severity)
        && (if a.severity in Above(was.severity) then PriorityFits(a.severity, now.priority)
            else now.priority == was.priority)
        && now.device == was.device && now.live == was.live && now.createdAt == was.createdAt && now.id == was.id
    {
      RankIsAbove(a.severity, incidents[i].severity);
      PriorityOfFits(a.severity);
      var incident := incidents[i];
      if incident.device.Some? && incident.device.value != a.device { return true, false; }
      linked := a.id !in incident.links;
      if linked { incident := incident.(links := incident.links + [a.id]); }
      if incident.lastAlarmAt.None? || a.activity > incident.lastAlarmAt.value {
        incident := incident.(lastAlarmAt := Some(a.activity));
      }
      if Rank(Some(a.severity)) > Rank(incident.severity) {
        incident := incident.(severity := Some(a.severity), priority := PriorityOf(a.severity));
      }
      incident := incident.(evidence := incident.evidence + [a]);
      incidents := incidents[i := incident];
      raised := false;
    }

    /** The incident the alarm belongs to, opened if needed. */
    method CorrelateAlarm(a: Alarm, window: int, id: int, now: int) returns (index: nat, created: bool)
      modifies this
      ensures incidents == Correlate(old(incidents), a, window, id, now)
      ensures index < |incidents| && OpenFor(incidents[index], a.device) && a.id in incidents[index].links
      ensures created <==> |incidents| == |old(incidents)| + 1
      ensures created <==> !Joined(old(incidents), a, window)
      ensures created ==>
        && incidents[..|incidents| - 1] == old(incidents) && index == |incidents| - 1
        && var opening := incidents[index];
           && opening.device == Some(a.device) && opening.engine && opening.live
           && opening.links == [a.id] && opening.evidence == [a]
           && opening.severity == Some(a.severity) && PriorityFits(a.severity, opening.priority)
           && opening.lastAlarmAt == Some(a.activity) && opening.id == id && opening.createdAt == now
      ensures !created ==> forall i :: 0 <= i < |incidents| && i != index ==> incidents[i] == old(incidents)[i]
    {
      PriorityOfFits(a.severity);
      var found := FindOpen(incidents, a.device);
      if found.Some? && WithinWindow(incidents[found.value], a, window) {
        index := found.value;
        var raised, linked := AttachAlarm(index, a);
        return index, false;
      }
      ghost var before := incidents;
      incidents := incidents + [Opened(a, id, now)];
      index := |incidents| - 1;
      var raised, linked := AttachAlarm(index, a);
      ghost var started := Opened(a, id, now);
      assert (before + [started])[|before| := Attach(started, a)] == before + [Attach(started, a)];
      created := true;
    }
  }
}

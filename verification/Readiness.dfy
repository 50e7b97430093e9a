/** Waiting for a started runtime to become usable: what the gateway's readiness verdict, in an apply
    and at start-up, says about the runtime's own machine. */
module Readiness {
  import opened Options
  import opened Backoff
  import opened DeviceRuntime
  import G = Gateway
  import T = ConfigStore
  import C = ConfigProtocol
  import S = ConfigStartup

  /** One bounded wait over a freshly started task: whether the task reaches its first connection at
      all, what the environment answers it, and the moments at which the wait looks at the state, the
      last one at the deadline. By the `i`-th look the task has gone through `looks[i]` answers. */
  datatype Watch = Watch(prepared: bool, answers: seq<Answer>, looks: seq<nat>)

  ghost predicate WatchOk(w: Watch) {
    && (forall i :: 0 <= i < |w.looks| ==> w.looks[i] <= |w.answers|)
    && (forall i, j :: 0 <= i < j < |w.looks| ==> w.looks[i] <= w.looks[j])
  }

  /** The task after the first `n` answers. */
  function Fresh(p: RetryPolicy, w: Watch, n: nat): Runtime
    requires n <= |w.answers|
  {
    Run(p, Launch(w.prepared, COLD), w.answers[..n])
  }

  /** Some look found the task CONNECTED. */
  ghost predicate SeenConnected(p: RetryPolicy, w: Watch)
    requires WatchOk(w)
  {
    exists i :: 0 <= i < |w.looks| && Fresh(p, w, w.looks[i]).state == Connected
  }

  lemma {:induction false} EndedForGood(p: RetryPolicy, w: Watch, i: nat, j: nat)
    requires i <= j <= |w.answers| && Fresh(p, w, i).phase == Ended
    ensures Fresh(p, w, j) == Fresh(p, w, i)
    decreases j - i
  {
    if i == j {
    } else {
      EndedForGood(p, w, i, j - 1);
      assert w.answers[..j][..j - 1] == w.answers[..j - 1];
    }
  }

  /** A look that finds ERROR finds a task that has ended. */
  lemma ErrorEnds(p: RetryPolicy, w: Watch, n: nat)
    requires n <= |w.answers|
    ensures Fresh(p, w, n).state == Error <==> Fresh(p, w, n).phase == Ended
  {
    if w.prepared {
      StateShowsPhase(p, COLD, w.answers[..n]);
    } else {
      assert Fresh(p, w, 0).phase == Ended;
      EndedForGood(p, w, 0, n);
    }
  }

  /** ERROR is final: after it no look finds anything else. */
  lemma ErrorIsFinal(p: RetryPolicy, w: Watch, i: nat, j: nat)
    requires WatchOk(w) && i < j < |w.looks| && Fresh(p, w, w.looks[i]).state == Error
    ensures Fresh(p, w, w.looks[j]).state == Error
  {
    ErrorEnds(p, w, w.looks[i]);
    EndedForGood(p, w, w.looks[i], w.looks[j]);
  }

  /** The bounded wait. Giving up at the first ERROR loses nothing: the verdict is true exactly when
      the device has no connection of its own, or some look found its task CONNECTED. */
  method WaitUntilReady(p: RetryPolicy, d: G.Definition, w: Watch) returns (ready: bool)
    requires WatchOk(w)
    ensures ready <==> !d.enabled || d.protocol == G.Mqtt || SeenConnected(p, w)
  {
    if !d.enabled || !d.Polled() { return true; }
    for i := 0 to |w.looks|
      invariant forall j :: 0 <= j < i ==> Fresh(p, w, w.looks[j]).state !in {Connected, Error}
    {
      var state := Fresh(p, w, w.looks[i]).state;
      if state == Connected { return true; }
      if state == Error {
        forall j | i < j < |w.looks| ensures Fresh(p, w, w.looks[j]).state == Error {
          ErrorIsFinal(p, w, i, j);
        }
        return false;
      }
    }
    ready := false;
  }

  /** The wait at start-up, over the task of an installed runtime: the version is recorded exactly
      when that task was seen CONNECTED or the device has no connection of its own. */
  method ConfirmReady(gateway: G.IndustrialProtocolGateway, device: string, version: Option<nat>, p: RetryPolicy,
                      w: Watch) returns (ok: bool)
    requires WatchOk(w)
    modifies gateway
    ensures gateway.View() == G.ConfirmReady(old(gateway.View()), device, version, SeenConnected(p, w))
    ensures ok <==> (
      && device in old(gateway.runtimes).at
      && var d := old(gateway.runtimes).at[device].definition;
         !d.enabled || d.protocol == G.Mqtt || SeenConnected(p, w))
    ensures gateway.applied == if ok then old(gateway.applied)[device := version] else old(gateway.applied)
  {
    if device !in gateway.runtimes.at { return false; }
    var ready := WaitUntilReady(p, gateway.runtimes.at[device].definition, w);
    ok := gateway.Confirm(device, version, ready);
  }

  // ---------------------------------------------------------------- applying a candidate

  lemma {:induction false} PollingWasAccepted(p: RetryPolicy, r: Runtime, answers: seq<Answer>)
    requires r.phase != AtPoll && Run(p, r, answers).phase == AtPoll
    ensures exists i :: 0 <= i < |answers| && answers[i].connectOk
  {
    var n := |answers| - 1;
    if Run(p, r, answers[..n]).phase == AtPoll {
      PollingWasAccepted(p, r, answers[..n]);
      var i :| 0 <= i < n && answers[..n][i].connectOk;
      assert answers[i].connectOk;
    } else {
      assert answers[n].connectOk;
    }
  }

  /** A task found CONNECTED was prepared and is polling, with fewer failed polls in a row than the
      failure threshold. */
  lemma ConnectedPolls(p: RetryPolicy, w: Watch, n: nat)
    requires n <= |w.answers| && Fresh(p, w, n).state == Connected
    ensures w.prepared && Fresh(p, w, n).phase == AtPoll
    ensures var fails := FailRun(History(p, Begin(COLD), w.answers[..n])); fails == 0 || fails < p.failureThreshold
  {
    if !w.prepared {
      EndedForGood(p, w, 0, n);
      assert false;
    }
    StateShowsPhase(p, COLD, w.answers[..n]);
    PollingState(p, COLD, w.answers[..n]);
  }

  /** A polled candidate that never reaches its first connection, or whose every connection is
      refused, is never accepted, however long and however often the wait looks; the gateway keeps
      what it runs. */
  lemma RefusedCandidate(g: G.State, d: G.Definition, version: Option<nat>, p: RetryPolicy, w: Watch)
    requires WatchOk(w) && d.enabled && d.protocol != G.Mqtt && (!w.prepared || AllRefused(w.answers))
    ensures var h := G.Apply(g, d, version, G.Waited(SeenConnected(p, w)));
      h.registry == g.registry && h.runtimes == g.runtimes && h.applied == g.applied
  {
    forall i | 0 <= i < |w.looks| ensures Fresh(p, w, w.looks[i]).state != Connected {
      if Fresh(p, w, w.looks[i]).state == Connected {
        ConnectedPolls(p, w, w.looks[i]);
        PollingWasAccepted(p, Begin(COLD), w.answers[..w.looks[i]]);
        assert false;
      }
    }
  }

  /** An accepted polled candidate had its machine CONNECTED at some look, with fewer failed polls in
      a row than the failure threshold, and from then on the gateway names its version. */
  lemma AcceptedCandidate(g: G.State, d: G.Definition, version: Option<nat>, p: RetryPolicy, w: Watch)
    returns (n: nat)
    requires WatchOk(w) && d.enabled && d.protocol != G.Mqtt
    requires G.Accepted(d, G.Waited(SeenConnected(p, w)))
    ensures n <= |w.answers| && n in w.looks
    ensures var fails := FailRun(History(p, Begin(COLD), w.answers[..n]));
      w.prepared && Fresh(p, w, n).phase == AtPoll && (fails == 0 || fails < p.failureThreshold)
    ensures G.Apply(g, d, version, G.Waited(SeenConnected(p, w))).AppliedVersion(d.deviceId) == version
  {
    var i :| 0 <= i < |w.looks| && Fresh(p, w, w.looks[i]).state == Connected;
    n := w.looks[i];
    ConnectedPolls(p, w, n);
  }

  // ---------------------------------------------------------------- start-up

  /** The devices whose task was seen CONNECTED within its wait. */
  ghost function ConnectedOf(p: RetryPolicy, watches: map<string, Watch>): set<string>
    requires forall d :: d in watches ==> WatchOk(watches[d])
  {
    set d | d in watches && SeenConnected(p, watches[d])
  }

  /** After a managed restart, a published device is reported in sync exactly when it is disabled, only
      listens, or some look of its wait found its task CONNECTED. */
  lemma RestartByWatches(steps: seq<C.Step>, published: seq<C.Resolved>, bootstrap: seq<G.Definition>, writes: bool,
                         p: RetryPolicy, watches: map<string, Watch>, device: string, version: nat)
    requires forall d :: d in watches ==> WatchOk(watches[d])
    requires !C.Run(steps).Up() && C.Lists(C.Run(steps).rows, published)
    requires S.StartOk(C.Run(steps), bootstrap, writes)
    requires T.IsPublished(C.Run(steps).rows, device, version)
    ensures var t := C.Run(steps + [C.Restart(published, bootstrap, ConnectedOf(p, watches), writes)]);
      var key := T.Key(device, version);
      && t.Up() && key in t.rows
      && var config := t.rows[key].config;
         (C.InSync(t, device) <==>
            !config.enabled || config.protocol == G.Mqtt || (device in watches && SeenConnected(p, watches[device])))
  {
    var connected := ConnectedOf(p, watches);
    var t := C.Run(steps + [C.Restart(published, bootstrap, connected, writes)]);
    S.RestartReconciles(steps, published, bootstrap, connected, writes);
    C.RunSnoc(steps, C.Restart(published, bootstrap, connected, writes));
    assert t.rows == C.Run(steps).rows;
    assert T.IsPublished(t.rows, device, version);
    assert S.PublishedRuns(t, connected, device, version);
  }
}

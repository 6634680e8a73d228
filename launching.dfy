/**
 What `launch <env> [--force]` does with one environment's list: in list
 order, skip an app whose process is already running (unless forced) and
 spawn every other one.
 */
module Launching {
  import opened AppRefs

  /** One line of the launcher's output, paired with its effect. */
  datatype LaunchEvent =
    | Skipping(app: string)    // "already running": nothing is spawned
    | Launching(app: string)   // `gtk-launch app` is spawned

  /** The decision for one app; `running` is the process probe on a pattern. */
  function Decide(app: string, force: bool, running: string -> bool): LaunchEvent
  {
    if !force && running(ProbeName(app)) then Skipping(app) else Launching(app)
  }

  /** The launcher's events for a whole list, in list order. */
  function LaunchPlan(apps: seq<string>, force: bool, running: string -> bool): seq<LaunchEvent>
    decreases |apps|
  {
    if |apps| == 0 then [] else [Decide(apps[0], force, running)] + LaunchPlan(apps[1..], force, running)
  }

  /** The apps that get spawned, in spawn order. */
  function Spawned(events: seq<LaunchEvent>): seq<string>
    decreases |events|
  {
    if |events| == 0 then []
    else if events[0].Launching? then [events[0].app] + Spawned(events[1..])
    else Spawned(events[1..])
  }

  /** The apps that get skipped, in order. */
  function SkippedApps(events: seq<LaunchEvent>): seq<string>
    decreases |events|
  {
    if |events| == 0 then []
    else if events[0].Skipping? then [events[0].app] + SkippedApps(events[1..])
    else SkippedApps(events[1..])
  }

  /** The apps whose probe answer equals `want`, in list order. */
  function FilterByProbe(apps: seq<string>, running: string -> bool, want: bool): seq<string>
    decreases |apps|
  {
    if |apps| == 0 then []
    else if running(ProbeName(apps[0])) == want then [apps[0]] + FilterByProbe(apps[1..], running, want)
    else FilterByProbe(apps[1..], running, want)
  }

  /** One event per app, and event `i` is the decision for app `i`. */
  lemma {:induction false} LaunchPlanAt(apps: seq<string>, force: bool, running: string -> bool, i: nat)
    requires i < |apps|
    ensures |LaunchPlan(apps, force, running)| == |apps|
    ensures LaunchPlan(apps, force, running)[i] == Decide(apps[i], force, running)
    decreases |apps|
  {
    if i == 0 {
      LaunchPlanLength(apps[1..], force, running);
    } else {
      LaunchPlanAt(apps[1..], force, running, i - 1);
    }
  }

  lemma {:induction false} LaunchPlanLength(apps: seq<string>, force: bool, running: string -> bool)
    ensures |LaunchPlan(apps, force, running)| == |apps|
    decreases |apps|
  {
    if |apps| > 0 {
      LaunchPlanLength(apps[1..], force, running);
    }
  }

  /** Extending the list by one app extends the plan by that app's decision. */
  lemma {:induction false} LaunchPlanSnoc(apps: seq<string>, app: string, force: bool, running: string -> bool)
    ensures LaunchPlan(apps + [app], force, running) == LaunchPlan(apps, force, running) + [Decide(app, force, running)]
    decreases |apps|
  {
    if |apps| > 0 {
      assert (apps + [app])[1..] == apps[1..] + [app];
      LaunchPlanSnoc(apps[1..], app, force, running);
    } else {
      assert apps + [app] == [app];
    }
  }

  /** Forced: every app is spawned, in list order, and none is skipped. */
  lemma {:induction false} ForceLaunchesAll(apps: seq<string>, running: string -> bool)
    ensures Spawned(LaunchPlan(apps, true, running)) == apps
    ensures SkippedApps(LaunchPlan(apps, true, running)) == []
    decreases |apps|
  {
    if |apps| > 0 {
      ForceLaunchesAll(apps[1..], running);
      var plan := LaunchPlan(apps, true, running);
      assert plan[1..] == LaunchPlan(apps[1..], true, running);
      assert apps == [apps[0]] + apps[1..];
    }
  }

  /**
   Not forced: the spawned apps are exactly those whose probe finds nothing
   running, and the skipped ones exactly those it finds, each in list order.
   */
  lemma {:induction false} UnforcedSkipsRunning(apps: seq<string>, running: string -> bool)
    ensures Spawned(LaunchPlan(apps, false, running)) == FilterByProbe(apps, running, false)
    ensures SkippedApps(LaunchPlan(apps, false, running)) == FilterByProbe(apps, running, true)
    decreases |apps|
  {
    if |apps| > 0 {
      UnforcedSkipsRunning(apps[1..], running);
      var plan := LaunchPlan(apps, false, running);
      assert plan[1..] == LaunchPlan(apps[1..], false, running);
    }
  }

  /** Two apps, the first running: one skip, one spawn; forced: two spawns. */
  lemma SkipScenario()
    ensures var running := (p: string) => p == "foo";
      && LaunchPlan(["foo", "bar"], false, running) == [Skipping("foo"), Launching("bar")]
      && Spawned(LaunchPlan(["foo", "bar"], true, running)) == ["foo", "bar"]
      && SkippedApps(LaunchPlan(["foo", "bar"], true, running)) == []
  {
    var running := (p: string) => p == "foo";
    assert ProbeName("foo") == "foo" && ProbeName("bar") == "bar";
    assert ["foo", "bar"][1..] == ["bar"];
    ForceLaunchesAll(["foo", "bar"], running);
  }
}

/**
 The launcher's configuration object and the three commands that use it:
 `edit`, which changes it in place, `launch` and `validate`, which read it,
 and the edit branch of the entry point, which saves only after a mutation.
 */
module Clovis {
  import opened AppRefs
  import opened Availability
  import opened Environments
  import opened Launching
  import opened Validation

  /** The in-memory configuration: environment name to ordered app list. */
  class Config {
    var environments: Environments

    constructor (envs: Environments)
      ensures environments == envs
    {
      environments := envs;
    }

    /**
     `edit env action app`. An unknown environment is rejected before anything
     else; otherwise availability is checked (and warned about) before the
     action is looked at, whatever the action turns out to be.
     */
    method Edit(env: string, action: string, app: string, host: Host)
      returns (mutated: bool, warned: bool, report: EditReport)
      modifies this
      ensures report == ApplyEdit(old(environments), env, action, app).report
      ensures environments == ApplyEdit(old(environments), env, action, app).envs
      ensures mutated == report.Mutated()
      ensures warned <==> env in old(environments) && !Available(app, host)
    {
      if env !in environments {
        return false, false, UnknownEnvironment;
      }
      var available := CheckAvailable(app, host);
      warned := !available;
      var apps := environments[env];
      if action == "add" {
        if app in apps {
          return false, warned, AlreadyPresent;
        }
        environments := environments[env := apps + [app]];
        report := Added;
      } else if action == "remove" {
        var pos := IndexOf(apps, app);
        if pos.None? {
          return false, warned, NotFound;
        }
        environments := environments[env := RemoveAt(apps, pos.value)];
        report := Removed;
      } else {
        return false, warned, InvalidAction;
      }
      mutated := true;
    }

    /**
     `launch env [--force]`: the events printed and the spawns made, or
     `found == false` and nothing at all for an unknown environment.
     */
    method Launch(env: string, force: bool, host: Host)
      returns (found: bool, events: seq<LaunchEvent>)
      ensures found <==> env in environments
      ensures found ==> events == LaunchPlan(environments[env], force, host.processMatches)
      ensures !found ==> events == []
    {
      if env !in environments {
        return false, [];
      }
      var apps := environments[env];
      events := [];
      for i := 0 to |apps|
        invariant events == LaunchPlan(apps[..i], force, host.processMatches)
      {
        var app := apps[i];
        var ev;
        if !force && host.processMatches(ProbeName(app)) {
          ev := Skipping(app);
        } else {
          ev := Launching(app);
        }
        LaunchPlanSnoc(apps[..i], app, force, host.processMatches);
        assert apps[..i + 1] == apps[..i] + [app];
        events := events + [ev];
      }
      assert apps[..|apps|] == apps;
      found := true;
    }

    /**
     `validate`: a full scan of every (environment, app) entry, environments
     taken in an unspecified order. Returns the warnings printed, in the order
     printed, and whether the final confirmation was printed.
     */
    method Validate(host: Host) returns (warnings: seq<Warning>, allValid: bool)
      ensures forall w :: multiset(warnings)[w] == WarningCount(environments, host, w)
      ensures allValid <==> warnings == []
      ensures allValid <==> AllAvailable(environments, host)
    {
      var envs := environments;
      warnings := [];
      allValid := true;
      var done: set<string> := {};
      var todo := envs.Keys;
      while todo != {}
        invariant done + todo == envs.Keys && done !! todo
        invariant forall w :: multiset(warnings)[w] == (if w.0 in done then WarningCount(envs, host, w) else 0)
        invariant allValid <==> warnings == []
        invariant allValid <==> forall e, i :: e in done && 0 <= i < |envs[e]| ==> Available(envs[e][i], host)
        decreases todo
      {
        var env :| env in todo;
        var found := ValidateEnvironment(env, envs[env], host);
        warnings := warnings + found;
        allValid := allValid && found == [];
        done := done + {env};
        todo := todo - {env};
      }
    }
  }

  /**
   The inner scan of `validate` over one environment's list: one warning per
   unavailable entry, in list order.
   */
  method ValidateEnvironment(env: string, apps: seq<string>, host: Host) returns (warnings: seq<Warning>)
    ensures forall w ::
      multiset(warnings)[w] == (if w.0 == env && !Available(w.1, host) then multiset(apps)[w.1] else 0)
    ensures warnings == [] <==> forall i :: 0 <= i < |apps| ==> Available(apps[i], host)
  {
    warnings := [];
    for j := 0 to |apps|
      invariant forall w ::
        multiset(warnings)[w] == (if w.0 == env && !Available(w.1, host) then multiset(apps[..j])[w.1] else 0)
      invariant warnings == [] <==> forall i :: 0 <= i < j ==> Available(apps[i], host)
    {
      var app := apps[j];
      var available := CheckAvailable(app, host);
      ghost var before := warnings;
      if !available {
        warnings := warnings + [(env, app)];
      }
      ScanStep(env, apps[..j], app, host, before, warnings);
      assert apps[..j + 1] == apps[..j] + [app];
    }
    assert apps[..|apps|] == apps;
  }

  /** Scanning one more entry adds its warning, if any, to those of the prefix. */
  lemma ScanStep(env: string, scanned: seq<string>, app: string, host: Host,
                 before: seq<Warning>, after: seq<Warning>)
    requires forall w ::
      multiset(before)[w] == (if w.0 == env && !Available(w.1, host) then multiset(scanned)[w.1] else 0)
    requires after == if Available(app, host) then before else before + [(env, app)]
    ensures forall w ::
      multiset(after)[w] == (if w.0 == env && !Available(w.1, host) then multiset(scanned + [app])[w.1] else 0)
  {
    assert multiset(scanned + [app]) == multiset(scanned) + multiset{app};
  }

  /** The configuration file on disk; `None` when it is missing or unreadable. */
  class ConfigFile {
    var stored: Option<Environments>

    constructor (stored: Option<Environments>)
      ensures this.stored == stored
    {
      this.stored := stored;
    }
  }

  /** A failed load falls back to an empty configuration. */
  function LoadedOrEmpty(stored: Option<Environments>): Environments
  {
    match stored
    case Some(envs) => envs
    case None => map[]
  }

  /**
   The entry point's `edit` branch: load (or start empty), edit, and write
   the configuration back if and only if the edit reports a mutation.
   */
  method RunEditCommand(file: ConfigFile, env: string, action: string, app: string, host: Host)
    returns (saved: bool)
    modifies file
    ensures saved == ApplyEdit(LoadedOrEmpty(old(file.stored)), env, action, app).report.Mutated()
    ensures file.stored ==
      if saved then Some(ApplyEdit(LoadedOrEmpty(old(file.stored)), env, action, app).envs)
      else old(file.stored)
    ensures old(file.stored).None? ==> !saved
  {
    var config := new Config(LoadedOrEmpty(file.stored));
    var mutated, warned, report := config.Edit(env, action, app, host);
    if mutated {
      file.stored := Some(config.environments);
    }
    saved := mutated;
  }
}

/**
 The configuration's value: environment names mapped to ordered application
 lists, and the pure meaning of an `edit <env> <add|remove> <app>` command on it.
 */
module Environments {
  import opened AppRefs

  type Environments = map<string, seq<string>>

  /** Which of the command's outcomes was reported. */
  datatype EditReport =
    | UnknownEnvironment
    | AlreadyPresent
    | Added
    | NotFound
    | Removed
    | InvalidAction
  {
    /** The outcomes for which the command answers "mutated". */
    predicate Mutated()
    {
      this == Added || this == Removed
    }
  }

  datatype EditResult = EditResult(report: EditReport, envs: Environments)

  /** `Iterator::position`: the index of the first element equal to `x`. */
  function IndexOf(s: seq<string>, x: string): (r: Option<nat>)
    ensures r.None? <==> x !in s
    ensures r.Some? ==> r.value < |s| && s[r.value] == x && x !in s[..r.value]
    decreases |s|
  {
    if |s| == 0 then None
    else if s[0] == x then Some(0)
    else
      match IndexOf(s[1..], x)
      case None => None
      case Some(k) =>
        assert s[..k + 1] == [s[0]] + s[1..][..k];
        Some(k + 1)
  }

  /** `Vec::remove`: delete index `i`, shifting the rest left. */
  function RemoveAt(s: seq<string>, i: nat): (r: seq<string>)
    requires i < |s|
    ensures |r| == |s| - 1
    ensures forall j :: 0 <= j < i ==> r[j] == s[j]
    ensures forall j :: i <= j < |r| ==> r[j] == s[j + 1]
    ensures multiset(r) == multiset(s) - multiset{s[i]}
  {
    assert s == s[..i] + [s[i]] + s[i + 1..];
    s[..i] + s[i + 1..]
  }

  /**
   The outcome of `edit env action app` on `envs`: an unknown environment and
   an action other than "add"/"remove" change nothing; "add" appends an app not
   yet listed; "remove" deletes the first occurrence of a listed app.
   */
  function ApplyEdit(envs: Environments, env: string, action: string, app: string): (r: EditResult)
    ensures r.report.Mutated() <==>
      env in envs && ((action == "add" && app !in envs[env]) || (action == "remove" && app in envs[env]))
    ensures r.report == Added <==> env in envs && action == "add" && app !in envs[env]
    ensures r.report == Removed <==> env in envs && action == "remove" && app in envs[env]
    ensures !r.report.Mutated() ==> r.envs == envs
    ensures r.envs.Keys == envs.Keys
    ensures forall e :: e in envs && e != env ==> r.envs[e] == envs[e]
    ensures r.report == Added ==> r.envs[env] == envs[env] + [app]
    ensures r.report == Removed ==>
      exists i :: 0 <= i < |envs[env]| && envs[env][i] == app && app !in envs[env][..i] &&
        r.envs[env] == envs[env][..i] + envs[env][i + 1..]
    ensures r.report == Removed ==> multiset(r.envs[env]) == multiset(envs[env]) - multiset{app}
  {
    if env !in envs then EditResult(UnknownEnvironment, envs)
    else if action == "add" then
      if app in envs[env] then EditResult(AlreadyPresent, envs)
      else EditResult(Added, envs[env := envs[env] + [app]])
    else if action == "remove" then
      match IndexOf(envs[env], app)
      case None => EditResult(NotFound, envs)
      case Some(pos) => EditResult(Removed, envs[env := RemoveAt(envs[env], pos)])
    else EditResult(InvalidAction, envs)
  }

  /** Which error each rejected command reports. */
  lemma EditErrorReports(envs: Environments, env: string, action: string, app: string)
    ensures var r := ApplyEdit(envs, env, action, app);
      && (r.report == UnknownEnvironment <==> env !in envs)
      && (r.report == AlreadyPresent <==> env in envs && action == "add" && app in envs[env])
      && (r.report == NotFound <==> env in envs && action == "remove" && app !in envs[env])
      && (r.report == InvalidAction <==> env in envs && action != "add" && action != "remove")
  {
  }

  /** The command reports a mutation exactly when the configuration changed. */
  lemma MutatedIffChanged(envs: Environments, env: string, action: string, app: string)
    ensures var r := ApplyEdit(envs, env, action, app);
      r.report.Mutated() <==> r.envs != envs
  {
    var r := ApplyEdit(envs, env, action, app);
    if r.report.Mutated() {
      assert |r.envs[env]| != |envs[env]|;
    }
  }

  /** No application appears twice in the list. */
  predicate DupFree(apps: seq<string>)
  {
    forall i, j :: 0 <= i < j < |apps| ==> apps[i] != apps[j]
  }

  /** The configuration invariant: every environment's list is duplicate-free. */
  predicate AllDupFree(envs: Environments)
  {
    forall e :: e in envs ==> DupFree(envs[e])
  }

  /** Editing keeps every list duplicate-free. */
  lemma EditPreservesDupFree(envs: Environments, env: string, action: string, app: string)
    requires AllDupFree(envs)
    ensures AllDupFree(ApplyEdit(envs, env, action, app).envs)
  {
    var r := ApplyEdit(envs, env, action, app);
    if r.report == Added {
      var s := envs[env] + [app];
      assert DupFree(envs[env]);
      forall i, j | 0 <= i < j < |s| ensures s[i] != s[j] {
        if j == |s| - 1 {
          assert s[i] == envs[env][i];
        }
      }
      assert r.envs[env] == s;
    } else if r.report == Removed {
      var pos := IndexOf(envs[env], app).value;
      var s := RemoveAt(envs[env], pos);
      assert DupFree(envs[env]);
      forall i, j | 0 <= i < j < |s| ensures s[i] != s[j] {
        var i' := if i < pos then i else i + 1;
        var j' := if j < pos then j else j + 1;
        assert s[i] == envs[env][i'] && s[j] == envs[env][j'];
      }
      assert r.envs[env] == s;
    }
  }

  /** In a duplicate-free list, a removed application is gone entirely. */
  lemma RemoveDeletesOnlyOccurrence(envs: Environments, env: string, app: string)
    requires env in envs && DupFree(envs[env]) && app in envs[env]
    ensures ApplyEdit(envs, env, "remove", app).report == Removed
    ensures app !in ApplyEdit(envs, env, "remove", app).envs[env]
  {
    var s := envs[env];
    var pos := IndexOf(s, app).value;
    var t := ApplyEdit(envs, env, "remove", app).envs[env];
    assert t == RemoveAt(s, pos);
    forall k | 0 <= k < |t| ensures t[k] != app {
      if k < pos { assert t[k] == s[k]; } else { assert t[k] == s[k + 1]; }
    }
  }

  /** A second identical "add" is rejected and leaves the list as it was. */
  lemma AddTwiceRejected(envs: Environments, env: string, app: string)
    requires env in envs
    ensures var once := ApplyEdit(envs, env, "add", app).envs;
      var twice := ApplyEdit(once, env, "add", app);
      && twice.report == AlreadyPresent
      && twice.envs == once
      && app in once[env]
  {
    var once := ApplyEdit(envs, env, "add", app);
    if once.report == Added {
      assert once.envs[env][|envs[env]|] == app;
    }
  }

  /** Removing then re-adding moves the application to the end of the list. */
  lemma RemoveThenAddAppends()
    ensures var envs := map["e" := ["a", "b", "c"]];
      var removed := ApplyEdit(envs, "e", "remove", "b");
      var added := ApplyEdit(removed.envs, "e", "add", "b");
      && removed.report == Removed && removed.envs["e"] == ["a", "c"]
      && added.report == Added && added.envs["e"] == ["a", "c", "b"]
  {
    var s := ["a", "b", "c"];
    assert s[0] != "b" && s[1] == "b";
    assert IndexOf(s, "b") == Some(1);
    assert RemoveAt(s, 1) == ["a", "c"];
  }
}

# Clovis environment launcher — Dafny model

Clovis keeps named *environments*, each an ordered list of application
identifiers, in a per-user configuration file. It lets the user edit an
environment (`edit <env> add|remove <app>`), launch every application of one
environment (`launch <env> [--force]`, which skips applications already
running unless forced), and validate that every configured application is
installed (`validate`). An identifier ending in `.desktop` names a
desktop-entry file, searched for under five application directories; any
other identifier names an executable looked up with `which`.

This project models that core of `src/main.rs`:

- `app_refs.dfy` (module `AppRefs`): the `.desktop` suffix test and the
  suffix strip that yields the pattern for the running-process probe.
- `availability.dfy` (module `Availability`): the host as an oracle (`Host`:
  `HOME`, `which`, path existence, `pgrep -f`), the ordered desktop-file
  search with early return, and the dispatch on the suffix.
- `environments.dfy` (module `Environments`): the configuration value
  (`map<string, seq<string>>`) and the meaning of an edit as a pure function,
  with the duplicate-free invariant and the edit properties as lemmas.
- `launching.dfy` (module `Launching`): the launch plan as a list of
  skip/spawn events, and what is spawned and skipped with and without force.
- `validation.dfy` (module `Validation`): how many warnings each
  (environment, app) pair draws.
- `clovis.dfy` (module `Clovis`): the `Config` object, whose `Edit` changes
  its map in place and whose `Launch` and `Validate` loop over it; the
  configuration file as an object; and the entry point's edit branch, which
  writes the file back only when the edit reports a mutation.

The `HashMap` that holds the environments iterates in an unspecified order.
`Validate` therefore picks the next environment with a nondeterministic
choice, and its contract speaks of how many times each warning occurs, not
of their order.

## Model

| member | source | states |
|---|---|---|
| AppRefs.StripSuffix | src/main.rs:301 | a prefix is returned iff the identifier ends with the suffix, and that prefix followed by the suffix is the identifier |
| AppRefs.ProbeName | src/main.rs:300-301 | the probe pattern is the identifier minus one trailing `.desktop` for a desktop ref, and the identifier itself otherwise |
| AppRefs.ProbeNameOfDesktopFile | src/main.rs:301 | `name + ".desktop"` is a desktop ref and stripping it gives back `name` |
| Availability.CandidateDirs | src/main.rs:282-289 | the five directories searched, in order: `/usr/share/applications`, `/usr/local/share/applications`, `$HOME/.local/share/applications`, `/run/current-system/sw/share/applications`, `$HOME/.nix-profile/share/applications` |
| Availability.FirstHit | src/main.rs:291-297 | the index found is the least directory under which the file exists; none is found iff the file exists under no directory |
| Availability.IsDesktopFileAvailable | src/main.rs:281-298 | returns true iff the file exists under some candidate directory; the paths probed are `dir/file` for the directories in order, up to and including the first hit, or all of them |
| Availability.CheckAvailable | src/main.rs:119-123 | a `.desktop` ref is available iff its file exists under one of the five candidate directories; any other ref iff `which` finds it |
| Availability.AvailableConsultsOneOracle | src/main.rs:119-123 | a desktop ref's availability does not depend on the command lookup, and a command ref's does not depend on the filesystem |
| Environments.IndexOf | src/main.rs:148 | the position returned holds the app and no earlier position does; none is returned iff the app is absent |
| Environments.RemoveAt | src/main.rs:149 | the list loses exactly the element at the index; earlier elements stay put and later ones shift left by one |
| Environments.ApplyEdit | src/main.rs:114-164 | the edit reports `Added` iff the environment exists and it is an add of an absent app, and `Removed` iff it is a remove of a present one, and mutates in exactly those cases; otherwise the config is unchanged; no environment is created or dropped and other environments are untouched; add appends at the end; remove deletes exactly the first occurrence and keeps the order of the rest |
| Environments.EditErrorReports | src/main.rs:114-162 | unknown environment, duplicate add, absent remove and invalid action are each reported exactly in their own case |
| Environments.MutatedIffChanged | src/main.rs:132-164 | the "mutated" answer is true exactly when the configuration actually changed |
| Environments.EditPreservesDupFree | src/main.rs:138-149 | if every list is duplicate-free before an edit, every list is duplicate-free after it |
| Environments.RemoveDeletesOnlyOccurrence | src/main.rs:147-151 | removing a listed app from a duplicate-free list succeeds and leaves the app absent |
| Environments.AddTwiceRejected | src/main.rs:138-142 | a second identical add is rejected as already present and changes nothing |
| Environments.RemoveThenAddAppends | src/main.rs:133-151 | from `[a, b, c]`, removing `b` gives `[a, c]` and adding it back gives `[a, c, b]` |
| Launching.LaunchPlanAt | src/main.rs:232-242 | the plan has one event per app and event `i` is the decision for app `i` |
| Launching.ForceLaunchesAll | src/main.rs:233 | with force, every app is spawned in list order and none is skipped |
| Launching.UnforcedSkipsRunning | src/main.rs:232-242 | without force, the spawned apps are exactly the not-running ones and the skipped apps exactly the running ones, each in list order |
| Launching.SkipScenario | src/main.rs:230-248 | with `foo` running and `bar` not, an unforced launch skips `foo` and spawns `bar`; a forced one spawns both and skips none |
| Validation.NoWarningsIffAllAvailable | src/main.rs:252-268 | no pair draws a warning exactly when every entry of every environment is available |
| Clovis.Config.Edit | src/main.rs:108-165 | the new map, the report and the mutated flag are those of `ApplyEdit`; a warning is given iff the environment exists and the app is unavailable, before and regardless of the action |
| Clovis.Config.Launch | src/main.rs:230-249 | an unknown environment yields no events; a known one yields the launch plan of its list, in order |
| Clovis.ValidateEnvironment | src/main.rs:254-264 | one warning per unavailable entry of the list, none for available ones |
| Clovis.Config.Validate | src/main.rs:251-269 | each (environment, app) warning occurs as many times as the app is listed there when unavailable, and not otherwise; "all valid" is printed iff there are no warnings, iff every entry is available |
| Clovis.RunEditCommand | src/main.rs:86-91 | the file is written iff the edit reports a mutation, and then holds the edited configuration; otherwise it is left as it was; a failed load never leads to a write |

## Left out

- Command-line parsing and help output (`Cli`, `Commands`, `handle_launch_command`, `print_launch_help_and_available_environments`): library glue; `Config.Launch` models `launch_apps` once an environment name has been given.
- YAML parsing and serialisation and the file reads and writes (`load_config`, `save_config`): the configuration file is modelled as holding the map itself, or nothing when it is missing or unreadable.
- `show_config`, `open_config_in_editor` and all logging: `show_config` and logging only print; `open_config_in_editor` starts `$EDITOR` on the configuration file, which the user may then change, but it has no effect on the in-memory configuration of this invocation.
- The external helpers `which`, `pgrep -f` and `gtk-launch`: `which` and `pgrep -f` are the `Host` oracles `onPath` and `processMatches`; a spawn is the `Launching` event. What `pgrep -f` matches (an unanchored extended regular expression against each process's full command line) lives inside the oracle, which the model leaves unconstrained.
- Panics: `.expect` on a failed spawn or `pgrep`, and `unwrap` on an unset `HOME`, are not modelled; `HOME` is the `Host.home` field.
- The inner loop of `validate_config` is the method `ValidateEnvironment` of its own; `Validate` sets its flag once per environment rather than once per warning, with the same final value.
- The `entry(..).or_insert_with(Vec::new)` in the add branch and the missing-list branch of remove cannot change anything, since the environment is known to exist at that point; the model reads the list directly.

## Notes on the source

- An unknown environment in `launch` is reported but the function still returns success; the model's `Launch` answers `found == false` with no events.
- Saving overwrites the file in place (`File::create`), not through a temporary file.
- When loading fails the configuration is empty, so no edit can mutate it: environments cannot be created from the command line.

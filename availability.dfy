/**
 Whether an application identifier is installed. Command identifiers are
 resolved by an executable-lookup helper; desktop-entry identifiers are
 searched for, in order, under a fixed list of application directories.
 The host's answers are parameters of the model (the `Host` oracle).
 */
module Availability {
  import opened AppRefs

  /**
   What the model learns from the machine it runs on:
   - `home`: the value of `HOME`;
   - `onPath(cmd)`: `which cmd` exits with status zero;
   - `pathExists(p)`: a file exists at path `p`;
   - `processMatches(pattern)`: `pgrep -f pattern` prints something.
   */
  datatype Host = Host(
    home: string,
    onPath: string -> bool,
    pathExists: string -> bool,
    processMatches: string -> bool)

  const SystemApplications: string := "/usr/share/applications"
  const LocalApplications: string := "/usr/local/share/applications"
  /** Relative to `HOME`. */
  const UserApplications: string := "/.local/share/applications"
  const SystemProfileApplications: string := "/run/current-system/sw/share/applications"
  /** Relative to `HOME`. */
  const UserProfileApplications: string := "/.nix-profile/share/applications"

  /**
   The candidate directories for desktop-entry files, in search order: the
   system, local-system, user-local, NixOS system-profile and user Nix-profile
   application directories. Only the user-local and user-profile ones depend
   on `HOME`.
   */
  function CandidateDirs(home: string): (dirs: seq<string>)
    ensures |dirs| == 5
    ensures dirs[0] == SystemApplications && dirs[1] == LocalApplications
    ensures dirs[2] == home + UserApplications
    ensures dirs[3] == SystemProfileApplications
    ensures dirs[4] == home + UserProfileApplications
  {
    [SystemApplications, LocalApplications, home + UserApplications,
     SystemProfileApplications, home + UserProfileApplications]
  }

  /** The path probed for `file` under directory `dir`. */
  function DesktopPath(dir: string, file: string): string
  {
    dir + "/" + file
  }

  /**
   The index of the first directory under which `file` exists, if any:
   the search stops at the first hit.
   */
  function FirstHit(dirs: seq<string>, file: string, pathExists: string -> bool): (r: Option<nat>)
    ensures r.Some? ==> r.value < |dirs| && pathExists(DesktopPath(dirs[r.value], file))
    ensures r.Some? ==> forall j :: 0 <= j < r.value ==> !pathExists(DesktopPath(dirs[j], file))
    ensures r.None? <==> forall j :: 0 <= j < |dirs| ==> !pathExists(DesktopPath(dirs[j], file))
    decreases |dirs|
  {
    if |dirs| == 0 then None
    else if pathExists(DesktopPath(dirs[0], file)) then Some(0)
    else
      match FirstHit(dirs[1..], file, pathExists)
      case None => None
      case Some(k) =>
        assert dirs[1..][k] == dirs[k + 1];
        Some(k + 1)
  }

  /** Availability of an identifier, dispatched on its kind. */
  function Available(app: string, host: Host): bool
  {
    if IsDesktopRef(app) then FirstHit(CandidateDirs(host.home), app, host.pathExists).Some?
    else host.onPath(app)
  }

  /**
   A desktop identifier consults only the directory search and a command
   identifier only the lookup helper: changing the other oracle changes nothing.
   */
  lemma AvailableConsultsOneOracle(app: string, h1: Host, h2: Host)
    requires IsDesktopRef(app) ==> h1.home == h2.home && h1.pathExists == h2.pathExists
    requires !IsDesktopRef(app) ==> h1.onPath == h2.onPath
    ensures Available(app, h1) == Available(app, h2)
  {
  }

  /**
   Does a desktop-entry file named `file` exist under one of `dirs`?
   Walks the directories in order and returns at the first hit; `probed` lists
   the paths whose existence was asked, in the order they were asked.
   */
  method IsDesktopFileAvailable(file: string, dirs: seq<string>, pathExists: string -> bool)
    returns (found: bool, probed: seq<string>)
    ensures found <==> exists i :: 0 <= i < |dirs| && pathExists(DesktopPath(dirs[i], file))
    ensures found == FirstHit(dirs, file, pathExists).Some?
    ensures |probed| == (if found then FirstHit(dirs, file, pathExists).value + 1 else |dirs|)
    ensures forall i :: 0 <= i < |probed| ==> probed[i] == DesktopPath(dirs[i], file)
  {
    probed := [];
    var i := 0;
    while i < |dirs|
      invariant 0 <= i <= |dirs|
      invariant |probed| == i
      invariant forall j :: 0 <= j < i ==> probed[j] == DesktopPath(dirs[j], file)
      invariant forall j :: 0 <= j < i ==> !pathExists(DesktopPath(dirs[j], file))
    {
      var path := DesktopPath(dirs[i], file);
      probed := probed + [path];
      if pathExists(path) {
        return true, probed;
      }
      i := i + 1;
    }
    return false, probed;
  }

  /**
   The availability check shared by editing and validation: the desktop-file
   search iff the identifier ends in `.desktop`, the command lookup otherwise.
   */
  method CheckAvailable(app: string, host: Host) returns (available: bool)
    ensures available == Available(app, host)
    ensures IsDesktopRef(app) ==>
      (available <==> exists i :: 0 <= i < 5 && host.pathExists(DesktopPath(CandidateDirs(host.home)[i], app)))
    ensures !IsDesktopRef(app) ==> (available <==> host.onPath(app))
  {
    if EndsWith(app, DesktopSuffix) {
      var probed;
      available, probed := IsDesktopFileAvailable(app, CandidateDirs(host.home), host.pathExists);
    } else {
      available := host.onPath(app);
    }
  }
}

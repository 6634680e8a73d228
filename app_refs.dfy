/**
 Application identifiers ("AppRefs") as they appear in an environment's list.
 An identifier ending in `.desktop` names a desktop-entry file; any other
 identifier names an executable looked up on the PATH.
 */
module AppRefs {

  datatype Option<+T> = None | Some(value: T)

  /** The suffix that marks a desktop-entry file name. */
  const DesktopSuffix: string := ".desktop"

  /** Rust's `str::ends_with`. */
  predicate EndsWith(s: string, suffix: string)
  {
    |suffix| <= |s| && s[|s| - |suffix|..] == suffix
  }

  /** Rust's `str::strip_suffix`: the prefix before `suffix`, if `s` ends with it. */
  function StripSuffix(s: string, suffix: string): (r: Option<string>)
    ensures r.Some? <==> EndsWith(s, suffix)
    ensures r.Some? ==> r.value + suffix == s
  {
    if EndsWith(s, suffix) then
      var prefix := s[..|s| - |suffix|];
      assert prefix + suffix == s;
      Some(prefix)
    else
      None
  }

  /** The structural kind test used by both availability dispatches. */
  predicate IsDesktopRef(app: string)
  {
    EndsWith(app, DesktopSuffix)
  }

  /**
   The pattern handed to the running-process probe: the identifier with one
   trailing `.desktop` removed, or the identifier itself.
   */
  function ProbeName(app: string): (name: string)
    ensures IsDesktopRef(app) ==> name + DesktopSuffix == app
    ensures !IsDesktopRef(app) ==> name == app
    ensures |name| <= |app|
  {
    match StripSuffix(app, DesktopSuffix)
    case Some(prefix) => prefix
    case None => app
  }

  /** Stripping inverts naming a desktop file after its executable. */
  lemma ProbeNameOfDesktopFile(name: string)
    ensures IsDesktopRef(name + DesktopSuffix)
    ensures ProbeName(name + DesktopSuffix) == name
  {
    var app := name + DesktopSuffix;
    assert app[|app| - |DesktopSuffix|..] == DesktopSuffix;
    assert app[..|app| - |DesktopSuffix|] == name;
  }
}

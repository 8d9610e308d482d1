/**
 * The string logic of Helpers/PathHelper.cs: the virtual-path step of `MapPath` and the
 * decision table of `IsPathWellFormed`. The platform calls they rely on
 * (`Path.GetFullPath`, `Path.GetInvalidPathChars`, `Path.IsPathFullyQualified`, and
 * `Uri.TryCreate` followed by `Uri.IsUnc`) are parameters.
 */
module Paths {
  import opened Wrappers

  // ---------------------------------------------------------------------------
  // MapPath

  /** Whether the two characters "~/" start at position `i` of `s`. */
  predicate TildeSlashAt(s: string, i: int)
  {
    0 <= i < |s| - 1 && s[i] == '~' && s[i + 1] == '/'
  }

  /** Whether `s` holds the two characters "~/" next to each other somewhere. */
  predicate ContainsTildeSlash(s: string)
  {
    exists i :: 0 <= i < |s| && TildeSlashAt(s, i)
  }

  /**
   * `s.Replace("~/", "")`: scan left to right and drop each "~/" found, the scan resuming
   * after the pair it dropped. Only whole pairs go, so the length drops by an even
   * number.
   */
  function RemoveTildeSlash(s: string): (r: string)
    ensures |r| <= |s| && (|s| - |r|) % 2 == 0
  {
    if |s| >= 2 && s[0] == '~' && s[1] == '/' then RemoveTildeSlash(s[2..])
    else if s == [] then []
    else [s[0]] + RemoveTildeSlash(s[1..])
  }

  /** `s.TrimStart('/')`: the suffix of `s` after its leading slashes. */
  function TrimStartSlash(s: string): (r: string)
    ensures r == [] || r[0] != '/'
    ensures |r| <= |s| && r == s[|s| - |r|..]
    ensures forall i :: 0 <= i < |s| - |r| ==> s[i] == '/'
  {
    if s != [] && s[0] == '/' then TrimStartSlash(s[1..]) else s
  }

  /**
   * The virtual-path step: a path starting with '~' loses every "~/" and then its leading slashes;
   * any other path is left as it is.
   */
  function ToRelative(path: string): (r: string)
    ensures (path == [] || path[0] != '~') ==> r == path
    ensures path != [] && path[0] == '~' ==> r == [] || r[0] != '/'
  {
    if path != [] && path[0] == '~' then TrimStartSlash(RemoveTildeSlash(path)) else path
  }

  /**
   * Resolve the path, after the virtual-path step, against the base path, or against the
   * application base path when none is given.
   */
  function MapPath(path: string, basePath: Option<string>, appBasePath: string,
                   getFullPath: (string, string) -> string): (r: string)
    ensures basePath.Some? ==> r == getFullPath(ToRelative(path), basePath.value)
    ensures basePath.None? ==> r == getFullPath(ToRelative(path), appBasePath)
  {
    getFullPath(ToRelative(path), basePath.GetOr(appBasePath))
  }

  /** A missing base path means the application base path. */
  lemma MapPathDefaultsToAppBase(path: string, appBasePath: string, getFullPath: (string, string) -> string)
    ensures MapPath(path, None, appBasePath, getFullPath) == MapPath(path, Some(appBasePath), appBasePath, getFullPath)
  {
  }

  /** A path that does not start with '~' reaches `Path.GetFullPath` unchanged. */
  lemma MapPathPassesPlainPath(path: string, basePath: Option<string>, appBasePath: string,
                               getFullPath: (string, string) -> string)
    requires path == [] || path[0] != '~'
    ensures MapPath(path, basePath, appBasePath, getFullPath) == getFullPath(path, basePath.GetOr(appBasePath))
  {
  }

  /** The replacement changes a string exactly when it holds "~/". */
  lemma {:induction false} RemoveTildeSlashUnchanged(s: string)
    ensures RemoveTildeSlash(s) == s <==> !ContainsTildeSlash(s)
  {
    if |s| >= 2 && s[0] == '~' && s[1] == '/' {
      assert TildeSlashAt(s, 0);
    } else if s != [] {
      RemoveTildeSlashUnchanged(s[1..]);
      if ContainsTildeSlash(s[1..]) {
        var i :| 0 <= i < |s[1..]| && TildeSlashAt(s[1..], i);
        assert s[1..][i] == s[i + 1] && s[1..][i + 1] == s[i + 2];
        assert TildeSlashAt(s, i + 1);
      }
      if ContainsTildeSlash(s) {
        var i :| 0 <= i < |s| && TildeSlashAt(s, i);
        assert i > 0;
        assert s[1..][i - 1] == s[i] && s[1..][i] == s[i + 1];
        assert TildeSlashAt(s[1..], i - 1);
      }
      assert RemoveTildeSlash(s) == [s[0]] + RemoveTildeSlash(s[1..]);
      if RemoveTildeSlash(s) == s {
        assert RemoveTildeSlash(s[1..]) == s[1..];
      }
    }
  }

  /**
   * Not only a leading "~/" is dropped: an occurrence after a stretch `a` that holds no
   * "~/" goes too (in "~~/bin" the pair after the first tilde), and the scan continues
   * after it.
   */
  lemma {:induction false} RemoveTildeSlashInterior(a: string, b: string)
    requires !ContainsTildeSlash(a)
    ensures RemoveTildeSlash(a + "~/" + b) == a + RemoveTildeSlash(b)
  {
    var s := a + "~/" + b;
    if a == [] {
      assert s == "~/" + b;
      assert s[2..] == b;
      assert RemoveTildeSlash(s) == RemoveTildeSlash(b);
    } else {
      assert !TildeSlashAt(a, 0);
      if |a| == 1 {
        assert s[0] == a[0] && s[1] == '~';
      } else {
        assert s[0] == a[0] && s[1] == a[1];
      }
      forall i | 0 <= i < |a[1..]| && TildeSlashAt(a[1..], i)
        ensures false
      {
        assert a[1..][i] == a[i + 1] && a[1..][i + 1] == a[i + 2];
        assert TildeSlashAt(a, i + 1);
      }
      assert s[1..] == a[1..] + "~/" + b;
      RemoveTildeSlashInterior(a[1..], b);
      assert RemoveTildeSlash(s) == [a[0]] + RemoveTildeSlash(s[1..]);
      assert a == [a[0]] + a[1..];
    }
  }

  /**
   * The scan does not look again at what it has already passed: in "~~//" dropping the
   * inner pair leaves a new "~/", which stays.
   */
  lemma RemoveTildeSlashSinglePass()
    ensures RemoveTildeSlash("~~//") == "~/"
    ensures ContainsTildeSlash(RemoveTildeSlash("~~//"))
  {
    assert "~~//"[1..] == "~//" && "~//"[2..] == "/" && "/"[1..] == [];
    assert RemoveTildeSlash("/") == "/";
    assert RemoveTildeSlash("~//") == "/";
    assert RemoveTildeSlash("~~//") == "~/";
    assert TildeSlashAt("~/", 0);
  }

  /** A virtual path without "~/", such as "~abc", keeps its tilde. */
  lemma VirtualPathWithoutSlashKept(path: string)
    requires path != [] && path[0] == '~'
    requires !ContainsTildeSlash(path)
    ensures ToRelative(path) == path
  {
    RemoveTildeSlashUnchanged(path);
  }

  // ---------------------------------------------------------------------------
  // IsPathWellFormed

  datatype PathKind = LocalAbsolute | UNC | FullyQualified | Relative | RelativeOrAbsolute

  /** The platform facts the check consults, as given data. */
  datatype PathPlatform = PathPlatform(
    invalidPathChars: set<char>,            // Path.GetInvalidPathChars()
    isPathFullyQualified: string -> bool,   // Path.IsPathFullyQualified
    isUnc: string -> bool)                  // Uri.TryCreate(path, Absolute) && uri.IsUnc

  /** The returned flag and the `out` message. */
  datatype Validation = Validation(isValid: bool, message: string)

  /** `path.IndexOfAny(invalid) >= 0`. */
  predicate HasInvalidChar(path: string, invalid: set<char>)
  {
    exists i :: 0 <= i < |path| && path[i] in invalid
  }

  /** What each kind demands, stated per kind (an independent reading of the checks). */
  predicate KindAccepts(kind: PathKind, fullyQualified: bool, unc: bool)
  {
    match kind
    case Relative => !fullyQualified
    case FullyQualified => fullyQualified
    case UNC => unc
    case LocalAbsolute => fullyQualified && !unc
    case RelativeOrAbsolute => true
  }

  /** The message that goes with a rejection for the kind. */
  function KindFailure(kind: PathKind): string
  {
    match kind
    case Relative => "Invalid relative path"
    case FullyQualified => "Invalid fully qualified path"
    case UNC => "Invalid UNC path"
    case LocalAbsolute => "Invalid local absolute path"
    case RelativeOrAbsolute => "Valid"
  }

  /**
   * A missing path or one with an invalid character is "Invalid path";
   * otherwise the kind decides, and a rejection carries the kind's own message. The
   * flag is true exactly when the message is "Valid".
   */
  function IsPathWellFormed(path: Option<string>, pathType: PathKind, platform: PathPlatform): (r: Validation)
    ensures r.isValid <==> r.message == "Valid"
    ensures path.None? || HasInvalidChar(path.value, platform.invalidPathChars)
            ==> r == Validation(false, "Invalid path")
    ensures path.Some? && !HasInvalidChar(path.value, platform.invalidPathChars) ==>
            && (r.isValid <==> KindAccepts(pathType, platform.isPathFullyQualified(path.value), platform.isUnc(path.value)))
            && (!r.isValid ==> r.message == KindFailure(pathType))
    ensures pathType == RelativeOrAbsolute && path.Some? && !HasInvalidChar(path.value, platform.invalidPathChars)
            ==> r == Validation(true, "Valid")
  {
    if path.None? || HasInvalidChar(path.value, platform.invalidPathChars) then
      Validation(false, "Invalid path")
    else if pathType != RelativeOrAbsolute then
      var p := path.value;
      var isFullyQualified := platform.isPathFullyQualified(p);
      var isUnc := platform.isUnc(p);
      if pathType == Relative && isFullyQualified then
        Validation(false, "Invalid relative path")
      else if pathType == FullyQualified && !isFullyQualified then
        Validation(false, "Invalid fully qualified path")
      else if pathType == UNC && !isUnc then
        Validation(false, "Invalid UNC path")
      else if pathType == LocalAbsolute && (!isFullyQualified || isUnc) then
        Validation(false, "Invalid local absolute path")
      else
        Validation(true, "Valid")
    else
      Validation(true, "Valid")
  }
}

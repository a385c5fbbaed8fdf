/** Slashes in paths, for both path conventions of the system. */
module Slashes {

  predicate Absolute(path: string) {
    path != "" && path[0] == '/'
  }

  /** The position of the last slash, or -1. */
  function LastSlash(s: string): (k: int)
    ensures -1 <= k < |s| && (k >= 0 ==> s[k] == '/')
    ensures forall i :: k < i < |s| ==> s[i] != '/'
    decreases |s|
  {
    if s == "" then -1 else if s[|s| - 1] == '/' then |s| - 1 else LastSlash(s[..|s| - 1])
  }
}

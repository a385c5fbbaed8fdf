/** The frontend's path helpers, and the algebra they obey. */
module Paths {
  import opened Entries
  import opened Slashes

  function Normalize(p: string): (r: string)
    ensures Absolute(r)
  {
    if p == "" || p[0] != '/' then "/" + p else p
  }

  /** Drops trailing slashes, but never the first character. */
  function Trim(p: string): (r: string)
    ensures r <= p && (|r| > 1 ==> r[|r| - 1] != '/')
    ensures Absolute(p) ==> Absolute(r)
    ensures forall i :: |r| <= i < |p| ==> p[i] == '/'
    decreases |p|
  {
    if |p| > 1 && p[|p| - 1] == '/' then Trim(p[..|p| - 1]) else p
  }

  predicate ValidName(name: string) {
    name != "" && name != "." && name != ".." && '/' !in name
  }

  /** What a listing can show: a name that is not empty and holds no slash. */
  predicate PlainName(name: string) {
    name != "" && '/' !in name
  }

  function Prefix(dir: string): string {
    if dir == "/" then "/" else dir + "/"
  }

  function Join(parent: string, name: string): string {
    Prefix(Trim(Normalize(parent))) + name
  }

  function DirectChild(dir: string, candidate: string): Option<string> {
    var prefix := Prefix(Trim(dir));
    if candidate == "" || candidate == dir then None
    else if !(prefix <= candidate) then None
    else
      var rest := candidate[|prefix|..];
      if rest == "" || '/' in rest then None else Some(rest)
  }

  method TrimTrailingSlash(p: string) returns (r: string)
    ensures r == Trim(p)
  {
    if p == "/" {
      return p;
    }
    var end := |p|;
    while end > 1 && p[end - 1] == '/'
      invariant 0 <= end <= |p| && Trim(p) == Trim(p[..end])
    {
      assert p[..end][..end - 1] == p[..end - 1];
      end := end - 1;
    }
    return p[..end];
  }

  // ---------------------------------------------------------------- path algebra

  lemma TrimTwice(p: string)
    ensures Trim(Trim(p)) == Trim(p)
  {
  }

  /** The direct-child test is the inverse of joining, in both directions, for every absolute directory however many
      slashes end it. */
  lemma ChildUndoesJoin(dir: string, candidate: string, name: string)
    requires Absolute(dir)
    ensures DirectChild(dir, candidate) == Some(name) <==> candidate == Join(dir, name) && PlainName(name)
  {
    var prefix := Prefix(Trim(dir));
    assert (prefix + name)[|prefix|..] == name;
    if candidate == prefix + name && PlainName(name) {
      assert candidate[|candidate| - 1] == name[|name| - 1];
    }
  }

  // ---------------------------------------------------------------- canonical paths

  function Name(p: string): string {
    p[LastSlash(p) + 1..]
  }

  function Parent(p: string): string {
    if LastSlash(p) <= 0 then "/" else p[..LastSlash(p)]
  }

  /** The root, or a valid name under a canonical directory. */
  ghost predicate Canonical(p: string)
    decreases |p|
  {
    p == "/" || (p == Join(Parent(p), Name(p)) && ValidName(Name(p)) && |Parent(p)| < |p| && Canonical(Parent(p)))
  }

  lemma {:induction false} CanonicalIsTrimmed(p: string)
    requires Canonical(p)
    ensures Absolute(p) && Normalize(p) == p && Trim(p) == p
  {
    if p != "/" {
      assert Name(p)[|Name(p)| - 1] == p[|p| - 1];
    }
  }

  lemma LastSlashIs(p: string, k: nat)
    requires k < |p| && p[k] == '/' && forall i :: k < i < |p| ==> p[i] != '/'
    ensures LastSlash(p) == k
  {
  }

  lemma {:induction false} JoinParts(dir: string, name: string)
    requires Absolute(dir) && Trim(dir) == dir && PlainName(name)
    ensures Parent(Join(dir, name)) == dir && Name(Join(dir, name)) == name
  {
    var prefix := Prefix(dir);
    var p := prefix + name;
    LastSlashIs(p, |prefix| - 1);
    assert p[|prefix|..] == name;
    if dir != "/" {
      assert p[..|dir|] == dir;
    }
  }

  /** Joining a valid name to a canonical directory gives a canonical path from which both can be read back. */
  lemma {:induction false} JoinCanonical(dir: string, name: string)
    requires Canonical(dir) && ValidName(name)
    ensures Canonical(Join(dir, name)) && Join(dir, name) != "/"
    ensures Parent(Join(dir, name)) == dir && Name(Join(dir, name)) == name
  {
    CanonicalIsTrimmed(dir);
    JoinParts(dir, name);
  }

  /** On canonical paths the listing test is exactly "my parent is this directory". */
  lemma {:induction false} ChildOfParent(dir: string, p: string)
    requires Canonical(dir) && Canonical(p) && p != "/"
    ensures DirectChild(dir, p) == if Parent(p) == dir then Some(Name(p)) else None
  {
    CanonicalIsTrimmed(dir);
    ChildUndoesJoin(dir, p, Name(p));
    if DirectChild(dir, p).Some? {
      var name := DirectChild(dir, p).value;
      ChildUndoesJoin(dir, p, name);
      JoinParts(dir, name);
    }
  }
}

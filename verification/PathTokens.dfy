/** Paths of the inode filesystem: what `strtok_r` and `strrchr` make of them. */
module PathTokens {
  import opened Slashes

  const MAX_PATH: nat := 256

  /** Paths are copied into a buffer of MAX_PATH bytes before they are taken apart. */
  function Clip(path: string): string {
    if |path| >= MAX_PATH then path[..MAX_PATH - 1] else path
  }

  /** The first slash at or after `from`, or the length. */
  function NextSlash(s: string, from: nat := 0): (k: nat)
    requires from <= |s|
    ensures from <= k <= |s|
    ensures forall j :: from <= j < k ==> s[j] != '/'
    ensures k < |s| ==> s[k] == '/'
    decreases |s| - from
  {
    if from == |s| || s[from] == '/' then from else NextSlash(s, from + 1)
  }

  /** The components of a path; repeated and trailing slashes count for nothing. */
  function Tokens(s: string): (ts: seq<string>)
    ensures forall t :: t in ts ==> ValidToken(t)
    decreases |s|
  {
    if s == "" then []
    else if s[0] == '/' then Tokens(s[1..])
    else [s[..NextSlash(s)]] + Tokens(s[NextSlash(s)..])
  }

  predicate ValidToken(t: string) {
    t != "" && '/' !in t
  }

  lemma {:induction false} TokensConcat(s: string, t: string)
    ensures Tokens(s + "/" + t) == Tokens(s) + Tokens(t)
    decreases |s|
  {
    var whole := s + "/" + t;
    if s == "" {
      assert whole[1..] == t;
    } else if s[0] == '/' {
      assert whole[1..] == s[1..] + "/" + t;
      TokensConcat(s[1..], t);
    } else {
      var k := NextSlash(s);
      SlashAt(whole, k);
      assert whole[..k] == s[..k];
      if k < |s| {
        assert whole[k..] == s[k..] + "/" + t;
        TokensConcat(s[k..], t);
      } else {
        assert s[..k] == s && s[k..] == "";
        assert whole[k..] == "/" + t && ("/" + t)[1..] == t;
      }
    }
  }

  lemma SlashAt(s: string, k: nat)
    requires k < |s| && s[k] == '/' && forall j :: 0 <= j < k ==> s[j] != '/'
    ensures NextSlash(s) == k
  {
    var i := NextSlash(s);
    assert !(i < k) && !(k < i);
  }

  lemma OneToken(t: string)
    requires '/' !in t
    ensures Tokens(t) == NameTokens(t)
  {
    if t != "" {
      var k := NextSlash(t);
      assert k == |t|;
      assert t[..k] == t && t[k..] == "";
    }
  }

  function NameTokens(name: string): seq<string> {
    if name == "" then [] else [name]
  }

  predicate EndsInSlash(s: string) {
    s != "" && s[|s| - 1] == '/'
  }

  /** Parent path and last name, as `split_path` cuts them at the last slash. */
  function Split(path: string): (r: (string, string))
    requires Absolute(path)
    ensures Absolute(r.0)
  {
    if path == "/" then ("/", "")
    else
      var temp := Clip(path);
      var k := LastSlash(temp);
      if k <= 0 then ("/", temp[k + 1..]) else (temp[..k], temp[k + 1..])
  }

  /** Splitting loses nothing: the parent's components and the name are the components of the path. The name is empty
      exactly for the root and for paths with a trailing slash. */
  lemma SplitLaw(path: string)
    requires Absolute(path)
    ensures |Split(path).0| < MAX_PATH
    ensures '/' !in Split(path).1
    ensures Tokens(Clip(path)) == Tokens(Split(path).0) + NameTokens(Split(path).1)
    ensures Split(path).1 == "" <==> EndsInSlash(Clip(path))
  {
    var temp := Clip(path);
    var k := LastSlash(temp);
    assert temp[0] == '/';
    assert k >= 0;
    var name := temp[k + 1..];
    assert temp == temp[..k] + "/" + name;
    TokensConcat(temp[..k], name);
    OneToken(name);
    if k == 0 {
      assert temp[..k] == "";
    }
    assert Tokens("/") == [];
    if path == "/" {
      assert temp == "/";
    }
  }
}

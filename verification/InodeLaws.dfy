/** What the name-changing operations do to paths: each changes the meaning of exactly the paths it names, keeps the
    table well-formed, and changes nothing at all when it reports an error. */
module InodeLaws {
  import opened Entries
  import opened Slashes
  import opened AppendFile
  import opened PathTokens
  import opened Inodes

  // ---------------------------------------------------------------- entries and children

  /** With distinct names, following a name is having an entry for it. */
  lemma ChildSame(fs: Fs, fs': Fs, i: nat, name: string)
    requires Inv(fs) && Inv(fs') && i < fs.n && i < fs'.n
    requires forall ino :: Dirent(name, ino) in fs.inodes[i].children <==> Dirent(name, ino) in fs'.inodes[i].children
    ensures Child(fs, i, name) == Child(fs', i, name)
  {
    ChildIs(fs, i, name);
    ChildIs(fs', i, name);
    var c := fs.inodes[i].children;
    var c' := fs'.inodes[i].children;
    var k := FindName(c, name);
    var l := FindName(c', name);
    assert forall j :: 0 <= j < |c'| ==> c'[j] == Dirent(c'[j].name, c'[j].ino);
    if k < |c| {
      assert Dirent(name, c[k].ino) in c' && c[k] == Dirent(name, c[k].ino);
      var m :| 0 <= m < |c'| && c'[m] == c[k];
      assert GoodSlot(fs', i);
      assert m == l;
    }
  }

  lemma ChildPresent(fs: Fs, i: nat, e: Dirent)
    requires Inv(fs) && i < fs.n && e in fs.inodes[i].children
    ensures Child(fs, i, e.name) == Some(e.ino - 1)
  {
    ChildIs(fs, i, e.name);
    var c := fs.inodes[i].children;
    var m :| 0 <= m < |c| && c[m] == e;
    assert GoodSlot(fs, i);
    assert m == FindName(c, e.name);
  }

  lemma WithoutIs(fs: Fs, i: nat, k: nat, e: Dirent)
    requires Inv(fs) && i < fs.n && k < |fs.inodes[i].children|
    ensures e in Without(fs.inodes[i].children, k) <==> e in fs.inodes[i].children && e != fs.inodes[i].children[k]
    ensures e.name == fs.inodes[i].children[k].name ==> e !in Without(fs.inodes[i].children, k)
  {
    assert GoodSlot(fs, i);
    var c := fs.inodes[i].children;
    if e in c && e != c[k] {
      var m :| 0 <= m < |c| && c[m] == e;
      assert e == if m < k then Without(c, k)[m] else Without(c, k)[m - 1];
    }
  }

  /** A path keeps its meaning if none of its steps changed. */
  lemma {:induction false} ResolveSame(fs: Fs, fs': Fs, q: seq<string>)
    requires Inv(fs) && Inv(fs')
    requires forall m :: 0 <= m < |q| && Resolve(fs, q[..m]).Some? ==>
               Resolve(fs, q[..m]).value < fs'.n
               && Child(fs', Resolve(fs, q[..m]).value, q[m]) == Child(fs, Resolve(fs, q[..m]).value, q[m])
    ensures Resolve(fs', q) == Resolve(fs, q)
    decreases |q|
  {
    if q == [] {
      RootIsFirst(fs, q);
      RootIsFirst(fs', q);
    } else {
      var front := q[..|q| - 1];
      forall m | 0 <= m < |front| && Resolve(fs, front[..m]).Some?
        ensures Resolve(fs, front[..m]).value < fs'.n
        ensures var i := Resolve(fs, front[..m]).value; Child(fs', i, front[m]) == Child(fs, i, front[m])
      {
        assert front[..m] == q[..m];
      }
      ResolveSame(fs, fs', front);
      assert q == front + [q[|q| - 1]];
      ResolveSnoc(fs, front, q[|q| - 1]);
      ResolveSnoc(fs', front, q[|q| - 1]);
    }
  }

  /** Below a path that leads nowhere nothing resolves. */
  lemma NothingBelow(fs: Fs, ts: seq<string>, q: seq<string>)
    requires Inv(fs) && Resolve(fs, ts).None? && ts <= q
    ensures Resolve(fs, q).None?
  {
    RootIsFirst(fs, ts);
    RootIsFirst(fs, q);
    WalkConcat(fs, 0, ts, q[|ts|..]);
    assert ts + q[|ts|..] == q;
  }

  /** The step of a path at an entry's place can only be that entry's own path. */
  lemma StepIsPath(fs: Fs, parent: seq<string>, name: string, q: seq<string>, m: nat)
    requires Inv(fs) && m < |q| && Resolve(fs, parent).Some? && Resolve(fs, q[..m]) == Resolve(fs, parent)
    requires q[m] == name
    ensures parent + [name] <= q
  {
    UniquePath(fs, q[..m], parent);
    assert q[..m + 1] == parent + [name];
  }

  /** The two tables have the same entries, except for the name `name` in slot d and in whatever slot p/name led to. */
  ghost predicate SameBut(fs: Fs, fs': Fs, d: nat, t: Option<nat>, name: string)
    requires Inv(fs) && Inv(fs')
  {
    forall i: nat, e: Dirent :: i < fs.n && t != Some(i) && (i != d || e.name != name) ==>
      i < fs'.n && (e in fs.inodes[i].children <==> e in fs'.inodes[i].children)
  }

  /** If only one entry changed, only the paths through that entry change. */
  lemma SameOff(fs: Fs, fs': Fs, d: nat, p: seq<string>, name: string, q: seq<string>)
    requires Inv(fs) && Inv(fs') && Resolve(fs, p) == Some(d) && d < fs'.n && !(p + [name] <= q)
    requires SameBut(fs, fs', d, Resolve(fs, p + [name]), name)
    ensures Resolve(fs', q) == Resolve(fs, q)
  {
    forall m | 0 <= m < |q| && Resolve(fs, q[..m]).Some?
      ensures Resolve(fs, q[..m]).value < fs'.n
      ensures Child(fs', Resolve(fs, q[..m]).value, q[m]) == Child(fs, Resolve(fs, q[..m]).value, q[m])
    {
      var v := Resolve(fs, q[..m]).value;
      assert q[..m] <= q;
      if Resolve(fs, p + [name]) == Some(v) {
        UniquePath(fs, q[..m], p + [name]);
      }
      if v == d && q[m] == name {
        StepIsPath(fs, p, name, q, m);
      }
      var probe := Dirent(q[m], 0);
      assert v < fs'.n;
      ChildSame(fs, fs', v, q[m]);
    }
    ResolveSame(fs, fs', q);
  }

  // ---------------------------------------------------------------- create and mkdir

  lemma MakeFails(fs: Fs, path: string, kind: Kind, backingOk: bool)
    requires Inv(fs) && Absolute(path) && !kind.Blank?
    ensures Make(fs, path, kind, backingOk).1 != OK ==> Make(fs, path, kind, backingOk).0 == fs
  {
    var dir := PathToInode(fs, Split(path).0);
    if fs.n < MAX_INODES && dir.Some? {
      EnterFails(fs, dir, Split(path).1, kind, backingOk);
    }
  }

  lemma {:induction false} EnterFails(fs: Fs, dir: Option<nat>, name: string, kind: Kind, backingOk: bool)
    requires Inv(fs) && !kind.Blank? && fs.n < MAX_INODES && (dir.Some? ==> dir.value < MAX_INODES)
    ensures Enter(fs, dir, name, kind, backingOk).1 != OK ==> Enter(fs, dir, name, kind, backingOk).0 == fs
  {
    InvFill(fs, kind);
    UndoFill(fs, kind);
  }

  /** Freeing the slot just filled gives the table back. */
  lemma UndoFill(fs: Fs, kind: Kind)
    requires fs.n < |fs.inodes| && fs.inodes[fs.n] == CLEARED
    ensures FreeInode(Fs(fs.inodes[fs.n := NewNode(fs.n, kind)], fs.n + 1), fs.n) == fs
  {
    assert fs.inodes[fs.n := NewNode(fs.n, kind)][fs.n := CLEARED] == fs.inodes;
  }

  /** The next inode number is entered nowhere. */
  lemma {:induction false} NextNotEntered(fs: Fs, i: nat, k: nat)
    requires Inv(fs) && i < MAX_INODES && k < |fs.inodes[i].children|
    ensures fs.inodes[i].children[k].ino != fs.n + 1
  {
    assert GoodSlot(fs, i) && GoodEntry(fs, fs.inodes[i].children[k]);
  }

  lemma {:induction false} EnterIs(fs: Fs, d: nat, name: string, kind: Kind, backingOk: bool)
    requires Inv(fs) && !kind.Blank? && fs.n < MAX_INODES && d < fs.n && ValidToken(name)
    requires Enter(fs, Some(d), name, kind, backingOk).1 == OK
    ensures var fs' := Enter(fs, Some(d), name, kind, backingOk).0;
            && Inv(fs') && fs'.n == fs.n + 1
            && fs'.inodes == fs.inodes[fs.n := NewNode(fs.n, kind)]
                                      [d := fs.inodes[d].(children := fs.inodes[d].children + [Dirent(name, fs.n + 1)])]
  {
    InvFill(fs, kind);
    var fs1 := Fs(fs.inodes[fs.n := NewNode(fs.n, kind)], fs.n + 1);
    forall i, k | 0 <= i < MAX_INODES && 0 <= k < |fs1.inodes[i].children|
      ensures fs1.inodes[i].children[k].ino != fs.n + 1
    {
      NextNotEntered(fs, i, k);
    }
    InvAppend(fs1, d, Dirent(name, fs.n + 1));
  }

  /** A path that does not resolve although its parent does has a name. */
  lemma {:induction false} NewPathHasName(fs: Fs, path: string)
    requires Inv(fs) && Absolute(path) && PathToInode(fs, path).None? && PathToInode(fs, Split(path).0).Some?
    ensures ValidToken(Split(path).1) && PathToInode(fs, Split(path).0) == Resolve(fs, Tokens(Split(path).0))
  {
    SplitLaw(path);
    var (parent, name) := Split(path);
    assert Clip(parent) == parent;
    assert name == "" ==> Tokens(parent) == Tokens(Clip(path));
  }

  /** What a successful create or mkdir has done: one live slot, one entry in the parent. */
  lemma {:induction false} MakeIs(fs: Fs, path: string, kind: Kind, backingOk: bool) returns (d: nat)
    requires Inv(fs) && Absolute(path) && !kind.Blank? && Make(fs, path, kind, backingOk).1 == OK
    ensures var (parent, name) := Split(path); var fs' := Make(fs, path, kind, backingOk).0;
            && d < fs.n && Resolve(fs, Tokens(parent)) == Some(d) && ValidToken(name)
            && Inv(fs') && fs'.n == fs.n + 1
            && fs'.inodes == fs.inodes[fs.n := NewNode(fs.n, kind)]
                                      [d := fs.inodes[d].(children := fs.inodes[d].children + [Dirent(name, fs.n + 1)])]
  {
    NewPathHasName(fs, path);
    d := PathToInode(fs, Split(path).0).value;
    EnterIs(fs, d, Split(path).1, kind, backingOk);
  }

  /** Create and mkdir add exactly one path, to a new inode of the right kind. */
  lemma MakeAddsOnePath(fs: Fs, path: string, kind: Kind, backingOk: bool, q: seq<string>)
    requires Inv(fs) && Absolute(path) && !kind.Blank? && Make(fs, path, kind, backingOk).1 == OK
    ensures var fs' := Make(fs, path, kind, backingOk).0; var t := Tokens(Clip(path));
            && Inv(fs') && Resolve(fs, t).None?
            && Resolve(fs', q) == (if q == t then Some(fs.n) else Resolve(fs, q))
            && fs'.inodes[fs.n] == NewNode(fs.n, kind)
  {
    var (parent, name) := Split(path);
    SplitLaw(path);
    var d := MakeIs(fs, path, kind, backingOk);
    var fs' := Make(fs, path, kind, backingOk).0;
    OneNewPath(fs, fs', d, Tokens(parent), name, fs.n, q);
  }

  /** Entering a new childless inode under a name adds the path to it and nothing else. */
  lemma OneNewPath(fs: Fs, fs': Fs, d: nat, p: seq<string>, name: string, i: nat, q: seq<string>)
    requires Inv(fs) && Inv(fs') && Resolve(fs, p) == Some(d) && d < fs'.n && Resolve(fs, p + [name]).None?
    requires SameBut(fs, fs', d, None, name)
    requires Dirent(name, i + 1) in fs'.inodes[d].children && i < fs'.n && fs'.inodes[i].children == []
    ensures Resolve(fs', q) == if q == p + [name] then Some(i) else Resolve(fs, q)
  {
    var t := p + [name];
    if t <= q {
      SameOff(fs, fs', d, p, name, p);
      ResolveSnoc(fs', p, name);
      ChildPresent(fs', d, Dirent(name, i + 1));
      NothingBelow(fs, t, q);
      if q != t {
        ResolveSnoc(fs', t, q[|t|]);
        ChildIs(fs', i, q[|t|]);
        NothingBelow(fs', t + [q[|t|]], q);
      }
    } else {
      SameOff(fs, fs', d, p, name, q);
    }
  }

  // ---------------------------------------------------------------- rmdir and unlink

  /** Dropping the entry of a path and clearing its inode removes that path and everything below it, nothing else. */
  lemma DropLaw(fs: Fs, ts: seq<string>, n: nat) returns (d: nat, k: nat)
    requires Inv(fs) && ts != [] && Resolve(fs, ts).Some?
    requires n == fs.n || (n == fs.n - 1 && Resolve(fs, ts).value == n)
    ensures d < fs.n && Resolve(fs, ts[..|ts| - 1]) == Some(d) && fs.inodes[d].kind.Directory?
    ensures k == FindName(fs.inodes[d].children, ts[|ts| - 1]) < |fs.inodes[d].children|
    ensures fs.inodes[d].children[k] == Dirent(ts[|ts| - 1], Resolve(fs, ts).value + 1)
    ensures d != Resolve(fs, ts).value
    ensures var fs' := Fs(DropChild(fs, d, k).inodes[Resolve(fs, ts).value := CLEARED], n);
            Inv(fs') && forall q :: Resolve(fs', q) == if ts <= q then None else Resolve(fs, q)
  {
    d, k := ResolveLast(fs, ts);
    var t := Resolve(fs, ts).value;
    var p, name := ts[..|ts| - 1], ts[|ts| - 1];
    assert ts == p + [name];
    if d == t {
      UniquePath(fs, p, ts);
    }
    InvDrop(fs, d, k);
    DropForgets(fs, d, k);
    InvClear(DropChild(fs, d, k), t, n);
    var fs' := Fs(DropChild(fs, d, k).inodes[t := CLEARED], n);
    forall q ensures Resolve(fs', q) == if ts <= q then None else Resolve(fs, q) {
      DropsOnePath(fs, fs', d, k, p, name, q);
    }
  }

  lemma DropsOnePath(fs: Fs, fs': Fs, d: nat, k: nat, p: seq<string>, name: string, q: seq<string>)
    requires Inv(fs) && Inv(fs') && Resolve(fs, p) == Some(d) && d < fs'.n
    requires k < |fs.inodes[d].children| && fs.inodes[d].children[k].name == name
    requires fs'.inodes[d] == fs.inodes[d].(children := Without(fs.inodes[d].children, k))
    requires forall i :: 0 <= i < fs.n && i != d && Resolve(fs, p + [name]) != Some(i) ==>
               i < fs'.n && fs'.inodes[i] == fs.inodes[i]
    requires Resolve(fs, p + [name]) != Some(d)
    ensures Resolve(fs', q) == if p + [name] <= q then None else Resolve(fs, q)
  {
    forall e: Dirent ensures e in fs'.inodes[d].children <==> e in fs.inodes[d].children && e.name != name {
      WithoutIs(fs, d, k, e);
      assert GoodSlot(fs, d);
    }
    assert SameBut(fs, fs', d, Resolve(fs, p + [name]), name);
    if p + [name] <= q {
      SameOff(fs, fs', d, p, name, p);
      ResolveSnoc(fs', p, name);
      ChildIs(fs', d, name);
      var c := fs'.inodes[d].children;
      assert forall j :: 0 <= j < |c| ==> c[j] in c && c[j].name != name;
      NothingBelow(fs', p + [name], q);
    } else {
      SameOff(fs, fs', d, p, name, q);
    }
  }

  /** A path with a trailing slash is its own parent there, and no entry has an empty name. */
  lemma RmdirSlash(fs: Fs, path: string)
    requires Inv(fs) && Absolute(path) && Split(path).1 == ""
    ensures Rmdir(fs, path).0 == fs && Rmdir(fs, path).1 != OK
  {
    SplitLaw(path);
    var parent := Split(path).0;
    assert Clip(parent) == parent;
    var target := PathToInode(fs, path);
    assert Tokens(parent) + [] == Tokens(parent);
    assert PathToInode(fs, parent) == target;
    if target.Some? {
      EmptyName(fs, target.value);
    }
  }

  ghost predicate EmptyDirAt(fs: Fs, ts: seq<string>)
    requires Inv(fs)
  {
    var r := Resolve(fs, ts);
    r.Some? && fs.inodes[r.value].kind.Directory? && fs.inodes[r.value].children == []
  }

  lemma RmdirNamed(fs: Fs, path: string)
    requires Inv(fs) && Absolute(path) && Split(path).1 != ""
    ensures var (fs', err) := Rmdir(fs, path); var ts := Tokens(Clip(path));
            && Inv(fs') && (err != OK ==> fs' == fs) && (err == OK <==> EmptyDirAt(fs, ts))
            && (err == OK ==> forall q :: Resolve(fs', q) == if ts <= q then None else Resolve(fs, q))
  {
    var ts := Tokens(Clip(path));
    SplitLaw(path);
    var (parent, name) := Split(path);
    assert Clip(parent) == parent;
    if EmptyDirAt(fs, ts) {
      var d, k := DropLaw(fs, ts, fs.n);
      assert ts[..|ts| - 1] == Tokens(parent) && ts[|ts| - 1] == name;
    }
  }

  /** Rmdir reports an error and changes nothing, or removes an empty directory's path and no other; it succeeds
      exactly for paths of empty directories without a trailing slash. */
  lemma RmdirLaw(fs: Fs, path: string)
    requires Inv(fs) && Absolute(path)
    ensures var (fs', err) := Rmdir(fs, path); var ts := Tokens(Clip(path));
            && Inv(fs') && (err != OK ==> fs' == fs)
            && (err == OK <==> !EndsInSlash(Clip(path)) && EmptyDirAt(fs, ts))
            && (err == OK ==> forall q :: Resolve(fs', q) == if ts <= q then None else Resolve(fs, q))
  {
    SplitLaw(path);
    if Split(path).1 == "" {
      RmdirSlash(fs, path);
    } else {
      RmdirNamed(fs, path);
    }
  }

  lemma EmptyName(fs: Fs, i: nat)
    requires Inv(fs) && i < fs.n
    ensures FindName(fs.inodes[i].children, "") == |fs.inodes[i].children|
    ensures forall ino :: FindEntry(fs.inodes[i].children, Dirent("", ino)) == |fs.inodes[i].children|
  {
    assert GoodSlot(fs, i);
    var c := fs.inodes[i].children;
    assert forall k :: 0 <= k < |c| ==> GoodEntry(fs, c[k]) && c[k].name != "";
  }

  /** With distinct names the first entry of a name is the only candidate for an exact match. */
  lemma FindAgree(fs: Fs, i: nat, e: Dirent)
    requires Inv(fs) && i < fs.n && e in fs.inodes[i].children
    ensures FindEntry(fs.inodes[i].children, e) == FindName(fs.inodes[i].children, e.name) < |fs.inodes[i].children|
  {
    assert GoodSlot(fs, i);
    var c := fs.inodes[i].children;
    var m :| 0 <= m < |c| && c[m] == e;
    assert FindName(c, e.name) == m && FindEntry(c, e) == m;
  }

  lemma UnlinkSlash(fs: Fs, path: string)
    requires Inv(fs) && Absolute(path) && Split(path).1 == ""
    ensures Unlink(fs, path).0 == fs && Unlink(fs, path).1 != OK
  {
    SplitLaw(path);
    var parent := Split(path).0;
    assert Clip(parent) == parent && Tokens(parent) + [] == Tokens(parent);
    var target := PathToInode(fs, path);
    assert PathToInode(fs, parent) == target;
    if target.Some? {
      EmptyName(fs, target.value);
    }
  }

  lemma UnlinkIs(fs: Fs, path: string, d: nat, k: nat)
    requires Inv(fs) && Absolute(path) && Split(path).1 != ""
    requires PathToInode(fs, path).Some? && PathToInode(fs, Split(path).0) == Some(d) && fs.inodes[d].kind.Directory?
    requires k < |fs.inodes[d].children|
    requires fs.inodes[d].children[k] == Dirent(Split(path).1, fs.inodes[PathToInode(fs, path).value].ino)
    ensures Unlink(fs, path) == (FreeInode(DropChild(fs, d, k), PathToInode(fs, path).value), OK)
  {
    FindAgree(fs, d, fs.inodes[d].children[k]);
    assert GoodSlot(fs, d);
  }

  lemma UnlinkNamed(fs: Fs, path: string)
    requires Inv(fs) && Absolute(path) && Split(path).1 != ""
    ensures var (fs', err) := Unlink(fs, path); var ts := Tokens(Clip(path));
            && Inv(fs') && (err != OK ==> fs' == fs) && (err == OK <==> Resolve(fs, ts).Some?)
            && (err == OK ==> forall q :: Resolve(fs', q) == if ts <= q then None else Resolve(fs, q))
  {
    var ts := Tokens(Clip(path));
    SplitLaw(path);
    var parent := Split(path).0;
    assert Clip(parent) == parent;
    if Resolve(fs, ts).Some? {
      var t := Resolve(fs, ts).value;
      var d, k := DropLaw(fs, ts, if t == fs.n - 1 then fs.n - 1 else fs.n);
      assert ts[..|ts| - 1] == Tokens(parent) && ts[|ts| - 1] == Split(path).1;
      ResolvesToLive(fs, ts);
      UnlinkIs(fs, path, d, k);
    }
  }

  /** Unlink removes the path, whatever it names, and everything below it; or it fails and changes nothing. */
  lemma UnlinkLaw(fs: Fs, path: string)
    requires Inv(fs) && Absolute(path)
    ensures var (fs', err) := Unlink(fs, path); var ts := Tokens(Clip(path));
            && Inv(fs') && (err != OK ==> fs' == fs)
            && (err == OK <==> !EndsInSlash(Clip(path)) && Resolve(fs, ts).Some?)
            && (err == OK ==> forall q :: Resolve(fs', q) == if ts <= q then None else Resolve(fs, q))
  {
    SplitLaw(path);
    if Split(path).1 == "" {
      UnlinkSlash(fs, path);
    } else {
      UnlinkNamed(fs, path);
    }
  }
}

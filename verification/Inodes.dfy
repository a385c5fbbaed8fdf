/** The inode table with its directories, path resolution, and the five operations that change names, as functions
    on the table; what each of them keeps, and that a failing call changes nothing. */
module Inodes {
  import opened Entries
  import opened Slashes
  import opened AppendFile
  import opened PathTokens

  const MAX_INODES: nat := 1024
  const MAX_CHILDREN: nat := 256
  const DIRECTORY_SIZE: nat := 4096

  datatype Dirent = Dirent(name: string, ino: nat)

  datatype Kind = Blank | Regular | Directory

  /** `data` is the size and the content of the backing file; every slot but the root's has one, directories too. A
      cleared slot is all zero. */
  datatype Inode = Inode(ino: nat, kind: Kind, children: seq<Dirent>, data: FileData)

  const CLEARED := Inode(0, Blank, [], EMPTY)

  datatype Fs = Fs(inodes: seq<Inode>, n: nat)

  datatype Err = OK | ENOENT | EEXIST | ENOTDIR | ENOTEMPTY | EBUSY | ENOSPC | ENOMEM | EPERM | EIO

  /** A new inode: a file starts empty, a directory with a nominal size and without a backing file. */
  function NewNode(i: nat, kind: Kind): Inode {
    Inode(i + 1, kind, [], if kind.Directory? then FileData(DIRECTORY_SIZE, []) else EMPTY)
  }

  /** A new filesystem: the root directory in slot 0. */
  function NewFs(): Fs {
    Fs(seq(MAX_INODES, i => if i == 0 then NewNode(0, Directory) else CLEARED), 1)
  }

  // ---------------------------------------------------------------- lookup

  /** The first slot below n that holds this inode number. */
  function Lookup(fs: Fs, ino: nat, from: nat := 0): (r: Option<nat>)
    requires fs.n <= |fs.inodes|
    ensures r.Some? ==> from <= r.value < fs.n && fs.inodes[r.value].ino == ino
    ensures r.None? ==> forall i :: from <= i < fs.n ==> fs.inodes[i].ino != ino
    decreases fs.n - from
  {
    if from >= fs.n then None
    else if fs.inodes[from].ino == ino then Some(from)
    else Lookup(fs, ino, from + 1)
  }

  /** The first entry with this name, or the number of entries. */
  function FindName(children: seq<Dirent>, name: string, from: nat := 0): (k: nat)
    requires from <= |children|
    ensures from <= k <= |children|
    ensures k < |children| ==> children[k].name == name
    ensures forall j :: from <= j < k ==> children[j].name != name
    decreases |children| - from
  {
    if from == |children| || children[from].name == name then from else FindName(children, name, from + 1)
  }

  function FindEntry(children: seq<Dirent>, e: Dirent, from: nat := 0): (k: nat)
    requires from <= |children|
    ensures from <= k <= |children|
    ensures k < |children| ==> children[k] == e
    ensures forall j :: from <= j < k ==> children[j] != e
    decreases |children| - from
  {
    if from == |children| || children[from] == e then from else FindEntry(children, e, from + 1)
  }

  /** One component of a path. */
  function Child(fs: Fs, i: nat, name: string): (r: Option<nat>)
    requires fs.n <= |fs.inodes| && i < |fs.inodes|
    ensures r.Some? ==> r.value < fs.n
  {
    var node := fs.inodes[i];
    var k := FindName(node.children, name);
    if !node.kind.Directory? || k == |node.children| then None else Lookup(fs, node.children[k].ino)
  }

  function Walk(fs: Fs, i: nat, tokens: seq<string>): (r: Option<nat>)
    requires fs.n <= |fs.inodes| && i < fs.n
    ensures r.Some? ==> r.value < fs.n
    decreases |tokens|
  {
    if tokens == [] then Some(i)
    else
      var next := Child(fs, i, tokens[0]);
      if next.None? then None else Walk(fs, next.value, tokens[1..])
  }

  function Resolve(fs: Fs, tokens: seq<string>): (r: Option<nat>)
    requires fs.n <= |fs.inodes|
    ensures r.Some? ==> r.value < fs.n
  {
    var root := Lookup(fs, 1);
    if root.None? then None else Walk(fs, root.value, tokens)
  }

  function PathToInode(fs: Fs, path: string): (r: Option<nat>)
    requires fs.n <= |fs.inodes| && Absolute(path)
    ensures r.Some? ==> r.value < fs.n
  {
    Resolve(fs, Tokens(Clip(path)))
  }

  // ---------------------------------------------------------------- operations

  function AddEntry(fs: Fs, dir: Option<nat>, name: string, ino: nat): (Fs, Err)
    requires dir.Some? ==> dir.value < |fs.inodes|
  {
    if dir.None? || !fs.inodes[dir.value].kind.Directory? then (fs, ENOTDIR)
    else
      var d := fs.inodes[dir.value];
      if |d.children| >= MAX_CHILDREN then (fs, ENOSPC)
      else if FindName(d.children, name) < |d.children| then (fs, EEXIST)
      else (fs.(inodes := fs.inodes[dir.value := d.(children := d.children + [Dirent(name, ino)])]), OK)
  }

  function Without(children: seq<Dirent>, k: nat): seq<Dirent>
    requires k < |children|
  {
    children[..k] + children[k + 1..]
  }

  function DropChild(fs: Fs, i: nat, k: nat): Fs
    requires i < |fs.inodes| && k < |fs.inodes[i].children|
  {
    fs.(inodes := fs.inodes[i := fs.inodes[i].(children := Without(fs.inodes[i].children, k))])
  }

  function RemoveEntry(fs: Fs, dir: Option<nat>, name: string, ino: nat): (Fs, Err)
    requires dir.Some? ==> dir.value < |fs.inodes|
  {
    if dir.None? || !fs.inodes[dir.value].kind.Directory? then (fs, ENOTDIR)
    else
      var k := FindEntry(fs.inodes[dir.value].children, Dirent(name, ino));
      if k == |fs.inodes[dir.value].children| then (fs, ENOENT) else (DropChild(fs, dir.value, k), OK)
  }

  /** Freeing the newest slot gives it back; any other becomes a hole. */
  function FreeInode(fs: Fs, i: nat): Fs
    requires i < |fs.inodes| && fs.n > 0
  {
    Fs(fs.inodes[i := CLEARED], if i == fs.n - 1 then fs.n - 1 else fs.n)
  }

  /** Takes the next slot and enters it in the directory; gives the slot back if that fails. */
  function Enter(fs: Fs, dir: Option<nat>, name: string, kind: Kind, backingOk: bool): (Fs, Err)
    requires fs.n < |fs.inodes| && (dir.Some? ==> dir.value < |fs.inodes|)
  {
    var fs1 := Fs(fs.inodes[fs.n := NewNode(fs.n, kind)], fs.n + 1);
    if kind.Regular? && !backingOk then (FreeInode(fs1, fs.n), EIO)
    else
      var (fs2, err) := AddEntry(fs1, dir, name, fs.n + 1);
      if err != OK then (FreeInode(fs2, fs.n), err) else (fs2, OK)
  }

  /** `fused_create` and `fused_mkdir`; a directory needs no backing file. */
  function Make(fs: Fs, path: string, kind: Kind, backingOk: bool): (Fs, Err)
    requires 0 < fs.n <= |fs.inodes| == MAX_INODES && Absolute(path)
  {
    if PathToInode(fs, path).Some? then (fs, EEXIST)
    else
      var (parent, name) := Split(path);
      var dir := PathToInode(fs, parent);
      if dir.None? || !fs.inodes[dir.value].kind.Directory? then (fs, ENOENT)
      else if fs.n >= MAX_INODES then (fs, ENOMEM)
      else
        Enter(fs, dir, name, kind, backingOk)
  }

  function Rmdir(fs: Fs, path: string): (Fs, Err)
    requires 0 < fs.n <= |fs.inodes| == MAX_INODES && Absolute(path)
  {
    var target := PathToInode(fs, path);
    if path == "/" then (fs, EBUSY)
    else if target.None? then (fs, ENOENT)
    else if !fs.inodes[target.value].kind.Directory? then (fs, ENOTDIR)
    else if |fs.inodes[target.value].children| > 0 then (fs, ENOTEMPTY)
    else
      var (parent, name) := Split(path);
      var dir := PathToInode(fs, parent);
      if dir.None? then (fs, ENOENT)
      else
        var k := FindName(fs.inodes[dir.value].children, name);
        if k == |fs.inodes[dir.value].children| then (fs, ENOENT)
        else
          var fs1 := DropChild(fs, dir.value, k);
          (fs1.(inodes := fs1.inodes[target.value := CLEARED]), OK)
  }

  function Unlink(fs: Fs, path: string): (Fs, Err)
    requires 0 < fs.n <= |fs.inodes| == MAX_INODES && Absolute(path)
  {
    var target := PathToInode(fs, path);
    if target.None? then (fs, ENOENT)
    else
      var (parent, name) := Split(path);
      var dir := PathToInode(fs, parent);
      if dir.None? || !fs.inodes[dir.value].kind.Directory? then (fs, ENOENT)
      else
        var (fs1, err) := RemoveEntry(fs, dir, name, fs.inodes[target.value].ino);
        if err != OK then (fs1, err) else (FreeInode(fs1, target.value), OK)
  }

  function Rename(fs: Fs, from: string, to: string): (Fs, Err)
    requires 0 < fs.n <= |fs.inodes| == MAX_INODES && Absolute(from) && Absolute(to)
  {
    var target := PathToInode(fs, from);
    if from == to then (fs, OK)
    else if target.None? then (fs, ENOENT)
    else if PathToInode(fs, to).Some? then (fs, EEXIST)
    else
      Relink(fs, PathToInode(fs, Split(to).0), Split(to).1, PathToInode(fs, Split(from).0), Split(from).1,
             fs.inodes[target.value].ino)
  }

  /** Enters the inode under its new name, then removes the old entry, and takes the new one back if that fails. */
  function Relink(fs: Fs, dest: Option<nat>, newName: string, src: Option<nat>, oldName: string, ino: nat): (Fs, Err)
    requires dest.Some? ==> dest.value < |fs.inodes|
    requires src.Some? ==> src.value < |fs.inodes|
  {
    var (fs1, err) := AddEntry(fs, dest, newName, ino);
    if err != OK then (fs1, err)
    else
      var (fs2, err2) := RemoveEntry(fs1, src, oldName, ino);
      if err2 != OK then (RemoveEntry(fs2, dest, newName, ino).0, err2) else (fs2, OK)
  }

  // ---------------------------------------------------------------- the invariant

  ghost predicate GoodEntry(fs: Fs, e: Dirent)
    requires fs.n <= |fs.inodes|
  {
    ValidToken(e.name) && 2 <= e.ino <= fs.n && fs.inodes[e.ino - 1].ino == e.ino
  }

  ghost predicate GoodSlot(fs: Fs, i: nat)
    requires fs.n <= |fs.inodes| && i < |fs.inodes|
  {
    var node := fs.inodes[i];
    && (node.ino == 0 ==> node == CLEARED)
    && (node.ino != 0 ==> node.ino == i + 1 && i < fs.n && !node.kind.Blank?)
    && (!node.kind.Directory? ==> node.children == [])
    && |node.children| <= MAX_CHILDREN
    && (forall k :: 0 <= k < |node.children| ==> GoodEntry(fs, node.children[k]))
    && (forall k, l :: 0 <= k < l < |node.children| ==> node.children[k].name != node.children[l].name)
  }

  /** No inode is entered twice, in one directory or in two. */
  ghost predicate OneEntry(fs: Fs) {
    forall i, j, k, l ::
      0 <= i < |fs.inodes| && 0 <= j < |fs.inodes|
      && 0 <= k < |fs.inodes[i].children| && 0 <= l < |fs.inodes[j].children|
      && fs.inodes[i].children[k].ino == fs.inodes[j].children[l].ino
      ==> i == j && k == l
  }

  ghost predicate Inv(fs: Fs) {
    && |fs.inodes| == MAX_INODES && 1 <= fs.n <= MAX_INODES
    && fs.inodes[0].ino == 1 && fs.inodes[0].kind.Directory?
    && (forall i :: 0 <= i < MAX_INODES ==> GoodSlot(fs, i))
    && OneEntry(fs)
  }

  lemma InvEmpty()
    ensures Inv(NewFs())
  {
  }

  /** Inode numbers name slots. */
  lemma LookupLive(fs: Fs, ino: nat)
    requires Inv(fs) && ino > 0
    ensures Lookup(fs, ino) == if ino <= fs.n && fs.inodes[ino - 1].ino == ino then Some(ino - 1) else None
  {
    var r := Lookup(fs, ino);
    assert r.Some? ==> GoodSlot(fs, r.value);
  }

  lemma RootIsFirst(fs: Fs, tokens: seq<string>)
    requires Inv(fs)
    ensures Resolve(fs, tokens) == Walk(fs, 0, tokens)
  {
    LookupLive(fs, 1);
  }

  /** Walking is compositional, so a path can also be read from its end. */
  lemma {:induction false} WalkConcat(fs: Fs, i: nat, ts: seq<string>, us: seq<string>)
    requires fs.n <= |fs.inodes| && i < fs.n
    ensures Walk(fs, i, ts + us) ==
              if Walk(fs, i, ts).None? then None else Walk(fs, Walk(fs, i, ts).value, us)
    decreases |ts|
  {
    if ts == [] {
      assert ts + us == us;
    } else {
      assert (ts + us)[1..] == ts[1..] + us;
      var next := Child(fs, i, ts[0]);
      if next.Some? {
        WalkConcat(fs, next.value, ts[1..], us);
      }
    }
  }

  lemma ResolveSnoc(fs: Fs, ts: seq<string>, name: string)
    requires Inv(fs)
    ensures Resolve(fs, ts + [name]) ==
              if Resolve(fs, ts).None? then None else Child(fs, Resolve(fs, ts).value, name)
  {
    RootIsFirst(fs, ts);
    RootIsFirst(fs, ts + [name]);
    WalkConcat(fs, 0, ts, [name]);
    if Walk(fs, 0, ts).Some? {
      var i := Walk(fs, 0, ts).value;
      var next := Child(fs, i, [name][0]);
      assert Walk(fs, i, [name]) == if next.None? then None else Walk(fs, next.value, [name][1..]);
    }
  }

  /** Following an entry: the child is the slot its inode number names, it is live and it is not the root. */
  lemma ChildIs(fs: Fs, i: nat, name: string)
    requires Inv(fs) && i < fs.n
    ensures var node := fs.inodes[i]; var k := FindName(node.children, name);
            && (Child(fs, i, name).None? <==> k == |node.children|)
            && (k < |node.children| ==>
                  node.kind.Directory? && Child(fs, i, name) == Some(node.children[k].ino - 1)
                  && 0 < node.children[k].ino - 1 < fs.n
                  && fs.inodes[node.children[k].ino - 1].ino == node.children[k].ino)
  {
    assert GoodSlot(fs, i);
    var node := fs.inodes[i];
    var k := FindName(node.children, name);
    if k < |node.children| {
      assert GoodEntry(fs, node.children[k]);
      LookupLive(fs, node.children[k].ino);
    }
  }

  /** A path with a last component ends with an entry of its parent. */
  lemma ResolveLast(fs: Fs, ts: seq<string>) returns (d: nat, k: nat)
    requires Inv(fs) && ts != [] && Resolve(fs, ts).Some?
    ensures Resolve(fs, ts[..|ts| - 1]) == Some(d) && d < fs.n && fs.inodes[d].kind.Directory?
    ensures k == FindName(fs.inodes[d].children, ts[|ts| - 1]) < |fs.inodes[d].children|
    ensures fs.inodes[d].children[k].ino == Resolve(fs, ts).value + 1 && Resolve(fs, ts).value > 0
  {
    var front := ts[..|ts| - 1];
    assert ts == front + [ts[|ts| - 1]];
    ResolveSnoc(fs, front, ts[|ts| - 1]);
    d := Resolve(fs, front).value;
    ChildIs(fs, d, ts[|ts| - 1]);
    k := FindName(fs.inodes[d].children, ts[|ts| - 1]);
  }

  lemma ResolvesToLive(fs: Fs, ts: seq<string>)
    requires Inv(fs) && Resolve(fs, ts).Some?
    ensures fs.inodes[Resolve(fs, ts).value].ino == Resolve(fs, ts).value + 1
  {
    if ts == [] {
      RootIsFirst(fs, ts);
    } else {
      var d, k := ResolveLast(fs, ts);
      assert GoodSlot(fs, d) && GoodEntry(fs, fs.inodes[d].children[k]);
    }
  }

  /** Every inode has at most one path. */
  lemma {:induction false} UniquePath(fs: Fs, ts: seq<string>, us: seq<string>)
    requires Inv(fs) && Resolve(fs, ts).Some? && Resolve(fs, ts) == Resolve(fs, us)
    ensures ts == us
    decreases |ts|
  {
    if ts == [] || us == [] {
      RootIsFirst(fs, []);
      if ts != [] {
        var d, k := ResolveLast(fs, ts);
      }
      if us != [] {
        var d, k := ResolveLast(fs, us);
      }
    } else {
      var d, k := ResolveLast(fs, ts);
      var e, l := ResolveLast(fs, us);
      assert d == e && k == l;
      UniquePath(fs, ts[..|ts| - 1], us[..|us| - 1]);
      assert ts == ts[..|ts| - 1] + [ts[|ts| - 1]];
      assert us == us[..|us| - 1] + [us[|us| - 1]];
    }
  }

  // ---------------------------------------------------------------- preservation

  /** Appending an entry for an inode that has none. */
  lemma InvAppend(fs: Fs, d: nat, e: Dirent)
    requires Inv(fs) && d < fs.n && fs.inodes[d].kind.Directory? && |fs.inodes[d].children| < MAX_CHILDREN
    requires FindName(fs.inodes[d].children, e.name) == |fs.inodes[d].children| && GoodEntry(fs, e)
    requires forall i, k :: 0 <= i < MAX_INODES && 0 <= k < |fs.inodes[i].children| ==>
               fs.inodes[i].children[k].ino != e.ino
    ensures Inv(fs.(inodes := fs.inodes[d := fs.inodes[d].(children := fs.inodes[d].children + [e])]))
  {
    var fs' := fs.(inodes := fs.inodes[d := fs.inodes[d].(children := fs.inodes[d].children + [e])]);
    forall i | 0 <= i < MAX_INODES ensures GoodSlot(fs', i) {
      assert GoodSlot(fs, i);
      forall k | 0 <= k < |fs'.inodes[i].children| ensures GoodEntry(fs', fs'.inodes[i].children[k]) {
        assert k < |fs.inodes[i].children| ==> GoodEntry(fs, fs.inodes[i].children[k]);
      }
    }
  }

  lemma InvDrop(fs: Fs, d: nat, k: nat)
    requires Inv(fs) && d < fs.n && k < |fs.inodes[d].children|
    ensures Inv(DropChild(fs, d, k))
  {
    var fs' := DropChild(fs, d, k);
    forall i | 0 <= i < MAX_INODES ensures GoodSlot(fs', i) {
      assert GoodSlot(fs, i);
      forall m | 0 <= m < |fs'.inodes[i].children| ensures GoodEntry(fs', fs'.inodes[i].children[m]) {
        var e := fs'.inodes[i].children[m];
        assert e in fs.inodes[i].children;
        assert GoodEntry(fs, e);
      }
    }
  }

  lemma DropForgets(fs: Fs, d: nat, k: nat)
    requires Inv(fs) && d < fs.n && k < |fs.inodes[d].children|
    ensures var fs' := DropChild(fs, d, k); var gone := fs.inodes[d].children[k].ino;
            forall i, m :: 0 <= i < MAX_INODES && 0 <= m < |fs'.inodes[i].children| ==>
              fs'.inodes[i].children[m].ino != gone
  {
    var fs' := DropChild(fs, d, k);
    forall i, m | 0 <= i < MAX_INODES && 0 <= m < |fs'.inodes[i].children|
      ensures fs'.inodes[i].children[m].ino != fs.inodes[d].children[k].ino
    {
      var l := if i == d && m >= k then m + 1 else m;
      assert fs'.inodes[i].children[m] == fs.inodes[i].children[l];
    }
  }

  /** Clearing a slot no entry names; the table shrinks if it was the newest. */
  lemma InvClear(fs: Fs, t: nat, n: nat)
    requires Inv(fs) && 0 < t < fs.n && (n == fs.n || (n == fs.n - 1 && t == n))
    requires forall i, k :: 0 <= i < MAX_INODES && 0 <= k < |fs.inodes[i].children| ==>
               fs.inodes[i].children[k].ino != t + 1
    ensures Inv(Fs(fs.inodes[t := CLEARED], n))
  {
    var fs' := Fs(fs.inodes[t := CLEARED], n);
    forall i | 0 <= i < MAX_INODES ensures GoodSlot(fs', i) {
      assert GoodSlot(fs, i);
      forall k | 0 <= k < |fs'.inodes[i].children| ensures GoodEntry(fs', fs'.inodes[i].children[k]) {
        assert GoodEntry(fs, fs.inodes[i].children[k]);
      }
    }
  }

  lemma InvFill(fs: Fs, kind: Kind)
    requires Inv(fs) && fs.n < MAX_INODES && !kind.Blank?
    ensures Inv(Fs(fs.inodes[fs.n := NewNode(fs.n, kind)], fs.n + 1))
    ensures fs.inodes[fs.n] == CLEARED
  {
    assert GoodSlot(fs, fs.n);
    var fs' := Fs(fs.inodes[fs.n := NewNode(fs.n, kind)], fs.n + 1);
    forall i | 0 <= i < MAX_INODES ensures GoodSlot(fs', i) {
      assert GoodSlot(fs, i);
      forall k | 0 <= k < |fs'.inodes[i].children| ensures GoodEntry(fs', fs'.inodes[i].children[k]) {
        assert GoodEntry(fs, fs.inodes[i].children[k]);
      }
    }
  }
}

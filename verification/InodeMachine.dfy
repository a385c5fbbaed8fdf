/** The filesystem as the program keeps it: a fixed inode array, scanned and edited in place. Every method is proved
    to be the table function of the same operation. */
module InodeMachine {
  import opened Entries
  import opened Slashes
  import opened AppendFile
  import opened PathTokens
  import opened Inodes

  class FileSystem {
    const inodes: array<Inode>
    var n: nat

    ghost function View(): Fs
      reads this, inodes
    {
      Fs(inodes[..], n)
    }

    ghost predicate Valid()
      reads this
    {
      0 < n <= inodes.Length == MAX_INODES
    }

    constructor ()
      ensures Valid() && fresh(inodes) && View() == NewFs()
    {
      inodes := new Inode[MAX_INODES](i => if i == 0 then NewNode(0, Directory) else CLEARED);
      n := 1;
      new;
      assert inodes[..] == NewFs().inodes;
    }

    method Find(ino: nat) returns (r: Option<nat>)
      requires Valid()
      ensures r == Lookup(View(), ino)
    {
      var i := 0;
      while i < n
        invariant i <= n && Lookup(View(), ino) == Lookup(View(), ino, i)
      {
        if inodes[i].ino == ino {
          return Some(i);
        }
        i := i + 1;
      }
      return None;
    }

    method FindChild(children: seq<Dirent>, name: string) returns (k: nat)
      ensures k == FindName(children, name)
    {
      k := 0;
      while k < |children| && children[k].name != name
        invariant k <= |children| && FindName(children, name) == FindName(children, name, k)
      {
        k := k + 1;
      }
    }

    /** The tokenising walk from the root. */
    method ResolvePath(path: string) returns (r: Option<nat>)
      requires Valid() && Absolute(path)
      ensures r == PathToInode(View(), path)
    {
      var root := Find(1);
      if root.None? {
        return None;
      }
      var current: nat := root.value;
      var rest := Clip(path)[1..];
      while rest != ""
        invariant current < n
        invariant PathToInode(View(), path) == Walk(View(), current, Tokens(rest))
        decreases |rest|
      {
        if rest[0] == '/' {
          rest := rest[1..];
        } else {
          var k := 0;
          while k < |rest| && rest[k] != '/'
            invariant k <= |rest| && NextSlash(rest) == NextSlash(rest, k)
          {
            k := k + 1;
          }
          var token := rest[..k];
          assert Tokens(rest) == [token] + Tokens(rest[k..]);
          assert Tokens(rest)[1..] == Tokens(rest[k..]);
          var next := Step(current, token);
          if next.None? {
            return None;
          }
          current := next.value;
          rest := rest[k..];
        }
      }
      return Some(current);
    }

    method Step(i: nat, name: string) returns (r: Option<nat>)
      requires Valid() && i < n
      ensures r == Child(View(), i, name)
    {
      if !inodes[i].kind.Directory? {
        return None;
      }
      var k := FindChild(inodes[i].children, name);
      if k == |inodes[i].children| {
        return None;
      }
      r := Find(inodes[i].children[k].ino);
    }

    method DirAdd(dir: Option<nat>, name: string, ino: nat) returns (err: Err)
      requires Valid() && (dir.Some? ==> dir.value < inodes.Length)
      modifies inodes
      ensures (View(), err) == AddEntry(old(View()), dir, name, ino)
    {
      if dir.None? || !inodes[dir.value].kind.Directory? {
        return ENOTDIR;
      }
      var d := inodes[dir.value];
      if |d.children| >= MAX_CHILDREN {
        return ENOSPC;
      }
      var k := FindChild(d.children, name);
      if k < |d.children| {
        return EEXIST;
      }
      inodes[dir.value] := d.(children := d.children + [Dirent(name, ino)]);
      return OK;
    }

    /** Moves every entry after k one place to the left and forgets the last. */
    method ShiftLeft(children: seq<Dirent>, k: nat) returns (shifted: seq<Dirent>)
      requires k < |children|
      ensures shifted == Without(children, k)
    {
      shifted := children;
      var j: nat := k;
      while j < |children| - 1
        invariant k <= j <= |children| - 1 && |shifted| == |children|
        invariant forall m :: 0 <= m < k ==> shifted[m] == children[m]
        invariant forall m :: k <= m < j ==> shifted[m] == children[m + 1]
        invariant forall m :: j <= m < |children| ==> shifted[m] == children[m]
      {
        shifted := shifted[j := shifted[j + 1]];
        j := j + 1;
      }
      shifted := shifted[..|children| - 1];
      assert forall m :: 0 <= m < |shifted| ==> shifted[m] == Without(children, k)[m];
    }

    method DirRemove(dir: Option<nat>, name: string, ino: nat) returns (err: Err)
      requires Valid() && (dir.Some? ==> dir.value < inodes.Length)
      modifies inodes
      ensures (View(), err) == RemoveEntry(old(View()), dir, name, ino)
    {
      if dir.None? || !inodes[dir.value].kind.Directory? {
        return ENOTDIR;
      }
      var children := inodes[dir.value].children;
      var e := Dirent(name, ino);
      var k := 0;
      while k < |children|
        invariant k <= |children| && FindEntry(children, e) == FindEntry(children, e, k)
      {
        if children[k] == e {
          var shifted := ShiftLeft(children, k);
          inodes[dir.value] := inodes[dir.value].(children := shifted);
          return OK;
        }
        k := k + 1;
      }
      return ENOENT;
    }

    method Release(i: nat)
      requires Valid() && i < inodes.Length
      modifies this, inodes
      ensures View() == FreeInode(old(View()), i)
    {
      if i == n - 1 {
        n := n - 1;
      }
      inodes[i] := CLEARED;
    }

    method EnterNode(dir: Option<nat>, name: string, kind: Kind, backingOk: bool) returns (err: Err)
      requires Valid() && n < MAX_INODES && (dir.Some? ==> dir.value < inodes.Length)
      modifies this, inodes
      ensures (View(), err) == Enter(old(View()), dir, name, kind, backingOk)
    {
      var i := n;
      inodes[i] := NewNode(i, kind);
      n := n + 1;
      ghost var fs1 := Fs(old(View()).inodes[i := NewNode(i, kind)], i + 1);
      assert View() == fs1;
      if kind.Regular? && !backingOk {
        Release(i);
        return EIO;
      }
      err := DirAdd(dir, name, i + 1);
      if err != OK {
        Release(i);
      }
    }

    method CreateNode(path: string, kind: Kind, backingOk: bool) returns (err: Err)
      requires Valid() && Absolute(path)
      modifies this, inodes
      ensures (View(), err) == Make(old(View()), path, kind, backingOk)
    {
      var existing := ResolvePath(path);
      if existing.Some? {
        return EEXIST;
      }
      var (parent, name) := Split(path);
      var dir := ResolvePath(parent);
      if dir.None? || !inodes[dir.value].kind.Directory? {
        return ENOENT;
      }
      if n >= MAX_INODES {
        return ENOMEM;
      }
      err := EnterNode(dir, name, kind, backingOk);
    }

    method RemoveDirectory(path: string) returns (err: Err)
      requires Valid() && Absolute(path)
      modifies this, inodes
      ensures (View(), err) == Rmdir(old(View()), path)
    {
      if path == "/" {
        return EBUSY;
      }
      var target := ResolvePath(path);
      if target.None? {
        return ENOENT;
      }
      if !inodes[target.value].kind.Directory? {
        return ENOTDIR;
      }
      if |inodes[target.value].children| > 0 {
        return ENOTEMPTY;
      }
      var (parent, name) := Split(path);
      var dir := ResolvePath(parent);
      if dir.None? {
        return ENOENT;
      }
      var children := inodes[dir.value].children;
      var k := FindChild(children, name);
      if k == |children| {
        return ENOENT;
      }
      var shifted := ShiftLeft(children, k);
      inodes[dir.value] := inodes[dir.value].(children := shifted);
      inodes[target.value] := CLEARED;
      return OK;
    }

    method UnlinkPath(path: string) returns (err: Err)
      requires Valid() && Absolute(path)
      modifies this, inodes
      ensures (View(), err) == Unlink(old(View()), path)
    {
      var target := ResolvePath(path);
      if target.None? {
        return ENOENT;
      }
      var (parent, name) := Split(path);
      var dir := ResolvePath(parent);
      if dir.None? || !inodes[dir.value].kind.Directory? {
        return ENOENT;
      }
      err := DirRemove(dir, name, inodes[target.value].ino);
      if err == OK {
        Release(target.value);
      }
    }

    method RenamePath(from: string, to: string) returns (err: Err)
      requires Valid() && Absolute(from) && Absolute(to)
      modifies this, inodes
      ensures (View(), err) == Rename(old(View()), from, to)
    {
      if from == to {
        return OK;
      }
      var target := ResolvePath(from);
      if target.None? {
        return ENOENT;
      }
      var existing := ResolvePath(to);
      if existing.Some? {
        return EEXIST;
      }
      var src := ResolvePath(Split(from).0);
      var dest := ResolvePath(Split(to).0);
      var ino := inodes[target.value].ino;
      err := DirAdd(dest, Split(to).1, ino);
      if err != OK {
        return;
      }
      err := DirRemove(src, Split(from).1, ino);
      if err != OK {
        var undone := DirRemove(dest, Split(to).1, ino);
      }
    }
  }
}

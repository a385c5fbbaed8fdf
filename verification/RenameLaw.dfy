/** Rename moves exactly one subtree, and an unsuccessful rename restores the table it started from. */
module RenameLaw {
  import opened Entries
  import opened Slashes
  import opened PathTokens
  import opened Inodes
  import opened InodeLaws

  /** The parts of a rename that gets as far as changing directories. */
  datatype Plan = Plan(src: Option<nat>, dest: Option<nat>, target: nat, oldName: string, newName: string)

  ghost function PlanOf(fs: Fs, from: string, to: string): Plan
    requires Inv(fs) && Absolute(from) && Absolute(to) && PathToInode(fs, from).Some?
  {
    Plan(PathToInode(fs, Split(from).0), PathToInode(fs, Split(to).0), PathToInode(fs, from).value,
         Split(from).1, Split(to).1)
  }

  /** Adding an entry and taking the same entry away again. */
  lemma AddThenRemove(fs: Fs, d: nat, name: string, ino: nat)
    requires Inv(fs) && d < fs.n && AddEntry(fs, Some(d), name, ino).1 == OK
    ensures RemoveEntry(AddEntry(fs, Some(d), name, ino).0, Some(d), name, ino) == (fs, OK)
  {
    var c := fs.inodes[d].children;
    var c' := c + [Dirent(name, ino)];
    assert forall j :: 0 <= j < |c| ==> c[j].name != name;
    assert forall j :: 0 <= j < |c| ==> c'[j] == c[j];
    var k := FindEntry(c', Dirent(name, ino));
    assert c'[|c|] == Dirent(name, ino);
    assert k == |c|;
    assert Without(c', k) == c;
    assert fs.inodes[d := fs.inodes[d].(children := c')][d := fs.inodes[d]] == fs.inodes;
  }

  lemma AddFails(fs: Fs, dir: Option<nat>, name: string, ino: nat)
    requires dir.Some? ==> dir.value < |fs.inodes|
    ensures AddEntry(fs, dir, name, ino).1 != OK ==> AddEntry(fs, dir, name, ino).0 == fs
  {
  }

  lemma RemoveFails(fs: Fs, dir: Option<nat>, name: string, ino: nat)
    requires dir.Some? ==> dir.value < |fs.inodes|
    ensures RemoveEntry(fs, dir, name, ino).1 != OK ==> RemoveEntry(fs, dir, name, ino).0 == fs
  {
  }

  lemma RelinkFails(fs: Fs, dest: Option<nat>, newName: string, src: Option<nat>, oldName: string, ino: nat)
    requires Inv(fs) && (dest.Some? ==> dest.value < fs.n) && (src.Some? ==> src.value < fs.n)
    ensures Relink(fs, dest, newName, src, oldName, ino).1 != OK ==>
              Relink(fs, dest, newName, src, oldName, ino).0 == fs
  {
    var (fs1, err) := AddEntry(fs, dest, newName, ino);
    if err == OK {
      AddThenRemove(fs, dest.value, newName, ino);
      RemoveFails(fs1, src, oldName, ino);
    } else {
      AddFails(fs, dest, newName, ino);
    }
  }

  /** A rename that reports an error leaves the table exactly as it was, whether it stopped before the first change
      or took the new entry back. */
  lemma RenameFails(fs: Fs, from: string, to: string)
    requires Inv(fs) && Absolute(from) && Absolute(to)
    ensures Rename(fs, from, to).1 != OK ==> Rename(fs, from, to).0 == fs
  {
    if PathToInode(fs, from).Some? {
      var plan := PlanOf(fs, from, to);
      RelinkFails(fs, plan.dest, plan.newName, plan.src, plan.oldName, fs.inodes[plan.target].ino);
    }
  }

  // ---------------------------------------------------------------- a successful rename, as drop then append

  /** What a rename that succeeds has found: both parents, and the source's entry. */
  lemma SourceEntry(fs: Fs, from: string, to: string) returns (s: nat, k: nat)
    requires Inv(fs) && Absolute(from) && Absolute(to) && from != to && Rename(fs, from, to).1 == OK
    ensures PathToInode(fs, from).Some? && PathToInode(fs, to).None?
    ensures var plan := PlanOf(fs, from, to);
            && plan.src == Some(s) && s < fs.n && ValidToken(plan.oldName)
            && k == FindName(fs.inodes[s].children, plan.oldName) < |fs.inodes[s].children|
            && fs.inodes[s].children[k] == Dirent(plan.oldName, plan.target + 1)
            && fs.inodes[plan.target].ino == plan.target + 1
            && Resolve(fs, Tokens(Split(from).0)) == Some(s)
  {
    var plan := PlanOf(fs, from, to);
    SplitLaw(from);
    var parent := Split(from).0;
    assert Clip(parent) == parent;
    var ts := Tokens(Clip(from));
    ResolvesToLive(fs, ts);
    if plan.oldName == "" {
      NoUnnamedSource(fs, from, to);
    }
    s, k := ResolveLast(fs, ts);
    assert ts[..|ts| - 1] == Tokens(parent) && ts[|ts| - 1] == plan.oldName;
  }

  /** A path with a trailing slash resolves as its own parent. */
  lemma SelfParent(fs: Fs, path: string)
    requires Inv(fs) && Absolute(path) && Split(path).1 == ""
    ensures PathToInode(fs, Split(path).0) == PathToInode(fs, path)
  {
    SplitLaw(path);
    var parent := Split(path).0;
    assert Clip(parent) == parent && Tokens(parent) + [] == Tokens(parent);
  }

  lemma StillNoEmptyName(fs: Fs, dir: Option<nat>, name: string, ino: nat, i: nat)
    requires Inv(fs) && (dir.Some? ==> dir.value < fs.n) && i < fs.n && name != ""
    ensures RemoveEntry(AddEntry(fs, dir, name, ino).0, Some(i), "", ino).1 != OK
  {
    EmptyName(fs, i);
    var c := fs.inodes[i].children;
    assert forall k :: 0 <= k < |c| ==> c[k] != Dirent("", ino);
    var c' := AddEntry(fs, dir, name, ino).0.inodes[i].children;
    assert forall k :: 0 <= k < |c'| ==> c'[k] != Dirent("", ino);
  }

  /** An entry without a name is never moved: the destination is missing, or the old entry is. */
  lemma {:induction false} RelinkUnnamed(fs: Fs, dest: Option<nat>, newName: string, i: nat, ino: nat)
    requires Inv(fs) && (dest.Some? ==> dest.value < fs.n) && i < fs.n && (newName == "" ==> dest.None?)
    ensures Relink(fs, dest, newName, Some(i), "", ino).1 != OK
  {
    if newName != "" {
      StillNoEmptyName(fs, dest, newName, ino, i);
    }
  }

  lemma {:induction false} RenameEndsInRelink(
      fs: Fs, from: string, to: string, dest: Option<nat>, newName: string, src: Option<nat>, oldName: string, i: nat)
    requires 0 < fs.n <= |fs.inodes| == MAX_INODES && Absolute(from) && Absolute(to) && from != to
    requires PathToInode(fs, from) == Some(i) && PathToInode(fs, to).None?
    requires PathToInode(fs, Split(from).0) == src && Split(from).1 == oldName
    requires PathToInode(fs, Split(to).0) == dest && Split(to).1 == newName
    ensures Rename(fs, from, to) == Relink(fs, dest, newName, src, oldName, fs.inodes[i].ino)
  {
  }

  /** A source path with a trailing slash makes the source its own parent, where no entry has an empty name. */
  lemma {:induction false} NoUnnamedSource(fs: Fs, from: string, to: string)
    requires Inv(fs) && Absolute(from) && Absolute(to) && from != to && Split(from).1 == ""
    ensures Rename(fs, from, to).1 != OK
  {
    SelfParent(fs, from);
    if Split(to).1 == "" {
      SelfParent(fs, to);
    }
    var target, dest, newName := PathToInode(fs, from), PathToInode(fs, Split(to).0), Split(to).1;
    if target.Some? && PathToInode(fs, to).None? {
      var i := target.value;
      RenameEndsInRelink(fs, from, to, dest, newName, Some(i), "", i);
      RelinkUnnamed(fs, dest, newName, i, fs.inodes[i].ino);
    }
  }

  /** What a rename that succeeds has found at the other end: a directory with room and without the new name. */
  lemma DestinationRoom(fs: Fs, from: string, to: string) returns (d: nat)
    requires Inv(fs) && Absolute(from) && Absolute(to) && from != to && Rename(fs, from, to).1 == OK
    ensures PathToInode(fs, from).Some? && PathToInode(fs, to).None?
    ensures var plan := PlanOf(fs, from, to);
            && plan.dest == Some(d) && d < fs.n && fs.inodes[d].kind.Directory? && ValidToken(plan.newName)
            && |fs.inodes[d].children| < MAX_CHILDREN
            && FindName(fs.inodes[d].children, plan.newName) == |fs.inodes[d].children|
            && Resolve(fs, Tokens(Split(to).0)) == Some(d)
            && Tokens(Clip(to)) == Tokens(Split(to).0) + [plan.newName]
  {
    SplitLaw(to);
    assert Clip(Split(to).0) == Split(to).0;
    var plan := PlanOf(fs, from, to);
    if plan.newName == "" {
      SelfParent(fs, to);
    }
    d := plan.dest.value;
  }

  ghost function Append(fs: Fs, d: nat, e: Dirent): Fs
    requires d < |fs.inodes|
  {
    fs.(inodes := fs.inodes[d := fs.inodes[d].(children := fs.inodes[d].children + [e])])
  }

  /** Appending the new entry and then removing the old one is dropping the old one and then appending. */
  lemma RenameIs(fs: Fs, from: string, to: string) returns (s: nat, k: nat, d: nat)
    requires Inv(fs) && Absolute(from) && Absolute(to) && from != to && Rename(fs, from, to).1 == OK
    ensures PathToInode(fs, from).Some? && PathToInode(fs, to).None?
    ensures var plan := PlanOf(fs, from, to);
            && s < fs.n && d < fs.n && k < |fs.inodes[s].children|
            && fs.inodes[s].children[k] == Dirent(plan.oldName, plan.target + 1)
            && fs.inodes[d].kind.Directory? && |fs.inodes[d].children| < MAX_CHILDREN
            && FindName(fs.inodes[d].children, plan.newName) == |fs.inodes[d].children|
            && ValidToken(plan.oldName) && ValidToken(plan.newName)
            && Resolve(fs, Tokens(Split(from).0)) == Some(s) && Resolve(fs, Tokens(Split(to).0)) == Some(d)
            && Rename(fs, from, to).0 == Append(DropChild(fs, s, k), d, Dirent(plan.newName, plan.target + 1))
  {
    s, k := SourceEntry(fs, from, to);
    d := DestinationRoom(fs, from, to);
    var plan := PlanOf(fs, from, to);
    RenameEndsInRelink(fs, from, to, Some(d), plan.newName, Some(s), plan.oldName, plan.target);
    FindAgree(fs, s, Dirent(plan.oldName, plan.target + 1));
    RelinkIs(fs, s, k, d, plan.newName);
  }

  lemma {:induction false} RelinkIs(fs: Fs, s: nat, k: nat, d: nat, newName: string)
    requires s < |fs.inodes| && d < |fs.inodes| && k < |fs.inodes[s].children|
    requires k == FindEntry(fs.inodes[s].children, fs.inodes[s].children[k])
    requires fs.inodes[s].kind.Directory? && fs.inodes[d].kind.Directory? && |fs.inodes[d].children| < MAX_CHILDREN
    requires FindName(fs.inodes[d].children, newName) == |fs.inodes[d].children|
    ensures var entry := fs.inodes[s].children[k];
            Relink(fs, Some(d), newName, Some(s), entry.name, entry.ino)
            == (Append(DropChild(fs, s, k), d, Dirent(newName, entry.ino)), OK)
  {
    SwapOrder(fs, s, k, d, Dirent(newName, fs.inodes[s].children[k].ino));
  }

  lemma SwapOrder(fs: Fs, s: nat, k: nat, d: nat, e: Dirent)
    requires s < |fs.inodes| && d < |fs.inodes| && k < |fs.inodes[s].children|
    requires k == FindEntry(fs.inodes[s].children, fs.inodes[s].children[k])
    ensures FindEntry(Append(fs, d, e).inodes[s].children, fs.inodes[s].children[k]) == k
    ensures DropChild(Append(fs, d, e), s, k) == Append(DropChild(fs, s, k), d, e)
  {
    var c := fs.inodes[s].children;
    var c' := Append(fs, d, e).inodes[s].children;
    assert forall j :: 0 <= j < |c| ==> c'[j] == c[j];
    if s == d {
      assert Without(c + [e], k) == Without(c, k) + [e];
    }
    assert DropChild(Append(fs, d, e), s, k).inodes == Append(DropChild(fs, s, k), d, e).inodes;
  }

  // ---------------------------------------------------------------- the law

  /** The table between the two halves: the source's entry is gone, the destination is as it was. */
  lemma Midway(fs: Fs, s: nat, k: nat, p: seq<string>, q: seq<string>)
    requires Inv(fs) && s < fs.n && k < |fs.inodes[s].children| && Resolve(fs, p) == Some(s)
    ensures Inv(DropChild(fs, s, k))
    ensures Resolve(DropChild(fs, s, k), q)
            == if p + [fs.inodes[s].children[k].name] <= q then None else Resolve(fs, q)
  {
    InvDrop(fs, s, k);
    var name := fs.inodes[s].children[k].name;
    ResolveSnoc(fs, p, name);
    ChildPresent(fs, s, fs.inodes[s].children[k]);
    if Resolve(fs, p + [name]) == Some(s) {
      UniquePath(fs, p, p + [name]);
    }
    DropsOnePath(fs, DropChild(fs, s, k), s, k, p, name, q);
  }

  /** A move in terms of the table: the k-th entry of slot s, whose path is p, goes to slot d, whose path is r, under
      a new name. */
  datatype Move = Move(s: nat, k: nat, p: seq<string>, d: nat, r: seq<string>, name: string)

  ghost predicate Possible(fs: Fs, m: Move) {
    && Inv(fs) && m.s < fs.n && m.d < fs.n && m.k < |fs.inodes[m.s].children|
    && fs.inodes[m.d].kind.Directory? && |fs.inodes[m.d].children| < MAX_CHILDREN && ValidToken(m.name)
    && FindName(fs.inodes[m.d].children, m.name) == |fs.inodes[m.d].children|
    && Resolve(fs, m.p) == Some(m.s) && Resolve(fs, m.r) == Some(m.d)
  }

  ghost function Source(fs: Fs, m: Move): seq<string>
    requires Possible(fs, m)
  {
    m.p + [fs.inodes[m.s].children[m.k].name]
  }

  ghost function Target(m: Move): seq<string> {
    m.r + [m.name]
  }

  ghost function NewEntry(fs: Fs, m: Move): Dirent
    requires Possible(fs, m)
  {
    Dirent(m.name, fs.inodes[m.s].children[m.k].ino)
  }

  ghost function Moved(fs: Fs, m: Move): Fs
    requires Possible(fs, m)
  {
    Append(DropChild(fs, m.s, m.k), m.d, NewEntry(fs, m))
  }

  lemma NameStillFree(fs: Fs, s: nat, k: nat, d: nat, name: string)
    requires s < |fs.inodes| && d < |fs.inodes| && k < |fs.inodes[s].children|
    requires FindName(fs.inodes[d].children, name) == |fs.inodes[d].children|
    ensures var c := DropChild(fs, s, k).inodes[d].children;
            FindName(c, name) == |c| <= |fs.inodes[d].children|
  {
    var c := fs.inodes[d].children;
    var c' := DropChild(fs, s, k).inodes[d].children;
    forall j | 0 <= j < |c'| ensures c'[j].name != name {
      assert c'[j] == if d == s && j >= k then c[j + 1] else c[j];
    }
  }

  lemma MoveInv(fs: Fs, m: Move)
    requires Possible(fs, m)
    ensures Inv(DropChild(fs, m.s, m.k)) && Inv(Moved(fs, m))
  {
    var mid := DropChild(fs, m.s, m.k);
    InvDrop(fs, m.s, m.k);
    DropForgets(fs, m.s, m.k);
    NameStillFree(fs, m.s, m.k, m.d, m.name);
    var e := NewEntry(fs, m);
    assert GoodEntry(mid, e) by {
      assert GoodSlot(fs, m.s) && GoodEntry(fs, fs.inodes[m.s].children[m.k]);
    }
    InvAppend(mid, m.d, e);
  }

  lemma MoveKeeps(fs: Fs, m: Move)
    requires Possible(fs, m)
    ensures Inv(DropChild(fs, m.s, m.k)) && Inv(Moved(fs, m))
    ensures Resolve(fs, Source(fs, m)) == Some(fs.inodes[m.s].children[m.k].ino - 1)
    ensures Resolve(fs, Target(m)).None?
  {
    MoveInv(fs, m);
    ResolveSnoc(fs, m.p, fs.inodes[m.s].children[m.k].name);
    ChildPresent(fs, m.s, fs.inodes[m.s].children[m.k]);
    ResolveSnoc(fs, m.r, m.name);
    ChildIs(fs, m.d, m.name);
  }

  /** From the midway table, the append changes only the paths through the new entry. */
  lemma AppendedOff(fs: Fs, m: Move, q: seq<string>)
    requires Possible(fs, m) && !(Source(fs, m) <= Target(m)) && !(Target(m) <= q)
    ensures Inv(Moved(fs, m))
    ensures Resolve(Moved(fs, m), q) == if Source(fs, m) <= q then None else Resolve(fs, q)
  {
    MoveInv(fs, m);
    var mid, fs' := DropChild(fs, m.s, m.k), Moved(fs, m);
    Midway(fs, m.s, m.k, m.p, q);
    Midway(fs, m.s, m.k, m.p, m.r);
    assert !(Source(fs, m) <= m.r);
    assert SameBut(mid, fs', m.d, None, m.name);
    SameOff(mid, fs', m.d, m.r, m.name, q);
  }

  /** Everything except the subtree and its old and new place resolves as before; the old place leads nowhere. */
  lemma OthersStay(fs: Fs, m: Move, q: seq<string>)
    requires Possible(fs, m) && !(Source(fs, m) <= Target(m))
    ensures Inv(Moved(fs, m))
    ensures !(Target(m) <= q) ==>
              Resolve(Moved(fs, m), q) == if Source(fs, m) <= q then None else Resolve(fs, q)
    ensures Resolve(Moved(fs, m), Target(m)) == Resolve(fs, Source(fs, m))
  {
    if !(Target(m) <= q) {
      AppendedOff(fs, m, q);
    }
    AppendedOff(fs, m, m.r);
    MoveKeeps(fs, m);
    assert !(Source(fs, m) <= m.r);
    var fs' := Moved(fs, m);
    ResolveSnoc(fs', m.r, m.name);
    ChildPresent(fs', m.d, NewEntry(fs, m));
  }

  /** A move into the source's own subtree detaches it: the new entry hangs on a directory no path leads to. */
  lemma {:induction false} Detached(fs: Fs, m: Move, q: seq<string>)
    requires Possible(fs, m) && Source(fs, m) <= m.r
    ensures Inv(DropChild(fs, m.s, m.k)) && Inv(Moved(fs, m))
    ensures Resolve(Moved(fs, m), q) == Resolve(DropChild(fs, m.s, m.k), q)
    ensures Resolve(DropChild(fs, m.s, m.k), q) == if Source(fs, m) <= q then None else Resolve(fs, q)
    ensures Resolve(Moved(fs, m), q) != Some(m.d)
    decreases |q|
  {
    MoveKeeps(fs, m);
    var mid, fs' := DropChild(fs, m.s, m.k), Moved(fs, m);
    Midway(fs, m.s, m.k, m.p, q);
    if Resolve(mid, q) == Some(m.d) {
      UniquePath(fs, q, m.r);
    }
    if q == [] {
      RootIsFirst(mid, q);
      RootIsFirst(fs', q);
    } else {
      var front, last := q[..|q| - 1], q[|q| - 1];
      assert q == front + [last];
      Detached(fs, m, front);
      ResolveSnoc(mid, front, last);
      ResolveSnoc(fs', front, last);
      if Resolve(mid, front).Some? {
        ChildSame(mid, fs', Resolve(mid, front).value, last);
      }
    }
  }

  /** Below the new place everything resolves as it did below the old one. */
  lemma {:induction false} SubtreeFollows(fs: Fs, m: Move, rest: seq<string>)
    requires Possible(fs, m) && !(Source(fs, m) <= Target(m))
    ensures Inv(Moved(fs, m))
    ensures Resolve(Moved(fs, m), Target(m) + rest) == Resolve(fs, Source(fs, m) + rest)
    decreases |rest|
  {
    var f, t, fs' := Source(fs, m), Target(m), Moved(fs, m);
    OthersStay(fs, m, t);
    if rest == [] {
      assert t + rest == t && f + rest == f;
    } else {
      var front, last := rest[..|rest| - 1], rest[|rest| - 1];
      SubtreeFollows(fs, m, front);
      assert t + rest == (t + front) + [last] && f + rest == (f + front) + [last];
      ResolveSnoc(fs', t + front, last);
      ResolveSnoc(fs, f + front, last);
      if Resolve(fs, f + front).Some? {
        StepInSubtree(fs, m, front, last);
      }
    }
  }

  lemma StepInSubtree(fs: Fs, m: Move, front: seq<string>, last: string)
    requires Possible(fs, m) && !(Source(fs, m) <= Target(m)) && Resolve(fs, Source(fs, m) + front).Some?
    ensures var v := Resolve(fs, Source(fs, m) + front).value; var fs' := Moved(fs, m);
            Inv(fs') && v < fs'.n && Child(fs', v, last) == Child(fs, v, last)
  {
    MoveKeeps(fs, m);
    var f := Source(fs, m);
    var v := Resolve(fs, f + front).value;
    assert |f + front| > |m.p| && f <= f + front && !(f <= m.r);
    if v == m.s {
      UniquePath(fs, f + front, m.p);
    }
    if v == m.d {
      UniquePath(fs, f + front, m.r);
    }
    ChildSame(fs, Moved(fs, m), v, last);
  }

  lemma MoveOf(fs: Fs, from: string, to: string) returns (m: Move)
    requires Inv(fs) && Absolute(from) && Absolute(to) && from != to && Rename(fs, from, to).1 == OK
    ensures Possible(fs, m) && Rename(fs, from, to).0 == Moved(fs, m)
    ensures Source(fs, m) == Tokens(Clip(from)) && Target(m) == Tokens(Clip(to))
  {
    SplitLaw(from);
    SplitLaw(to);
    var s, k, d := RenameIs(fs, from, to);
    m := Move(s, k, Tokens(Split(from).0), d, Tokens(Split(to).0), Split(to).1);
  }

  lemma MoveLaw(fs: Fs, m: Move, q: seq<string>)
    requires Possible(fs, m)
    ensures var fs' := Moved(fs, m); var f := Source(fs, m); var t := Target(m);
            && Inv(fs')
            && Resolve(fs', q) == if !(f <= t) && t <= q then Resolve(fs, f + q[|t|..])
                                  else if f <= q then None else Resolve(fs, q)
  {
    MoveKeeps(fs, m);
    var f, t := Source(fs, m), Target(m);
    if f <= t {
      assert f != t;
      assert f <= m.r;
      Detached(fs, m, q);
    } else if t <= q {
      SubtreeFollows(fs, m, q[|t|..]);
      assert t + q[|t|..] == q;
    } else {
      OthersStay(fs, m, q);
    }
  }

  lemma SlotsKept(fs: Fs, m: Move)
    requires Possible(fs, m)
    ensures Moved(fs, m).n == fs.n && |Moved(fs, m).inodes| == |fs.inodes|
    ensures forall i :: 0 <= i < |fs.inodes| ==>
              Moved(fs, m).inodes[i].(children := []) == fs.inodes[i].(children := [])
  {
  }

  /** Rename moves exactly one subtree. For a successful rename to a place outside the source: whatever the source path
      led to is now reached through the new path, the old path and everything below it leads nowhere, and every other
      path leads where it led. A rename into the source itself (the code does not refuse it) loses the subtree. No
      inode changes its kind or content, and the table's size stays. */
  lemma RenameMovesOneSubtree(fs: Fs, from: string, to: string, q: seq<string>)
    requires Inv(fs) && Absolute(from) && Absolute(to) && from != to && Rename(fs, from, to).1 == OK
    ensures var fs' := Rename(fs, from, to).0; var f := Tokens(Clip(from)); var t := Tokens(Clip(to));
            && Inv(fs') && fs'.n == fs.n
            && (forall i :: 0 <= i < MAX_INODES ==> fs'.inodes[i].(children := []) == fs.inodes[i].(children := []))
            && (!(f <= t) ==>
                  Resolve(fs', q) ==
                    if t <= q then Resolve(fs, f + q[|t|..]) else if f <= q then None else Resolve(fs, q))
            && (f <= t ==> Resolve(fs', q) == if f <= q then None else Resolve(fs, q))
            && (Resolve(fs', t) == Resolve(fs, f) <==> !(f <= t))
  {
    var m := MoveOf(fs, from, to);
    MoveLaw(fs, m, q);
    MoveLaw(fs, m, Target(m));
    MoveKeeps(fs, m);
    SlotsKept(fs, m);
    var t := Target(m);
    assert Source(fs, m) + t[|t|..] == Source(fs, m);
  }

  /** Exactly when a rename to a different path succeeds. */
  lemma RenameSucceedsIff(fs: Fs, from: string, to: string)
    requires Inv(fs) && Absolute(from) && Absolute(to) && from != to
    ensures var dest := Resolve(fs, Tokens(Split(to).0));
            Rename(fs, from, to).1 == OK <==>
              && !EndsInSlash(Clip(from)) && Resolve(fs, Tokens(Clip(from))).Some?
              && Resolve(fs, Tokens(Clip(to))).None?
              && dest.Some? && fs.inodes[dest.value].kind.Directory? && |fs.inodes[dest.value].children| < MAX_CHILDREN
  {
    SplitLaw(from);
    SplitLaw(to);
    assert Clip(Split(to).0) == Split(to).0 && Clip(Split(from).0) == Split(from).0;
    if Split(from).1 == "" {
      NoUnnamedSource(fs, from, to);
    } else if PathToInode(fs, from).Some? && PathToInode(fs, to).None? {
      RenameReaches(fs, from, to);
    }
  }

  lemma RelinkReaches(fs: Fs, d: nat, newName: string, s: nat, k: nat)
    requires Inv(fs) && d < fs.n && s < fs.n && k < |fs.inodes[s].children| && fs.inodes[d].kind.Directory?
    requires FindName(fs.inodes[d].children, newName) == |fs.inodes[d].children| && fs.inodes[s].kind.Directory?
    ensures var e := fs.inodes[s].children[k];
            Relink(fs, Some(d), newName, Some(s), e.name, e.ino).1 == OK <==> |fs.inodes[d].children| < MAX_CHILDREN
  {
    var e := fs.inodes[s].children[k];
    FindAgree(fs, s, e);
    assert GoodSlot(fs, s);
    assert FindEntry(fs.inodes[s].children, e) == k;
    SwapOrder(fs, s, k, d, Dirent(newName, e.ino));
  }

  lemma RenameReaches(fs: Fs, from: string, to: string)
    requires Inv(fs) && Absolute(from) && Absolute(to) && from != to && Split(from).1 != ""
    requires PathToInode(fs, from).Some? && PathToInode(fs, to).None?
    ensures var dest := PathToInode(fs, Split(to).0);
            Rename(fs, from, to).1 == OK <==>
              dest.Some? && fs.inodes[dest.value].kind.Directory? && |fs.inodes[dest.value].children| < MAX_CHILDREN
  {
    SplitLaw(from);
    assert Clip(Split(from).0) == Split(from).0;
    var plan := PlanOf(fs, from, to);
    var ts := Tokens(Clip(from));
    var s, k := ResolveLast(fs, ts);
    assert ts[..|ts| - 1] == Tokens(Split(from).0) && ts[|ts| - 1] == plan.oldName;
    ResolvesToLive(fs, ts);
    if plan.dest.Some? && fs.inodes[plan.dest.value].kind.Directory? {
      NewNameIsFree(fs, to, plan.dest.value);
      RelinkReaches(fs, plan.dest.value, plan.newName, s, k);
    }
  }

  lemma NewNameIsFree(fs: Fs, to: string, d: nat)
    requires Inv(fs) && Absolute(to) && PathToInode(fs, to).None? && PathToInode(fs, Split(to).0) == Some(d)
    ensures FindName(fs.inodes[d].children, Split(to).1) == |fs.inodes[d].children|
  {
    SplitLaw(to);
    assert Clip(Split(to).0) == Split(to).0;
    if Split(to).1 == "" {
      SelfParent(fs, to);
    } else {
      ResolveSnoc(fs, Tokens(Split(to).0), Split(to).1);
      ChildIs(fs, d, Split(to).1);
    }
  }
}

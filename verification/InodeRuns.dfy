/** Runs of filesystem calls from an empty filesystem. */
module InodeRuns {
  import opened Entries
  import opened Slashes
  import opened AppendFile
  import opened Inodes
  import opened InodeLaws
  import opened RenameLaw

  datatype Call =
    | CreateFile(path: string, backingOk: bool)
    | MakeDir(path: string)
    | RemoveDir(path: string)
    | RenamePath(path: string, to: string)
    | UnlinkPath(path: string)
    | WriteFile(fh: nat, offset: nat, data: seq<byte>, io: Io)

  predicate WellFormed(c: Call) {
    if c.WriteFile? then c.fh > 0 else Absolute(c.path) && (c.RenamePath? ==> Absolute(c.to))
  }

  /** A write through an inode number. Nothing looks at the type of the inode; only the root has no backing path, so its
      backing file never opens. */
  function WriteThrough(fs: Fs, fh: nat, offset: nat, data: seq<byte>, io: Io): (Fs, Err)
    requires fs.n <= |fs.inodes|
  {
    var i := Lookup(fs, fh);
    if i.None? then (fs, ENOENT)
    else
      var (file, r) := Write(fs.inodes[i.value].data, offset, data, if i.value == 0 then Unopened else io);
      (fs.(inodes := fs.inodes[i.value := fs.inodes[i.value].(data := file)]),
       if r.Written? then OK else if r.NotPermitted? then EPERM else EIO)
  }

  function Exec(fs: Fs, c: Call): (Fs, Err)
    requires 0 < fs.n <= |fs.inodes| == MAX_INODES && WellFormed(c)
  {
    match c
    case CreateFile(path, backingOk) => Make(fs, path, Regular, backingOk)
    case MakeDir(path) => Make(fs, path, Directory, true)
    case RemoveDir(path) => Rmdir(fs, path)
    case RenamePath(path, to) => Rename(fs, path, to)
    case UnlinkPath(path) => Unlink(fs, path)
    case WriteFile(fh, offset, data, io) => WriteThrough(fs, fh, offset, data, io)
  }

  /** The same slots, numbers, kinds and names; only content may differ. */
  ghost predicate SameNames(fs: Fs, fs': Fs) {
    && fs'.n == fs.n && |fs'.inodes| == |fs.inodes|
    && forall i :: 0 <= i < |fs.inodes| ==> fs'.inodes[i].(data := EMPTY) == fs.inodes[i].(data := EMPTY)
  }

  lemma {:induction false} WriteKeepsTable(fs: Fs, fh: nat, offset: nat, data: seq<byte>, io: Io)
    requires Inv(fs) && fh > 0
    ensures Inv(WriteThrough(fs, fh, offset, data, io).0) && SameNames(fs, WriteThrough(fs, fh, offset, data, io).0)
  {
    var fs' := WriteThrough(fs, fh, offset, data, io).0;
    LookupLive(fs, fh);
    forall i | 0 <= i < MAX_INODES ensures GoodSlot(fs', i) {
      assert GoodSlot(fs, i);
      forall k | 0 <= k < |fs'.inodes[i].children| ensures GoodEntry(fs', fs'.inodes[i].children[k]) {
        assert GoodEntry(fs, fs.inodes[i].children[k]);
      }
    }
  }

  /** Every call keeps the table well-formed. A call that reports an error leaves names, inode numbers and the number of
      inodes as they were; only a write, by a short store, can have changed anything, and that is content. */
  lemma {:induction false} CallLaw(fs: Fs, c: Call)
    requires Inv(fs) && WellFormed(c)
    ensures Inv(Exec(fs, c).0)
    ensures Exec(fs, c).1 != OK ==> SameNames(fs, Exec(fs, c).0) && (!c.WriteFile? ==> Exec(fs, c).0 == fs)
  {
    match c
    case CreateFile(path, backingOk) => MakeLaw(fs, path, Regular, backingOk);
    case MakeDir(path) => MakeLaw(fs, path, Directory, true);
    case RemoveDir(path) => RmdirLaw(fs, path);
    case RenamePath(path, to) => RenameKeepsTable(fs, path, to);
    case UnlinkPath(path) => UnlinkLaw(fs, path);
    case WriteFile(fh, offset, data, io) => WriteKeepsTable(fs, fh, offset, data, io);
  }

  lemma {:induction false} RenameKeepsTable(fs: Fs, path: string, to: string)
    requires Inv(fs) && Absolute(path) && Absolute(to)
    ensures Inv(Rename(fs, path, to).0)
    ensures Rename(fs, path, to).1 != OK ==> Rename(fs, path, to).0 == fs
  {
    RenameFails(fs, path, to);
    if path != to && Rename(fs, path, to).1 == OK {
      RenameMovesOneSubtree(fs, path, to, []);
    }
  }

  lemma MakeLaw(fs: Fs, path: string, kind: Kind, backingOk: bool)
    requires Inv(fs) && Absolute(path) && !kind.Blank?
    ensures Inv(Make(fs, path, kind, backingOk).0)
    ensures Make(fs, path, kind, backingOk).1 != OK ==> Make(fs, path, kind, backingOk).0 == fs
  {
    MakeFails(fs, path, kind, backingOk);
    if Make(fs, path, kind, backingOk).1 == OK {
      MakeAddsOnePath(fs, path, kind, backingOk, []);
    }
  }

  predicate Sized(fs: Fs) {
    0 < fs.n <= |fs.inodes| == MAX_INODES
  }

  /** `trace` lists the table before and after every call of a run that starts from the empty filesystem. */
  ghost predicate IsRun(calls: seq<Call>, trace: seq<Fs>) {
    && |trace| == |calls| + 1 && trace[0] == NewFs()
    && forall i :: 0 <= i < |calls| ==>
         WellFormed(calls[i]) && Sized(trace[i]) && trace[i + 1] == Exec(trace[i], calls[i]).0
  }

  lemma {:induction false} InvRun(calls: seq<Call>, trace: seq<Fs>, i: nat)
    requires IsRun(calls, trace) && i <= |calls|
    ensures Inv(trace[i])
  {
    if i == 0 {
      InvEmpty();
    } else {
      InvRun(calls, trace, i - 1);
      CallLaw(trace[i - 1], calls[i - 1]);
    }
  }

  /** In every reachable table an inode has at most one path, a path names a live inode, and no path leads twice
      through the root. */
  lemma ReachableTablesAreTrees(calls: seq<Call>, trace: seq<Fs>, i: nat, p: seq<string>, q: seq<string>)
    requires IsRun(calls, trace) && i <= |calls|
    requires trace[i].n <= |trace[i].inodes| && Resolve(trace[i], p).Some?
    ensures Inv(trace[i])
    ensures Resolve(trace[i], p) == Resolve(trace[i], q) ==> p == q
    ensures trace[i].inodes[Resolve(trace[i], p).value].ino == Resolve(trace[i], p).value + 1
    ensures Resolve(trace[i], p) == Some(0) <==> p == []
  {
    InvRun(calls, trace, i);
    ResolvesToLive(trace[i], p);
    RootIsFirst(trace[i], []);
    if Resolve(trace[i], p) == Resolve(trace[i], q) {
      UniquePath(trace[i], p, q);
    }
    if Resolve(trace[i], p) == Some(0) {
      UniquePath(trace[i], p, []);
    }
  }
}

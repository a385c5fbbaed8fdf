/** What becomes of a file's content in a run of filesystem calls: it only grows until the file is unlinked, and a slot
    that is used again starts empty. */
module InodeContent {
  import opened Entries
  import opened Slashes
  import opened AppendFile
  import opened Inodes
  import opened InodeLaws
  import opened RenameLaw
  import opened InodeRuns

  /** Slot k holds a regular file. */
  ghost predicate LiveFile(fs: Fs, k: nat) {
    k < |fs.inodes| && fs.inodes[k].ino == k + 1 && fs.inodes[k].kind.Regular?
  }

  /** The call unlinks the file in slot k. */
  ghost predicate Unlinks(fs: Fs, c: Call, k: nat)
    requires Sized(fs) && WellFormed(c)
  {
    c.UnlinkPath? && Exec(fs, c).1 == OK && PathToInode(fs, c.path) == Some(k)
  }

  /** The slot still holds the same file, with all its content. */
  ghost predicate SameFile(fs: Fs, fs': Fs, k: nat) {
    && k < |fs.inodes| == |fs'.inodes|
    && fs'.inodes[k].ino == fs.inodes[k].ino && fs'.inodes[k].kind == fs.inodes[k].kind
    && Grows(fs.inodes[k].data, fs'.inodes[k].data)
  }

  lemma {:induction false} MakeContent(fs: Fs, path: string, kind: Kind, backingOk: bool, k: nat)
    requires Inv(fs) && Absolute(path) && !kind.Blank? && k < MAX_INODES
    ensures var fs' := Make(fs, path, kind, backingOk).0;
            && (LiveFile(fs, k) ==> SameFile(fs, fs', k))
            && (!LiveFile(fs, k) && LiveFile(fs', k) ==> fs'.inodes[k].data == EMPTY)
  {
    if Make(fs, path, kind, backingOk).1 == OK {
      var d := MakeIs(fs, path, kind, backingOk);
      assert GoodSlot(fs, k) && GoodSlot(fs, d);
    } else {
      MakeFails(fs, path, kind, backingOk);
    }
  }

  lemma {:induction false} RmdirContent(fs: Fs, path: string, k: nat)
    requires Inv(fs) && Absolute(path) && k < MAX_INODES
    ensures var fs' := Rmdir(fs, path).0;
            (LiveFile(fs, k) ==> SameFile(fs, fs', k)) && (LiveFile(fs', k) ==> LiveFile(fs, k))
  {
  }

  lemma {:induction false} UnlinkContent(fs: Fs, path: string, k: nat)
    requires Inv(fs) && Absolute(path) && k < MAX_INODES
    ensures var fs' := Unlink(fs, path).0;
            && (LiveFile(fs', k) ==> LiveFile(fs, k))
            && (LiveFile(fs, k) ==>
                  if Unlink(fs, path).1 == OK && PathToInode(fs, path) == Some(k) then fs'.inodes[k] == CLEARED
                  else SameFile(fs, fs', k))
  {
    if Unlink(fs, path).1 != OK {
      UnlinkLaw(fs, path);
    }
  }

  lemma {:induction false} RenameContent(fs: Fs, path: string, to: string, k: nat)
    requires Inv(fs) && Absolute(path) && Absolute(to) && k < MAX_INODES
    ensures var fs' := Rename(fs, path, to).0;
            (LiveFile(fs, k) ==> SameFile(fs, fs', k)) && (LiveFile(fs', k) ==> LiveFile(fs, k))
  {
    RenameFails(fs, path, to);
    if path != to && Rename(fs, path, to).1 == OK {
      RenameMovesOneSubtree(fs, path, to, []);
      assert Rename(fs, path, to).0.inodes[k].(children := []) == fs.inodes[k].(children := []);
    }
  }

  lemma {:induction false} WriteContent(fs: Fs, fh: nat, offset: nat, data: seq<byte>, io: Io, k: nat)
    requires Inv(fs) && k < MAX_INODES
    ensures var fs' := WriteThrough(fs, fh, offset, data, io).0;
            (LiveFile(fs, k) ==> SameFile(fs, fs', k)) && (LiveFile(fs', k) ==> LiveFile(fs, k))
  {
    WriteGrows(fs.inodes[k].data, offset, data, io);
  }

  /** One call: a file keeps its slot and its content exactly unless the call unlinks it, and a slot that becomes a file
      starts empty. */
  lemma {:induction false} CallContent(fs: Fs, c: Call, k: nat)
    requires Inv(fs) && WellFormed(c) && k < MAX_INODES
    ensures var fs' := Exec(fs, c).0;
            && (LiveFile(fs, k) ==> if Unlinks(fs, c, k) then fs'.inodes[k] == CLEARED else SameFile(fs, fs', k))
            && (!LiveFile(fs, k) && LiveFile(fs', k) ==> fs'.inodes[k].data == EMPTY)
  {
    match c
    case CreateFile(path, backingOk) => MakeContent(fs, path, Regular, backingOk, k);
    case MakeDir(path) => MakeContent(fs, path, Directory, true, k);
    case RemoveDir(path) => RmdirContent(fs, path, k);
    case RenamePath(path, to) => RenameContent(fs, path, to, k);
    case UnlinkPath(path) => UnlinkContent(fs, path, k);
    case WriteFile(fh, offset, data, io) => WriteContent(fs, fh, offset, data, io, k);
  }

  lemma {:induction false} StepContent(calls: seq<Call>, trace: seq<Fs>, i: nat, k: nat)
    requires IsRun(calls, trace) && i < |calls| && k < MAX_INODES
    ensures LiveFile(trace[i], k) ==>
              if Unlinks(trace[i], calls[i], k) then !LiveFile(trace[i + 1], k) else SameFile(trace[i], trace[i + 1], k)
    ensures !LiveFile(trace[i], k) && LiveFile(trace[i + 1], k) ==> trace[i + 1].inodes[k].data == EMPTY
  {
    InvRun(calls, trace, i);
    CallContent(trace[i], calls[i], k);
  }

  lemma {:induction false} SameFileTwice(a: Fs, b: Fs, c: Fs, k: nat)
    requires LiveFile(a, k) && SameFile(a, b, k) && SameFile(b, c, k)
    ensures LiveFile(c, k) && SameFile(a, c, k)
  {
  }

  /** No call from step i up to step j unlinks the file in slot k. */
  ghost predicate NotUnlinked(calls: seq<Call>, trace: seq<Fs>, i: nat, j: nat, k: nat)
    requires IsRun(calls, trace) && j <= |calls|
  {
    forall m :: i <= m < j ==> !Unlinks(trace[m], calls[m], k)
  }

  lemma {:induction false} SameFileAlong(trace: seq<Fs>, i: nat, j: nat, k: nat)
    requires i <= j < |trace| && LiveFile(trace[i], k)
    requires forall m :: i <= m < j && LiveFile(trace[m], k) ==> SameFile(trace[m], trace[m + 1], k)
    ensures LiveFile(trace[j], k) && SameFile(trace[i], trace[j], k)
    decreases j
  {
    if i < j {
      SameFileAlong(trace, i, j - 1, k);
      SameFileTwice(trace[i], trace[j - 1], trace[j], k);
    }
  }

  lemma {:induction false} FileStays(calls: seq<Call>, trace: seq<Fs>, i: nat, j: nat, k: nat)
    requires IsRun(calls, trace) && i <= j <= |calls| && k < MAX_INODES && LiveFile(trace[i], k)
    requires NotUnlinked(calls, trace, i, j, k)
    ensures LiveFile(trace[j], k) && SameFile(trace[i], trace[j], k)
  {
    forall m | i <= m < j && LiveFile(trace[m], k) ensures SameFile(trace[m], trace[m + 1], k) {
      StepContent(calls, trace, m, k);
    }
    SameFileAlong(trace, i, j, k);
  }

  /** A byte once readable stays until unlink, in every run of create, mkdir, rmdir, rename, unlink and write, whatever
      each write stores: what a read returned stays the front of what it returns, and a read within the stored content
      returns the same. */
  lemma {:induction false} ContentStaysUntilUnlink(
      calls: seq<Call>, trace: seq<Fs>, i: nat, j: nat, k: nat, offset: nat, count: nat)
    requires IsRun(calls, trace) && i <= j <= |calls| && k < MAX_INODES && LiveFile(trace[i], k)
    requires NotUnlinked(calls, trace, i, j, k)
    ensures LiveFile(trace[j], k)
    ensures var f, g := trace[i].inodes[k].data, trace[j].inodes[k].data;
            && f.bytes <= g.bytes && Read(f, offset, count) <= Read(g, offset, count)
            && (offset + count <= f.size && offset + count <= |f.bytes| ==>
                  Read(g, offset, count) == Read(f, offset, count))
  {
    FileStays(calls, trace, i, j, k);
    GrowthKeepsReads(trace[i].inodes[k].data, trace[j].inodes[k].data, offset, count);
  }

  lemma {:induction false} NewFileStartsEmpty(calls: seq<Call>, trace: seq<Fs>, i: nat, j: nat, k: nat) returns (m: nat)
    requires IsRun(calls, trace) && i <= j <= |calls| && k < MAX_INODES
    requires !LiveFile(trace[i], k) && LiveFile(trace[j], k)
    ensures i < m <= j && LiveFile(trace[m], k) && trace[m].inodes[k].data == EMPTY
    decreases j
  {
    if LiveFile(trace[j - 1], k) {
      m := NewFileStartsEmpty(calls, trace, i, j - 1, k);
    } else {
      StepContent(calls, trace, j - 1, k);
      m := j;
    }
  }

  /** An unlinked file is gone, and whatever file the slot holds later began empty after the unlink. */
  lemma {:induction false} ReusedSlotStartsEmpty(
      calls: seq<Call>, trace: seq<Fs>, i: nat, j: nat, k: nat) returns (m: nat)
    requires IsRun(calls, trace) && i < j <= |calls| && k < MAX_INODES && LiveFile(trace[i], k)
    requires Unlinks(trace[i], calls[i], k) && LiveFile(trace[j], k)
    ensures i + 1 < m <= j && LiveFile(trace[m], k) && trace[m].inodes[k].data == EMPTY
  {
    StepContent(calls, trace, i, k);
    m := NewFileStartsEmpty(calls, trace, i + 1, j, k);
  }

  /** A write through a directory's inode: it succeeds under the same conditions as on a file, except on the root, where
      it never does; it changes the directory's size and no name; and on a directory that was not written before, the
      bytes it acknowledges are not stored at their offset. */
  lemma {:induction false} DirectoryWriteLaw(fs: Fs, k: nat, offset: nat, data: seq<byte>, io: Io)
    requires Inv(fs) && k < fs.n && fs.inodes[k].ino == k + 1 && fs.inodes[k].kind.Directory?
    ensures var (fs', err) := WriteThrough(fs, k + 1, offset, data, io); var f := fs.inodes[k].data;
            && SameNames(fs, fs') && k < |fs'.inodes|
            && (err == OK <==> k != 0 && offset >= f.size && io.Io? && io.counted >= |data|)
            && fs'.inodes[k].data.size == (if err == OK then offset + |data| else f.size)
            && (err == OK && f == NewNode(k, Directory).data ==> !HasAt(fs'.inodes[k].data, offset, data))
  {
    LookupLive(fs, k + 1);
    WriteKeepsTable(fs, k + 1, offset, data, io);
  }
}

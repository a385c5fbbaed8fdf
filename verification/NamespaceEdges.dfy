/** Exactly when a committed request keeps the namespace tidy, and what becomes of paths that do not fit their field
    or that hold a NUL. */
module NamespaceEdges {
  import opened Entries
  import opened Paths
  import opened MetadataMap
  import opened Namespace

  // ---------------------------------------------------------------- creating

  /** A new entry keeps the namespace tidy exactly when the path as stored is canonical, free and below a directory. */
  lemma {:induction false} NewEntryTidyIff(m: Directory, e: Entry)
    requires Tidy(m) && e.fileId !in m && e.Live()
    ensures Tidy(Put(m, e)) <==>
              GoodPath(e.path) && LiveDir(m, Parent(e.path)) && forall x :: !IsAt(m, e.path, x)
  {
    var m' := Put(m, e);
    if GoodPath(e.path) && LiveDir(m, Parent(e.path)) && forall x :: !IsAt(m, e.path, x) {
      AddKeepsTidy(m, e);
    }
    if Tidy(m') {
      assert GoodPath(m'[e.fileId].path) && HasParent(m', e.fileId);
      var p := Parent(e.path);
      if p != "/" {
        var d :| d in m' && m'[d].Live() && m'[d].path == p && m'[d].isDir;
        assert d in m;
      }
      forall x ensures !IsAt(m, e.path, x) {
        assert x.fileId in m ==> !Twins(m', x.fileId, e.fileId);
      }
    }
  }

  lemma {:induction false} StoredIsShort(s: string)
    ensures |Stored(s)| <= PATH_CHARS
    ensures Stored(s) == CString(s) <==> |CString(s)| <= PATH_CHARS
  {
  }

  lemma {:induction false} AppliedIsFoundIff(t: Table, m: Directory, e: Entry, p: string)
    requires Refines(t, m) && Tidy(m) && e.Live() && e.fileId !in m && LookupByPath(t, p).None?
    ensures LookupByPath(Apply(t, e), p) == Some(e) <==> e.path == p
  {
    ApplyRefines(t, m, e);
    LocateIs(t, m, p);
    LookupByPathRefines(Apply(t, e), Put(m, e), p);
    FoundIffStored(m, e, p, LookupByPath(Apply(t, e), p));
  }

  /** What was created can be found again exactly when its path fits the path field. */
  lemma {:induction false} CreatedIsFoundIff(t: Table, m: Directory, r: Request, w: World)
    requires Refines(t, m) && Tidy(m) && (r.Create? || r.Mkdir?) && w.id !in m && w.committed
             && Decide(t, r, w).Propose?
    ensures var e := Decide(t, r, w).entry;
            && Serve(t, r, w) == (Apply(t, e), Success)
            && (LookupByPath(Apply(t, e), Target(r)) == Some(e) <==> |Target(r)| <= PATH_CHARS)
  {
    MadeIsFoundIff(t, m, r, w, Decide(t, r, w).entry);
  }

  lemma {:induction false} MadeIsFoundIff(t: Table, m: Directory, r: Request, w: World, e: Entry)
    requires Refines(t, m) && Tidy(m) && (r.Create? || r.Mkdir?) && w.id !in m && Decide(t, r, w) == Propose(e)
    ensures LookupByPath(Apply(t, e), Target(r)) == Some(e) <==> |Target(r)| <= PATH_CHARS
  {
    MadeEntry(t, r, w);
    StoredIsShort(Join(Trim(Normalize(r.dir)), r.name));
    AppliedIsFoundIff(t, m, e, Target(r));
  }

  lemma {:induction false} MadeEntry(t: Table, r: Request, w: World)
    requires (r.Create? || r.Mkdir?) && Decide(t, r, w).Propose?
    ensures var e := Decide(t, r, w).entry;
            && e.fileId == w.id && e.Live() && e.path == Stored(Join(Trim(Normalize(r.dir)), r.name))
            && LookupByPath(t, Target(r)).None?
  {
  }

  lemma {:induction false} FoundIffStored(m: Directory, e: Entry, p: string, r: Option<Entry>)
    requires e.Live() && e.fileId !in m && forall x :: !IsAt(m, p, x)
    requires r.None? ==> forall id :: id in Put(m, e) && Put(m, e)[id].Live() ==> Put(m, e)[id].path != p
    requires r.Some? ==> IsAt(Put(m, e), p, r.value)
    ensures r == Some(e) <==> e.path == p
  {
    assert e.fileId in Put(m, e) && Put(m, e)[e.fileId] == e;
    if r.Some? {
      assert !IsAt(m, p, r.value);
    }
  }

  ghost predicate ShortPaths(m: Directory) {
    forall id :: id in m ==> |m[id].path| <= PATH_CHARS
  }

  lemma {:induction false} NoLongPaths(t: Table, m: Directory, p: string)
    requires Refines(t, m) && |p| > PATH_CHARS && ShortPaths(m)
    ensures LookupByPath(t, p).None?
  {
    LookupByPathRefines(t, m, p);
  }

  /** The entry under which a file of this name is created in the root. */
  function RootFile(name: string, w: World): Entry {
    Entry(w.id, Stored("/" + name), Active, 0, false, w.selected, 1)
  }

  lemma {:induction false} ProposeInRoot(t: Table, name: string, w: World)
    requires |t.buckets| == BUCKETS && ValidName(name) && w.committed && w.selected != []
    requires Locate(t, "/" + name).None?
    ensures Serve(t, Create("/", name), w) == (Apply(t, RootFile(name, w)), Success)
  {
    assert Join("/", name) == "/" + name;
  }

  lemma {:induction false} CreateLong(t: Table, m: Directory, name: string, w: World)
    requires Refines(t, m) && ShortPaths(m) && ValidName(name) && '\0' !in name && |name| >= PATH_CHARS
    requires w.committed && w.selected != []
    ensures Serve(t, Create("/", name), w) == (Apply(t, RootFile(name, w)), Success)
  {
    assert CString("/" + name) == "/" + name;
    NoLongPaths(t, m, "/" + name);
    ProposeInRoot(t, name, w);
  }

  lemma {:induction false} RootFileIsShort(m: Directory, name: string, w: World)
    requires ShortPaths(m)
    ensures ShortPaths(Put(m, RootFile(name, w)))
  {
  }

  /** Creating a name that does not fit twice in the root succeeds both times and leaves two live entries at one path,
      whatever the name and whatever the namespace held. */
  lemma {:induction false} LongNamesCollide(t: Table, m: Directory, name: string, w: World, w': World)
      returns (m2: Directory)
    requires Refines(t, m) && Tidy(m) && ValidName(name) && '\0' !in name && |name| >= PATH_CHARS
    requires w.id !in m && w'.id !in m && w.id != w'.id
    requires w.committed && w'.committed && w.selected != [] && w'.selected != []
    ensures var (t1, status) := Serve(t, Create("/", name), w);
            var (t2, status') := Serve(t1, Create("/", name), w');
            status == Success == status' && Refines(t2, m2) && w.id in m2 && w'.id in m2 && Twins(m2, w.id, w'.id)
  {
    assert forall id :: id in m ==> GoodPath(m[id].path);
    var e, e' := RootFile(name, w), RootFile(name, w');
    CreateLong(t, m, name, w);
    ApplyRefines(t, m, e);
    RootFileIsShort(m, name, w);
    CreateLong(Apply(t, e), Put(m, e), name, w');
    RefinesTwice(t, m, e, e');
    BothLive(m, e, e');
    m2 := Put(Put(m, e), e');
  }

  /** Creates that overlap: two that check the same map before either is committed both go through and leave two live
      entries at one path. */
  lemma {:induction false} OverlappingCreatesCollide(t: Table, m: Directory, r: Request, w: World, w': World)
      returns (m2: Directory)
    requires Refines(t, m) && (r.Create? || r.Mkdir?) && w.id !in m && w'.id !in m && w.id != w'.id
    requires Decide(t, r, w).Propose? && Decide(t, r, w').Propose?
    ensures Refines(Apply(Apply(t, Decide(t, r, w).entry), Decide(t, r, w').entry), m2)
    ensures w.id in m2 && w'.id in m2 && Twins(m2, w.id, w'.id)
  {
    var e, e' := Decide(t, r, w).entry, Decide(t, r, w').entry;
    MadeEntry(t, r, w);
    MadeEntry(t, r, w');
    RefinesTwice(t, m, e, e');
    BothLive(m, e, e');
    m2 := Put(Put(m, e), e');
  }

  lemma {:induction false} BothLive(m: Directory, e: Entry, e': Entry)
    requires e.Live() && e'.Live() && e.path == e'.path && e.fileId != e'.fileId
    ensures Twins(Put(Put(m, e), e'), e.fileId, e'.fileId)
  {
  }

  lemma {:induction false} RefinesTwice(t: Table, m: Directory, e: Entry, e': Entry)
    requires Refines(t, m)
    ensures Refines(Apply(Apply(t, e), e'), Put(Put(m, e), e'))
  {
    ApplyRefines(t, m, e);
    ApplyRefines(Apply(t, e), Put(m, e), e');
  }

  lemma {:induction false} AddTwice(m: Directory, e: Entry, e': Entry)
    requires Tidy(m) && e.Live() && e'.Live() && e.fileId !in m && e'.fileId !in m && e.fileId != e'.fileId
    requires Tidy(Put(m, e)) && Tidy(Put(m, e'))
    ensures Tidy(Put(Put(m, e), e')) <==> e.path != e'.path
  {
    NewEntryTidyIff(m, e');
    LiveDirStays(m, e, Parent(e'.path));
    if e.path == e'.path {
      BothLive(m, e, e');
    } else {
      forall x ensures !IsAt(Put(m, e), e'.path, x) {
        assert !IsAt(m, e'.path, x);
      }
      AddKeepsTidy(Put(m, e), e');
    }
  }

  /** Any two creates or mkdirs that both look at the map before either is committed: the namespace stays tidy exactly
      when their paths differ. */
  lemma {:induction false} OverlappingMakesTidyIff(
      t: Table, m: Directory, dir: string, name: string, isDir: bool, w: World, e: Entry,
      dir': string, name': string, isDir': bool, w': World, e': Entry)
    requires Refines(t, m) && Tidy(m) && w.id !in m && w'.id !in m && w.id != w'.id
    requires Fits(Join(Trim(Normalize(dir)), name)) && Fits(Join(Trim(Normalize(dir')), name'))
    requires DecideMake(t, dir, name, isDir, w) == Propose(e) && DecideMake(t, dir', name', isDir', w') == Propose(e')
    ensures Refines(Apply(Apply(t, e), e'), Put(Put(m, e), e'))
    ensures Tidy(Put(Put(m, e), e')) <==> Join(Trim(Normalize(dir)), name) != Join(Trim(Normalize(dir')), name')
  {
    MakeKeepsTidy(t, m, dir, name, isDir, w, e);
    MakeKeepsTidy(t, m, dir', name', isDir', w', e');
    AddTwice(m, e, e');
    RefinesTwice(t, m, e, e');
  }

  // ---------------------------------------------------------------- removing directories

  /** Deleting a directory keeps the namespace tidy exactly when nothing live is below it. */
  lemma {:induction false} DeletedDirTidyIff(m: Directory, was: Entry)
    requires Tidy(m) && IsAt(m, was.path, was) && was.isDir
    ensures Tidy(Put(m, Bump(was).(state := Deleted))) <==> Childless(m, was.path)
  {
    var e := Bump(was).(state := Deleted);
    if Childless(m, was.path) {
      ReplaceKeepsTidy(m, e);
    } else {
      var id :| id in m && m[id].Live() && Parent(m[id].path) == was.path;
      Orphan(m, e, id);
    }
  }

  lemma {:induction false} Orphan(m: Directory, gone: Entry, id: string)
    requires Tidy(m) && Follows(m, gone) && !gone.Live() && id in m && m[id].Live() && Parent(m[id].path) == gone.path
    ensures !HasParent(Put(m, gone), id)
  {
    assert GoodPath(m[id].path);
    assert |gone.path| < |m[id].path|;
    LiveDirGone(m, gone, gone.path);
  }

  lemma {:induction false} LiveDirGone(m: Directory, gone: Entry, p: string)
    requires Tidy(m) && Follows(m, gone) && !gone.Live()
    ensures LiveDir(Put(m, gone), p) <==> LiveDir(m, p) && p != gone.path
  {
    var m' := Put(m, gone);
    assert GoodPath(m[gone.fileId].path);
    if LiveDir(m, p) && p != gone.path {
      LiveDirStays(m, gone, p);
    }
    if p != "/" && LiveDir(m', p) {
      var d :| d in m' && m'[d].Live() && m'[d].path == p && m'[d].isDir;
      assert d in m && !Twins(m, d, gone.fileId);
    }
  }

  lemma {:induction false} NewHasParentIff(m: Directory, e: Entry)
    requires e.fileId !in m && e.Live() && Parent(e.path) != e.path
    ensures HasParent(Put(m, e), e.fileId) <==> LiveDir(m, Parent(e.path))
  {
    var m', p := Put(m, e), Parent(e.path);
    if LiveDir(m, p) {
      LiveDirStays(m, e, p);
    }
    if p != "/" && LiveDir(m', p) {
      var d :| d in m' && m'[d].Live() && m'[d].path == p && m'[d].isDir;
      assert d in m;
    }
  }

  lemma {:induction false} AddAfterDelete(m: Directory, gone: Entry, e: Entry)
    requires Tidy(m) && Follows(m, gone) && !gone.Live() && Tidy(Put(m, gone))
    requires e.Live() && e.fileId !in m && Tidy(Put(m, e))
    ensures Tidy(Put(Put(m, gone), e)) <==> Parent(e.path) != gone.path
    ensures HasParent(Put(Put(m, gone), e), e.fileId) <==> Parent(e.path) != gone.path
  {
    NewEntryTidyIff(m, e);
    LiveDirGone(m, gone, Parent(e.path));
    StillFree(m, gone, e.path);
    NewEntryTidyIff(Put(m, gone), e);
    assert |Parent(e.path)| < |e.path|;
    NewHasParentIff(Put(m, gone), e);
  }

  lemma {:induction false} StillFree(m: Directory, gone: Entry, p: string)
    requires !gone.Live() && forall x :: !IsAt(m, p, x)
    ensures forall x :: !IsAt(Put(m, gone), p, x)
  {
    assert forall x :: IsAt(Put(m, gone), p, x) ==> IsAt(m, p, x);
  }

  /** A create or mkdir that looked at the map before an rmdir was committed, and is committed after it: the namespace
      stays tidy exactly when the directory removed is not the new entry's parent. Otherwise the entry is an orphan. */
  lemma {:induction false} OverlappingRmdirOrphansIff(
      t: Table, m: Directory, dir: string, name: string, isDir: bool, w: World, e: Entry, path: string, gone: Entry)
    requires Refines(t, m) && Tidy(m) && w.id !in m && Fits(Join(Trim(Normalize(dir)), name)) && '\0' !in path
    requires DecideMake(t, dir, name, isDir, w) == Propose(e) && DecideRmdir(t, path) == Propose(gone)
    ensures Refines(Apply(Apply(t, gone), e), Put(Put(m, gone), e)) && e.fileId == w.id
    ensures Tidy(Put(Put(m, gone), e)) <==> Trim(Normalize(dir)) != Trim(Normalize(path))
    ensures HasParent(Put(Put(m, gone), e), w.id) <==> Trim(Normalize(dir)) != Trim(Normalize(path))
  {
    MakeKeepsTidy(t, m, dir, name, isDir, w, e);
    RmdirKeepsTidy(t, m, path, gone);
    AddAfterDelete(m, gone, e);
    RefinesTwice(t, m, gone, e);
  }

  /** The child check compares the whole request path, the search stops at a NUL: with a NUL in the path, a directory
      is removed whatever it holds. */
  lemma {:induction false} NulSkipsChildCheck(t: Table, m: Directory, path: string, w: World)
    requires Refines(t, m) && Tidy(m) && '\0' in Trim(Normalize(path))
    ensures Serve(t, Rmdir(path), w).1 == Success <==> w.committed && DirAt(m, CString(Trim(Normalize(path))))
  {
    RmdirSucceedsIff(t, path, w);
    NulProposesIff(t, m, path);
  }

  lemma {:induction false} RmdirSucceedsIff(t: Table, path: string, w: World)
    requires |t.buckets| == BUCKETS
    ensures Serve(t, Rmdir(path), w).1 == Success <==> w.committed && DecideRmdir(t, path).Propose?
  {
    SuccessIsCommit(t, Rmdir(path), w);
  }

  ghost predicate DirAt(m: Directory, p: string) {
    exists e :: IsAt(m, p, e) && e.isDir
  }

  lemma {:induction false} NulProposesIff(t: Table, m: Directory, path: string)
    requires Refines(t, m) && Tidy(m) && '\0' in Trim(Normalize(path))
    ensures DecideRmdir(t, path).Propose? <==> DirAt(m, CString(Trim(Normalize(path))))
  {
    var p := Trim(Normalize(path));
    LocateIs(t, m, CString(p));
    TrimTwice(Normalize(path));
    NothingBelowNul(t, m, p);
    UncheckedRmdir(t, m, path, p);
  }

  lemma {:induction false} UncheckedRmdir(t: Table, m: Directory, path: string, p: string)
    requires p == Trim(Normalize(path)) && '\0' in p && !HasChildren(t, p)
    requires forall e :: LookupByPath(t, CString(p)) == Some(e) <==> IsAt(m, CString(p), e)
    ensures DecideRmdir(t, path).Propose? <==> DirAt(m, CString(p))
  {
    var found := LookupByPath(t, CString(p));
    assert found.Some? ==> IsAt(m, CString(p), found.value);
  }

  lemma {:induction false} NothingBelowNul(t: Table, m: Directory, p: string)
    requires Refines(t, m) && Tidy(m) && '\0' in p && Trim(p) == p
    ensures !HasChildren(t, p)
  {
    forall b, k | 0 <= b < |t.buckets| && 0 <= k < |t.buckets[b]| ensures !Below(t.buckets[b][k], p) {
      assert GoodChain(t.buckets[b], b, m);
      var c := t.buckets[b][k];
      assert GoodCell(c, b, m);
      assert GoodPath(m[c.key].path);
      NulIsNoPrefix(p, c.entry.path);
    }
  }

  lemma {:induction false} NulIsNoPrefix(p: string, q: string)
    requires '\0' in p && Trim(p) == p && '\0' !in q
    ensures DirectChild(p, Trim(q)).None?
  {
    var i :| 0 <= i < |p| && p[i] == '\0';
    assert Prefix(p)[i] == p[i];
  }
}

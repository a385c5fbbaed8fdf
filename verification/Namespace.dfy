/** The frontend's namespace requests as decisions on the metadata map, and the invariant that every serial run of
    them keeps. */
module Namespace {
  import opened Entries
  import opened Slashes
  import opened Paths
  import opened MetadataMap

  const PATH_CHARS: nat := 4095

  /** What a C string function sees of a string: everything before the first NUL. */
  function CString(s: string): (r: string)
    ensures r <= s && '\0' !in r && ('\0' !in s ==> r == s)
    decreases |s|
  {
    if '\0' !in s then s else CString(s[..|s| - 1])
  }

  /** What the fixed-size path field keeps. */
  function Stored(s: string): string {
    var c := CString(s);
    if |c| > PATH_CHARS then c[..PATH_CHARS] else c
  }

  predicate Fits(s: string) {
    |s| <= PATH_CHARS && '\0' !in s
  }

  datatype Request =
    | Create(dir: string, name: string)
    | Mkdir(dir: string, name: string)
    | Remove(path: string)
    | Rmdir(path: string)
    | Write(path: string, offset: int, len: nat)

  /** What the world contributes to one request: the new file id, the storage nodes selected (0 for a node that is no
      longer registered), the replicas that acknowledge, and whether consensus commits the proposal. */
  datatype World = World(id: string, selected: seq<nat>, acks: set<nat>, committed: bool)

  datatype Status = Success | EINVAL | ENOENT | EEXIST | ENODEV | EIO | EISDIR | ENOTDIR | ENOTEMPTY

  datatype Decision = Refuse(status: Status) | Propose(entry: Entry)

  // ---------------------------------------------------------------- the requests

  function Locate(t: Table, path: string): Option<Entry> {
    LookupByPath(t, CString(path))
  }

  function ExistingDirectory(t: Table, path: string): bool {
    var p := Trim(Normalize(path));
    p == "/" || (Locate(t, p).Some? && Locate(t, p).value.isDir)
  }

  /** A stored entry as a scan of the map sees it: live, and directly below this directory. */
  predicate Below(c: Cell, dir: string) {
    c.entry.Live() && DirectChild(dir, Trim(c.entry.path)).Some?
  }

  ghost predicate HasChildren(t: Table, dir: string) {
    exists b, k {:trigger Below(t.buckets[b][k], dir)} ::
      0 <= b < |t.buckets| && 0 <= k < |t.buckets[b]| && Below(t.buckets[b][k], dir)
  }

  /** The replicas that are named and acknowledged. */
  function Acks(nodes: seq<nat>, acks: set<nat>): nat {
    if nodes == [] then 0
    else Acks(nodes[..|nodes| - 1], acks)
         + if nodes[|nodes| - 1] != 0 && |nodes| - 1 in acks then 1 else 0
  }

  function QuorumOf(nodes: seq<nat>): nat {
    |nodes| / 2 + 1
  }

  function Bump(e: Entry): Entry {
    e.(version := (e.version + 1) % U64)
  }

  function DecideMake(t: Table, dir: string, name: string, isDir: bool, w: World): Decision {
    var parent := Trim(Normalize(dir));
    var full := Join(parent, name);
    if !ValidName(name) then Refuse(EINVAL)
    else if !ExistingDirectory(t, parent) then Refuse(ENOENT)
    else if Locate(t, full).Some? then Refuse(EEXIST)
    else if !isDir && w.selected == [] then Refuse(ENODEV)
    else Propose(Entry(w.id, Stored(full), Active, 0, isDir, if isDir then [] else w.selected, 1))
  }

  function DecideRemove(t: Table, path: string, w: World): Decision {
    var p := Trim(Normalize(path));
    var found := Locate(t, p);
    if p == "/" then Refuse(EINVAL)
    else if found.None? then Refuse(ENOENT)
    else if found.value.isDir then Refuse(EISDIR)
    else if found.value.nodes != [] && Acks(found.value.nodes, w.acks) < QuorumOf(found.value.nodes) then Refuse(EIO)
    else Propose(Bump(found.value).(state := Deleted))
  }

  ghost function DecideRmdir(t: Table, path: string): Decision {
    var p := Trim(Normalize(path));
    var found := Locate(t, p);
    if p == "/" then Refuse(EINVAL)
    else if found.None? then Refuse(ENOENT)
    else if !found.value.isDir then Refuse(ENOTDIR)
    else if HasChildren(t, p) then Refuse(ENOTEMPTY)
    else Propose(Bump(found.value).(state := Deleted))
  }

  /** An offset of zero on a file that has content means "append". */
  function Grown(size: nat, offset: int, len: nat): nat {
    var end := ((if offset == 0 then size else offset) + len) % U64;
    if end > size then end else size
  }

  function DecideWrite(t: Table, path: string, offset: int, len: nat, w: World): Decision {
    var found := Locate(t, Normalize(path));
    if found.None? then Refuse(ENOENT)
    else if found.value.nodes == [] then Refuse(ENODEV)
    else if Acks(found.value.nodes, w.acks) < QuorumOf(found.value.nodes) then Refuse(EIO)
    else Propose(Bump(found.value).(size := Grown(found.value.size, offset, len)))
  }

  ghost function Decide(t: Table, r: Request, w: World): Decision {
    match r
    case Create(dir, name) => DecideMake(t, dir, name, false, w)
    case Mkdir(dir, name) => DecideMake(t, dir, name, true, w)
    case Remove(path) => DecideRemove(t, path, w)
    case Rmdir(path) => DecideRmdir(t, path)
    case Write(path, offset, len) => DecideWrite(t, path, offset, len, w)
  }

  /** A proposal changes the map exactly if consensus commits it. */
  function Settle(t: Table, d: Decision, w: World): (Table, Status)
    requires |t.buckets| == BUCKETS
  {
    if d.Refuse? then (t, d.status)
    else if w.committed then (Apply(t, d.entry), Success)
    else (t, EIO)
  }

  ghost function Serve(t: Table, r: Request, w: World): (Table, Status)
    requires |t.buckets| == BUCKETS
  {
    Settle(t, Decide(t, r, w), w)
  }

  // ---------------------------------------------------------------- the invariant

  /** This entry is the map's live entry at this path. */
  ghost predicate IsAt(m: Directory, p: string, e: Entry) {
    e.fileId in m && m[e.fileId] == e && e.Live() && e.path == p
  }

  ghost predicate LiveDir(m: Directory, p: string) {
    p == "/" || exists id :: id in m && m[id].Live() && m[id].path == p && m[id].isDir
  }

  ghost predicate GoodPath(p: string) {
    Canonical(p) && p != "/" && Fits(p)
  }

  ghost predicate HasParent(m: Directory, id: string)
    requires id in m
  {
    m[id].Live() ==> LiveDir(m, Parent(m[id].path))
  }

  ghost predicate Twins(m: Directory, i: string, j: string)
    requires i in m && j in m
  {
    i != j && m[i].Live() && m[j].Live() && m[i].path == m[j].path
  }

  /** Paths are canonical, every live entry's parent is the root or a live directory, and no path has two
      live entries. */
  ghost predicate Tidy(m: Directory) {
    && (forall id {:trigger GoodPath(m[id].path)} :: id in m ==> GoodPath(m[id].path))
    && (forall id {:trigger HasParent(m, id)} :: id in m ==> HasParent(m, id))
    && (forall i, j {:trigger Twins(m, i, j)} :: i in m && j in m ==> !Twins(m, i, j))
  }

  /** Under the invariant a path search is exact. */
  lemma {:induction false} LocateIs(t: Table, m: Directory, p: string)
    requires Refines(t, m) && Tidy(m)
    ensures forall e :: LookupByPath(t, p) == Some(e) <==> IsAt(m, p, e)
  {
    LookupByPathRefines(t, m, p);
    var r := LookupByPath(t, p);
    forall e ensures r == Some(e) <==> IsAt(m, p, e) {
      if IsAt(m, p, e) {
        assert r.Some?;
        assert !Twins(m, r.value.fileId, e.fileId);
      }
    }
  }

  lemma {:induction false} LiveDirStays(m: Directory, e: Entry, p: string)
    requires LiveDir(m, p) && (e.fileId in m ==> (m[e.fileId].path == p && m[e.fileId].Live() && m[e.fileId].isDir
                                                  ==> e.Live() && e.isDir && e.path == p))
    ensures LiveDir(Put(m, e), p)
  {
    if p != "/" {
      var d :| d in m && m[d].Live() && m[d].path == p && m[d].isDir;
      assert d in Put(m, e);
    }
  }

  lemma {:induction false} AddKeepsTidy(m: Directory, e: Entry)
    requires Tidy(m) && e.fileId !in m && e.Live()
    requires GoodPath(e.path) && LiveDir(m, Parent(e.path)) && forall x :: !IsAt(m, e.path, x)
    ensures Tidy(Put(m, e))
  {
    var m' := Put(m, e);
    forall id | id in m' ensures GoodPath(m'[id].path) && HasParent(m', id) {
      if id != e.fileId {
        assert GoodPath(m[id].path) && HasParent(m, id);
      }
      if m'[id].Live() {
        LiveDirStays(m, e, Parent(m'[id].path));
      }
    }
    forall i, j | i in m' && j in m' ensures !Twins(m', i, j) {
      assert i != e.fileId ==> !IsAt(m, e.path, m[i]);
      assert j != e.fileId ==> !IsAt(m, e.path, m[j]);
      assert i in m && j in m ==> !Twins(m, i, j);
    }
  }

  /** Replacing a live entry at its own path. */
  ghost predicate Replaces(m: Directory, e: Entry) {
    && e.fileId in m && m[e.fileId].Live() && m[e.fileId].path == e.path && m[e.fileId].isDir == e.isDir
    && (e.Live() || !e.isDir || Childless(m, e.path))
  }

  lemma {:induction false} ReplaceKeepsParent(m: Directory, e: Entry, id: string)
    requires Replaces(m, e) && id in m && HasParent(m, id)
    ensures HasParent(Put(m, e), id)
  {
    if Put(m, e)[id].Live() {
      LiveDirStays(m, e, Parent(m[id].path));
    }
  }

  lemma {:induction false} ReplaceKeepsTidy(m: Directory, e: Entry)
    requires Tidy(m) && Replaces(m, e)
    ensures Tidy(Put(m, e))
  {
    var m' := Put(m, e);
    forall id | id in m' ensures GoodPath(m'[id].path) {
      assert GoodPath(m[id].path);
    }
    forall id | id in m' ensures HasParent(m', id) {
      assert HasParent(m, id);
      ReplaceKeepsParent(m, e, id);
    }
    forall i, j | i in m' && j in m' ensures !Twins(m', i, j) {
      assert !Twins(m, i, j);
    }
  }

  ghost predicate Childless(m: Directory, p: string) {
    forall id :: id in m && m[id].Live() ==> Parent(m[id].path) != p
  }

  // ---------------------------------------------------------------- what each request does

  /** The path a request is about. */
  function Target(r: Request): string {
    match r
    case Create(dir, name) => CString(Join(Trim(Normalize(dir)), name))
    case Mkdir(dir, name) => CString(Join(Trim(Normalize(dir)), name))
    case Remove(path) => CString(Trim(Normalize(path)))
    case Rmdir(path) => CString(Trim(Normalize(path)))
    case Write(path, _, _) => CString(Normalize(path))
  }

  /** What the requests need of their strings: a path that is stored fits its field, and one that is both searched as
      a C string and compared as a whole holds no NUL. */
  predicate Clean(r: Request) {
    match r
    case Create(dir, name) => Fits(Join(Trim(Normalize(dir)), name))
    case Mkdir(dir, name) => Fits(Join(Trim(Normalize(dir)), name))
    case Rmdir(path) => '\0' !in path
    case _ => true
  }

  lemma {:induction false} JoinFits(dir: string, name: string)
    requires Absolute(dir) && Trim(dir) == dir && Fits(Join(dir, name))
    ensures CString(Join(dir, name)) == Join(dir, name) == Stored(Join(dir, name)) && CString(dir) == dir
  {
    assert Join(dir, name) == Prefix(dir) + name;
    assert forall i :: 0 <= i < |dir| ==> Join(dir, name)[i] == dir[i];
  }

  /** The parent a make request found is a canonical live directory. */
  lemma {:induction false} ParentIs(t: Table, m: Directory, p: string)
    requires Refines(t, m) && Tidy(m) && Absolute(p) && Trim(p) == p && CString(p) == p
    ensures ExistingDirectory(t, p) <==> LiveDir(m, p)
    ensures LiveDir(m, p) ==> Canonical(p)
  {
    LocateIs(t, m, p);
    if p != "/" {
      if ExistingDirectory(t, p) {
        var e := LookupByPath(t, p).value;
        assert IsAt(m, p, e);
        assert e.fileId in m;
      }
      if LiveDir(m, p) {
        var d :| d in m && m[d].Live() && m[d].path == p && m[d].isDir;
        assert IsAt(m, p, m[d]);
        assert GoodPath(m[d].path);
      }
    }
  }

  /** A new entry under a directory that exists, at a path that is free. */
  lemma {:induction false} NewEntry(t: Table, m: Directory, parent: string, name: string, e: Entry)
    requires Refines(t, m) && Tidy(m) && e.fileId !in m && e.Live()
    requires Absolute(parent) && Trim(parent) == parent && Fits(Join(parent, name)) && ValidName(name)
    requires ExistingDirectory(t, parent) && Locate(t, Join(parent, name)).None? && e.path == Stored(Join(parent, name))
    ensures Tidy(Put(m, e)) && e.path == CString(Join(parent, name)) && Parent(e.path) == parent
  {
    JoinFits(parent, name);
    ParentIs(t, m, parent);
    JoinCanonical(parent, name);
    LocateIs(t, m, Join(parent, name));
    AddKeepsTidy(m, e);
  }

  lemma {:induction false} MakeKeepsTidy(
      t: Table, m: Directory, dir: string, name: string, isDir: bool, w: World, e: Entry)
    requires Refines(t, m) && Tidy(m) && w.id !in m && Fits(Join(Trim(Normalize(dir)), name))
    requires DecideMake(t, dir, name, isDir, w) == Propose(e)
    ensures Tidy(Put(m, e)) && e.fileId == w.id && e.version == 1 && e.Live()
    ensures e.path == CString(Join(Trim(Normalize(dir)), name)) && Parent(e.path) == Trim(Normalize(dir))
  {
    TrimTwice(Normalize(dir));
    NewEntry(t, m, Trim(Normalize(dir)), name, e);
  }

  /** A scan of the map for children is a statement about parents. */
  lemma {:induction false} ScanIs(t: Table, m: Directory, dir: string)
    requires Refines(t, m) && Tidy(m) && Canonical(dir)
    ensures HasChildren(t, dir) <==> !Childless(m, dir)
  {
    if HasChildren(t, dir) {
      var b, k :| 0 <= b < |t.buckets| && 0 <= k < |t.buckets[b]| && Below(t.buckets[b][k], dir);
      assert GoodChain(t.buckets[b], b, m);
      assert GoodCell(t.buckets[b][k], b, m);
      BelowIs(t.buckets[b][k], dir);
    }
    if !Childless(m, dir) {
      var id :| id in m && m[id].Live() && Parent(m[id].path) == dir;
      assert Present(t, id);
      var b := HashString(id);
      var k := FindKey(t.buckets[b], id);
      assert GoodChain(t.buckets[b], b, m);
      assert GoodCell(t.buckets[b][k], b, m);
      BelowIs(t.buckets[b][k], dir);
    }
  }

  lemma {:induction false} BelowIs(c: Cell, dir: string)
    requires GoodPath(c.entry.path) && Canonical(dir)
    ensures Below(c, dir) <==> c.entry.Live() && Parent(c.entry.path) == dir
    ensures Below(c, dir) ==> DirectChild(dir, Trim(c.entry.path)) == Some(Name(c.entry.path))
  {
    CanonicalIsTrimmed(c.entry.path);
    ChildOfParent(dir, c.entry.path);
  }

  lemma {:induction false} FoundIs(t: Table, m: Directory, p: string) returns (e: Entry)
    requires Refines(t, m) && Tidy(m) && LookupByPath(t, p).Some?
    ensures LookupByPath(t, p) == Some(e) && IsAt(m, p, e) && GoodPath(p)
  {
    e := LookupByPath(t, p).value;
    LocateIs(t, m, p);
    assert GoodPath(m[e.fileId].path);
  }

  lemma {:induction false} NextVersion(m: Directory, was: Entry, e: Entry)
    requires Tidy(m) && IsAt(m, was.path, was)
    requires e == Bump(was).(state := e.state, size := e.size)
    requires e.Live() || !e.isDir || Childless(m, e.path)
    ensures Tidy(Put(m, e)) && Follows(m, e)
  {
    ReplaceKeepsTidy(m, e);
  }

  lemma {:induction false} RemoveKeepsTidy(t: Table, m: Directory, path: string, w: World, was: Entry)
    requires Tidy(m) && DecideRemove(t, path, w).Propose?
    requires Locate(t, Trim(Normalize(path))) == Some(was) && IsAt(m, CString(Trim(Normalize(path))), was)
    ensures var e := DecideRemove(t, path, w).entry;
            Tidy(Put(m, e)) && Follows(m, e) && e.path == CString(Trim(Normalize(path)))
  {
    NextVersion(m, was, DecideRemove(t, path, w).entry);
  }

  lemma {:induction false} RmdirKeepsTidy(t: Table, m: Directory, path: string, e: Entry)
    requires Refines(t, m) && Tidy(m) && '\0' !in path && DecideRmdir(t, path) == Propose(e)
    ensures Tidy(Put(m, e)) && Follows(m, e) && !e.Live()
    ensures e.path == CString(Trim(Normalize(path))) == Trim(Normalize(path))
  {
    var p := Trim(Normalize(path));
    assert CString(p) == p;
    var was := FoundIs(t, m, p);
    ScanIs(t, m, p);
    NextVersion(m, was, e);
  }

  lemma {:induction false} WriteKeepsTidy(
      t: Table, m: Directory, path: string, offset: int, len: nat, w: World, was: Entry)
    requires Tidy(m) && DecideWrite(t, path, offset, len, w).Propose?
    requires Locate(t, Normalize(path)) == Some(was) && IsAt(m, CString(Normalize(path)), was)
    ensures var e := DecideWrite(t, path, offset, len, w).entry;
            Tidy(Put(m, e)) && Follows(m, e) && e.path == CString(Normalize(path))
  {
    NextVersion(m, was, DecideWrite(t, path, offset, len, w).entry);
  }

  /** A new version of a live entry: same file, same path and type, one version later. */
  ghost predicate Follows(m: Directory, e: Entry) {
    && e.fileId in m && m[e.fileId].Live()
    && m[e.fileId].path == e.path && m[e.fileId].isDir == e.isDir && m[e.fileId].nodes == e.nodes
    && e.version == (m[e.fileId].version + 1) % U64
  }

  /** Every request keeps the namespace tidy; what it commits is a first version or the next version of a live entry. */
  lemma {:induction false} DecideKeepsTidy(t: Table, m: Directory, r: Request, w: World)
    requires Refines(t, m) && Tidy(m) && Clean(r) && w.id !in m
    ensures var d := Decide(t, r, w);
            d.Propose? ==>
              && Tidy(Put(m, d.entry)) && d.entry.path == Target(r)
              && (d.entry.fileId in m ==> Follows(m, d.entry))
              && (d.entry.fileId !in m ==> d.entry.fileId == w.id && d.entry.version == 1 && d.entry.Live())
  {
    if Decide(t, r, w).Propose? {
      match r
      case Create(dir, name) => MakeKeepsTidy(t, m, dir, name, false, w, Decide(t, r, w).entry);
      case Mkdir(dir, name) => MakeKeepsTidy(t, m, dir, name, true, w, Decide(t, r, w).entry);
      case Remove(path) =>
        var was := FoundIs(t, m, Target(r));
        RemoveKeepsTidy(t, m, path, w, was);
      case Rmdir(path) => RmdirKeepsTidy(t, m, path, Decide(t, r, w).entry);
      case Write(path, offset, len) =>
        var was := FoundIs(t, m, Target(r));
        WriteKeepsTidy(t, m, path, offset, len, w, was);
    }
  }

  lemma {:induction false} SettleMovesOnePath(t: Table, m: Directory, d: Decision, w: World, target: string, q: string)
    requires Refines(t, m) && Tidy(m) && d != Refuse(Success)
    requires d.Propose? ==>
               && Tidy(Put(m, d.entry)) && d.entry.path == target
               && if d.entry.fileId in m then Follows(m, d.entry) else d.entry.Live()
    ensures var (t', status) := Settle(t, d, w);
            if status != Success then t' == t
            else d.Propose? && LookupByPath(t', q) ==
                   if q != target then LookupByPath(t, q) else if d.entry.Live() then Some(d.entry) else None
  {
    if d.Propose? {
      ApplyMovesOnePath(t, m, d.entry, q);
    }
  }

  /** The whole effect on path lookups: only the request's own path can change, and a refused request
      changes nothing. */
  lemma {:induction false} ServeChangesOnePath(t: Table, m: Directory, r: Request, w: World, q: string)
    requires Refines(t, m) && Tidy(m) && Clean(r) && w.id !in m
    ensures var d := Decide(t, r, w); var (t', status) := Settle(t, d, w);
            && Serve(t, r, w) == (t', status)
            && if status != Success then t' == t
               else d.Propose? && LookupByPath(t', q) ==
                      if q != Target(r) then LookupByPath(t, q) else if d.entry.Live() then Some(d.entry) else None
  {
    SuccessIsCommit(t, r, w);
    DecideKeepsTidy(t, m, r, w);
    NeverRefusesSuccess(t, r, w);
    SettleMovesOnePath(t, m, Decide(t, r, w), w, Target(r), q);
  }

  lemma {:induction false} NeverRefusesSuccess(t: Table, r: Request, w: World)
    ensures Decide(t, r, w) != Refuse(Success)
  {
  }

  lemma {:induction false} ApplyMovesOnePath(t: Table, m: Directory, e: Entry, q: string)
    requires Refines(t, m) && Tidy(m) && Tidy(Put(m, e))
    requires if e.fileId in m then m[e.fileId].Live() && m[e.fileId].path == e.path else e.Live()
    ensures LookupByPath(Apply(t, e), q) ==
              if q != e.path then LookupByPath(t, q) else if e.Live() then Some(e) else None
  {
    ApplyRefines(t, m, e);
    LocateIs(t, m, q);
    LocateIs(Apply(t, e), Put(m, e), q);
    PutMovesOnePath(m, e, q, LookupByPath(t, q), LookupByPath(Apply(t, e), q));
  }

  lemma {:induction false} PutMovesOnePath(m: Directory, e: Entry, q: string, was: Option<Entry>, now: Option<Entry>)
    requires Tidy(m) && Tidy(Put(m, e))
    requires forall x :: was == Some(x) <==> IsAt(m, q, x)
    requires forall x :: now == Some(x) <==> IsAt(Put(m, e), q, x)
    requires e.fileId in m ==> m[e.fileId].Live() && m[e.fileId].path == e.path
    requires e.fileId !in m ==> e.Live()
    ensures now == if q != e.path then was else if e.Live() then Some(e) else None
  {
    assert was.Some? ==> IsAt(m, q, was.value);
    assert now.Some? ==> IsAt(Put(m, e), q, now.value);
    if q != e.path {
      assert was.Some? ==> IsAt(Put(m, e), q, was.value);
      assert now.Some? ==> IsAt(m, q, now.value);
    } else if e.Live() {
      assert IsAt(Put(m, e), q, e);
    } else {
      assert forall id :: id in m ==> !Twins(m, id, e.fileId);
    }
  }

  // ---------------------------------------------------------------- when a request succeeds

  /** The namespace rule for each request, stated on the plain map. */
  ghost predicate Permitted(m: Directory, r: Request, w: World) {
    match r
    case Create(dir, name) =>
      ValidName(name) && LiveDir(m, Trim(Normalize(dir))) && (forall e :: !IsAt(m, Target(r), e)) && w.selected != []
    case Mkdir(dir, name) =>
      ValidName(name) && LiveDir(m, Trim(Normalize(dir))) && (forall e :: !IsAt(m, Target(r), e))
    case Remove(_) =>
      exists e :: IsAt(m, Target(r), e) && !e.isDir && (e.nodes == [] || Acks(e.nodes, w.acks) >= QuorumOf(e.nodes))
    case Rmdir(_) =>
      exists e :: IsAt(m, Target(r), e) && e.isDir && Childless(m, Target(r))
    case Write(_, _, _) =>
      exists e :: IsAt(m, Target(r), e) && e.nodes != [] && Acks(e.nodes, w.acks) >= QuorumOf(e.nodes)
  }

  lemma {:induction false} MakeProposesIff(t: Table, m: Directory, dir: string, name: string, isDir: bool, w: World)
    requires Refines(t, m) && Tidy(m) && Fits(Join(Trim(Normalize(dir)), name))
    ensures DecideMake(t, dir, name, isDir, w).Propose? <==>
              && ValidName(name) && LiveDir(m, Trim(Normalize(dir)))
              && (forall e :: !IsAt(m, CString(Join(Trim(Normalize(dir)), name)), e))
              && (isDir || w.selected != [])
  {
    var parent := Trim(Normalize(dir));
    TrimTwice(Normalize(dir));
    JoinFits(parent, name);
    ParentIs(t, m, parent);
    LocateIs(t, m, Join(parent, name));
    assert Locate(t, Join(parent, name)).Some? ==> IsAt(m, Join(parent, name), Locate(t, Join(parent, name)).value);
  }

  lemma {:induction false} RootIsNotStored(m: Directory)
    requires Tidy(m)
    ensures forall e :: !IsAt(m, "/", e)
  {
    assert forall id :: id in m ==> GoodPath(m[id].path);
  }

  lemma {:induction false} SuccessIsCommit(t: Table, r: Request, w: World)
    requires |t.buckets| == BUCKETS
    ensures Serve(t, r, w).1 == Success <==> w.committed && Decide(t, r, w).Propose?
  {
  }

  /** A request succeeds exactly when the namespace permits it and consensus commits it. */
  lemma {:induction false} ServeSucceedsIff(t: Table, m: Directory, r: Request, w: World)
    requires Refines(t, m) && Tidy(m) && Clean(r)
    ensures Serve(t, r, w).1 == Success <==> w.committed && Permitted(m, r, w)
  {
    SuccessIsCommit(t, r, w);
    ProposesIff(t, m, r, w);
  }

  lemma {:induction false} ProposesIff(t: Table, m: Directory, r: Request, w: World)
    requires Refines(t, m) && Tidy(m) && Clean(r)
    ensures Decide(t, r, w).Propose? <==> Permitted(m, r, w)
  {
    LocateIs(t, m, Target(r));
    match r
    case Create(dir, name) => MakeProposesIff(t, m, dir, name, false, w);
    case Mkdir(dir, name) => MakeProposesIff(t, m, dir, name, true, w);
    case Remove(path) => RemoveProposesIff(t, m, r, w);
    case Rmdir(path) => RmdirProposesIff(t, m, r, w);
    case Write(path, offset, len) => WriteProposesIff(t, m, r, w);
  }

  lemma {:induction false} RemoveProposesIff(t: Table, m: Directory, r: Request, w: World)
    requires r.Remove? && Tidy(m) && forall e :: LookupByPath(t, Target(r)) == Some(e) <==> IsAt(m, Target(r), e)
    ensures DecideRemove(t, r.path, w).Propose? <==> Permitted(m, r, w)
  {
    RootIsNotStored(m);
    var found := LookupByPath(t, Target(r));
    assert found.Some? ==> IsAt(m, Target(r), found.value);
  }

  lemma {:induction false} RmdirProposesIff(t: Table, m: Directory, r: Request, w: World)
    requires Refines(t, m) && Tidy(m) && r.Rmdir? && '\0' !in r.path
    ensures DecideRmdir(t, r.path).Propose? <==> Permitted(m, r, w)
  {
    var p := Trim(Normalize(r.path));
    assert CString(p) == p;
    RootIsNotStored(m);
    LocateIs(t, m, p);
    if LookupByPath(t, p).Some? {
      var e := FoundIs(t, m, p);
      ScanIs(t, m, p);
    }
    RmdirOnFacts(t, m, r, w, p);
  }

  lemma {:induction false} RmdirOnFacts(t: Table, m: Directory, r: Request, w: World, p: string)
    requires r.Rmdir? && p == Trim(Normalize(r.path)) && CString(p) == p && forall e :: !IsAt(m, "/", e)
    requires forall e :: LookupByPath(t, p) == Some(e) <==> IsAt(m, p, e)
    requires LookupByPath(t, p).Some? ==> (HasChildren(t, p) <==> !Childless(m, p))
    ensures DecideRmdir(t, r.path).Propose? <==> Permitted(m, r, w)
  {
    var found := LookupByPath(t, p);
    assert found.Some? ==> IsAt(m, p, found.value);
  }

  lemma {:induction false} WriteProposesIff(t: Table, m: Directory, r: Request, w: World)
    requires r.Write? && forall e :: LookupByPath(t, Target(r)) == Some(e) <==> IsAt(m, Target(r), e)
    ensures DecideWrite(t, r.path, r.offset, r.len, w).Propose? <==> Permitted(m, r, w)
  {
    var found := LookupByPath(t, Target(r));
    assert found.Some? ==> IsAt(m, Target(r), found.value);
  }
}

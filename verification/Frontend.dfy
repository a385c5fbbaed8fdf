/** The frontend as the program runs it: each request is served against the in-place metadata map, with the loops that
    count acknowledgements and scan the chains. Every method is proved to be the decision function of its request. */
module Frontend {
  import opened Entries
  import opened Paths
  import opened MetadataMap
  import opened Namespace
  import opened Listings

  /** What a listing request answers. */
  function ReadDir(t: Table, path: string): (Status, seq<Item>) {
    var dir := Trim(Trim(Normalize(path)));
    var found := Locate(t, dir);
    if dir != "/" && found.None? then (ENOENT, [])
    else if dir != "/" && !found.value.isDir then (ENOTDIR, [])
    else (Success, List(Flatten(t.buckets), dir))
  }

  method CountAcks(nodes: seq<nat>, acks: set<nat>) returns (n: nat)
    ensures n == Acks(nodes, acks)
  {
    n := 0;
    var i := 0;
    while i < |nodes|
      invariant i <= |nodes| && n == Acks(nodes[..i], acks)
    {
      assert nodes[..i + 1][..i] == nodes[..i];
      if nodes[i] != 0 && i in acks {
        n := n + 1;
      }
      i := i + 1;
    }
    assert nodes[..i] == nodes;
  }

  class Server {
    const meta: Manager

    ghost predicate Valid() {
      meta.Valid()
    }

    constructor (manager: Manager)
      requires manager.Valid()
      ensures Valid() && meta == manager
    {
      meta := manager;
    }

    method DirectoryExists(path: string) returns (r: bool)
      requires Valid()
      ensures r == ExistingDirectory(meta.View(), path)
    {
      var p := TrimTrailingSlash(Normalize(path));
      if p == "/" {
        return true;
      }
      var found := meta.LookupPath(CString(p));
      return found.Some? && found.value.isDir;
    }

    method DirectoryHasChildren(dir: string) returns (r: bool)
      requires Valid()
      ensures r <==> HasChildren(meta.View(), Trim(Normalize(dir)))
    {
      var p := TrimTrailingSlash(Normalize(dir));
      var b := 0;
      while b < BUCKETS
        invariant b <= BUCKETS
        invariant forall i, k :: 0 <= i < b && 0 <= k < |meta.buckets[i]| ==> !Below(meta.buckets[i][k], p)
      {
        var chain := meta.buckets[b];
        var k := 0;
        while k < |chain|
          invariant k <= |chain| && forall j :: 0 <= j < k ==> !Below(chain[j], p)
        {
          if Below(chain[k], p) {
            assert Below(meta.View().buckets[b][k], p);
            return true;
          }
          k := k + 1;
        }
        b := b + 1;
      }
      return false;
    }

    method ReadDirectory(path: string) returns (status: Status, items: seq<Item>)
      requires Valid()
      ensures (status, items) == ReadDir(meta.View(), path)
    {
      var p := TrimTrailingSlash(Normalize(path));
      var dir := TrimTrailingSlash(p);
      if dir != "/" {
        var found := meta.LookupPath(CString(dir));
        if found.None? {
          return ENOENT, [];
        }
        if !found.value.isDir {
          return ENOTDIR, [];
        }
      }
      status := Success;
      items := [];
      ghost var t := meta.View();
      var b := 0;
      while b < BUCKETS
        invariant b <= BUCKETS && items == List(Flatten(t.buckets[..b]), dir)
      {
        var chain := meta.buckets[b];
        items := ScanChain(Flatten(t.buckets[..b]), chain, dir, items);
        assert t.buckets[..b + 1][..b] == t.buckets[..b];
        b := b + 1;
      }
      assert t.buckets[..b] == t.buckets;
    }

    /** One chain of the scan; the names seen so far are those of the items. */
    method ScanChain(
        ghost before: seq<Cell>, chain: seq<Cell>, dir: string, start: seq<Item>) returns (items: seq<Item>)
      requires start == List(before, dir)
      ensures items == List(before + chain, dir)
    {
      items := start;
      var k := 0;
      assert before + chain[..0] == before;
      while k < |chain|
        invariant k <= |chain| && items == List(before + chain[..k], dir)
      {
        assert (before + chain[..k + 1])[..|before| + k] == before + chain[..k];
        items := Show(items, chain[k], dir);
        k := k + 1;
      }
      assert before + chain[..k] == before + chain;
    }

    /** A proposal that consensus commits is applied on this node before the request is answered. */
    method Commit(e: Entry, w: World) returns (status: Status)
      requires Valid()
      modifies meta, meta.buckets
      ensures (meta.View(), status) == Settle(old(meta.View()), Propose(e), w)
    {
      if !w.committed {
        return EIO;
      }
      meta.ApplyEntry(e);
      return Success;
    }

    method Make(dir: string, name: string, isDir: bool, w: World) returns (status: Status)
      requires Valid()
      modifies meta, meta.buckets
      ensures (meta.View(), status) == Serve(old(meta.View()), if isDir then Mkdir(dir, name) else Create(dir, name), w)
    {
      var parent := TrimTrailingSlash(Normalize(dir));
      if !ValidName(name) {
        return EINVAL;
      }
      var hasParent := DirectoryExists(parent);
      if !hasParent {
        return ENOENT;
      }
      var full := Join(parent, name);
      var found := meta.LookupPath(CString(full));
      if found.Some? {
        return EEXIST;
      }
      if !isDir && w.selected == [] {
        return ENODEV;
      }
      status := Commit(Entry(w.id, Stored(full), Active, 0, isDir, if isDir then [] else w.selected, 1), w);
    }

    method RemoveFile(path: string, w: World) returns (status: Status)
      requires Valid()
      modifies meta, meta.buckets
      ensures (meta.View(), status) == Serve(old(meta.View()), Remove(path), w)
    {
      var p := TrimTrailingSlash(Normalize(path));
      if p == "/" {
        return EINVAL;
      }
      var found := meta.LookupPath(CString(p));
      if found.None? {
        return ENOENT;
      }
      var e := found.value;
      if e.isDir {
        return EISDIR;
      }
      if e.nodes != [] {
        var n := CountAcks(e.nodes, w.acks);
        if n < QuorumOf(e.nodes) {
          return EIO;
        }
      }
      status := Commit(Bump(e).(state := Deleted), w);
    }

    method RemoveDirectory(path: string, w: World) returns (status: Status)
      requires Valid()
      modifies meta, meta.buckets
      ensures (meta.View(), status) == Serve(old(meta.View()), Rmdir(path), w)
    {
      var p := TrimTrailingSlash(Normalize(path));
      if p == "/" {
        return EINVAL;
      }
      var found := meta.LookupPath(CString(p));
      if found.None? {
        return ENOENT;
      }
      var e := found.value;
      if !e.isDir {
        return ENOTDIR;
      }
      TrimTwice(Normalize(path));
      var busy := DirectoryHasChildren(p);
      if busy {
        return ENOTEMPTY;
      }
      status := Commit(Bump(e).(state := Deleted), w);
    }

    method WriteFile(path: string, offset: int, len: nat, w: World) returns (status: Status)
      requires Valid()
      modifies meta, meta.buckets
      ensures (meta.View(), status) == Serve(old(meta.View()), Write(path, offset, len), w)
    {
      var found := meta.LookupPath(CString(Normalize(path)));
      if found.None? {
        return ENOENT;
      }
      var e := found.value;
      if e.nodes == [] {
        return ENODEV;
      }
      var n := CountAcks(e.nodes, w.acks);
      if n < QuorumOf(e.nodes) {
        return EIO;
      }
      status := Commit(Bump(e).(size := Grown(e.size, offset, len)), w);
    }
  }

  /** A listing of a clean path succeeds exactly on live directories, and shows their live children. */
  lemma {:induction false} ReadDirLaw(t: Table, m: Directory, path: string, item: Item)
    requires Refines(t, m) && Tidy(m) && '\0' !in path
    ensures ReadDir(t, path).0 == Success <==> LiveDir(m, Trim(Normalize(path)))
    ensures item in ReadDir(t, path).1 <==>
              LiveDir(m, Trim(Normalize(path))) && LiveChild(m, Trim(Normalize(path)), item)
  {
    var dir := Trim(Normalize(path));
    TrimTwice(Normalize(path));
    assert CString(dir) == dir;
    ParentIs(t, m, dir);
    if LiveDir(m, dir) {
      ListingIsLiveChildren(t, m, dir, item);
    }
  }
}

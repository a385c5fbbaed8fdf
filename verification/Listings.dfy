/** Directory listings: the scan of the whole map with its set of names already shown, and what it shows. */
module Listings {
  import opened Entries
  import opened Paths
  import opened MetadataMap
  import opened Namespace

  datatype Item = Item(name: string, isDir: bool, size: nat)

  /** All chains of the map, one after the other. */
  function Flatten(chains: seq<seq<Cell>>): seq<Cell> {
    if chains == [] then [] else Flatten(chains[..|chains| - 1]) + chains[|chains| - 1]
  }

  function ItemOf(c: Cell, dir: string): Item
    requires Below(c, dir)
  {
    Item(DirectChild(dir, Trim(c.entry.path)).value, c.entry.isDir, c.entry.size)
  }

  predicate Shown(items: seq<Item>, name: string) {
    exists i :: 0 <= i < |items| && items[i].name == name
  }

  function Show(items: seq<Item>, c: Cell, dir: string): seq<Item> {
    if Below(c, dir) && !Shown(items, ItemOf(c, dir).name) then items + [ItemOf(c, dir)] else items
  }

  function List(cells: seq<Cell>, dir: string): seq<Item>
    decreases |cells|
  {
    if cells == [] then [] else Show(List(cells[..|cells| - 1], dir), cells[|cells| - 1], dir)
  }

  /** No name is listed twice, whatever the map holds. */
  lemma {:induction false} NamesOnce(cells: seq<Cell>, dir: string)
    ensures forall i, j :: 0 <= i < j < |List(cells, dir)| ==> List(cells, dir)[i].name != List(cells, dir)[j].name
    decreases |cells|
  {
    if cells != [] {
      NamesOnce(cells[..|cells| - 1], dir);
    }
  }

  ghost predicate Source(cells: seq<Cell>, dir: string, item: Item) {
    exists i :: 0 <= i < |cells| && Below(cells[i], dir) && item == ItemOf(cells[i], dir)
  }

  /** Children of one name are the same item. */
  ghost predicate Agree(cells: seq<Cell>, dir: string) {
    forall i, j :: 0 <= i < |cells| && 0 <= j < |cells| && Below(cells[i], dir) && Below(cells[j], dir)
                   && ItemOf(cells[i], dir).name == ItemOf(cells[j], dir).name
                   ==> ItemOf(cells[i], dir) == ItemOf(cells[j], dir)
  }

  lemma {:induction false} SourceSnoc(cells: seq<Cell>, dir: string, item: Item)
    requires cells != []
    ensures var last := cells[|cells| - 1];
            Source(cells, dir, item) <==>
              Source(cells[..|cells| - 1], dir, item) || (Below(last, dir) && item == ItemOf(last, dir))
  {
    var before := cells[..|cells| - 1];
    assert forall i :: 0 <= i < |before| ==> before[i] == cells[i];
    if Source(before, dir, item) {
      var i :| 0 <= i < |before| && Below(before[i], dir) && item == ItemOf(before[i], dir);
      assert Below(cells[i], dir);
    }
  }

  /** Then the listing shows exactly the items of the children. */
  lemma {:induction false} ListIsSources(cells: seq<Cell>, dir: string, item: Item)
    requires Agree(cells, dir)
    ensures item in List(cells, dir) <==> Source(cells, dir, item)
    decreases |cells|
  {
    if cells != [] {
      var before, last := cells[..|cells| - 1], cells[|cells| - 1];
      assert forall i :: 0 <= i < |before| ==> before[i] == cells[i];
      assert Agree(before, dir);
      ListIsSources(before, dir, item);
      SourceSnoc(cells, dir, item);
      if Below(last, dir) && Shown(List(before, dir), ItemOf(last, dir).name) {
        var k :| 0 <= k < |List(before, dir)| && List(before, dir)[k].name == ItemOf(last, dir).name;
        ListIsSources(before, dir, List(before, dir)[k]);
        var i :| 0 <= i < |before| && Below(before[i], dir) && List(before, dir)[k] == ItemOf(before[i], dir);
        assert ItemOf(cells[i], dir) == ItemOf(cells[|cells| - 1], dir);
      }
    }
  }

  lemma {:induction false} FlattenHas(chains: seq<seq<Cell>>, c: Cell)
    ensures c in Flatten(chains) <==> exists b :: 0 <= b < |chains| && c in chains[b]
  {
    if chains != [] {
      var before := chains[..|chains| - 1];
      FlattenHas(before, c);
      assert forall b :: 0 <= b < |before| ==> before[b] == chains[b];
    }
  }

  /** The cells of the map are its entries. */
  lemma {:induction false} CellsAre(t: Table, m: Directory, c: Cell)
    requires Refines(t, m)
    ensures c in Flatten(t.buckets) <==> c.key in m && m[c.key] == c.entry
  {
    FlattenHas(t.buckets, c);
    if c in Flatten(t.buckets) {
      var b :| 0 <= b < |t.buckets| && c in t.buckets[b];
      assert GoodChain(t.buckets[b], b, m);
      var k :| 0 <= k < |t.buckets[b]| && t.buckets[b][k] == c;
      assert GoodCell(t.buckets[b][k], b, m);
    }
    if c.key in m && m[c.key] == c.entry {
      var b := HashString(c.key);
      assert Present(t, c.key);
      var k := FindKey(t.buckets[b], c.key);
      assert GoodChain(t.buckets[b], b, m);
      assert GoodCell(t.buckets[b][k], b, m);
      assert t.buckets[b][k] == c;
    }
  }

  ghost predicate EntryCells(cells: seq<Cell>, m: Directory) {
    && (forall i :: 0 <= i < |cells| ==> cells[i].key in m && m[cells[i].key] == cells[i].entry)
    && (forall id :: id in m ==> Cell(id, m[id]) in cells)
  }

  lemma {:induction false} EntriesAgree(cells: seq<Cell>, m: Directory, dir: string)
    requires Tidy(m) && EntryCells(cells, m) && Canonical(dir)
    ensures Agree(cells, dir)
  {
    forall i, j | 0 <= i < |cells| && 0 <= j < |cells| && Below(cells[i], dir) && Below(cells[j], dir)
                  && ItemOf(cells[i], dir).name == ItemOf(cells[j], dir).name
      ensures ItemOf(cells[i], dir) == ItemOf(cells[j], dir)
    {
      ChildAt(m, cells[i], dir);
      ChildAt(m, cells[j], dir);
      assert !Twins(m, cells[i].key, cells[j].key);
    }
  }

  lemma {:induction false} ChildAt(m: Directory, c: Cell, dir: string)
    requires Tidy(m) && c.key in m && m[c.key] == c.entry && Canonical(dir) && Below(c, dir)
    ensures c.entry.path == Join(dir, ItemOf(c, dir).name) && ValidName(ItemOf(c, dir).name)
  {
    assert GoodPath(m[c.key].path);
    BelowIs(c, dir);
  }

  /** What a listing of this directory ought to show. */
  ghost predicate LiveChild(m: Directory, dir: string, item: Item) {
    ValidName(item.name) && exists e :: IsAt(m, Join(dir, item.name), e) && item == Item(item.name, e.isDir, e.size)
  }

  lemma {:induction false} SourceIsChild(cells: seq<Cell>, m: Directory, dir: string, item: Item)
    requires Tidy(m) && EntryCells(cells, m) && Canonical(dir) && Source(cells, dir, item)
    ensures LiveChild(m, dir, item)
  {
    var i :| 0 <= i < |cells| && Below(cells[i], dir) && item == ItemOf(cells[i], dir);
    ChildAt(m, cells[i], dir);
    assert IsAt(m, Join(dir, item.name), cells[i].entry);
  }

  lemma {:induction false} ChildIsSource(cells: seq<Cell>, m: Directory, dir: string, e: Entry, name: string)
    requires Tidy(m) && Canonical(dir) && ValidName(name) && IsAt(m, Join(dir, name), e) && Cell(e.fileId, e) in cells
    ensures Source(cells, dir, Item(name, e.isDir, e.size))
  {
    assert GoodPath(m[e.fileId].path);
    BelowIs(Cell(e.fileId, e), dir);
    JoinCanonical(dir, name);
    var i :| 0 <= i < |cells| && cells[i] == Cell(e.fileId, e);
    assert Below(cells[i], dir);
  }

  lemma {:induction false} CellsAreEntries(t: Table, m: Directory)
    requires Refines(t, m)
    ensures EntryCells(Flatten(t.buckets), m)
  {
    var cells := Flatten(t.buckets);
    forall i | 0 <= i < |cells| ensures cells[i].key in m && m[cells[i].key] == cells[i].entry {
      CellsAre(t, m, cells[i]);
    }
    forall id | id in m ensures Cell(id, m[id]) in cells {
      CellsAre(t, m, Cell(id, m[id]));
    }
  }

  /** A listing shows exactly the live children of the directory, each once. */
  lemma {:induction false} ListingIsLiveChildren(t: Table, m: Directory, dir: string, item: Item)
    requires Refines(t, m) && Tidy(m) && Canonical(dir)
    ensures item in List(Flatten(t.buckets), dir) <==> LiveChild(m, dir, item)
  {
    var cells := Flatten(t.buckets);
    CellsAreEntries(t, m);
    ListedIsChild(cells, m, dir, item);
  }

  lemma {:induction false} ListedIsChild(cells: seq<Cell>, m: Directory, dir: string, item: Item)
    requires Tidy(m) && Canonical(dir) && EntryCells(cells, m)
    ensures item in List(cells, dir) <==> LiveChild(m, dir, item)
  {
    EntriesAgree(cells, m, dir);
    ListIsSources(cells, dir, item);
    if Source(cells, dir, item) {
      SourceIsChild(cells, m, dir, item);
    }
    if LiveChild(m, dir, item) {
      var e :| IsAt(m, Join(dir, item.name), e) && item == Item(item.name, e.isDir, e.size);
      ChildIsSource(cells, m, dir, e, item.name);
    }
  }

  /** The emptiness test behind rmdir agrees with the listing. */
  lemma {:induction false} HasChildrenIffListed(t: Table, m: Directory, dir: string)
    requires Refines(t, m) && Tidy(m) && Canonical(dir)
    ensures HasChildren(t, dir) <==> List(Flatten(t.buckets), dir) != []
  {
    ScanIs(t, m, dir);
    CellsAreEntries(t, m);
    var cells := Flatten(t.buckets);
    if List(cells, dir) != [] {
      ListedHasParent(cells, m, dir);
    }
    if !Childless(m, dir) {
      var id :| id in m && m[id].Live() && Parent(m[id].path) == dir;
      assert GoodPath(m[id].path);
      var item := Item(Name(m[id].path), m[id].isDir, m[id].size);
      assert IsAt(m, Join(dir, item.name), m[id]);
      ListedIsChild(cells, m, dir, item);
    }
  }

  lemma {:induction false} ListedHasParent(cells: seq<Cell>, m: Directory, dir: string)
    requires Tidy(m) && Canonical(dir) && EntryCells(cells, m) && List(cells, dir) != []
    ensures !Childless(m, dir)
  {
    var item := List(cells, dir)[0];
    ListedIsChild(cells, m, dir, item);
    var e :| IsAt(m, Join(dir, item.name), e) && item == Item(item.name, e.isDir, e.size);
    JoinCanonical(dir, item.name);
    assert m[e.fileId].Live();
  }
}

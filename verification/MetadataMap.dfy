/** The bucketed metadata map that the state machine applies entries to, and the plain map it stands for. */
module MetadataMap {
  import opened Entries

  const BUCKETS: nat := 1024
  const U32: nat := 0x1_0000_0000

  // ---------------------------------------------------------------- the hash

  /** A `char` widened to `int`: bytes from 128 up are negative. */
  function SignedChar(c: char): int {
    var b := c as int % 256;
    if b < 128 then b else b - 256
  }

  /** The 32-bit accumulator over a string. */
  function Accumulate(hash: nat, s: string): nat
    decreases |s|
  {
    if s == "" then hash else Accumulate((hash * 33 + SignedChar(s[0])) % U32, s[1..])
  }

  function HashString(s: string): (r: nat)
    ensures r < BUCKETS
  {
    Accumulate(5381, s) % BUCKETS
  }

  /** The same polynomial over the integers, with no machine word. */
  function Polynomial(hash: int, s: string): int
    decreases |s|
  {
    if s == "" then hash else Polynomial(hash * 33 + SignedChar(s[0]), s[1..])
  }

  lemma {:induction false} AccumulateIsPolynomial(h: nat, p: int, s: string)
    requires h % BUCKETS == p % BUCKETS
    ensures Accumulate(h, s) % BUCKETS == Polynomial(p, s) % BUCKETS
    decreases |s|
  {
    if s != "" {
      var c := SignedChar(s[0]);
      var x, y := h * 33 + c, p * 33 + c;
      ModStep(h, p, c);
      ModMod(x);
      AccumulateIsPolynomial(x % U32, y, s[1..]);
    }
  }

  lemma ModStep(h: int, p: int, c: int)
    requires h % BUCKETS == p % BUCKETS
    ensures (h * 33 + c) % BUCKETS == (p * 33 + c) % BUCKETS
  {
    var d := h / BUCKETS - p / BUCKETS;
    assert h == p + d * BUCKETS;
    var x, y := h * 33 + c, p * 33 + c;
    assert x == y + 33 * d * BUCKETS;
    var e := x / BUCKETS - y / BUCKETS - 33 * d;
    assert e * BUCKETS == y % BUCKETS - x % BUCKETS;
  }

  lemma ModMod(x: int)
    ensures (x % U32) % BUCKETS == x % BUCKETS
  {
  }

  /** Wrap-around never moves an id to another bucket. */
  lemma BucketIgnoresWrap(s: string)
    ensures HashString(s) == Polynomial(5381, s) % BUCKETS
  {
    AccumulateIsPolynomial(5381, 5381, s);
  }

  // ---------------------------------------------------------------- the table

  /** A chain node: the key copied at insertion and the entry overwritten later. */
  datatype Cell = Cell(key: string, entry: Entry)

  datatype Table = Table(buckets: seq<seq<Cell>>, entries: nat, size: nat)

  function NewTable(): Table {
    Table(seq(BUCKETS, _ => []), 0, 0)
  }

  /** The first cell of a chain with this key, or the chain's length. */
  function FindKey(chain: seq<Cell>, id: string, from: nat := 0): (k: nat)
    requires from <= |chain|
    ensures from <= k <= |chain|
    ensures k < |chain| ==> chain[k].key == id
    ensures forall j :: from <= j < k ==> chain[j].key != id
    decreases |chain| - from
  {
    if from == |chain| || chain[from].key == id then from else FindKey(chain, id, from + 1)
  }

  function Lookup(t: Table, id: string): Option<Entry>
    requires |t.buckets| == BUCKETS
  {
    var chain := t.buckets[HashString(id)];
    var k := FindKey(chain, id);
    if k < |chain| then Some(chain[k].entry) else None
  }

  /** The 64-bit counter after an entry of one size has taken the place of another. */
  function Resize(total: nat, was: nat, now: nat): nat {
    if now >= was then (total + (now - was)) % U64 else (total - (was - now)) % U64
  }

  /** Overwrites the entry in place, or puts a new cell at the head of its chain. */
  function Apply(t: Table, e: Entry): (r: Table)
    requires |t.buckets| == BUCKETS
    ensures |r.buckets| == BUCKETS
  {
    var h := HashString(e.fileId);
    var chain := t.buckets[h];
    var k := FindKey(chain, e.fileId);
    if k < |chain| then
      Table(t.buckets[h := chain[k := chain[k].(entry := e)]], t.entries, Resize(t.size, chain[k].entry.size, e.size))
    else
      Table(t.buckets[h := [Cell(e.fileId, e)] + chain], t.entries + 1, (t.size + e.size) % U64)
  }

  function ApplyAll(t: Table, es: seq<Entry>): (r: Table)
    requires |t.buckets| == BUCKETS
    ensures |r.buckets| == BUCKETS
    decreases |es|
  {
    if es == [] then t else Apply(ApplyAll(t, es[..|es| - 1]), es[|es| - 1])
  }

  // ---------------------------------------------------------------- the plain map

  /** Every entry under its own id. */
  type Directory = m: map<string, Entry> | forall id :: id in m ==> m[id].fileId == id

  function Put(m: Directory, e: Entry): Directory {
    m[e.fileId := e]
  }

  function Replay(m: Directory, es: seq<Entry>): Directory
    decreases |es|
  {
    if es == [] then m else Put(Replay(m, es[..|es| - 1]), es[|es| - 1])
  }

  function Get(m: Directory, id: string): Option<Entry> {
    if id in m then Some(m[id]) else None
  }

  ghost function TotalSize(m: map<string, Entry>): nat {
    if m == map[] then 0 else
      var id :| id in m;
      m[id].size + TotalSize(m - {id})
  }

  /** The sum does not depend on the order in which it is taken. */
  lemma {:induction false} TotalSizeOf(m: map<string, Entry>, id: string)
    requires id in m
    ensures TotalSize(m) == m[id].size + TotalSize(m - {id})
    decreases |m|
  {
    var first :| first in m && TotalSize(m) == m[first].size + TotalSize(m - {first});
    if first != id {
      TotalSizeOf(m - {first}, id);
      assert id in m - {first};
      assert (m - {first}) - {id} == (m - {id}) - {first};
      TotalSizeOf(m - {id}, first);
    }
  }

  lemma TotalSizePut(m: map<string, Entry>, id: string, e: Entry)
    ensures TotalSize(m[id := e]) == e.size + TotalSize(m - {id})
    ensures id !in m ==> m - {id} == m
  {
    TotalSizeOf(m[id := e], id);
    assert m[id := e] - {id} == m - {id};
  }

  // ---------------------------------------------------------------- refinement

  ghost predicate GoodCell(c: Cell, bucket: nat, m: Directory) {
    c.key == c.entry.fileId && HashString(c.key) == bucket && c.key in m && m[c.key] == c.entry
  }

  ghost predicate GoodChain(chain: seq<Cell>, bucket: nat, m: Directory) {
    && (forall k :: 0 <= k < |chain| ==> GoodCell(chain[k], bucket, m))
    && (forall k, l :: 0 <= k < l < |chain| ==> chain[k].key != chain[l].key)
  }

  ghost predicate Present(t: Table, id: string)
    requires |t.buckets| == BUCKETS
  {
    var chain := t.buckets[HashString(id)];
    FindKey(chain, id) < |chain|
  }

  /** The table holds exactly this map: each id once, in its own bucket, and the counters are exact. */
  ghost predicate Refines(t: Table, m: Directory) {
    && |t.buckets| == BUCKETS
    && (forall b :: 0 <= b < BUCKETS ==> GoodChain(t.buckets[b], b, m))
    && (forall id :: id in m ==> Present(t, id))
    && t.entries == |m|
    && t.size == TotalSize(m) % U64
  }

  lemma NewRefines()
    ensures Refines(NewTable(), map[])
  {
  }

  lemma LookupRefines(t: Table, m: Directory, id: string)
    requires Refines(t, m)
    ensures Lookup(t, id) == Get(m, id)
  {
    var b := HashString(id);
    var chain := t.buckets[b];
    var k := FindKey(chain, id);
    if k < |chain| {
      assert GoodChain(chain, b, m);
      assert GoodCell(chain[k], b, m);
    } else {
      assert id in m ==> Present(t, id);
    }
  }

  lemma OtherChain(chain: seq<Cell>, b: nat, m: Directory, e: Entry)
    requires GoodChain(chain, b, m) && (b != HashString(e.fileId) || FindKey(chain, e.fileId) == |chain|)
    ensures GoodChain(chain, b, Put(m, e))
  {
    forall k | 0 <= k < |chain| ensures GoodCell(chain[k], b, Put(m, e)) {
      assert GoodCell(chain[k], b, m);
    }
  }

  lemma OwnChain(chain: seq<Cell>, b: nat, m: Directory, e: Entry)
    requires GoodChain(chain, b, m) && b == HashString(e.fileId)
    ensures var k := FindKey(chain, e.fileId);
            if k < |chain| then GoodChain(chain[k := chain[k].(entry := e)], b, Put(m, e))
            else GoodChain([Cell(e.fileId, e)] + chain, b, Put(m, e))
  {
    var k := FindKey(chain, e.fileId);
    if k < |chain| {
      OverwriteCell(chain, b, m, e, k);
    } else {
      OtherChain(chain, b, m, e);
      PushCell(chain, b, Put(m, e), Cell(e.fileId, e));
    }
  }

  lemma OverwriteCell(chain: seq<Cell>, b: nat, m: Directory, e: Entry, k: nat)
    requires GoodChain(chain, b, m) && k < |chain| && chain[k].key == e.fileId
    ensures GoodChain(chain[k := chain[k].(entry := e)], b, Put(m, e))
  {
    var after := chain[k := chain[k].(entry := e)];
    assert GoodCell(chain[k], b, m);
    forall j | 0 <= j < |after| ensures GoodCell(after[j], b, Put(m, e)) {
      assert GoodCell(chain[j], b, m);
      assert j != k ==> chain[j].key != chain[k].key;
    }
    assert forall j :: 0 <= j < |after| ==> after[j].key == chain[j].key;
  }

  lemma PushCell(chain: seq<Cell>, b: nat, m: Directory, c: Cell)
    requires GoodChain(chain, b, m) && GoodCell(c, b, m) && FindKey(chain, c.key) == |chain|
    ensures GoodChain([c] + chain, b, m)
  {
    assert forall j :: 0 < j < |chain| + 1 ==> ([c] + chain)[j] == chain[j - 1];
  }

  lemma ApplyPresent(t: Table, e: Entry, id: string)
    requires |t.buckets| == BUCKETS && (Present(t, id) || id == e.fileId)
    ensures Present(Apply(t, e), id)
  {
    var h := HashString(e.fileId);
    var chain, after := t.buckets[h], Apply(t, e).buckets[h];
    var k := FindKey(chain, e.fileId);
    if id == e.fileId {
      var at := if k < |chain| then k else 0;
      assert after[at].key == id;
    } else if HashString(id) == h {
      var j := FindKey(chain, id);
      if k < |chain| {
        assert after[j].key == id;
      } else {
        assert after[j + 1].key == id;
      }
    }
  }

  lemma ResizeIs(total: nat, all: nat, was: nat, now: nat, after: nat)
    requires total == all % U64 && all + now == after + was
    ensures Resize(total, was, now) == after % U64
  {
  }

  /** One `metadata_apply_entry` is one update of the plain map. */
  lemma ApplyRefines(t: Table, m: Directory, e: Entry)
    requires Refines(t, m)
    ensures Refines(Apply(t, e), Put(m, e))
  {
    var h := HashString(e.fileId);
    var chain := t.buckets[h];
    var k := FindKey(chain, e.fileId);
    var u, m' := Apply(t, e), Put(m, e);
    forall b | 0 <= b < BUCKETS ensures GoodChain(u.buckets[b], b, m') {
      if b == h {
        OwnChain(chain, b, m, e);
      } else {
        OtherChain(t.buckets[b], b, m, e);
      }
    }
    forall id | id in m' ensures Present(u, id) {
      ApplyPresent(t, e, id);
    }
    LookupRefines(t, m, e.fileId);
    CountersExact(t, m, e);
  }

  lemma ApplyCounters(t: Table, e: Entry)
    requires |t.buckets| == BUCKETS
    ensures var was := Lookup(t, e.fileId);
            && Apply(t, e).entries == (if was.Some? then t.entries else t.entries + 1)
            && Apply(t, e).size == Resize(t.size, if was.Some? then was.value.size else 0, e.size)
  {
  }

  lemma CountersExact(t: Table, m: Directory, e: Entry)
    requires |t.buckets| == BUCKETS && Lookup(t, e.fileId) == Get(m, e.fileId)
    requires t.entries == |m| && t.size == TotalSize(m) % U64
    ensures Apply(t, e).entries == |Put(m, e)| && Apply(t, e).size == TotalSize(Put(m, e)) % U64
  {
    ApplyCounters(t, e);
    SizePut(m, e);
    CountPut(m, e);
    var all, after := TotalSize(m), TotalSize(Put(m, e));
    ResizeIs(t.size, all, SizeAt(m, e.fileId), e.size, after);
  }

  ghost function SizeAt(m: Directory, id: string): nat {
    if id in m then m[id].size else 0
  }

  lemma CountPut(m: Directory, e: Entry)
    ensures |Put(m, e)| == if e.fileId in m then |m| else |m| + 1
  {
    assert Put(m, e).Keys == m.Keys + {e.fileId};
    assert |Put(m, e)| == |m.Keys + {e.fileId}|;
  }

  lemma SizePut(m: Directory, e: Entry)
    ensures TotalSize(m) + e.size == TotalSize(Put(m, e)) + SizeAt(m, e.fileId)
  {
    TotalSizePut(m, e.fileId, e);
    if e.fileId in m {
      TotalSizeOf(m, e.fileId);
    }
  }

  lemma {:induction false} ApplyAllRefines(t: Table, m: Directory, es: seq<Entry>)
    requires Refines(t, m)
    ensures Refines(ApplyAll(t, es), Replay(m, es))
    decreases |es|
  {
    if es != [] {
      ApplyAllRefines(t, m, es[..|es| - 1]);
      ApplyRefines(ApplyAll(t, es[..|es| - 1]), Replay(m, es[..|es| - 1]), es[|es| - 1]);
    }
  }

  // ---------------------------------------------------------------- what a whole sequence leaves behind

  /** The last entry of the sequence with this id. */
  function Latest(es: seq<Entry>, id: string): (r: Option<Entry>)
    ensures r.None? <==> forall i :: 0 <= i < |es| ==> es[i].fileId != id
    ensures r.Some? ==> exists i :: 0 <= i < |es| && r.value == es[i] && es[i].fileId == id
                                    && forall j :: i < j < |es| ==> es[j].fileId != id
    decreases |es|
  {
    if es == [] then None
    else if es[|es| - 1].fileId == id then Some(es[|es| - 1])
    else Latest(es[..|es| - 1], id)
  }

  lemma {:induction false} ReplayIsLatest(m: Directory, es: seq<Entry>, id: string)
    ensures Get(Replay(m, es), id) == if Latest(es, id).Some? then Latest(es, id) else Get(m, id)
    decreases |es|
  {
    if es != [] {
      ReplayIsLatest(m, es[..|es| - 1], id);
    }
  }

  ghost function Ids(es: seq<Entry>): set<string> {
    set i | 0 <= i < |es| :: es[i].fileId
  }

  lemma ReplayKeys(es: seq<Entry>)
    ensures Replay(map[], es).Keys == Ids(es)
  {
    forall id ensures id in Replay(map[], es) <==> id in Ids(es) {
      ReplayIsLatest(map[], es, id);
      assert id in Replay(map[], es) <==> Get(Replay(map[], es), id).Some?;
    }
  }

  /** After any sequence of applied entries: a lookup finds the last one applied for its id, the entry counter is
      the number of different ids, and the size counter is the sum of the current sizes in 64 bits. */
  lemma LookupFindsLatest(es: seq<Entry>, id: string)
    ensures var t := ApplyAll(NewTable(), es);
            && Lookup(t, id) == Latest(es, id)
            && t.entries == |Ids(es)|
            && t.size == TotalSize(Replay(map[], es)) % U64
  {
    NewRefines();
    ApplyAllRefines(NewTable(), map[], es);
    LookupRefines(ApplyAll(NewTable(), es), Replay(map[], es), id);
    ReplayIsLatest(map[], es, id);
    ReplayKeys(es);
    assert |Replay(map[], es)| == |Replay(map[], es).Keys|;
  }

  // ---------------------------------------------------------------- replaying

  ghost predicate SameKeys(a: seq<Cell>, b: seq<Cell>) {
    |a| == |b| && forall k :: 0 <= k < |a| ==> a[k].key == b[k].key
  }

  ghost predicate SameLayout(t: Table, u: Table) {
    |t.buckets| == |u.buckets| && forall b :: 0 <= b < |t.buckets| ==> SameKeys(t.buckets[b], u.buckets[b])
  }

  /** The layout and the map determine the table. */
  lemma LayoutDetermines(t: Table, u: Table, m: Directory)
    requires Refines(t, m) && Refines(u, m) && SameLayout(t, u)
    ensures t == u
  {
    forall b | 0 <= b < BUCKETS ensures t.buckets[b] == u.buckets[b] {
      assert SameKeys(t.buckets[b], u.buckets[b]);
      assert GoodChain(t.buckets[b], b, m) && GoodChain(u.buckets[b], b, m);
      forall k | 0 <= k < |t.buckets[b]| ensures t.buckets[b][k] == u.buckets[b][k] {
        assert GoodCell(t.buckets[b][k], b, m) && GoodCell(u.buckets[b][k], b, m);
      }
    }
    assert t.buckets == u.buckets;
  }

  lemma PresentKeepsLayout(t: Table, e: Entry)
    requires |t.buckets| == BUCKETS && Present(t, e.fileId)
    ensures SameLayout(t, Apply(t, e))
  {
  }

  lemma LayoutTransitive(t: Table, u: Table, v: Table)
    requires SameLayout(t, u) && SameLayout(u, v)
    ensures SameLayout(t, v)
  {
    forall b | 0 <= b < |t.buckets| ensures SameKeys(t.buckets[b], v.buckets[b]) {
      assert SameKeys(t.buckets[b], u.buckets[b]) && SameKeys(u.buckets[b], v.buckets[b]);
    }
  }

  ghost predicate AllKnown(t: Table, es: seq<Entry>)
    requires |t.buckets| == BUCKETS
  {
    forall i :: 0 <= i < |es| ==> Present(t, es[i].fileId)
  }

  /** Entries whose ids are all known change no chain's shape. */
  lemma {:induction false} KnownKeepLayout(t: Table, es: seq<Entry>)
    requires |t.buckets| == BUCKETS && AllKnown(t, es)
    ensures SameLayout(t, ApplyAll(t, es))
    decreases |es|
  {
    if es != [] {
      var shorter := es[..|es| - 1];
      var e := es[|es| - 1];
      var u := ApplyAll(t, shorter);
      assert AllKnown(t, shorter);
      KnownKeepLayout(t, shorter);
      PresentStays(t, shorter, e.fileId);
      PresentKeepsLayout(u, e);
      LayoutTransitive(t, u, Apply(u, e));
    }
  }

  lemma {:induction false} PresentStays(t: Table, es: seq<Entry>, id: string)
    requires |t.buckets| == BUCKETS && Present(t, id)
    ensures Present(ApplyAll(t, es), id)
    decreases |es|
  {
    if es != [] {
      PresentStays(t, es[..|es| - 1], id);
      ApplyPresent(ApplyAll(t, es[..|es| - 1]), es[|es| - 1], id);
    }
  }

  lemma {:induction false} LatestOfTail(es: seq<Entry>, k: nat, id: string)
    requires k <= |es| && Latest(es[k..], id).Some?
    ensures Latest(es, id) == Latest(es[k..], id)
    decreases |es|
  {
    var tail := es[k..];
    if tail[|tail| - 1].fileId != id {
      assert tail[..|tail| - 1] == es[..|es| - 1][k..];
      LatestOfTail(es[..|es| - 1], k, id);
    }
  }

  /** Applying the whole sequence again, or any tail of it, leaves the table exactly as it was, chain order included. */
  lemma ReplayChangesNothing(es: seq<Entry>, k: nat)
    requires k <= |es|
    ensures var t := ApplyAll(NewTable(), es); ApplyAll(t, es[k..]) == t && ApplyAll(t, es) == t
  {
    ReplayTail(es, k);
    ReplayTail(es, 0);
    assert es[0..] == es;
  }

  lemma ReplayTail(es: seq<Entry>, k: nat)
    requires k <= |es|
    ensures var t := ApplyAll(NewTable(), es); ApplyAll(t, es[k..]) == t
  {
    var t, m := ApplyAll(NewTable(), es), Replay(map[], es);
    NewRefines();
    ApplyAllRefines(NewTable(), map[], es);
    ApplyAllRefines(t, m, es[k..]);
    TailGets(es, k);
    TailKnown(NewTable(), es, k);
    KnownKeepLayout(t, es[k..]);
    LayoutDetermines(t, ApplyAll(t, es[k..]), m);
  }

  lemma TailGets(es: seq<Entry>, k: nat)
    requires k <= |es|
    ensures Replay(Replay(map[], es), es[k..]) == Replay(map[], es)
  {
    var m := Replay(map[], es);
    forall id ensures Get(Replay(m, es[k..]), id) == Get(m, id) {
      ReplayIsLatest(m, es[k..], id);
      ReplayIsLatest(map[], es, id);
      if Latest(es[k..], id).Some? {
        LatestOfTail(es, k, id);
      }
    }
    SameGets(Replay(m, es[k..]), m);
  }

  lemma {:induction false} AppliedIsPresent(t: Table, es: seq<Entry>, i: nat)
    requires |t.buckets| == BUCKETS && i < |es|
    ensures Present(ApplyAll(t, es), es[i].fileId)
    decreases |es|
  {
    var shorter := es[..|es| - 1];
    if i < |shorter| {
      AppliedIsPresent(t, shorter, i);
    }
    ApplyPresent(ApplyAll(t, shorter), es[|es| - 1], es[i].fileId);
  }

  lemma {:induction false} TailKnown(t: Table, es: seq<Entry>, k: nat)
    requires |t.buckets| == BUCKETS && k <= |es|
    ensures AllKnown(ApplyAll(t, es), es[k..])
  {
    var tail, u := es[k..], ApplyAll(t, es);
    forall i | 0 <= i < |tail| ensures Present(u, tail[i].fileId) {
      AppliedIsPresent(t, es, k + i);
    }
  }

  lemma SameGets(m: Directory, m': Directory)
    requires forall id :: Get(m, id) == Get(m', id)
    ensures m == m'
  {
    assert forall id :: id in m <==> Get(m, id).Some?;
    assert forall id :: id in m' <==> Get(m', id).Some?;
    assert forall id :: id in m ==> Get(m, id).value == m[id];
    assert forall id :: id in m' ==> Get(m', id).value == m'[id];
  }

  // ---------------------------------------------------------------- lookup by path

  predicate Matches(c: Cell, path: string) {
    c.entry.path == path && c.entry.Live()
  }

  function FindPath(chain: seq<Cell>, path: string, from: nat := 0): (k: nat)
    requires from <= |chain|
    ensures from <= k <= |chain|
    ensures k < |chain| ==> Matches(chain[k], path)
    ensures forall j :: from <= j < k ==> !Matches(chain[j], path)
    decreases |chain| - from
  {
    if from == |chain| || Matches(chain[from], path) then from else FindPath(chain, path, from + 1)
  }

  /** The linear search over all chains. */
  function LookupByPath(t: Table, path: string, b: nat := 0): Option<Entry>
    decreases |t.buckets| - b
  {
    if b >= |t.buckets| then None
    else
      var k := FindPath(t.buckets[b], path);
      if k < |t.buckets[b]| then Some(t.buckets[b][k].entry) else LookupByPath(t, path, b + 1)
  }

  lemma {:induction false} LookupByPathFinds(t: Table, m: Directory, path: string, b: nat)
    requires Refines(t, m)
    ensures var r := LookupByPath(t, path, b);
            && (r.Some? ==> r.value.path == path && r.value.Live() && Get(m, r.value.fileId) == r)
            && (r.None? ==> forall id :: id in m && m[id].path == path && m[id].Live() ==> HashString(id) < b)
    decreases BUCKETS - b
  {
    if b < BUCKETS {
      LookupByPathFinds(t, m, path, b + 1);
      BucketPath(t, m, path, b);
    }
  }

  lemma {:induction false} BucketPath(t: Table, m: Directory, path: string, b: nat)
    requires Refines(t, m) && b < BUCKETS
    ensures var chain := t.buckets[b]; var k := FindPath(chain, path);
            if k < |chain| then Get(m, chain[k].entry.fileId) == Some(chain[k].entry)
            else forall id :: id in m && HashString(id) == b ==> !(m[id].path == path && m[id].Live())
  {
    var chain := t.buckets[b];
    assert GoodChain(chain, b, m);
    forall id | id in m && HashString(id) == b ensures FindKey(chain, id) < |chain| {
      assert Present(t, id);
    }
    ChainPath(chain, b, m, path);
  }

  lemma ChainPath(chain: seq<Cell>, b: nat, m: Directory, path: string)
    requires GoodChain(chain, b, m)
    requires forall id :: id in m && HashString(id) == b ==> FindKey(chain, id) < |chain|
    ensures var k := FindPath(chain, path);
            if k < |chain| then Get(m, chain[k].entry.fileId) == Some(chain[k].entry)
            else forall id :: id in m && HashString(id) == b ==> !(m[id].path == path && m[id].Live())
  {
    var k := FindPath(chain, path);
    if k < |chain| {
      assert GoodCell(chain[k], b, m);
    } else {
      forall id | id in m && HashString(id) == b ensures !(m[id].path == path && m[id].Live()) {
        assert GoodCell(chain[FindKey(chain, id)], b, m);
      }
    }
  }

  /** The path search answers nothing exactly when no live entry has the path, and otherwise a live entry with it. */
  lemma LookupByPathRefines(t: Table, m: Directory, path: string)
    requires Refines(t, m)
    ensures LookupByPath(t, path).None? <==> forall id :: id in m && m[id].Live() ==> m[id].path != path
    ensures LookupByPath(t, path).Some? ==>
              var e := LookupByPath(t, path).value; e.fileId in m && m[e.fileId] == e && e.Live() && e.path == path
  {
    LookupByPathFinds(t, m, path, 0);
  }

  // ---------------------------------------------------------------- the program's own map

  /** The manager's map and counters, updated in place. */
  class Manager {
    const buckets: array<seq<Cell>>
    var totalEntries: nat
    var totalSize: nat

    ghost function View(): (t: Table)
      reads this, buckets
    {
      Table(buckets[..], totalEntries, totalSize)
    }

    ghost predicate Valid() {
      buckets.Length == BUCKETS
    }

    constructor ()
      ensures Valid() && fresh(buckets) && View() == NewTable()
    {
      buckets := new seq<Cell>[BUCKETS](_ => []);
      totalEntries, totalSize := 0, 0;
      new;
      assert buckets[..] == NewTable().buckets;
    }

    method Hash(s: string) returns (r: nat)
      ensures r == HashString(s)
    {
      var hash: nat := 5381;
      var i := 0;
      while i < |s|
        invariant i <= |s| && Accumulate(5381, s) == Accumulate(hash, s[i..])
      {
        assert s[i..][1..] == s[i + 1..];
        hash := (hash * 33 + SignedChar(s[i])) % U32;
        i := i + 1;
      }
      r := hash % BUCKETS;
    }

    method LookupId(id: string) returns (r: Option<Entry>)
      requires Valid()
      ensures r == Lookup(View(), id)
    {
      var h := Hash(id);
      var chain := buckets[h];
      var k := 0;
      while k < |chain|
        invariant k <= |chain| && FindKey(chain, id) == FindKey(chain, id, k)
      {
        if chain[k].key == id {
          return Some(chain[k].entry);
        }
        k := k + 1;
      }
      return None;
    }

    method LookupPath(path: string) returns (r: Option<Entry>)
      requires Valid()
      ensures r == LookupByPath(View(), path)
    {
      var b := 0;
      while b < BUCKETS
        invariant b <= BUCKETS && LookupByPath(View(), path) == LookupByPath(View(), path, b)
      {
        var chain := buckets[b];
        var k := 0;
        while k < |chain|
          invariant k <= |chain| && FindPath(chain, path) == FindPath(chain, path, k)
        {
          if Matches(chain[k], path) {
            return Some(chain[k].entry);
          }
          k := k + 1;
        }
        b := b + 1;
      }
      return None;
    }

    method ApplyEntry(e: Entry)
      requires Valid()
      modifies this, buckets
      ensures View() == Apply(old(View()), e)
    {
      var h := Hash(e.fileId);
      var chain := buckets[h];
      var k := 0;
      while k < |chain|
        invariant k <= |chain| && FindKey(chain, e.fileId) == FindKey(chain, e.fileId, k)
      {
        if chain[k].key == e.fileId {
          var was := chain[k].entry.size;
          buckets[h] := chain[k := chain[k].(entry := e)];
          if e.size >= was {
            totalSize := (totalSize + (e.size - was)) % U64;
          } else {
            totalSize := (totalSize - (was - e.size)) % U64;
          }
          return;
        }
        k := k + 1;
      }
      buckets[h] := [Cell(e.fileId, e)] + chain;
      totalEntries := totalEntries + 1;
      totalSize := (totalSize + e.size) % U64;
    }
  }
}

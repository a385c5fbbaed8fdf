/** The registry of storage nodes and the round-robin selector that places replicas. */
module Placement {
  import opened Entries
  import Quorums

  datatype Info = Info(id: nat, available: nat, online: bool)

  /** Registered nodes in order, and the round-robin cursor (which may be past the end after an unregistration). */
  datatype Registry = Registry(nodes: seq<Info>, cursor: nat)

  /** The remainder, by repeated subtraction. */
  function Mod(x: nat, n: nat): (m: nat)
    requires n > 0
    ensures m < n
  {
    if x < n then x else Mod(x - n, n)
  }

  lemma {:induction false} ModIsRemainder(x: nat, n: nat)
    requires n > 0
    ensures Mod(x, n) == x % n
  {
    if x >= n {
      ModIsRemainder(x - n, n);
      var q, r := (x - n) / n, (x - n) % n;
      assert x == (q + 1) * n + r;
      RemainderIs(x, q + 1, r, n);
    }
  }

  lemma RemainderIs(x: nat, q: nat, r: nat, n: nat)
    requires n > 0 && r < n && x == q * n + r
    ensures x % n == r
  {
    var d := x / n - q;
    assert d * n == r - x % n;
    assert d > 0 ==> d * n >= n;
    assert d < 0 ==> d * n + n <= 0;
  }

  predicate Eligible(node: Info, size: nat) {
    node.online && node.available >= size
  }

  function Add(sel: seq<nat>, node: Info, size: nat): seq<nat> {
    if Eligible(node, size) && node.id !in sel then sel + [node.id] else sel
  }

  /** The position that is visited j attempts from now. */
  function At(cursor: nat, j: nat, n: nat): (k: nat)
    requires n > 0
    ensures k < n
  {
    Mod(cursor + j, n)
  }

  /** Where the cursor stands after k attempts: untouched at first, reduced from the first attempt on. */
  function Moved(cursor: nat, k: nat, n: nat): nat
    requires k > 0 ==> n > 0
  {
    if k == 0 then cursor else At(cursor, k, n)
  }

  /** The nodes that successive attempts look at: twice round the registry. */
  function Stream(reg: Registry): (s: seq<Info>)
    ensures |s| == 2 * |reg.nodes|
    ensures forall j :: 0 <= j < |s| ==> s[j] == reg.nodes[At(reg.cursor, j, |reg.nodes|)]
  {
    seq(2 * |reg.nodes|, j requires 0 <= j < 2 * |reg.nodes| => reg.nodes[At(reg.cursor, j, |reg.nodes|)])
  }

  /** The selection loop from attempt k on: what is selected in the end, and after how many attempts. */
  function Visit(stream: seq<Info>, size: nat, r: nat, sel: seq<nat>, k: nat): (out: (seq<nat>, nat))
    requires k <= |stream|
    ensures k <= out.1 <= |stream|
    decreases |stream| - k
  {
    if |sel| >= r || k == |stream| then (sel, k) else Visit(stream, size, r, Add(sel, stream[k], size), k + 1)
  }

  /** Asking for no replica is an error; an empty registry selects nothing. The second part is the new cursor. */
  function Select(reg: Registry, size: nat, r: nat): Option<(seq<nat>, nat)> {
    if r == 0 then None
    else
      var (sel, attempts) := Visit(Stream(reg), size, r, [], 0);
      Some((sel, Moved(reg.cursor, attempts, |reg.nodes|)))
  }

  // ---------------------------------------------------------------- the selection is exact

  ghost function EligibleIds(nodes: seq<Info>, size: nat): set<nat> {
    set i | 0 <= i < |nodes| && Eligible(nodes[i], size) :: nodes[i].id
  }

  ghost predicate Distinct(ids: seq<nat>) {
    forall i, j :: 0 <= i < j < |ids| ==> ids[i] != ids[j]
  }

  ghost predicate Chosen(nodes: seq<Info>, size: nat, sel: seq<nat>) {
    Distinct(sel) && forall i :: 0 <= i < |sel| ==> sel[i] in EligibleIds(nodes, size)
  }

  ghost predicate Covered(node: Info, size: nat, sel: seq<nat>) {
    Eligible(node, size) ==> node.id in sel
  }

  ghost predicate FromNodes(stream: seq<Info>, nodes: seq<Info>) {
    forall j :: 0 <= j < |stream| ==> stream[j] in nodes
  }

  lemma {:induction false} AddKeepsChosen(nodes: seq<Info>, size: nat, sel: seq<nat>, node: Info)
    requires Chosen(nodes, size, sel) && node in nodes
    ensures Chosen(nodes, size, Add(sel, node, size))
  {
    assert Eligible(node, size) ==> node.id in EligibleIds(nodes, size);
  }

  lemma {:induction false} VisitChooses(nodes: seq<Info>, stream: seq<Info>, size: nat, r: nat, sel: seq<nat>, k: nat)
    requires FromNodes(stream, nodes) && Chosen(nodes, size, sel) && |sel| <= r && k <= |stream|
    ensures Chosen(nodes, size, Visit(stream, size, r, sel, k).0) && |Visit(stream, size, r, sel, k).0| <= r
    decreases |stream| - k
  {
    if |sel| < r && k < |stream| {
      AddKeepsChosen(nodes, size, sel, stream[k]);
      VisitChooses(nodes, stream, size, r, Add(sel, stream[k], size), k + 1);
    }
  }

  lemma {:induction false} VisitKeeps(stream: seq<Info>, size: nat, r: nat, sel: seq<nat>, k: nat, id: nat)
    requires k <= |stream| && id in sel
    ensures id in Visit(stream, size, r, sel, k).0
    decreases |stream| - k
  {
    if |sel| < r && k < |stream| {
      VisitKeeps(stream, size, r, Add(sel, stream[k], size), k + 1, id);
    }
  }

  /** A loop that falls short has taken every eligible node it met. */
  lemma {:induction false} VisitSweeps(stream: seq<Info>, size: nat, r: nat, sel: seq<nat>, k: nat)
    requires k <= |stream| && |Visit(stream, size, r, sel, k).0| < r
    ensures forall j :: k <= j < |stream| ==> Covered(stream[j], size, Visit(stream, size, r, sel, k).0)
    decreases |stream| - k
  {
    if k < |stream| && |sel| < r {
      var sel' := Add(sel, stream[k], size);
      VisitSweeps(stream, size, r, sel', k + 1);
      if Eligible(stream[k], size) {
        VisitKeeps(stream, size, r, sel', k + 1, stream[k].id);
      }
    }
  }

  lemma {:induction false} SumMod(a: nat, b: nat, n: nat)
    requires n > 0
    ensures Mod(Mod(a, n) + b, n) == Mod(a + b, n)
  {
    if a >= n {
      SumMod(a - n, b, n);
    }
  }

  /** Any number of consecutive attempts from n up visits every node. */
  lemma EveryNodeVisited(cursor: nat, n: nat, i: nat) returns (j: nat)
    requires i < n
    ensures j < n && At(cursor, j, n) == i
  {
    var c := Mod(cursor, n);
    j := if i >= c then i - c else i + n - c;
    SumMod(cursor, j, n);
  }

  lemma {:induction false} DistinctCard(ids: seq<nat>)
    requires Distinct(ids)
    ensures |set i | 0 <= i < |ids| :: ids[i]| == |ids|
  {
    if ids != [] {
      var before, last := ids[..|ids| - 1], ids[|ids| - 1];
      DistinctCard(before);
      assert (set i | 0 <= i < |ids| :: ids[i]) == (set i | 0 <= i < |before| :: before[i]) + {last};
    }
  }

  /** For every registry and cursor: as many replicas as asked for, or as many as there are different eligible ids,
      whichever is less; all different and all eligible. */
  lemma {:induction false} SelectIsExact(reg: Registry, size: nat, r: nat)
    ensures Select(reg, size, r).None? <==> r == 0
    ensures r > 0 ==>
              var sel := Select(reg, size, r).value.0;
              && Distinct(sel) && (forall id :: id in sel ==> id in EligibleIds(reg.nodes, size))
              && |sel| == if r <= |EligibleIds(reg.nodes, size)| then r else |EligibleIds(reg.nodes, size)|
  {
    if r > 0 {
      var stream := Stream(reg);
      var sel := Visit(stream, size, r, [], 0).0;
      VisitChooses(reg.nodes, stream, size, r, [], 0);
      if |sel| < r {
        VisitSweeps(stream, size, r, [], 0);
      }
      CountIsExact(reg, size, r, sel);
    }
  }

  lemma {:induction false} CountIsExact(reg: Registry, size: nat, r: nat, sel: seq<nat>)
    requires Chosen(reg.nodes, size, sel) && |sel| <= r
    requires |sel| < r ==> forall j :: 0 <= j < |Stream(reg)| ==> Covered(Stream(reg)[j], size, sel)
    ensures |sel| == if r <= |EligibleIds(reg.nodes, size)| then r else |EligibleIds(reg.nodes, size)|
  {
    var all := EligibleIds(reg.nodes, size);
    var picked := set i | 0 <= i < |sel| :: sel[i];
    DistinctCard(sel);
    Quorums.SubsetCard(picked, all);
    if |sel| < r {
      forall id | id in all ensures id in picked {
        var i :| 0 <= i < |reg.nodes| && Eligible(reg.nodes[i], size) && reg.nodes[i].id == id;
        var j := EveryNodeVisited(reg.cursor, |reg.nodes|, i);
        assert Covered(Stream(reg)[j], size, sel);
      }
      Quorums.SubsetCard(all, picked);
    }
  }

  // ---------------------------------------------------------------- the selection is balanced

  /** One selection, with the registry as it stood at the time. */
  datatype Call = Call(nodes: seq<Info>, size: nat, r: nat)

  ghost function Ids(nodes: seq<Info>): seq<nat> {
    seq(|nodes|, i requires 0 <= i < |nodes| => nodes[i].id)
  }

  /** The node ids stay, every node is eligible, and no more replicas are asked for than there are nodes. */
  ghost predicate Steady(ids: seq<nat>, call: Call) {
    && Ids(call.nodes) == ids && 0 < call.r <= |ids|
    && forall i :: 0 <= i < |call.nodes| ==> Eligible(call.nodes[i], call.size)
  }

  /** All ids picked by a series of calls, in order, and the cursor after them. */
  ghost function Picks(cursor: nat, calls: seq<Call>): (seq<nat>, nat)
    decreases |calls|
  {
    if calls == [] then ([], cursor)
    else
      var (before, c) := Picks(cursor, calls[..|calls| - 1]);
      var call := calls[|calls| - 1];
      var out := Select(Registry(call.nodes, c), call.size, call.r);
      if out.None? then (before, c) else (before + out.value.0, out.value.1)
  }

  /** The ids met by that many steps of the cursor. */
  function Walk(ids: seq<nat>, cursor: nat, steps: nat): (w: seq<nat>)
    requires ids != []
    ensures |w| == steps && forall j :: 0 <= j < steps ==> w[j] == ids[At(cursor, j, |ids|)]
  {
    seq(steps, j requires 0 <= j < steps => ids[At(cursor, j, |ids|)])
  }

  lemma {:induction false} WalkConcat(ids: seq<nat>, cursor: nat, a: nat, b: nat)
    requires ids != []
    ensures Walk(ids, cursor, a) + Walk(ids, cursor + a, b) == Walk(ids, cursor, a + b)
  {
  }

  lemma {:induction false} WalkMod(ids: seq<nat>, cursor: nat, steps: nat)
    requires ids != []
    ensures Walk(ids, Mod(cursor, |ids|), steps) == Walk(ids, cursor, steps)
  {
    forall j | 0 <= j < steps
      ensures Walk(ids, Mod(cursor, |ids|), steps)[j] == Walk(ids, cursor, steps)[j]
    {
      SumMod(cursor, j, |ids|);
    }
  }

  lemma {:induction false} ModApart(a: nat, b: nat, n: nat)
    requires a < b < a + n
    ensures Mod(a, n) != Mod(b, n)
    decreases a
  {
    if a >= n {
      ModApart(a - n, b - n, n);
    }
  }

  /** Fewer steps than nodes meet no id twice. */
  lemma {:induction false} WalkDistinct(ids: seq<nat>, cursor: nat, i: nat, j: nat)
    requires Distinct(ids) && i < j < |ids|
    ensures ids[At(cursor, i, |ids|)] != ids[At(cursor, j, |ids|)]
  {
    ModApart(cursor + i, cursor + j, |ids|);
  }

  lemma {:induction false} SteadyAdd(ids: seq<nat>, call: Call, cursor: nat, k: nat)
    requires Distinct(ids) && Steady(ids, call) && k < call.r
    ensures Add(Walk(ids, cursor, k), Stream(Registry(call.nodes, cursor))[k], call.size) == Walk(ids, cursor, k + 1)
  {
    var node := call.nodes[At(cursor, k, |ids|)];
    assert node.id == Ids(call.nodes)[At(cursor, k, |ids|)];
    forall i | 0 <= i < k ensures Walk(ids, cursor, k)[i] != node.id {
      WalkDistinct(ids, cursor, i, k);
    }
    assert Walk(ids, cursor, k + 1) == Walk(ids, cursor, k) + [node.id];
  }

  lemma {:induction false} SteadyVisit(ids: seq<nat>, call: Call, cursor: nat, k: nat)
    requires Distinct(ids) && Steady(ids, call) && k <= call.r
    ensures |call.nodes| == |ids|
    ensures Visit(Stream(Registry(call.nodes, cursor)), call.size, call.r, Walk(ids, cursor, k), k)
            == (Walk(ids, cursor, call.r), call.r)
    decreases call.r - k
  {
    assert |call.nodes| == |Ids(call.nodes)|;
    if k < call.r {
      SteadyAdd(ids, call, cursor, k);
      SteadyVisit(ids, call, cursor, k + 1);
    }
  }

  ghost function Asked(calls: seq<Call>): nat
    decreases |calls|
  {
    if calls == [] then 0 else Asked(calls[..|calls| - 1]) + calls[|calls| - 1].r
  }

  lemma {:induction false} MovedWalk(ids: seq<nat>, cursor: nat, k: nat, steps: nat)
    requires ids != [] && steps > 0
    ensures Walk(ids, Moved(cursor, k, |ids|), steps) == Walk(ids, cursor + k, steps)
    ensures Moved(Moved(cursor, k, |ids|), steps, |ids|) == Moved(cursor, k + steps, |ids|)
  {
    WalkMod(ids, cursor + k, steps);
    SumMod(cursor + k, steps, |ids|);
  }

  /** When every node is eligible, a selection is a walk: r steps from the cursor, and the cursor moves by r. */
  lemma {:induction false} SteadySelect(ids: seq<nat>, cursor: nat, k: nat, call: Call)
    requires Distinct(ids) && Steady(ids, call)
    ensures Select(Registry(call.nodes, Moved(cursor, k, |ids|)), call.size, call.r)
            == Some((Walk(ids, cursor + k, call.r), Moved(cursor, k + call.r, |ids|)))
  {
    var c := Moved(cursor, k, |ids|);
    assert Walk(ids, c, 0) == [];
    SteadyVisit(ids, call, c, 0);
    MovedWalk(ids, cursor, k, call.r);
  }

  /** Successive selections continue one walk. */
  lemma {:induction false} PicksAreWalk(ids: seq<nat>, cursor: nat, calls: seq<Call>)
    requires ids != [] && Distinct(ids) && forall i :: 0 <= i < |calls| ==> Steady(ids, calls[i])
    ensures Picks(cursor, calls).0 == Walk(ids, cursor, Asked(calls))
    ensures Picks(cursor, calls).1 == Moved(cursor, Asked(calls), |ids|)
    decreases |calls|
  {
    if calls != [] {
      var before, call := calls[..|calls| - 1], calls[|calls| - 1];
      PicksAreWalk(ids, cursor, before);
      assert Steady(ids, call);
      SteadySelect(ids, cursor, Asked(before), call);
      WalkConcat(ids, cursor, Asked(before), call.r);
    }
  }

  /** How often the walk has gone all the way round. */
  function Rounds(steps: nat, n: nat): nat
    requires n > 0
  {
    if steps < n then 0 else 1 + Rounds(steps - n, n)
  }

  lemma {:induction false} OncePerRound(ids: seq<nat>, cursor: nat, i: nat)
    requires Distinct(ids) && i < |ids|
    ensures multiset(Walk(ids, cursor, |ids|))[ids[i]] == 1
  {
    var j := EveryNodeVisited(cursor, |ids|, i);
    assert Walk(ids, cursor, |ids|)[j] == ids[i];
    AtMostOnce(ids, cursor, |ids|, ids[i]);
  }

  /** The walk meets every id once a round, and at most once more. */
  lemma {:induction false} WalkCount(ids: seq<nat>, cursor: nat, steps: nat, i: nat)
    requires Distinct(ids) && i < |ids|
    ensures var times := multiset(Walk(ids, cursor, steps))[ids[i]];
            Rounds(steps, |ids|) <= times <= Rounds(steps, |ids|) + 1
    decreases steps
  {
    var n := |ids|;
    if steps < n {
      AtMostOnce(ids, cursor, steps, ids[i]);
    } else {
      WalkCount(ids, cursor + n, steps - n, i);
      WalkConcat(ids, cursor, n, steps - n);
      OncePerRound(ids, cursor, i);
      assert multiset(Walk(ids, cursor, steps)) ==
             multiset(Walk(ids, cursor, n)) + multiset(Walk(ids, cursor + n, steps - n));
    }
  }

  lemma {:induction false} AtMostOnce(ids: seq<nat>, cursor: nat, steps: nat, id: nat)
    requires Distinct(ids) && ids != [] && steps <= |ids|
    ensures multiset(Walk(ids, cursor, steps))[id] <= 1
  {
    if steps > 0 {
      var before := Walk(ids, cursor, steps - 1);
      var last := ids[At(cursor, steps - 1, |ids|)];
      assert Walk(ids, cursor, steps) == before + [last];
      AtMostOnce(ids, cursor, steps - 1, id);
      forall i | 0 <= i < |before| ensures before[i] != last {
        WalkDistinct(ids, cursor, i, steps - 1);
      }
      assert last !in multiset(before);
    }
  }

  /** Balance: after any number of selections of any sizes, from any cursor, the pick counts of two nodes differ by at
      most one. */
  lemma {:induction false} PicksAreBalanced(ids: seq<nat>, cursor: nat, calls: seq<Call>, i: nat, j: nat)
    requires Distinct(ids) && i < |ids| && j < |ids|
    requires forall c :: 0 <= c < |calls| ==> Steady(ids, calls[c])
    ensures var picks := multiset(Picks(cursor, calls).0);
            picks[ids[i]] <= picks[ids[j]] + 1 && picks[ids[j]] <= picks[ids[i]] + 1
  {
    PicksAreWalk(ids, cursor, calls);
    WalkCount(ids, cursor, Asked(calls), i);
    WalkCount(ids, cursor, Asked(calls), j);
  }

  // ---------------------------------------------------------------- the program's registry

  /** Where the first node with this id is, or the number of nodes. */
  function FindNode(nodes: seq<Info>, id: nat, from: nat := 0): (k: nat)
    requires from <= |nodes|
    ensures from <= k <= |nodes| && (k < |nodes| ==> nodes[k].id == id)
    ensures forall j :: from <= j < k ==> nodes[j].id != id
    decreases |nodes| - from
  {
    if from == |nodes| || nodes[from].id == id then from else FindNode(nodes, id, from + 1)
  }

  /** The cursor arithmetic of one attempt. */
  lemma {:induction false} CursorMoves(cursor: nat, k: nat, n: nat)
    requires n > 0
    ensures Moved(cursor, k, n) % n == At(cursor, k, n)
    ensures (Moved(cursor, k, n) + 1) % n == Moved(cursor, k + 1, n)
  {
    ModIsRemainder(Moved(cursor, k, n), n);
    ModIsRemainder(Moved(cursor, k, n) + 1, n);
    SumMod(cursor + k, 0, n);
    SumMod(cursor + k, 1, n);
  }

  class StorageInterface {
    const nodes: array<Info>
    var numNodes: nat
    var nextIdx: nat

    ghost predicate Valid()
      reads this
    {
      numNodes <= nodes.Length
    }

    ghost function View(): Registry
      reads this, nodes
      requires Valid()
    {
      Registry(nodes[..numNodes], nextIdx)
    }

    constructor (maxNodes: nat)
      ensures Valid() && fresh(nodes) && nodes.Length == maxNodes && View() == Registry([], 0)
    {
      nodes := new Info[maxNodes](_ => Info(0, 0, false));
      numNodes, nextIdx := 0, 0;
    }

    /** A full registry refuses; nothing stops an id from being registered twice. */
    method Register(id: nat, capacity: nat) returns (ok: bool)
      requires Valid()
      modifies this, nodes
      ensures Valid() && (ok <==> old(numNodes) < nodes.Length)
      ensures View() ==
              if ok then old(View()).(nodes := old(View()).nodes + [Info(id, capacity, true)]) else old(View())
    {
      if numNodes >= nodes.Length {
        return false;
      }
      nodes[numNodes] := Info(id, capacity, true);
      numNodes := numNodes + 1;
      return true;
    }

    /** Removes the first node with this id and closes the gap. The cursor stays. */
    method Unregister(id: nat) returns (ok: bool)
      requires Valid()
      modifies this, nodes
      ensures Valid()
      ensures var was := old(View()); var k := FindNode(was.nodes, id);
              && (ok <==> k < |was.nodes|)
              && View() == if ok then was.(nodes := was.nodes[..k] + was.nodes[k + 1..]) else was
    {
      ghost var was := nodes[..numNodes];
      var i := Locate(id);
      if i == numNodes {
        return false;
      }
      ShiftLeft(i);
      numNodes := numNodes - 1;
      assert nodes[..numNodes] == was[..i] + was[i + 1..];
      return true;
    }

    method Locate(id: nat) returns (i: nat)
      requires Valid()
      ensures i == FindNode(View().nodes, id)
    {
      i := 0;
      while i < numNodes && nodes[i].id != id
        invariant i <= numNodes && FindNode(View().nodes, id) == FindNode(View().nodes, id, i)
      {
        i := i + 1;
      }
    }

    method ShiftLeft(k: nat)
      requires Valid() && k < numNodes
      modifies nodes
      ensures forall m :: 0 <= m < k ==> nodes[m] == old(nodes[m])
      ensures forall m :: k <= m < numNodes - 1 ==> nodes[m] == old(nodes[m + 1])
    {
      var j: nat := k;
      while j < numNodes - 1
        invariant k <= j <= numNodes - 1
        invariant forall m :: 0 <= m < k ==> nodes[m] == old(nodes[m])
        invariant forall m :: k <= m < j ==> nodes[m] == old(nodes[m + 1])
        invariant forall m :: j <= m < numNodes ==> nodes[m] == old(nodes[m])
      {
        nodes[j] := nodes[j + 1];
        j := j + 1;
      }
    }

    method IsSelected(picked: seq<nat>, id: nat) returns (already: bool)
      ensures already <==> id in picked
    {
      var i := 0;
      already := false;
      while i < |picked| && !already
        invariant i <= |picked| && (already <==> id in picked[..i])
      {
        already := picked[i] == id;
        i := i + 1;
      }
    }

    /** The selector; None is the error answer. */
    method SelectNodes(size: nat, r: nat) returns (sel: Option<seq<nat>>)
      requires Valid()
      modifies this`nextIdx
      ensures var out := Select(old(View()), size, r);
              if out.None? then sel.None? && View() == old(View())
              else sel == Some(out.value.0) && View() == old(View()).(cursor := out.value.1)
    {
      if r == 0 {
        return None;
      }
      var picked: seq<nat> := [];
      var attempts: nat := 0;
      var limit := numNodes * 2;
      ghost var cursor, stream := nextIdx, Stream(View());
      while |picked| < r && attempts < limit
        invariant attempts <= limit && nextIdx == Moved(cursor, attempts, numNodes)
        invariant Visit(stream, size, r, picked, attempts) == Visit(stream, size, r, [], 0)
        decreases limit - attempts
      {
        CursorMoves(cursor, attempts, numNodes);
        var node := nodes[nextIdx % numNodes];
        assert node == stream[attempts];
        if Eligible(node, size) {
          var already := IsSelected(picked, node.id);
          if !already {
            picked := picked + [node.id];
          }
        }
        nextIdx := (nextIdx + 1) % numNodes;
        attempts := attempts + 1;
      }
      return Some(picked);
    }
  }
}

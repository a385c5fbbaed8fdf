/** The metadata map each node builds from the entries it applies, and how the maps of the cluster relate. */
module ReplicatedMetadata {
  import opened Entries
  import opened PaxosNode
  import opened PaxosSystem
  import PaxosDurability
  import MM = MetadataMap

  ghost function Values(log: seq<Record>): seq<Entry> {
    seq(|log|, i requires 0 <= i < |log| => log[i].value)
  }

  /** The state machine of a node that has applied this log. */
  ghost function MapOf(log: seq<Record>): (t: MM.Table)
    ensures |t.buckets| == MM.BUCKETS
  {
    MM.ApplyAll(MM.NewTable(), Values(log))
  }

  lemma {:induction false} ApplyAllConcat(t: MM.Table, xs: seq<Entry>, ys: seq<Entry>)
    requires |t.buckets| == MM.BUCKETS
    ensures MM.ApplyAll(t, xs + ys) == MM.ApplyAll(MM.ApplyAll(t, xs), ys)
    decreases |ys|
  {
    if ys == [] {
      assert xs + ys == xs;
    } else {
      assert (xs + ys)[..|xs + ys| - 1] == xs + ys[..|ys| - 1];
      ApplyAllConcat(t, xs, ys[..|ys| - 1]);
    }
  }

  lemma {:induction false} CatchUp(have: seq<Record>, all: seq<Record>)
    requires have <= all
    ensures MM.ApplyAll(MapOf(have), Values(all[|have|..])) == MapOf(all)
  {
    ApplyAllConcat(MM.NewTable(), Values(have), Values(all[|have|..]));
    assert Values(all) == Values(have) + Values(all[|have|..]);
  }

  /** Over in-order links a follower's metadata map is, at every moment, a map the proposer has had, chain order and
      counters included, and the records it still lacks turn it into the proposer's present one. */
  lemma {:induction false} FollowerMapWasTheProposers(p: nat, ids: seq<nat>, run: seq<Step>, f: nat) returns (i: nat)
    requires GoodCluster(ids) && p < |ids| && f < |ids| && f != p && After(Fifo(p), ids, run).Some?
    ensures i <= |run| && After(Fifo(p), ids, run[..i]).Some?
    ensures var s := After(Fifo(p), ids, run).value; var earlier := After(Fifo(p), ids, run[..i]).value;
            && |s.nodes| == |ids| && |earlier.nodes| == |ids|
            && s.nodes[f].applied <= s.nodes[p].applied
            && MapOf(s.nodes[f].applied) == MapOf(earlier.nodes[p].applied)
            && MM.ApplyAll(MapOf(s.nodes[f].applied), Values(s.nodes[p].applied[|s.nodes[f].applied|..]))
               == MapOf(s.nodes[p].applied)
  {
    i := PaxosDurability.FollowersReplayTheProposer(p, ids, run, f);
    var s := After(Fifo(p), ids, run).value;
    CatchUp(s.nodes[f].applied, s.nodes[p].applied);
  }

  /** A node that is sent its whole history again, or any tail of it, keeps its map. */
  lemma ReappliedHistoryIsHarmless(log: seq<Record>, k: nat)
    requires k <= |log|
    ensures MM.ApplyAll(MapOf(log), Values(log[k..])) == MapOf(log)
  {
    MM.ReplayChangesNothing(Values(log), k);
    assert Values(log)[k..] == Values(log[k..]);
  }
}

/** Replicas agree on every sequence number exactly when one node proposes: in every cluster, any two nodes can each
    commit a value of their own under the same sequence number. */
module PaxosConflict {
  import opened Entries
  import opened PaxosNode
  import opened PaxosSystem
  import PaxosAgreement
  import opened PaxosRounds

  /** In every cluster, whatever two nodes propose whatever two values, some run has both values applied under
      sequence number 1. */
  lemma {:induction false} TwoProposersCanDisagree(ids: seq<nat>, who: set<nat>, p: nat, q: nat, v: Entry, w: Entry)
      returns (run: seq<Step>, s: Sys, a: nat, b: nat)
    requires GoodCluster(ids) && p < |ids| && q < |ids| && p != q && p in who && q in who
    ensures Reached(AtMostOnce, ids, who, run, s) && |s.nodes| == |ids|
    ensures s.nodes[p].applied == [Record(a, 1, v)] && s.nodes[q].applied == [Record(b, 1, w)]
  {
    var s0 := Start(ids);
    var ps := SomeBackers(|ids|, p, q);
    var qs := SomeBackers(|ids|, q, p);
    FirstId(ids[p]);
    var run1, s1, i := Round(AtMostOnce, ids, who, [], s0, p, ps, v);
    a := i;
    assert s1.nodes[q].highestSeen == a;
    NextIdLaw(a, ids[q]);
    forall k | 0 <= k < |qs| ensures s1.nodes[qs[k]].highestSeen < NextId(a, ids[q]) {
      assert qs[k] == p || Kept(s0.nodes[qs[k]], s1.nodes[qs[k]], qs[k] in ps, a);
    }
    assert Ready(s1, q);
    var run2, s2, j := Round(AtMostOnce, ids, who, run1, s1, q, qs, w);
    run, s, b := run2, s2, j;
    assert Kept(s1.nodes[p], s2.nodes[p], p in qs, b);
  }

  // ---------------------------------------------------------------- exactly when replicas agree

  ghost predicate Agree(s: Sys) {
    forall m, n, x, y ::
      0 <= m < |s.nodes| && 0 <= n < |s.nodes|
      && x in s.nodes[m].applied && y in s.nodes[n].applied && x.seqno == y.seqno
      ==> x.value == y.value
  }

  lemma {:induction false} OneProposer(ids: seq<nat>, who: set<nat>, run: seq<Step>, s: Sys, p: nat)
    requires GoodCluster(ids) && Reached(AtMostOnce, ids, who, run, s) && who == {p}
    ensures Agree(s)
  {
    InvRun(AtMostOnce, ids, run);
    forall m, n, x, y | 0 <= m < |s.nodes| && 0 <= n < |s.nodes| && x in s.nodes[m].applied && y in s.nodes[n].applied
                        && x.seqno == y.seqno
      ensures x.value == y.value
    {
      PaxosAgreement.OneProposerAgrees(AtMostOnce, ids, run, p, m, x, n, y);
    }
  }

  /** Agreement on every sequence number holds in all runs exactly when no two different nodes propose. */
  lemma {:induction false} AgreementIffOneProposer(ids: seq<nat>, who: set<nat>)
    requires GoodCluster(ids) && who != {} && forall x :: x in who ==> x < |ids|
    ensures (forall run, s :: Reached(AtMostOnce, ids, who, run, s) ==> Agree(s))
            <==> forall p, q :: p in who && q in who ==> p == q
  {
    var p :| p in who;
    if q :| q in who && q != p {
      var v := Entry("a", "/", Active, 0, true, [], 1);
      var run, s, a, b := TwoProposersCanDisagree(ids, who, p, q, v, v.(fileId := "b"));
      assert Record(a, 1, v) in s.nodes[p].applied;
      assert Record(b, 1, v.(fileId := "b")) in s.nodes[q].applied;
      assert !Agree(s);
    } else {
      assert who == {p};
      forall run, s | Reached(AtMostOnce, ids, who, run, s) ensures Agree(s) {
        OneProposer(ids, who, run, s, p);
      }
    }
  }
}

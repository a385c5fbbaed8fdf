/** Replica agreement: equal sequence numbers from one proposing node carry equal records on any network, and nodes that
    do not propose apply in rising order. */
module PaxosAgreement {
  import opened PaxosNode
  import opened PaxosSystem
  import opened PaxosOutcome

  /** Two different values can be applied under one sequence number only for two different proposing nodes. */
  lemma ConflictNeedsTwoProposers(
      d: Discipline, ids: seq<nat>, run: seq<Step>, n1: nat, r1: Record, n2: nat, r2: Record)
    requires GoodCluster(ids) && After(d, ids, run).Some?
    requires n1 < |ids| && n2 < |ids|
    requires var s := After(d, ids, run).value;
             |s.nodes| == |ids| && r1 in s.nodes[n1].applied && r2 in s.nodes[n2].applied && r1.seqno == r2.seqno
    ensures var s := After(d, ids, run).value;
            && r1.id in s.threads && r2.id in s.threads
            && (s.threads[r1.id].node == s.threads[r2.id].node ==> r1 == r2)
  {
    ExactRun(d, ids, run);
    var s := After(d, ids, run).value;
    assert GoodRecord(s, r1) && GoodRecord(s, r2);
    assert r1.id != r2.id ==> SeqnosApart(s.threads[r1.id], s.threads[r2.id]);
  }

  ghost predicate OnlyProposer(run: seq<Step>, p: nat) {
    forall i :: 0 <= i < |run| && run[i].TakeId? ==> run[i].node == p
  }

  lemma {:induction false} ThreadsOf(d: Discipline, ids: seq<nat>, run: seq<Step>, p: nat)
    requires GoodCluster(ids) && After(d, ids, run).Some? && OnlyProposer(run, p)
    ensures forall id :: id in After(d, ids, run).value.threads ==> After(d, ids, run).value.threads[id].node == p
  {
    if run != [] {
      ThreadsOf(d, ids, run[..|run| - 1], p);
    }
  }

  /** One proposing node: all nodes apply the same value under the same sequence number, on any network. */
  lemma OneProposerAgrees(
      d: Discipline, ids: seq<nat>, run: seq<Step>, p: nat, n1: nat, r1: Record, n2: nat, r2: Record)
    requires GoodCluster(ids) && After(d, ids, run).Some? && OnlyProposer(run, p)
    requires n1 < |ids| && n2 < |ids|
    requires var s := After(d, ids, run).value;
             |s.nodes| == |ids| && r1 in s.nodes[n1].applied && r2 in s.nodes[n2].applied && r1.seqno == r2.seqno
    ensures r1 == r2
  {
    ConflictNeedsTwoProposers(d, ids, run, n1, r1, n2, r2);
    ThreadsOf(d, ids, run, p);
  }

  // ---------------------------------------------------------------- learners apply in order

  ghost predicate RisesTo(log: seq<Record>, top: nat) {
    && Rises(log)
    && (forall i :: 0 <= i < |log| ==> log[i].seqno <= top)
  }

  lemma RisesToStep(ids: seq<nat>, s: Sys, st: Step, f: nat)
    requires GoodCluster(ids) && Inv(ids, s) && Enabled(s, st) && f < |s.nodes|
    requires forall id :: id in s.threads ==> s.threads[id].node != f
    requires st.TakeId? ==> st.node != f
    requires RisesTo(s.nodes[f].applied, s.nodes[f].committedSeq)
    ensures RisesTo(Exec(s, st).nodes[f].applied, Exec(s, st).nodes[f].committedSeq)
  {
    if st.Deliver? {
      assert GoodPacket(s, s.sent[st.k]);
    }
  }

  /** A node that does not propose applies in strictly increasing sequence order, on any network. */
  lemma {:induction false} LearnersApplyInOrder(d: Discipline, ids: seq<nat>, run: seq<Step>, p: nat, f: nat)
    requires GoodCluster(ids) && After(d, ids, run).Some? && OnlyProposer(run, p) && f < |ids| && f != p
    ensures var s := After(d, ids, run).value;
            |s.nodes| == |ids| && RisesTo(s.nodes[f].applied, s.nodes[f].committedSeq)
  {
    InvRun(d, ids, run);
    if run != [] {
      var shorter := run[..|run| - 1];
      LearnersApplyInOrder(d, ids, shorter, p, f);
      InvRun(d, ids, shorter);
      ThreadsOf(d, ids, shorter, p);
      RisesToStep(ids, After(d, ids, shorter).value, run[|run| - 1], f);
    }
  }
}

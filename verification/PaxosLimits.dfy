/** The limits of the results on certificates and durability: certificates survive duplicated answers exactly in
    clusters of three, and a follower whose persist fails does apply what it has not written. */
module PaxosLimits {
  import opened Entries
  import opened Quorums
  import opened PaxosNode
  import opened PaxosSystem
  import opened PaxosCertificates
  import opened PaxosFollower
  import opened PaxosDurability
  import opened PaxosRounds

  // ---------------------------------------------------------------- one answer, delivered again and again

  lemma {:induction false} RepeatPromise(
      ids: seq<nat>, who: set<nat>, run: seq<Step>, s: Sys, k: nat, p: nat, id: nat, slot: Slot, times: nat)
      returns (run': seq<Step>, s': Sys)
    requires Reached(AnyDelivery, ids, who, run, s) && Counting(s, p, id, AwaitPromises, slot)
    requires k < |s.sent| && s.sent[k].dst == p && s.sent[k].msg.Promise? && s.sent[k].msg.id == id
    ensures Reached(AnyDelivery, ids, who, run', s') && s'.sent == s.sent && |s'.nodes| == |s.nodes|
    ensures Counting(s', p, id, AwaitPromises, slot.(promises := slot.promises + times))
    ensures forall x :: 0 <= x < |s.nodes| && x != p ==> s'.nodes[x] == s.nodes[x]
    ensures s'.nodes[p].quorum == s.nodes[p].quorum
    decreases times
  {
    if times == 0 {
      run', s' := run, s;
    } else {
      var slot1 := slot.(promises := slot.promises + 1);
      FirstSlot(s.nodes[p].slots, id);
      var o := Outcome(WithSlot(s.nodes[p], slot1), None, None);
      var run1, s1 := Give(AnyDelivery, ids, who, run, s, k, s.sent[k], o);
      run', s' := RepeatPromise(ids, who, run1, s1, k, p, id, slot1, times - 1);
    }
  }

  lemma {:induction false} RepeatAccepted(
      ids: seq<nat>, who: set<nat>, run: seq<Step>, s: Sys, k: nat, p: nat, id: nat, slot: Slot, times: nat)
      returns (run': seq<Step>, s': Sys)
    requires Reached(AnyDelivery, ids, who, run, s) && Counting(s, p, id, AwaitCommit, slot) && times > 0
    requires slot.accepts + times == s.nodes[p].quorum
    requires k < |s.sent| && s.sent[k].dst == p && s.sent[k].msg.Accepted? && s.sent[k].msg.id == id
    requires s.sent[k].msg.seqno == slot.seqno
    ensures Reached(AnyDelivery, ids, who, run', s') && |s'.nodes| == |s.nodes| && s'.threads == s.threads
    ensures |s.sent| <= |s'.sent|
    ensures forall j :: 0 <= j < |s'.sent| ==> if j < |s.sent| then s'.sent[j] == s.sent[j] else s'.sent[j].msg.Learn?
    ensures Record(id, slot.seqno, slot.value) in s'.nodes[p].applied
    decreases times
  {
    var n := s.nodes[p];
    var o := OnAccepted(n, s.sent[k].msg);
    CountsAcceptance(n, id, slot, s.sent[k].msg.acceptor);
    var run1, s1 := Give(AnyDelivery, ids, who, run, s, k, s.sent[k], o);
    if times == 1 {
      run', s' := run1, s1;
    } else {
      run', s' := RepeatAccepted(ids, who, run1, s1, k, p, id, slot.(accepts := slot.accepts + 1), times - 1);
    }
  }

  ghost predicate AcksFrom(s: Sys, id: nat, q: nat) {
    forall k :: 0 <= k < |s.sent| && IsAck(s.sent[k], id) ==> s.sent[k].src == q
  }

  lemma {:induction false} TwoAcceptors(s: Sys, id: nat, p: nat, q: nat)
    requires AcksFrom(s, id, q) && id in s.threads && s.threads[id].node == p && |s.nodes| >= 5
    ensures !Certified(s, id)
  {
    assert Acceptors(s, id) <= {p, q};
    SubsetCard(Acceptors(s, id), {p, q});
    assert |{p, q}| <= 2;
  }

  lemma {:induction false} AcksAppend(s: Sys, s': Sys, out: seq<Packet>, id: nat, q: nat)
    requires AcksFrom(s, id, q) && s'.sent == s.sent + out
    requires forall k :: 0 <= k < |out| ==> !out[k].msg.Accepted? || out[k].src == q
    ensures AcksFrom(s', id, q)
  {
    forall k | 0 <= k < |s'.sent| && IsAck(s'.sent[k], id) ensures s'.sent[k].src == q {
      assert s'.sent[k] == if k < |s.sent| then s.sent[k] else out[k - |s.sent|];
    }
  }

  /** A proposal of p that one peer has promised. */
  lemma {:induction false} OnePeerPromises(ids: seq<nat>, p: nat, q: nat, v: Entry)
      returns (run: seq<Step>, s: Sys, id: nat, k: nat)
    requires GoodCluster(ids) && p < |ids| && q < |ids| && p != q
    ensures Reached(AnyDelivery, ids, {p}, run, s) && |s.nodes| == |ids| && s.nodes[p].quorum == Majority(|ids|)
    ensures Counting(s, p, id, AwaitPromises, Busy(id, 1, v, 1, 0, false, false))
    ensures s.nodes[q].highestSeen <= id && AcksFrom(s, id, q)
    ensures k < |s.sent| && s.sent[k].dst == p && s.sent[k].msg.Promise? && s.sent[k].msg.id == id
  {
    var s0 := Start(ids);
    FirstId(ids[p]);
    var run1, s1, i := Begin(AnyDelivery, ids, {p}, [], s0, p, v);
    id := i;
    var m := Prepare(id, 1);
    FanAt(p, |ids|, m, q);
    AcksAppend(s0, s1, Fan(p, |ids|, m), id, q);
    var answer := Promise(id, 1, ids[q], 0);
    var o := Outcome(s1.nodes[q].(highestSeen := id), Some(answer), None);
    run, s := Give(AnyDelivery, ids, {p}, run1, s1, Pkt(0, p, q), Packet(p, q, m), o);
    k := |s1.sent|;
    assert s.sent == s1.sent + [Packet(q, p, answer)];
    AcksAppend(s1, s, [Packet(q, p, answer)], id, q);
  }

  /** A proposal that has a promise quorum, accepted by one peer. */
  lemma {:induction false} OnePeerAccepts(
      ids: seq<nat>, run: seq<Step>, s: Sys, p: nat, q: nat, id: nat, slot: Slot)
      returns (run': seq<Step>, s': Sys, k: nat)
    requires Reached(AnyDelivery, ids, {p}, run, s) && Counting(s, p, id, AwaitPromises, slot) && AcksFrom(s, id, q)
    requires slot.promises >= s.nodes[p].quorum && q < |s.nodes| && q != p && s.nodes[q].highestSeen <= id
    ensures Reached(AnyDelivery, ids, {p}, run', s') && |s'.nodes| == |s.nodes| && AcksFrom(s', id, q)
    ensures Counting(s', p, id, AwaitCommit, slot.(accepts := 1)) && s'.nodes[p].quorum == s.nodes[p].quorum
    ensures k < |s'.sent| && s'.sent[k].dst == p && s'.sent[k].msg.Accepted? && s'.sent[k].msg.id == id
    ensures s'.sent[k].msg.seqno == slot.seqno
  {
    var run2, s2 := Middle(AnyDelivery, ids, {p}, run, s, p, id, slot);
    var m := Accept(id, slot.seqno, slot.value);
    FanAt(p, |s.nodes|, m, q);
    AcksAppend(s, s2, Fan(p, |s.nodes|, m), id, q);
    k := |s2.sent|;
    run', s' := AcceptOnce(ids, run2, s2, Pkt(|s.sent|, p, q), p, q, id, slot.(accepts := 1));
  }

  lemma {:induction false} AcceptOnce(
      ids: seq<nat>, run: seq<Step>, s: Sys, k: nat, p: nat, q: nat, id: nat, slot: Slot)
      returns (run': seq<Step>, s': Sys)
    requires Reached(AnyDelivery, ids, {p}, run, s) && Counting(s, p, id, AwaitCommit, slot) && AcksFrom(s, id, q)
    requires k < |s.sent| && s.sent[k] == Packet(p, q, Accept(id, slot.seqno, slot.value))
    requires q < |s.nodes| && q != p && s.nodes[q].highestSeen <= id
    ensures Reached(AnyDelivery, ids, {p}, run', s') && |s'.nodes| == |s.nodes| && AcksFrom(s', id, q)
    ensures Counting(s', p, id, AwaitCommit, slot) && s'.nodes[p] == s.nodes[p]
    ensures s'.sent == s.sent + [Packet(q, p, Accepted(id, slot.seqno, s.nodes[q].nodeId))]
  {
    var m := s.sent[k].msg;
    var reply := Packet(q, p, Accepted(id, slot.seqno, s.nodes[q].nodeId));
    run', s' := Give(AnyDelivery, ids, {p}, run, s, k, s.sent[k], OnAccept(s.nodes[q], m, true));
    assert s'.sent == s.sent + [reply];
    AcksAppend(s, s', [reply], id, q);
  }

  /** From five nodes on, one PROMISE and one ACCEPTED that are delivered again and again commit with two acceptors. */
  lemma {:induction false} DuplicatesCommit(ids: seq<nat>, p: nat, q: nat, v: Entry)
      returns (run: seq<Step>, s: Sys, id: nat)
    requires GoodCluster(ids) && |ids| >= 5 && p < |ids| && q < |ids| && p != q
    ensures After(AnyDelivery, ids, run) == Some(s) && |s.nodes| == |ids|
    ensures Record(id, 1, v) in s.nodes[p].applied && !Certified(s, id)
  {
    var n := |ids|;
    var run1, s1, i, k1 := OnePeerPromises(ids, p, q, v);
    id := i;
    var slot := Busy(id, 1, v, 1, 0, false, false);
    var run2, s2 := RepeatPromise(ids, {p}, run1, s1, k1, p, id, slot, n / 2);
    var slot2 := slot.(promises := 1 + n / 2);
    var run3, s3, k3 := OnePeerAccepts(ids, run2, s2, p, q, id, slot2);
    run, s := RepeatAccepted(ids, {p}, run3, s3, k3, p, id, slot2.(accepts := 1), n / 2);
    assert AcksFrom(s, id, q);
    TwoAcceptors(s, id, p, q);
  }

  /** On a network that may deliver anything any number of times, certificates are kept exactly in clusters of three. */
  lemma {:induction false} CertifiedIffThree(ids: seq<nat>)
    requires GoodCluster(ids)
    ensures (forall run :: After(AnyDelivery, ids, run).Some? ==> AllCertified(After(AnyDelivery, ids, run).value))
            <==> |ids| == 3
  {
    if |ids| == 3 {
      forall run | After(AnyDelivery, ids, run).Some? ensures AllCertified(After(AnyDelivery, ids, run).value) {
        CertifiedRun(AnyDelivery, ids, run);
      }
    } else {
      var run, s, id := DuplicatesCommit(ids, 0, 1, Entry("a", "/", Active, 0, true, [], 1));
      assert !AllCertified(After(AnyDelivery, ids, run).value);
    }
  }

  // ---------------------------------------------------------------- a follower whose persist fails

  /** Delivers, in order and with every persist failing, what is under way from p to f from position i on. */
  lemma {:induction false} DrainFailing(
      ids: seq<nat>, who: set<nat>, run: seq<Step>, s: Sys, p: nat, f: nat, i: nat, end: nat)
      returns (run': seq<Step>, s': Sys)
    requires Reached(Fifo(p), ids, who, run, s) && p < |s.nodes| && f < |s.nodes| && f != p && s.nodes[f].wal == []
    requires i <= end <= |s.sent|
    requires forall j :: 0 <= j < i && OnLink(s.sent[j], p, f) ==> j in s.delivered
    requires forall j :: end <= j < |s.sent| ==> !OnLink(s.sent[j], p, f)
    ensures Reached(Fifo(p), ids, who, run', s') && |s'.nodes| == |s.nodes|
    ensures s'.nodes[p] == s.nodes[p] && s'.nodes[f].wal == []
    ensures forall j :: 0 <= j < |s'.sent| && OnLink(s'.sent[j], p, f) ==> j in s'.delivered
    decreases end - i
  {
    if i == end {
      run', s' := run, s;
    } else if OnLink(s.sent[i], p, f) && i !in s.delivered {
      var st := Deliver(i, false, true);
      Extend(Fifo(p), ids, who, run, s, st);
      var s1 := Exec(s, st);
      FailingKeepsDisk(s, i, f);
      run', s' := DrainFailing(ids, who, run + [st], s1, p, f, i + 1, end);
    } else {
      run', s' := DrainFailing(ids, who, run, s, p, f, i + 1, end);
    }
  }

  lemma {:induction false} FailingKeepsDisk(s: Sys, k: nat, f: nat)
    requires k < |s.sent| && s.sent[k].dst == f < |s.nodes|
    ensures var s' := ExecDeliver(s, k, false, true);
            && |s'.nodes| == |s.nodes| && s'.nodes[f].wal == s.nodes[f].wal && s'.delivered == s.delivered + {k}
            && (forall x :: 0 <= x < |s.nodes| && x != f ==> s'.nodes[x] == s.nodes[x])
            && |s.sent| <= |s'.sent| && (forall j :: 0 <= j < |s.sent| ==> s'.sent[j] == s.sent[j])
            && (forall j :: |s.sent| <= j < |s'.sent| ==> s'.sent[j].src == f)
  {
  }

  lemma {:induction false} BackersWithout(n: nat, p: nat, f: nat) returns (qs: seq<nat>)
    requires n >= 3 && p < n && f < n && p != f
    ensures Backers(n, p, qs) && f !in qs
  {
    qs := Others(n, p, f)[..n / 2];
  }

  /** In every cluster, any follower whose persists fail ends up with an applied record that is not in its log. */
  lemma {:induction false} FailingPersistLosesRecord(ids: seq<nat>, p: nat, f: nat, v: Entry)
      returns (run: seq<Step>, s: Sys)
    requires GoodCluster(ids) && p < |ids| && f < |ids| && f != p
    ensures After(Fifo(p), ids, run) == Some(s) && |s.nodes| == |ids|
    ensures s.nodes[f].applied != [] && s.nodes[f].wal == [] && !OnDisk(s.nodes[f]) && !KeepsRecords(p, ids, run, f)
  {
    var qs := BackersWithout(|ids|, p, f);
    var s0 := Start(ids);
    FirstId(ids[p]);
    var run1, s1, id := Round(Fifo(p), ids, {p}, [], s0, p, qs, v);
    assert Kept(s0.nodes[f], s1.nodes[f], false, id);
    run, s := DrainFailing(ids, {p}, run1, s1, p, f, 0, |s1.sent|);
    ReplicatedRun(p, ids, run);
    assert Followed(p, s, f);
    HeardIsPrefix(s.sent, s.delivered, p, f);
    assert s.nodes[f].applied == s.nodes[p].applied;
    assert s.nodes[f].applied[0] in s.nodes[f].applied;
    DurableIffLearnsPersist(p, ids, run, f);
  }
}

/** Replication from one serialised proposer over in-order, loss-free links: every follower has applied exactly the
    LEARNs it has heard, in the order of the proposer's log. */
module PaxosFollower {
  import opened PaxosNode
  import opened PaxosSystem
  import opened PaxosOutcome
  import opened PaxosCertificates

  // ---------------------------------------------------------------- serial proposals

  /** Ids and sequence numbers of threads rise together, and only the newest thread can be unfinished. */
  ghost predicate Serial(p: nat, s: Sys) {
    && p < |s.nodes|
    && (forall i :: i in s.threads ==> s.threads[i].node == p)
    && (forall i, j :: i in s.threads && j in s.threads && i < j ==>
          s.threads[i].pc.Returned? && (s.threads[j].pc.HasId? || s.threads[i].seqno < s.threads[j].seqno))
    && (forall i :: i in s.threads && s.threads[i].pc.Returned? ==> s.threads[i].seqno < s.nodes[p].nextSeq)
  }

  lemma SerialTakeId(p: nat, ids: seq<nat>, s: Sys, st: Step)
    requires GoodCluster(ids) && Inv(ids, s) && Serial(p, s) && Allowed(Fifo(p), s, st) && st.TakeId?
    ensures Serial(p, Exec(s, st))
  {
    NextIdLaw(s.nodes[p].highestSeen, s.nodes[p].nodeId);
    assert forall i :: i in s.threads ==> GoodThread(ids, s, i);
  }

  lemma {:induction false} SerialUpdate(p: nat, ids: seq<nat>, s: Sys, id: nat, l: Local)
    requires GoodCluster(ids) && Inv(ids, s) && Serial(p, s) && LocalChange(s, id, l.t, l.n)
    requires !s.threads[id].pc.Returned?
    ensures Serial(p, Update(s, id, l.t, l.n, l.out))
  {
    assert forall i :: i in s.threads ==> GoodThread(ids, s, i);
  }

  lemma {:induction false} SerialProposer(p: nat, ids: seq<nat>, s: Sys, st: Step)
    requires GoodCluster(ids) && Inv(ids, s) && Serial(p, s) && Enabled(s, st) && IsProposer(st)
    ensures Serial(p, Exec(s, st))
  {
    ProposerChange(ids, s, st);
    SerialUpdate(p, ids, s, st.id, LocalOf(s, st));
  }

  // ---------------------------------------------------------------- links

  predicate OnLink(q: Packet, src: nat, dst: nat) {
    q.src == src && q.dst == dst
  }

  /** The LEARNs sent to f, and those of them already delivered, in sending order. */
  function Learns(sent: seq<Packet>, f: nat): seq<Record> {
    if sent == [] then []
    else
      var q := sent[|sent| - 1];
      Learns(sent[..|sent| - 1], f) + if q.dst == f && q.msg.Learn? then [RecordOf(q.msg)] else []
  }

  ghost function LearnsHeard(sent: seq<Packet>, delivered: set<nat>, f: nat): seq<Record> {
    if sent == [] then []
    else
      var q := sent[|sent| - 1];
      LearnsHeard(sent[..|sent| - 1], delivered, f)
      + if q.dst == f && q.msg.Learn? && |sent| - 1 in delivered then [RecordOf(q.msg)] else []
  }

  lemma {:induction false} LearnsConcat(sent: seq<Packet>, out: seq<Packet>, f: nat)
    ensures Learns(sent + out, f) == Learns(sent, f) + Learns(out, f)
  {
    if out == [] {
      assert sent + out == sent;
    } else {
      assert (sent + out)[..|sent + out| - 1] == sent + out[..|out| - 1];
      LearnsConcat(sent, out[..|out| - 1], f);
    }
  }

  lemma {:induction false} NoLearns(out: seq<Packet>, f: nat)
    requires forall k :: 0 <= k < |out| ==> out[k].dst != f || !out[k].msg.Learn?
    ensures Learns(out, f) == []
  {
    if out != [] {
      NoLearns(out[..|out| - 1], f);
    }
  }

  lemma LearnsAppend(sent: seq<Packet>, q: Packet, f: nat)
    ensures Learns(sent + [q], f) == Learns(sent, f) + if q.dst == f && q.msg.Learn? then [RecordOf(q.msg)] else []
  {
    assert (sent + [q])[..|sent|] == sent;
  }

  /** A broadcast puts the LEARN on every peer's link exactly once. */
  lemma {:induction false} FanLearns(src: nat, upTo: nat, m: Msg, f: nat)
    requires m.Learn? && f != src && f < upTo
    ensures Learns(Fan(src, upTo, m), f) == [RecordOf(m)]
  {
    var shorter := Fan(src, upTo - 1, m);
    if upTo - 1 != src {
      LearnsAppend(shorter, Packet(src, upTo - 1, m), f);
    }
    if f == upTo - 1 {
      NoLearns(shorter, f);
    } else {
      FanLearns(src, upTo - 1, m, f);
    }
  }

  lemma {:induction false} HeardConcat(sent: seq<Packet>, out: seq<Packet>, delivered: set<nat>, f: nat)
    requires forall k :: k in delivered ==> k < |sent|
    ensures LearnsHeard(sent + out, delivered, f) == LearnsHeard(sent, delivered, f)
  {
    if out == [] {
      assert sent + out == sent;
    } else {
      assert (sent + out)[..|sent + out| - 1] == sent + out[..|out| - 1];
      HeardConcat(sent, out[..|out| - 1], delivered, f);
    }
  }

  /** Deliveries on every link form a prefix of what was sent on it. */
  ghost predicate InOrder(sent: seq<Packet>, delivered: set<nat>) {
    forall j, k :: 0 <= j < k < |sent| && sent[j].src == sent[k].src && sent[j].dst == sent[k].dst && k in delivered ==>
      j in delivered
  }

  ghost predicate LearnsFrom(sent: seq<Packet>, p: nat) {
    forall k :: 0 <= k < |sent| && sent[k].msg.Learn? ==> sent[k].src == p
  }

  lemma {:induction false} HeardSkips(sent: seq<Packet>, delivered: set<nat>, k: nat, f: nat)
    requires k >= |sent| || sent[k].dst != f || !sent[k].msg.Learn?
    ensures LearnsHeard(sent, delivered + {k}, f) == LearnsHeard(sent, delivered, f)
  {
    if sent != [] {
      HeardSkips(sent[..|sent| - 1], delivered, k, f);
    }
  }

  /** What f has heard is a prefix of what was sent to it, and the whole of it once its last LEARN is delivered. */
  lemma {:induction false} HeardIsPrefix(sent: seq<Packet>, delivered: set<nat>, p: nat, f: nat)
    requires InOrder(sent, delivered) && LearnsFrom(sent, p)
    ensures LearnsHeard(sent, delivered, f) <= Learns(sent, f)
    ensures (forall k :: 0 <= k < |sent| && OnLink(sent[k], p, f) && sent[k].msg.Learn? ==> k in delivered) ==>
              LearnsHeard(sent, delivered, f) == Learns(sent, f)
  {
    if sent != [] {
      var shorter := sent[..|sent| - 1];
      HeardIsPrefix(shorter, delivered, p, f);
      var q := sent[|sent| - 1];
      if q.dst == f && q.msg.Learn? && |sent| - 1 in delivered {
        assert forall k :: 0 <= k < |shorter| ==> shorter[k] == sent[k];
      }
    }
  }

  /** Delivering the next LEARN on the link appends it to what f has heard. */
  lemma {:induction false} HeardNext(sent: seq<Packet>, delivered: set<nat>, k: nat, p: nat, f: nat)
    requires InOrder(sent, delivered) && LearnsFrom(sent, p)
    requires k < |sent| && k !in delivered && OnLink(sent[k], p, f) && sent[k].msg.Learn?
    ensures LearnsHeard(sent, delivered + {k}, f) == LearnsHeard(sent, delivered, f) + [RecordOf(sent[k].msg)]
  {
    var shorter := sent[..|sent| - 1];
    if k == |sent| - 1 {
      HeardSkips(shorter, delivered, k, f);
    } else {
      assert shorter[k] == sent[k];
      HeardNext(shorter, delivered, k, p, f);
      var q := sent[|sent| - 1];
      assert q.dst == f && q.msg.Learn? ==> |sent| - 1 !in delivered;
    }
  }

  // ---------------------------------------------------------------- logs follow the links

  ghost predicate Followed(p: nat, s: Sys, f: nat)
    requires p < |s.nodes| && f < |s.nodes|
  {
    && Learns(s.sent, f) == s.nodes[p].applied
    && s.nodes[f].applied == LearnsHeard(s.sent, s.delivered, f)
    && s.nodes[f].committedSeq
       == (if s.nodes[f].applied == [] then 0 else s.nodes[f].applied[|s.nodes[f].applied| - 1].seqno)
  }

  ghost predicate Replicated(p: nat, s: Sys) {
    && p < |s.nodes|
    && (forall f :: 0 <= f < |s.nodes| && f != p ==> Followed(p, s, f))
    && InOrder(s.sent, s.delivered) && LearnsFrom(s.sent, p)
    && Rises(s.nodes[p].applied)
    && (forall r :: r in s.nodes[p].applied ==> r.seqno > 0)
    && s.nodes[p].nextSeq > 0 && (forall i :: i in s.threads && !s.threads[i].pc.HasId? ==> s.threads[i].seqno > 0)
  }

  /** A step that touches neither log and puts no LEARN on the link to f. */
  lemma FollowedQuietly(p: nat, s: Sys, s': Sys, f: nat, out: seq<Packet>, heard: set<nat>)
    requires p < |s.nodes| && f < |s.nodes| && Followed(p, s, f)
    requires |s'.nodes| == |s.nodes| && s'.sent == s.sent + out && s'.delivered == s.delivered + heard
    requires s'.nodes[p].applied == s.nodes[p].applied && s'.nodes[f].applied == s.nodes[f].applied
    requires s'.nodes[f].committedSeq == s.nodes[f].committedSeq
    requires forall k :: 0 <= k < |out| ==> out[k].dst != f || !out[k].msg.Learn?
    requires forall k :: k in s.delivered ==> k < |s.sent|
    requires heard == {} || exists k :: heard == {k} && k < |s.sent| && (s.sent[k].dst != f || !s.sent[k].msg.Learn?)
    ensures Followed(p, s', f)
  {
    NoLearns(out, f);
    LearnsConcat(s.sent, out, f);
    if heard == {} {
      assert s'.delivered == s.delivered;
    } else {
      var k :| heard == {k} && k < |s.sent| && (s.sent[k].dst != f || !s.sent[k].msg.Learn?);
      HeardSkips(s.sent, s.delivered, k, f);
    }
    HeardConcat(s.sent, out, s'.delivered, f);
  }

  lemma {:induction false} LocalKeepsLogs(ids: seq<nat>, s: Sys, st: Step)
    requires Inv(ids, s) && Enabled(s, st) && !st.Deliver?
    ensures var s' := Exec(s, st);
            && |s'.nodes| == |s.nodes| && s'.delivered == s.delivered && s.sent <= s'.sent
            && (forall n :: 0 <= n < |s.nodes| ==>
                  && s'.nodes[n].applied == s.nodes[n].applied
                  && s'.nodes[n].committedSeq == s.nodes[n].committedSeq
                  && s'.nodes[n].nextSeq >= s.nodes[n].nextSeq)
            && (forall k :: |s.sent| <= k < |s'.sent| ==> !s'.sent[k].msg.Learn?)
  {
    if IsProposer(st) {
      LocalKeeps(st, s.threads[st.id], s.nodes[s.threads[st.id].node], |s.nodes|);
      assert forall k :: |s.sent| <= k < |Exec(s, st).sent| ==>
                           Exec(s, st).sent[k] == LocalOf(s, st).out[k - |s.sent|];
    }
  }

  lemma ReplicatedLocal(p: nat, ids: seq<nat>, s: Sys, st: Step)
    requires GoodCluster(ids) && Inv(ids, s) && Serial(p, s) && Replicated(p, s) && Allowed(Fifo(p), s, st)
    requires !st.Deliver?
    ensures Replicated(p, Exec(s, st))
  {
    var s' := Exec(s, st);
    LocalKeepsLogs(ids, s, st);
    var out := s'.sent[|s.sent|..];
    assert s'.sent == s.sent + out;
    forall f | 0 <= f < |s.nodes| && f != p ensures Followed(p, s', f) {
      FollowedQuietly(p, s, s', f, out, {});
    }
    assert forall k :: 0 <= k < |s.sent| ==> s'.sent[k] == s.sent[k];
    SeqnosPositive(p, ids, s, st);
  }

  lemma SeqnosPositive(p: nat, ids: seq<nat>, s: Sys, st: Step)
    requires GoodCluster(ids) && Inv(ids, s) && Serial(p, s) && Replicated(p, s) && Enabled(s, st) && !st.Deliver?
    ensures forall i :: i in Exec(s, st).threads && !Exec(s, st).threads[i].pc.HasId? ==>
              Exec(s, st).threads[i].seqno > 0
  {
  }

  /** A follower handles its next LEARN: its log grows by the next entry of the proposer's log. */
  lemma FollowerLearns(p: nat, ids: seq<nat>, s: Sys, st: Step)
    requires GoodCluster(ids) && Inv(ids, s) && Replicated(p, s) && Allowed(Fifo(p), s, st)
    requires st.Deliver? && s.sent[st.k].msg.Learn? && s.sent[st.k].src == p
    ensures Followed(p, Exec(s, st), s.sent[st.k].dst)
  {
    var q := s.sent[st.k];
    var f := q.dst;
    assert GoodPacket(s, q) && Followed(p, s, f);
    NextEntry(p, s, st.k);
    var s' := Exec(s, st);
    assert s'.sent == s.sent && s'.delivered == s.delivered + {st.k};
  }

  /** The next LEARN on a link is the next entry of the proposer's log, and above what f has committed. */
  lemma NextEntry(p: nat, s: Sys, k: nat)
    requires Replicated(p, s) && k < |s.sent| && k !in s.delivered
    requires s.sent[k].msg.Learn? && s.sent[k].src == p && s.sent[k].dst < |s.nodes| && s.sent[k].dst != p
    requires forall j :: 0 <= j < k && OnLink(s.sent[j], p, s.sent[k].dst) ==> j in s.delivered
    ensures var f := s.sent[k].dst; var r := RecordOf(s.sent[k].msg);
            && LearnsHeard(s.sent, s.delivered + {k}, f) == s.nodes[f].applied + [r]
            && s.nodes[f].applied + [r] <= s.nodes[p].applied
            && r.seqno > s.nodes[f].committedSeq
  {
    var f := s.sent[k].dst;
    var n := s.nodes[f];
    assert Followed(p, s, f);
    HeardNext(s.sent, s.delivered, k, p, f);
    assert InOrder(s.sent, s.delivered + {k});
    HeardIsPrefix(s.sent, s.delivered + {k}, p, f);
    assert s.nodes[p].applied[|n.applied|] == RecordOf(s.sent[k].msg);
    assert n.applied != [] ==> s.nodes[p].applied[|n.applied| - 1] == n.applied[|n.applied| - 1];
  }

  lemma InOrderStep(p: nat, ids: seq<nat>, s: Sys, st: Step)
    requires GoodCluster(ids) && Inv(ids, s) && Serial(p, s) && Replicated(p, s) && Allowed(Fifo(p), s, st)
             && st.Deliver?
    ensures InOrder(Exec(s, st).sent, Exec(s, st).delivered) && LearnsFrom(Exec(s, st).sent, p)
  {
    var s' := Exec(s, st);
    assert GoodPacket(s, s.sent[st.k]);
    forall k | |s.sent| <= k < |s'.sent| ensures s'.sent[k].msg.Learn? ==> s'.sent[k].src == p {
      NewPackets(ids, s, st, k);
    }
    assert forall k :: 0 <= k < |s.sent| ==> s'.sent[k] == s.sent[k];
  }

  lemma FollowedCommit(p: nat, s: Sys, s': Sys, f: nat, out: seq<Packet>, k: nat, r: Record)
    requires p < |s.nodes| && f < |s.nodes| && f != p && Followed(p, s, f)
    requires |s'.nodes| == |s.nodes| && s'.sent == s.sent + out && s'.delivered == s.delivered + {k}
    requires s'.nodes[p].applied == s.nodes[p].applied + [r] && s'.nodes[f] == s.nodes[f]
    requires Learns(out, f) == [r]
    requires k < |s.sent| && !s.sent[k].msg.Learn? && forall j :: j in s.delivered ==> j < |s.sent|
    ensures Followed(p, s', f)
  {
    LearnsConcat(s.sent, out, f);
    HeardSkips(s.sent, s.delivered, k, f);
    HeardConcat(s.sent, out, s.delivered + {k}, f);
  }

  /** What a commit does to the proposer and to the network. */
  lemma {:induction false} CommitEffect(ids: seq<nat>, s: Sys, st: Step)
    requires GoodCluster(ids) && Inv(ids, s) && Enabled(s, st) && st.Deliver? && st.learnOk
    requires Commits(s.nodes[s.sent[st.k].dst], s.sent[st.k].msg)
    ensures var q := s.sent[st.k]; var s' := Exec(s, st); var id := q.msg.id;
            && id in s.threads && s.threads[id].node == q.dst
            && var m := Learn(id, s.threads[id].seqno, s.threads[id].value);
            && s'.sent == s.sent + Fan(q.dst, |s.nodes|, m) && s'.delivered == s.delivered + {st.k}
            && |s'.nodes| == |s.nodes| && s'.nodes == s.nodes[q.dst := s'.nodes[q.dst]]
            && s'.nodes[q.dst].applied == s.nodes[q.dst].applied + [RecordOf(m)]
  {
    var q := s.sent[st.k];
    assert GoodPacket(s, q);
    HitOwns(ids, s, q);
    assert GoodThread(ids, s, q.msg.id);
  }

  /** The proposer commits: its log and every link grow by the same record. */
  lemma {:induction false} ProposerCommits(p: nat, ids: seq<nat>, s: Sys, st: Step, f: nat)
    requires GoodCluster(ids) && Inv(ids, s) && Serial(p, s) && Replicated(p, s) && Allowed(Fifo(p), s, st)
    requires st.Deliver? && Commits(s.nodes[s.sent[st.k].dst], s.sent[st.k].msg) && f < |s.nodes| && f != p
    ensures Followed(p, Exec(s, st), f)
  {
    CommitEffect(ids, s, st);
    var id := s.sent[st.k].msg.id;
    var m := Learn(id, s.threads[id].seqno, s.threads[id].value);
    FanLearns(p, |s.nodes|, m, f);
    FollowedCommit(p, s, Exec(s, st), f, Fan(p, |s.nodes|, m), st.k, RecordOf(m));
  }

  /** The committed proposal is the newest thread, so the proposer's log keeps rising. */
  lemma CommitRises(p: nat, ids: seq<nat>, s: Sys, st: Step)
    requires GoodCluster(ids) && Inv(ids, s) && GoodRecords(s) && Exact(s) && Serial(p, s) && Replicated(p, s)
    requires Enabled(s, st) && st.Deliver? && Commits(s.nodes[s.sent[st.k].dst], s.sent[st.k].msg)
    ensures s.sent[st.k].dst == p && Rises(Exec(s, st).nodes[p].applied)
    ensures forall r :: r in Exec(s, st).nodes[p].applied ==> r.seqno > 0
  {
    var q := s.sent[st.k];
    var n := s.nodes[q.dst];
    assert GoodPacket(s, q);
    var i := FindSlot(n.slots, q.msg.id);
    var id := q.msg.id;
    assert GoodThread(ids, s, id) && ExactFor(s, id);
    forall r | r in n.applied ensures r.seqno < s.threads[id].seqno {
      assert GoodRecord(s, r);
      if r.id == id {
        CountPresent(n.applied, r);
      }
    }
  }

  lemma {:induction false} CountPresent(log: seq<Record>, r: Record)
    requires r in log
    ensures Count(log, r.id) > 0
  {
    if log[|log| - 1] != r {
      CountPresent(log[..|log| - 1], r);
    }
  }

  /** Any other delivery touches neither log and puts no LEARN on a link. */
  lemma QuietDelivery(p: nat, ids: seq<nat>, s: Sys, st: Step, f: nat)
    requires GoodCluster(ids) && Inv(ids, s) && Serial(p, s) && Replicated(p, s) && Allowed(Fifo(p), s, st)
             && st.Deliver?
    requires !Commits(s.nodes[s.sent[st.k].dst], s.sent[st.k].msg)
    requires f < |s.nodes| && f != p && (s.sent[st.k].msg.Learn? ==> s.sent[st.k].dst != f)
    ensures Followed(p, Exec(s, st), f)
  {
    var q := s.sent[st.k];
    assert GoodPacket(s, q);
    var o := Handle(s.nodes[q.dst], q.msg, st.persistOk);
    assert q.dst == p || q.dst == f ==> o.node.applied == s.nodes[q.dst].applied
                                        && o.node.committedSeq == s.nodes[q.dst].committedSeq;
    FollowedQuietly(p, s, Exec(s, st), f, Output(s, q, o, st.learnOk), {st.k});
  }

  lemma ReplicatedDeliver(p: nat, ids: seq<nat>, s: Sys, st: Step)
    requires GoodCluster(ids) && Inv(ids, s) && GoodRecords(s) && Exact(s) && Serial(p, s) && Replicated(p, s)
    requires Allowed(Fifo(p), s, st) && st.Deliver?
    ensures Replicated(p, Exec(s, st))
  {
    var s' := Exec(s, st);
    var q := s.sent[st.k];
    assert GoodPacket(s, q);
    InOrderStep(p, ids, s, st);
    if Commits(s.nodes[q.dst], q.msg) {
      CommitRises(p, ids, s, st);
    }
    forall f | 0 <= f < |s'.nodes| && f != p ensures Followed(p, s', f) {
      if Commits(s.nodes[q.dst], q.msg) {
        ProposerCommits(p, ids, s, st, f);
      } else if q.msg.Learn? && q.dst == f {
        FollowerLearns(p, ids, s, st);
      } else {
        QuietDelivery(p, ids, s, st, f);
      }
    }
    DeliverChange(ids, s, st);
  }

  lemma {:induction false} ReplicatedRun(p: nat, ids: seq<nat>, run: seq<Step>)
    requires GoodCluster(ids) && p < |ids| && After(Fifo(p), ids, run).Some?
    ensures Serial(p, After(Fifo(p), ids, run).value) && Replicated(p, After(Fifo(p), ids, run).value)
  {
    if run != [] {
      var s := After(Fifo(p), ids, run[..|run| - 1]).value;
      var st := run[|run| - 1];
      ReplicatedRun(p, ids, run[..|run| - 1]);
      ExactRun(Fifo(p), ids, run[..|run| - 1]);
      if st.Deliver? {
        ReplicatedDeliver(p, ids, s, st);
        DeliverChange(ids, s, st);
      } else {
        ReplicatedLocal(p, ids, s, st);
        if st.TakeId? {
          SerialTakeId(p, ids, s, st);
        } else {
          SerialProposer(p, ids, s, st);
        }
      }
    }
  }
}

/** In-order replication, continued: exactly when every applied record is in the node's own log, and that a follower's
    applied log is always one the proposer has had. */
module PaxosDurability {
  import opened PaxosNode
  import opened PaxosSystem
  import opened PaxosOutcome
  import opened PaxosCertificates
  import opened PaxosFollower

  function AcceptPacket(p: nat, f: nat, r: Record): Packet {
    Packet(p, f, Accept(r.id, r.seqno, r.value))
  }

  /** Packets of the proposer carry rising ids, and a LEARN follows the ACCEPT of its proposal on every link. */
  ghost predicate Ordered(p: nat, s: Sys) {
    && (forall j, k :: 0 <= j < k < |s.sent| && s.sent[j].src == p && s.sent[k].src == p ==>
          s.sent[j].msg.id <= s.sent[k].msg.id)
    && (forall k :: 0 <= k < |s.sent| && s.sent[k].msg.Learn? ==>
          AcceptPacket(p, s.sent[k].dst, RecordOf(s.sent[k].msg)) in s.sent[..k])
    && (forall id, f :: id in s.threads && s.threads[id].pc.AwaitCommit? && 0 <= f < |s.nodes| && f != p ==>
          AcceptPacket(p, f, ThreadRecord(s, id)) in s.sent)
  }

  lemma {:induction false} FanHas(src: nat, upTo: nat, m: Msg, f: nat)
    requires f < upTo && f != src
    ensures Packet(src, f, m) in Fan(src, upTo, m)
  {
    if f < upTo - 1 {
      FanHas(src, upTo - 1, m, f);
    }
  }

  /** An unfinished thread is the newest one. */
  lemma ActiveIsNewest(p: nat, s: Sys, id: nat, other: nat)
    requires Serial(p, s) && id in s.threads && !s.threads[id].pc.Returned? && other in s.threads
    ensures other <= id
  {
  }

  lemma OrderedGrow(p: nat, ids: seq<nat>, s: Sys, s': Sys, out: seq<Packet>, id: nat)
    requires Inv(ids, s) && Serial(p, s) && Ordered(p, s)
    requires |s'.nodes| == |s.nodes| && s'.sent == s.sent + out
    requires id in s.threads && !s.threads[id].pc.Returned?
    requires forall k :: 0 <= k < |out| && out[k].src == p ==> out[k].msg.id == id
    requires forall k :: 0 <= k < |out| && out[k].msg.Learn? ==>
               AcceptPacket(p, out[k].dst, RecordOf(out[k].msg)) in s.sent
    requires forall u :: u in s'.threads && s'.threads[u].pc.AwaitCommit? ==>
               u in s.threads && ThreadRecord(s', u) == ThreadRecord(s, u)
               && (s.threads[u].pc.AwaitCommit?
                   || forall f :: 0 <= f < |s.nodes| && f != p ==> AcceptPacket(p, f, ThreadRecord(s, u)) in out)
    ensures Ordered(p, s')
  {
    forall j, k | 0 <= j < k < |s'.sent| && s'.sent[j].src == p && s'.sent[k].src == p
      ensures s'.sent[j].msg.id <= s'.sent[k].msg.id
    {
      if j < |s.sent| {
        assert s'.sent[j] == s.sent[j] && GoodPacket(s, s.sent[j]);
        ActiveIsNewest(p, s, id, s.sent[j].msg.id);
      }
    }
    forall k | 0 <= k < |s'.sent| && s'.sent[k].msg.Learn?
      ensures AcceptPacket(p, s'.sent[k].dst, RecordOf(s'.sent[k].msg)) in s'.sent[..k]
    {
      if k < |s.sent| {
        assert s'.sent[k] == s.sent[k] && s'.sent[..k] == s.sent[..k];
      } else {
        assert s'.sent[..k] == s.sent + out[..k - |s.sent|];
      }
    }
  }

  lemma {:induction false} OrderedAccept(p: nat, ids: seq<nat>, s: Sys, st: Step)
    requires GoodCluster(ids) && Inv(ids, s) && Serial(p, s) && Ordered(p, s) && Enabled(s, st)
    requires st.SendAccept? && st.ok
    ensures Ordered(p, Exec(s, st))
  {
    var l := LocalOf(s, st);
    forall f | 0 <= f < |s.nodes| && f != p ensures AcceptPacket(p, f, ThreadRecord(s, st.id)) in l.out {
      FanHas(p, |s.nodes|, Accept(st.id, l.t.seqno, l.t.value), f);
    }
    OrderedGrow(p, ids, s, Exec(s, st), l.out, st.id);
  }

  lemma {:induction false} OrderedProposer(p: nat, ids: seq<nat>, s: Sys, st: Step)
    requires GoodCluster(ids) && Inv(ids, s) && Serial(p, s) && Ordered(p, s) && Enabled(s, st) && IsProposer(st)
    ensures Ordered(p, Exec(s, st))
  {
    if st.SendAccept? && st.ok {
      OrderedAccept(p, ids, s, st);
    } else {
      OrderedGrow(p, ids, s, Exec(s, st), LocalOf(s, st).out, st.id);
    }
  }

  lemma {:induction false} OrderedCommit(p: nat, ids: seq<nat>, s: Sys, st: Step)
    requires GoodCluster(ids) && Inv(ids, s) && Serial(p, s) && Ordered(p, s) && Enabled(s, st) && st.Deliver?
             && st.learnOk
    requires Commits(s.nodes[s.sent[st.k].dst], s.sent[st.k].msg)
    ensures Ordered(p, Exec(s, st))
  {
    CommitEffect(ids, s, st);
    var id := s.sent[st.k].msg.id;
    assert GoodPacket(s, s.sent[st.k]);
    HitOwns(ids, s, s.sent[st.k]);
    var m := Learn(id, s.threads[id].seqno, s.threads[id].value);
    var out := Fan(p, |s.nodes|, m);
    assert RecordOf(m) == ThreadRecord(s, id);
    OrderedGrow(p, ids, s, Exec(s, st), out, id);
  }

  lemma {:induction false} OrderedDeliver(p: nat, ids: seq<nat>, s: Sys, st: Step)
    requires GoodCluster(ids) && Inv(ids, s) && Serial(p, s) && Ordered(p, s) && Enabled(s, st) && st.Deliver?
             && st.learnOk
    ensures Ordered(p, Exec(s, st))
  {
    var q := s.sent[st.k];
    assert GoodPacket(s, q);
    if Commits(s.nodes[q.dst], q.msg) {
      OrderedCommit(p, ids, s, st);
    } else {
      var o := Handle(s.nodes[q.dst], q.msg, st.persistOk);
      ReplyIs(s.nodes[q.dst], q.msg, st.persistOk);
      OrderedQuiet(p, s, Exec(s, st), Output(s, q, o, st.learnOk));
    }
  }

  lemma OrderedTakeId(p: nat, ids: seq<nat>, s: Sys, st: Step)
    requires GoodCluster(ids) && Inv(ids, s) && Ordered(p, s) && Enabled(s, st) && st.TakeId?
    ensures Ordered(p, Exec(s, st))
  {
    FreshId(ids, s, st.node);
    var s' := Exec(s, st);
    assert s'.sent == s.sent;
    forall id, f | id in s'.threads && s'.threads[id].pc.AwaitCommit? && 0 <= f < |s'.nodes| && f != p
      ensures AcceptPacket(p, f, ThreadRecord(s', id)) in s'.sent
    {
      assert AcceptPacket(p, f, ThreadRecord(s, id)) in s.sent;
    }
  }

  lemma OrderedQuiet(p: nat, s: Sys, s': Sys, out: seq<Packet>)
    requires Ordered(p, s) && |s'.nodes| == |s.nodes| && s'.threads == s.threads && s'.sent == s.sent + out
    requires forall k :: 0 <= k < |out| ==> out[k].src != p && !out[k].msg.Learn?
    ensures Ordered(p, s')
  {
    forall k | 0 <= k < |s'.sent| && s'.sent[k].msg.Learn?
      ensures AcceptPacket(p, s'.sent[k].dst, RecordOf(s'.sent[k].msg)) in s'.sent[..k]
    {
      assert k < |s.sent| && s'.sent[k] == s.sent[k] && s'.sent[..k] == s.sent[..k];
    }
    forall id, f | id in s'.threads && s'.threads[id].pc.AwaitCommit? && 0 <= f < |s'.nodes| && f != p
      ensures AcceptPacket(p, f, ThreadRecord(s', id)) in s'.sent
    {
      assert AcceptPacket(p, f, ThreadRecord(s, id)) in s.sent;
    }
  }

  // ---------------------------------------------------------------- what a follower has on disk

  /** When this LEARN comes, its record is on disk already, or above the persisted mark so that it will be written. */
  predicate ToPersist(n: Node, r: Record) {
    r in n.wal || r.seqno > n.persistedSeq
  }

  /** The record of this proposal has not been announced yet, but may be. */
  ghost predicate Open(s: Sys, id: nat) {
    id in s.threads && s.threads[id].pc.AwaitCommit? && !Committed(s, id)
  }

  ghost predicate Disk(p: nat, s: Sys, f: nat)
    requires p < |s.nodes| && f < |s.nodes|
  {
    var n := s.nodes[f];
    && (forall k :: 0 <= k < |s.sent| && k !in s.delivered && s.sent[k].dst == f && s.sent[k].msg.Learn? ==>
          ToPersist(n, RecordOf(s.sent[k].msg)))
    && (forall id :: Open(s, id) ==> ToPersist(n, ThreadRecord(s, id)))
    && n.persistedSeq < s.nodes[p].nextSeq
    && (forall id :: id in s.threads && !s.threads[id].pc.HasId? && !PastAccept(s.threads[id].pc) ==>
          n.persistedSeq < s.threads[id].seqno)
    && (forall r :: r in n.wal ==> r.seqno <= n.persistedSeq)
    && (forall r :: r in n.applied ==> r.seqno <= n.persistedSeq)
  }

  lemma {:induction false} DiskLocal(p: nat, ids: seq<nat>, s: Sys, st: Step, f: nat)
    requires GoodCluster(ids) && Inv(ids, s) && Serial(p, s) && Allowed(Fifo(p), s, st) && !st.Deliver?
    requires f < |s.nodes| && f != p && Disk(p, s, f)
    ensures Disk(p, Exec(s, st), f)
  {
    LocalKeepsLogs(ids, s, st);
    var s' := Exec(s, st);
    assert s'.nodes[f] == s.nodes[f];
    forall k | 0 <= k < |s'.sent| && k !in s'.delivered && s'.sent[k].dst == f && s'.sent[k].msg.Learn?
      ensures ToPersist(s'.nodes[f], RecordOf(s'.sent[k].msg))
    {
      assert k < |s.sent| && s'.sent[k] == s.sent[k];
    }
    DiskThreads(p, ids, s, st, f);
  }

  lemma {:induction false} DiskThreads(p: nat, ids: seq<nat>, s: Sys, st: Step, f: nat)
    requires GoodCluster(ids) && Inv(ids, s) && Serial(p, s) && Allowed(Fifo(p), s, st) && !st.Deliver?
    requires f < |s.nodes| && f != p && Disk(p, s, f)
    ensures var s' := Exec(s, st);
            && (forall id :: Open(s', id) ==> ToPersist(s.nodes[f], ThreadRecord(s', id)))
            && (forall id :: id in s'.threads && !s'.threads[id].pc.HasId? && !PastAccept(s'.threads[id].pc) ==>
                  s.nodes[f].persistedSeq < s'.threads[id].seqno)
  {
    var s' := Exec(s, st);
    if IsProposer(st) {
      DiskProposer(p, ids, s, st, f);
    } else {
      assert forall id :: id in s'.threads ==> s'.threads[id].pc.Returned? || s'.threads[id].pc.HasId?;
    }
  }

  lemma {:induction false} DiskProposer(p: nat, ids: seq<nat>, s: Sys, st: Step, f: nat)
    requires GoodCluster(ids) && Inv(ids, s) && Serial(p, s) && Enabled(s, st) && IsProposer(st)
    requires f < |s.nodes| && f != p && Disk(p, s, f)
    ensures var s' := Exec(s, st);
            && (forall id :: Open(s', id) ==> ToPersist(s.nodes[f], ThreadRecord(s', id)))
            && (forall id :: id in s'.threads && !s'.threads[id].pc.HasId? && !PastAccept(s'.threads[id].pc) ==>
                  s.nodes[f].persistedSeq < s'.threads[id].seqno)
  {
    var s' := Exec(s, st);
    ProposerChange(ids, s, st);
    forall id | Open(s', id) ensures ToPersist(s.nodes[f], ThreadRecord(s', id)) {
      assert GoodThread(ids, s, id) && GoodThread(ids, s, st.id);
      assert id != st.id ==> Open(s, id);
    }
  }

  /** A thread that has not passed its ACCEPT, or whose proposal is open, is newer than every other proposal sent. */
  lemma {:induction false} NewerIsHigher(p: nat, ids: seq<nat>, s: Sys, other: nat, id: nat)
    requires Inv(ids, s) && Serial(p, s) && id in s.threads && other in s.threads
    requires !s.threads[id].pc.Returned? && !s.threads[id].pc.HasId? && other != id
    ensures s.threads[other].seqno < s.threads[id].seqno
  {
    ActiveIsNewest(p, s, id, other);
  }

  /** Raising the mark to the sequence number of a proposal that was sent leaves everything newer above it. */
  lemma {:induction false} DiskRaised(p: nat, ids: seq<nat>, s: Sys, s': Sys, f: nat, r: Record)
    requires Inv(ids, s) && Serial(p, s) && f < |s.nodes| && f != p && Disk(p, s, f)
    requires |s'.nodes| == |s.nodes| && s'.nodes[p] == s.nodes[p] && s'.threads == s.threads
    requires r.id in s.threads && r == ThreadRecord(s, r.id) && PastAccept(s.threads[r.id].pc)
    requires s'.nodes[f].persistedSeq == r.seqno && s.nodes[f].wal <= s'.nodes[f].wal
    requires r.seqno > s.nodes[f].persistedSeq && (Open(s, r.id) ==> r in s'.nodes[f].wal)
    ensures forall id :: Open(s', id) ==> ToPersist(s'.nodes[f], ThreadRecord(s', id))
    ensures s'.nodes[f].persistedSeq < s'.nodes[p].nextSeq
    ensures forall id :: id in s'.threads && !s'.threads[id].pc.HasId? && !PastAccept(s'.threads[id].pc) ==>
              s'.nodes[f].persistedSeq < s'.threads[id].seqno
  {
    assert GoodThread(ids, s, r.id);
    forall id | Open(s', id) ensures ToPersist(s'.nodes[f], ThreadRecord(s', id)) {
      assert GoodThread(ids, s, id);
      assert Committed(s', id) <==> Committed(s, id);
      if id != r.id {
        NewerIsHigher(p, ids, s, r.id, id);
      }
    }
    forall id | id in s'.threads && !s'.threads[id].pc.HasId? && !PastAccept(s'.threads[id].pc)
      ensures s'.nodes[f].persistedSeq < s'.threads[id].seqno
    {
      NewerIsHigher(p, ids, s, r.id, id);
    }
  }

  /** The only LEARN that a delivery puts on a link is of a proposal that was open. */
  lemma {:induction false} LearnsElsewhere(p: nat, ids: seq<nat>, s: Sys, st: Step, f: nat, k: nat)
    requires GoodCluster(ids) && Inv(ids, s) && Enabled(s, st) && st.Deliver?
    requires p < |s.nodes| && f < |s.nodes| && Disk(p, s, f)
    requires k < |Exec(s, st).sent| && k !in Exec(s, st).delivered && Exec(s, st).sent[k].dst == f
    requires Exec(s, st).sent[k].msg.Learn?
    ensures ToPersist(s.nodes[f], RecordOf(Exec(s, st).sent[k].msg))
  {
    if k < |s.sent| {
      assert Exec(s, st).sent[k] == s.sent[k];
    } else {
      NewLearn(ids, s, st, k);
    }
  }

  lemma {:induction false} DiskElsewhere(p: nat, ids: seq<nat>, s: Sys, st: Step, f: nat)
    requires GoodCluster(ids) && Inv(ids, s) && Serial(p, s) && Enabled(s, st) && st.Deliver? && s.sent[st.k].dst != f
    requires f < |s.nodes| && f != p && Disk(p, s, f)
    ensures Disk(p, Exec(s, st), f)
  {
    DeliverChange(ids, s, st);
    var s' := Exec(s, st);
    assert s'.nodes[f] == s.nodes[f] && s'.threads == s.threads;
    forall k | 0 <= k < |s'.sent| && k !in s'.delivered && s'.sent[k].dst == f && s'.sent[k].msg.Learn?
      ensures ToPersist(s'.nodes[f], RecordOf(s'.sent[k].msg))
    {
      LearnsElsewhere(p, ids, s, st, f, k);
    }
    forall id | Open(s', id) ensures Open(s, id) {
      OpenWas(ids, s, st, id);
    }
  }

  lemma {:induction false} NewLearn(ids: seq<nat>, s: Sys, st: Step, k: nat)
    requires GoodCluster(ids) && Inv(ids, s) && Enabled(s, st) && st.Deliver?
    requires |s.sent| <= k < |Exec(s, st).sent| && Exec(s, st).sent[k].msg.Learn?
    ensures var m := Exec(s, st).sent[k].msg; Open(s, m.id) && RecordOf(m) == ThreadRecord(s, m.id)
  {
    var q := s.sent[st.k];
    NewPackets(ids, s, st, k);
    var i := FindSlot(s.nodes[q.dst].slots, q.msg.id);
    assert GoodPacket(s, q) && s.nodes[q.dst].slots[i].id == q.msg.id && GoodThread(ids, s, q.msg.id);
  }

  /** A delivery opens no proposal. */
  lemma {:induction false} OpenWas(ids: seq<nat>, s: Sys, st: Step, id: nat)
    requires GoodCluster(ids) && Inv(ids, s) && Enabled(s, st) && st.Deliver? && Open(Exec(s, st), id)
    ensures Open(s, id)
  {
    DeliverChange(ids, s, st);
    assert GoodThread(ids, s, id);
  }

  lemma {:induction false} DiskPrepare(p: nat, ids: seq<nat>, s: Sys, st: Step, f: nat)
    requires GoodCluster(ids) && Inv(ids, s) && Serial(p, s) && Enabled(s, st) && st.Deliver?
    requires s.sent[st.k].dst == f && !s.sent[st.k].msg.Accept? && !s.sent[st.k].msg.Learn?
    requires f < |s.nodes| && f != p && Disk(p, s, f)
    ensures Disk(p, Exec(s, st), f)
  {
    var s' := Exec(s, st);
    var q := s.sent[st.k];
    assert GoodPacket(s, q) && q.msg.Prepare?;
    var n' := Handle(s.nodes[f], q.msg, st.persistOk).node;
    assert n' == s.nodes[f].(highestSeen := n'.highestSeen) && s'.nodes == s.nodes[f := n'] && s'.threads == s.threads;
    forall k | 0 <= k < |s'.sent| && k !in s'.delivered && s'.sent[k].dst == f && s'.sent[k].msg.Learn?
      ensures ToPersist(s'.nodes[f], RecordOf(s'.sent[k].msg))
    {
      assert k < |s.sent| && s'.sent[k] == s.sent[k];
    }
    forall id | Open(s', id) ensures Open(s, id) {
      assert GoodThread(ids, s, id);
    }
  }

  /** On f's link, LEARNs still to come are of this proposal or of newer ones. */
  lemma {:induction false} LearnsToCome(p: nat, ids: seq<nat>, s: Sys, k: nat, j: nat)
    requires Inv(ids, s) && Serial(p, s) && Ordered(p, s)
    requires k < |s.sent| && k !in s.delivered && (s.sent[k].msg.Accept? || s.sent[k].msg.Learn?)
    requires forall i :: 0 <= i < k && OnLink(s.sent[i], p, s.sent[k].dst) ==> i in s.delivered
    requires j < |s.sent| && j !in s.delivered && s.sent[j].msg.Learn? && s.sent[j].dst == s.sent[k].dst
    ensures k <= j && RecordOf(s.sent[j].msg) == ThreadRecord(s, s.sent[j].msg.id)
    ensures s.sent[j].msg.id == s.sent[k].msg.id || s.sent[j].msg.seqno > s.sent[k].msg.seqno
  {
    assert GoodPacket(s, s.sent[k]) && GoodPacket(s, s.sent[j]);
    assert OnLink(s.sent[j], p, s.sent[k].dst);
    if s.sent[j].msg.id != s.sent[k].msg.id {
      assert s.sent[k].msg.id < s.sent[j].msg.id;
      assert GoodThread(ids, s, s.sent[j].msg.id);
    }
  }

  lemma {:induction false} DiskAccept(p: nat, ids: seq<nat>, s: Sys, st: Step, f: nat)
    requires GoodCluster(ids) && Inv(ids, s) && Serial(p, s) && Ordered(p, s)
    requires Allowed(Fifo(p), s, st) && st.Deliver? && s.sent[st.k].dst == f && s.sent[st.k].msg.Accept?
    requires f < |s.nodes| && f != p && Disk(p, s, f)
    ensures Disk(p, Exec(s, st), f)
  {
    var s' := Exec(s, st);
    var q := s.sent[st.k];
    var n, n' := s.nodes[f], s'.nodes[f];
    assert GoodPacket(s, q);
    assert s'.nodes == s.nodes[f := n'] && s'.threads == s.threads && s'.delivered == s.delivered + {st.k};
    var r := RecordOf(q.msg);
    assert r == ThreadRecord(s, r.id) && n'.applied == n.applied;
    assert (n'.wal == n.wal && n'.persistedSeq == n.persistedSeq)
        || (n'.wal == n.wal + [r] && n'.persistedSeq == r.seqno > n.persistedSeq);
    forall k | 0 <= k < |s'.sent| && k !in s'.delivered && s'.sent[k].dst == f && s'.sent[k].msg.Learn?
      ensures ToPersist(n', RecordOf(s'.sent[k].msg))
    {
      if k >= |s.sent| {
        NewPackets(ids, s, st, k);
      }
      assert s'.sent[k] == s.sent[k];
      LearnsToCome(p, ids, s, st.k, k);
    }
    if n'.persistedSeq != n.persistedSeq {
      DiskRaised(p, ids, s, s', f, r);
    } else {
      SameOpen(ids, s, s', f);
    }
  }

  lemma {:induction false} SameOpen(ids: seq<nat>, s: Sys, s': Sys, f: nat)
    requires Inv(ids, s) && |s'.nodes| == |s.nodes| && s'.threads == s.threads
    requires f < |s.nodes| && s'.nodes == s.nodes[f := s'.nodes[f]] && s'.nodes[f].slots == s.nodes[f].slots
    ensures forall id :: Open(s', id) <==> Open(s, id)
  {
    forall id | id in s.threads ensures Open(s', id) <==> Open(s, id) {
      assert GoodThread(ids, s, id);
    }
  }

  /** LEARNs on one link carry rising sequence numbers. */
  lemma {:induction false} LearnsRise(sent: seq<Packet>, f: nat, j: nat, k: nat)
    requires Rises(Learns(sent, f)) && j < k < |sent|
    requires sent[j].dst == f && sent[j].msg.Learn? && sent[k].dst == f && sent[k].msg.Learn?
    ensures sent[j].msg.seqno < sent[k].msg.seqno
  {
    LearnsHas(sent[..k], f, j);
    var before := Learns(sent[..k], f);
    var i :| 0 <= i < |before| && before[i] == RecordOf(sent[j].msg);
    assert sent[..k + 1][..k] == sent[..k] && sent == sent[..k + 1] + sent[k + 1..];
    LearnsConcat(sent[..k + 1], sent[k + 1..], f);
    assert Learns(sent, f)[i] == before[i] && Learns(sent, f)[|before|] == RecordOf(sent[k].msg);
  }

  lemma {:induction false} LearnsHas(sent: seq<Packet>, f: nat, j: nat)
    requires j < |sent| && sent[j].dst == f && sent[j].msg.Learn?
    ensures RecordOf(sent[j].msg) in Learns(sent, f)
  {
    if j < |sent| - 1 {
      LearnsHas(sent[..|sent| - 1], f, j);
    }
  }

  /** A proposal whose LEARN was sent is not open any more. */
  lemma {:induction false} LearntIsClosed(p: nat, s: Sys, k: nat)
    requires Exact(s) && Serial(p, s) && Replicated(p, s) && k < |s.sent| && s.sent[k].msg.Learn?
    requires s.sent[k].dst < |s.nodes| && s.sent[k].dst != p && s.sent[k].msg.id in s.threads
    ensures !Open(s, s.sent[k].msg.id)
  {
    var f := s.sent[k].dst;
    assert Followed(p, s, f) && ExactFor(s, s.sent[k].msg.id);
    LearnsHas(s.sent, f, k);
    CountPresent(s.nodes[p].applied, RecordOf(s.sent[k].msg));
  }

  lemma {:induction false} NextLearnIsHigher(p: nat, ids: seq<nat>, s: Sys, k: nat, j: nat)
    requires Inv(ids, s) && Serial(p, s) && Ordered(p, s) && Replicated(p, s)
    requires k < |s.sent| && k !in s.delivered && s.sent[k].msg.Learn? && s.sent[k].dst < |s.nodes|
             && s.sent[k].dst != p
    requires forall i :: 0 <= i < k && OnLink(s.sent[i], p, s.sent[k].dst) ==> i in s.delivered
    requires j < |s.sent| && j !in s.delivered && j != k && s.sent[j].msg.Learn? && s.sent[j].dst == s.sent[k].dst
    ensures s.sent[k].msg.seqno < s.sent[j].msg.seqno
  {
    assert Followed(p, s, s.sent[k].dst);
    LearnsToCome(p, ids, s, k, j);
    LearnsRise(s.sent, s.sent[k].dst, k, j);
  }

  lemma {:induction false} LearnChanges(p: nat, ids: seq<nat>, s: Sys, st: Step, f: nat)
    requires GoodCluster(ids) && Inv(ids, s) && Replicated(p, s)
    requires Allowed(Fifo(p), s, st) && st.Deliver? && s.sent[st.k].dst == f && s.sent[st.k].msg.Learn?
    requires f < |s.nodes| && f != p
    ensures var s' := Exec(s, st); var n, n' := s.nodes[f], s'.nodes[f]; var r := RecordOf(s.sent[st.k].msg);
            && s'.sent == s.sent && |s'.nodes| == |s.nodes| && s'.nodes == s.nodes[f := n'] && s'.threads == s.threads
            && s'.delivered == s.delivered + {st.k} && n'.slots == n.slots && n'.applied == n.applied + [r]
            && (if r.seqno > n.persistedSeq then n'.persistedSeq == r.seqno && n.wal <= n'.wal <= n.wal + [r]
                else n'.persistedSeq == n.persistedSeq && n'.wal == n.wal)
  {
    assert GoodPacket(s, s.sent[st.k]);
    NextEntry(p, s, st.k);
  }

  lemma {:induction false} DiskLearn(p: nat, ids: seq<nat>, s: Sys, st: Step, f: nat)
    requires GoodCluster(ids) && Inv(ids, s) && Exact(s) && Serial(p, s) && Ordered(p, s) && Replicated(p, s)
    requires Allowed(Fifo(p), s, st) && st.Deliver? && s.sent[st.k].dst == f && s.sent[st.k].msg.Learn?
    requires f < |s.nodes| && f != p && Disk(p, s, f)
    ensures Disk(p, Exec(s, st), f)
  {
    var s' := Exec(s, st);
    LearnChanges(p, ids, s, st, f);
    forall k | 0 <= k < |s'.sent| && k !in s'.delivered && s'.sent[k].dst == f && s'.sent[k].msg.Learn?
      ensures ToPersist(s'.nodes[f], RecordOf(s'.sent[k].msg))
    {
      NextLearnIsHigher(p, ids, s, st.k, k);
    }
    assert GoodPacket(s, s.sent[st.k]);
    LearntIsClosed(p, s, st.k);
    if s'.nodes[f].persistedSeq != s.nodes[f].persistedSeq {
      DiskRaised(p, ids, s, s', f, RecordOf(s.sent[st.k].msg));
    } else {
      SameOpen(ids, s, s', f);
    }
  }

  // ---------------------------------------------------------------- exactly when a follower's log is complete

  /** A LEARN that the follower applies and tries to persist, and the persist fails. */
  predicate LosesRecord(s: Sys, st: Step, f: nat) {
    && st.Deliver? && st.k < |s.sent| && s.sent[st.k].dst == f && f < |s.nodes| && s.sent[st.k].msg.Learn?
    && s.sent[st.k].msg.seqno > s.nodes[f].committedSeq && s.sent[st.k].msg.seqno > s.nodes[f].persistedSeq
    && !st.persistOk
  }

  /** No step of the run loses a record of f. */
  ghost predicate KeepsRecords(p: nat, ids: seq<nat>, run: seq<Step>, f: nat) {
    run == [] ||
    (KeepsRecords(p, ids, run[..|run| - 1], f)
     && (After(Fifo(p), ids, run[..|run| - 1]).Some? ==>
           !LosesRecord(After(Fifo(p), ids, run[..|run| - 1]).value, run[|run| - 1], f)))
  }

  ghost predicate OnDisk(n: Node) {
    forall r :: r in n.applied ==> r in n.wal
  }

  /** A record that is missing stays missing: nothing at or below the persisted mark is written any more. */
  lemma {:induction false} MissingStays(n: Node, m: Msg, persistOk: bool)
    requires (forall r :: r in n.applied ==> r.seqno <= n.persistedSeq) && !OnDisk(n)
    ensures !OnDisk(Handle(n, m, persistOk).node)
  {
    var n' := Handle(n, m, persistOk).node;
    var r :| r in n.applied && r !in n.wal;
    assert r in n'.applied && r !in n'.wal;
  }

  lemma {:induction false} LearnOnDisk(n: Node, m: Msg, persistOk: bool)
    requires m.Learn? && m.seqno > n.committedSeq && OnDisk(n) && ToPersist(n, RecordOf(m))
    requires forall r :: r in n.wal ==> r.seqno <= n.persistedSeq
    ensures OnDisk(Handle(n, m, persistOk).node) <==> !(m.seqno > n.persistedSeq && !persistOk)
  {
    var n' := Handle(n, m, persistOk).node;
    assert RecordOf(m) in n'.applied;
  }

  lemma {:induction false} OnDiskStep(p: nat, ids: seq<nat>, s: Sys, st: Step, f: nat)
    requires GoodCluster(ids) && Inv(ids, s) && Serial(p, s) && Replicated(p, s) && Allowed(Fifo(p), s, st)
    requires f < |s.nodes| && f != p && Disk(p, s, f)
    ensures |Exec(s, st).nodes| == |s.nodes|
    ensures OnDisk(Exec(s, st).nodes[f]) <==> OnDisk(s.nodes[f]) && !LosesRecord(s, st, f)
  {
    if !st.Deliver? {
      LocalKeepsLogs(ids, s, st);
      assert Exec(s, st).nodes[f] == s.nodes[f];
    } else if s.sent[st.k].dst == f {
      OnDiskDeliver(p, ids, s, st, f);
    }
  }

  lemma {:induction false} OnDiskDeliver(p: nat, ids: seq<nat>, s: Sys, st: Step, f: nat)
    requires GoodCluster(ids) && Inv(ids, s) && Serial(p, s) && Replicated(p, s) && Allowed(Fifo(p), s, st)
    requires f < |s.nodes| && f != p && Disk(p, s, f) && st.Deliver? && s.sent[st.k].dst == f
    ensures OnDisk(Handle(s.nodes[f], s.sent[st.k].msg, st.persistOk).node)
            <==> OnDisk(s.nodes[f]) && !LosesRecord(s, st, f)
  {
    var q := s.sent[st.k];
    assert GoodPacket(s, q);
    if !OnDisk(s.nodes[f]) {
      MissingStays(s.nodes[f], q.msg, st.persistOk);
    } else if q.msg.Learn? {
      NextEntry(p, s, st.k);
      LearnOnDisk(s.nodes[f], q.msg, st.persistOk);
    } else {
      HandlerWal(s.nodes[f], q.msg, st.persistOk);
    }
  }

  lemma {:induction false} DiskStep(p: nat, ids: seq<nat>, s: Sys, st: Step, f: nat)
    requires GoodCluster(ids) && Inv(ids, s) && Exact(s) && Serial(p, s) && Ordered(p, s) && Replicated(p, s)
    requires Allowed(Fifo(p), s, st) && f < |s.nodes| && f != p && Disk(p, s, f)
    ensures |Exec(s, st).nodes| == |s.nodes| && Disk(p, Exec(s, st), f)
  {
    if !st.Deliver? {
      DiskLocal(p, ids, s, st, f);
    } else if s.sent[st.k].dst != f {
      DiskElsewhere(p, ids, s, st, f);
    } else if s.sent[st.k].msg.Accept? {
      DiskAccept(p, ids, s, st, f);
    } else if s.sent[st.k].msg.Learn? {
      DiskLearn(p, ids, s, st, f);
    } else {
      DiskPrepare(p, ids, s, st, f);
    }
  }

  lemma {:induction false} OrderedStep(p: nat, ids: seq<nat>, s: Sys, st: Step)
    requires GoodCluster(ids) && Inv(ids, s) && Serial(p, s) && Ordered(p, s) && Allowed(Fifo(p), s, st)
    ensures Ordered(p, Exec(s, st))
  {
    if st.Deliver? {
      OrderedDeliver(p, ids, s, st);
    } else if IsProposer(st) {
      OrderedProposer(p, ids, s, st);
    } else {
      OrderedTakeId(p, ids, s, st);
    }
  }

  lemma {:induction false} DiskRun(p: nat, ids: seq<nat>, run: seq<Step>, f: nat)
    requires GoodCluster(ids) && p < |ids| && f < |ids| && f != p && After(Fifo(p), ids, run).Some?
    ensures var s := After(Fifo(p), ids, run).value;
            && |s.nodes| == |ids| && Ordered(p, s) && Disk(p, s, f)
            && (OnDisk(s.nodes[f]) <==> KeepsRecords(p, ids, run, f))
  {
    if run != [] {
      var shorter := run[..|run| - 1];
      var s := After(Fifo(p), ids, shorter).value;
      DiskRun(p, ids, shorter, f);
      ReplicatedRun(p, ids, shorter);
      ExactRun(Fifo(p), ids, shorter);
      InvRun(Fifo(p), ids, shorter);
      OrderedStep(p, ids, s, run[|run| - 1]);
      DiskStep(p, ids, s, run[|run| - 1], f);
      OnDiskStep(p, ids, s, run[|run| - 1], f);
    }
  }

  /** Nothing is applied on a follower before it was persisted there, exactly in the runs in which no LEARN is applied
      whose persist was called and failed. */
  lemma {:induction false} DurableIffLearnsPersist(p: nat, ids: seq<nat>, run: seq<Step>, f: nat)
    requires GoodCluster(ids) && p < |ids| && f < |ids| && f != p && After(Fifo(p), ids, run).Some?
    ensures var s := After(Fifo(p), ids, run).value;
            |s.nodes| == |ids| && (OnDisk(s.nodes[f]) <==> KeepsRecords(p, ids, run, f))
  {
    DiskRun(p, ids, run, f);
  }

  // ---------------------------------------------------------------- a proposer's own records

  /** Every record of its own proposals that the node has applied is in its log. */
  ghost predicate OwnOnDisk(s: Sys, n: nat)
    requires n < |s.nodes|
  {
    forall r :: r in s.nodes[n].applied && r.id in s.threads && s.threads[r.id].node == n ==> r in s.nodes[n].wal
  }

  /** A node writes its proposal before it asks anyone to accept it. */
  lemma {:induction false} OwnOnDiskStep(ids: seq<nat>, s: Sys, st: Step, n: nat, single: bool)
    requires GoodCluster(ids) && Inv(ids, s) && GoodRecords(s) && Counted(s, single) && Enabled(s, st)
    requires n < |s.nodes| && OwnOnDisk(s, n)
    ensures |Exec(s, st).nodes| == |s.nodes| && OwnOnDisk(Exec(s, st), n)
  {
    var s' := Exec(s, st);
    HistoryGrows(ids, s, st);
    forall r | r in s'.nodes[n].applied && r.id in s'.threads && s'.threads[r.id].node == n
      ensures r in s'.nodes[n].wal
    {
      if r in s.nodes[n].applied {
        assert GoodRecord(s, r);
      } else {
        AddedBy(s, st, n, r);
        NewOwnRecord(ids, s, st, n, r, single);
      }
    }
  }

  lemma {:induction false} NewOwnRecord(ids: seq<nat>, s: Sys, st: Step, n: nat, r: Record, single: bool)
    requires GoodCluster(ids) && Inv(ids, s) && Counted(s, single) && Enabled(s, st) && st.Deliver? && n < |s.nodes|
    requires r !in s.nodes[n].applied && r in Exec(s, st).nodes[n].applied && r.id == s.sent[st.k].msg.id
    requires r.id in s.threads && s.threads[r.id].node == n
    ensures r in s.nodes[n].wal
  {
    assert GoodPacket(s, s.sent[st.k]);
    assert GoodThread(ids, s, r.id) && CountedFor(s, r.id, single);
    var node := s.nodes[n];
    assert node.slots[FindSlot(node.slots, r.id)].id == r.id;
  }

  /** On any network and with any number of proposers, even if persists fail, a node applies nothing it proposed that is
      not in its own log. */
  lemma {:induction false} OwnRecordsAreDurable(d: Discipline, ids: seq<nat>, run: seq<Step>, n: nat)
    requires GoodCluster(ids) && n < |ids| && After(d, ids, run).Some?
    ensures var s := After(d, ids, run).value; |s.nodes| == |ids| && OwnOnDisk(s, n)
  {
    if run != [] {
      var shorter := run[..|run| - 1];
      OwnRecordsAreDurable(d, ids, shorter, n);
      InvRun(d, ids, shorter);
      ExactRun(d, ids, shorter);
      CountedRun(d, ids, shorter);
      OwnOnDiskStep(ids, After(d, ids, shorter).value, run[|run| - 1], n, !d.AnyDelivery?);
    }
  }

  /** So the log of a single proposer is always complete. */
  lemma {:induction false} ProposerDurable(p: nat, ids: seq<nat>, run: seq<Step>)
    requires GoodCluster(ids) && p < |ids| && After(Fifo(p), ids, run).Some?
    ensures var s := After(Fifo(p), ids, run).value; |s.nodes| == |ids| && OnDisk(s.nodes[p])
  {
    OwnRecordsAreDurable(Fifo(p), ids, run, p);
    ExactRun(Fifo(p), ids, run);
    ReplicatedRun(p, ids, run);
    var s := After(Fifo(p), ids, run).value;
    forall r | r in s.nodes[p].applied ensures r in s.nodes[p].wal {
      assert GoodRecord(s, r);
    }
  }

  // ---------------------------------------------------------------- the replication theorem

  /** The proposer's log grows by at most one record a step, so every prefix of it was its log at some time. */
  lemma {:induction false} PrefixWasLog(p: nat, ids: seq<nat>, run: seq<Step>, log: seq<Record>) returns (i: nat)
    requires GoodCluster(ids) && p < |ids| && After(Fifo(p), ids, run).Some?
    requires |After(Fifo(p), ids, run).value.nodes| == |ids| && log <= After(Fifo(p), ids, run).value.nodes[p].applied
    ensures i <= |run| && After(Fifo(p), ids, run[..i]).Some?
    ensures |After(Fifo(p), ids, run[..i]).value.nodes| == |ids|
    ensures After(Fifo(p), ids, run[..i]).value.nodes[p].applied == log
  {
    if run == [] || log == After(Fifo(p), ids, run).value.nodes[p].applied {
      i := |run|;
      assert run[..i] == run;
    } else {
      var shorter := run[..|run| - 1];
      var s := After(Fifo(p), ids, shorter).value;
      InvRun(Fifo(p), ids, shorter);
      GrowsByOne(ids, s, run[|run| - 1], p);
      i := PrefixWasLog(p, ids, shorter, log);
      assert shorter[..i] == run[..i];
    }
  }

  lemma GrowsByOne(ids: seq<nat>, s: Sys, st: Step, n: nat)
    requires GoodCluster(ids) && Inv(ids, s) && Enabled(s, st) && n < |s.nodes|
    ensures var log := Exec(s, st).nodes[n].applied;
            log == s.nodes[n].applied || (|log| > 0 && log[..|log| - 1] == s.nodes[n].applied)
  {
    if !st.Deliver? {
      LocalKeepsLogs(ids, s, st);
    }
  }

  /** Follower refinement: at any moment of an in-order run, a follower's applied log is a prefix of the proposer's and
      is exactly the proposer's log at some earlier moment. The proposer's applied records are in its log, and the
      follower's are exactly if no applied LEARN's persist failed. */
  lemma {:induction false} FollowersReplayTheProposer(p: nat, ids: seq<nat>, run: seq<Step>, f: nat) returns (i: nat)
    requires GoodCluster(ids) && p < |ids| && f < |ids| && f != p && After(Fifo(p), ids, run).Some?
    ensures i <= |run| && After(Fifo(p), ids, run[..i]).Some?
    ensures var s := After(Fifo(p), ids, run).value; var earlier := After(Fifo(p), ids, run[..i]).value;
            && |s.nodes| == |ids| && |earlier.nodes| == |ids|
            && s.nodes[f].applied <= s.nodes[p].applied
            && s.nodes[f].applied == earlier.nodes[p].applied
            && OnDisk(s.nodes[p]) && (OnDisk(s.nodes[f]) <==> KeepsRecords(p, ids, run, f))
  {
    var s := After(Fifo(p), ids, run).value;
    InvRun(Fifo(p), ids, run);
    ReplicatedRun(p, ids, run);
    ProposerDurable(p, ids, run);
    DiskRun(p, ids, run, f);
    assert Followed(p, s, f);
    HeardIsPrefix(s.sent, s.delivered, p, f);
    i := PrefixWasLog(p, ids, run, s.nodes[f].applied);
  }
}

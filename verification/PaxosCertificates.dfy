/** If answers are delivered at most once, every applied proposal is backed by a majority of distinct acceptors; what
    the counters are worth on any other network. */
module PaxosCertificates {
  import opened Quorums
  import opened PaxosNode
  import opened PaxosSystem
  import opened PaxosOutcome

  predicate IsAck(p: Packet, id: nat) {
    p.msg.Accepted? && p.msg.id == id
  }

  predicate IsAnswer(p: Packet, id: nat, ack: bool) {
    if ack then IsAck(p, id) else p.msg.Promise? && p.msg.id == id
  }

  /** The peers whose ACCEPTED (or PROMISE) for this proposal has been delivered. */
  ghost function Heard(sent: seq<Packet>, delivered: set<nat>, id: nat, ack: bool): set<nat> {
    set k | 0 <= k < |sent| && k in delivered && IsAnswer(sent[k], id, ack) :: sent[k].src
  }

  ghost function Ackers(s: Sys, id: nat): set<nat> {
    Heard(s.sent, s.delivered, id, true)
  }

  ghost function Promisers(s: Sys, id: nat): set<nat> {
    Heard(s.sent, s.delivered, id, false)
  }

  /** A node has accepted a proposal if it is the proposer and wrote it to its log, or answered ACCEPTED. */
  ghost predicate HasAccepted(s: Sys, n: nat, id: nat) {
    && id in s.threads && n < |s.nodes|
    && var t := s.threads[id];
    (n == t.node && Record(id, t.seqno, t.value) in s.nodes[n].wal)
    || exists k :: 0 <= k < |s.sent| && s.sent[k].src == n && IsAck(s.sent[k], id)
  }

  ghost function Acceptors(s: Sys, id: nat): set<nat> {
    set n | 0 <= n < |s.nodes| && HasAccepted(s, n, id)
  }

  ghost predicate Certified(s: Sys, id: nat) {
    |Acceptors(s, id)| >= Majority(|s.nodes|)
  }

  // ---------------------------------------------------------------- each answer exists once

  ghost predicate Once(s: Sys) {
    && (forall j, k :: 0 <= j < k < |s.sent| ==> NoTwin(s.sent[j], s.sent[k]))
    && (forall j, k :: 0 <= j < |s.sent| && 0 <= k < |s.sent| && Answers(s.sent[k], s.sent[j]) ==> j in s.delivered)
  }

  /** No two ACCEPTs to one node, and no two ACCEPTEDs or PROMISEs from one node, for one proposal. */
  predicate NoTwin(a: Packet, b: Packet) {
    && (a.msg.Accept? && b.msg.Accept? && a.msg.id == b.msg.id ==> a.dst != b.dst)
    && (a.msg.Accepted? && b.msg.Accepted? && a.msg.id == b.msg.id ==> a.src != b.src)
    && (a.msg.Promise? && b.msg.Promise? && a.msg.id == b.msg.id ==> a.src != b.src)
  }

  predicate Answers(ack: Packet, accept: Packet) {
    ack.msg.Accepted? && accept.msg.Accept? && ack.msg.id == accept.msg.id && ack.src == accept.dst
  }

  lemma {:induction false} OnceSent(ids: seq<nat>, s: Sys, st: Step, j: nat, k: nat)
    requires GoodCluster(ids) && Inv(ids, s) && Once(s) && Enabled(s, st) && IsProposer(st)
    requires j < k < |Exec(s, st).sent|
    ensures NoTwin(Exec(s, st).sent[j], Exec(s, st).sent[k])
  {
    var s' := Exec(s, st);
    if k < |s.sent| {
      assert s'.sent[j] == s.sent[j] && s'.sent[k] == s.sent[k];
      assert NoTwin(s.sent[j], s.sent[k]);
    } else if j < |s.sent| {
      assert s'.sent[j] == s.sent[j] && GoodPacket(s, s.sent[j]);
    }
  }

  lemma {:induction false} OnceProposer(ids: seq<nat>, s: Sys, st: Step)
    requires GoodCluster(ids) && Inv(ids, s) && Once(s) && Enabled(s, st) && IsProposer(st)
    ensures Once(Exec(s, st))
  {
    var s' := Exec(s, st);
    forall j, k | 0 <= j < k < |s'.sent| ensures NoTwin(s'.sent[j], s'.sent[k]) {
      OnceSent(ids, s, st, j, k);
    }
    forall j, k | 0 <= j < |s'.sent| && 0 <= k < |s'.sent| && Answers(s'.sent[k], s'.sent[j])
      ensures j in s'.delivered
    {
      UnansweredSends(ids, s, st, j, k);
    }
  }

  lemma {:induction false} UnansweredSends(ids: seq<nat>, s: Sys, st: Step, j: nat, k: nat)
    requires GoodCluster(ids) && Inv(ids, s) && Once(s) && Enabled(s, st) && IsProposer(st)
    requires j < |Exec(s, st).sent| && k < |Exec(s, st).sent| && Answers(Exec(s, st).sent[k], Exec(s, st).sent[j])
    ensures j in Exec(s, st).delivered
  {
    var s' := Exec(s, st);
    LocalKeeps(st, s.threads[st.id], s.nodes[s.threads[st.id].node], |s.nodes|);
    assert s'.sent == s.sent + LocalOf(s, st).out;
    assert forall i :: |s.sent| <= i < |s'.sent| ==> !s'.sent[i].msg.Accepted?;
    assert k < |s.sent| && s'.sent[k] == s.sent[k] && GoodPacket(s, s.sent[k]);
    if j < |s.sent| {
      assert s'.sent[j] == s.sent[j];
    }
  }

  /** The packets a delivery adds: at most one answer, to a packet not answered before, or a LEARN to every peer. */
  lemma NewPackets(ids: seq<nat>, s: Sys, st: Step, k: nat)
    requires GoodCluster(ids) && Inv(ids, s) && Enabled(s, st) && st.Deliver?
    requires |s.sent| <= k < |Exec(s, st).sent|
    ensures var p := s.sent[st.k]; var q := Exec(s, st).sent[k];
            && q.msg.id == p.msg.id && q.src == p.dst
            && (q.msg.Learn? ==> p.msg.Accepted? && OnAccepted(s.nodes[p.dst], p.msg).learn.Some?)
            && (!q.msg.Learn? ==> k == |s.sent| && |Exec(s, st).sent| == k + 1)
            && (q.msg.Promise? ==> p.msg.Prepare? && p.msg.id > s.nodes[p.dst].highestSeen)
            && (q.msg.Accepted? ==> p.msg.Accept?)
            && !q.msg.Accept? && !q.msg.Prepare?
  {
    var p := s.sent[st.k];
    if p.msg.Accepted? {
      var i := FindSlot(s.nodes[p.dst].slots, p.msg.id);
      assert i < |s.nodes[p.dst].slots| ==> s.nodes[p.dst].slots[i].id == p.msg.id;
    }
  }

  lemma OnceTwins(ids: seq<nat>, s: Sys, st: Step, j: nat, k: nat)
    requires GoodCluster(ids) && Inv(ids, s) && Once(s) && Enabled(s, st) && st.Deliver? && SingleStep(s, st)
    requires j < k < |Exec(s, st).sent|
    ensures NoTwin(Exec(s, st).sent[j], Exec(s, st).sent[k])
  {
    var s' := Exec(s, st);
    if k < |s.sent| {
      assert s'.sent[j] == s.sent[j] && s'.sent[k] == s.sent[k];
    } else {
      NewPackets(ids, s, st, k);
      if j < |s.sent| {
        assert s'.sent[j] == s.sent[j] && GoodPacket(s, s.sent[j]);
        assert !Answers(s.sent[j], s.sent[st.k]);
      } else {
        NewPackets(ids, s, st, j);
      }
    }
  }

  lemma OnceAnswers(ids: seq<nat>, s: Sys, st: Step, j: nat, k: nat)
    requires GoodCluster(ids) && Inv(ids, s) && Once(s) && Enabled(s, st) && st.Deliver? && SingleStep(s, st)
    requires j < |Exec(s, st).sent| && k < |Exec(s, st).sent| && Answers(Exec(s, st).sent[k], Exec(s, st).sent[j])
    ensures j in Exec(s, st).delivered
  {
    var s' := Exec(s, st);
    if j >= |s.sent| {
      NewPackets(ids, s, st, j);
    }
    assert s'.sent[j] == s.sent[j];
    if k < |s.sent| {
      assert s'.sent[k] == s.sent[k];
    } else {
      NewPackets(ids, s, st, k);
      assert j < st.k ==> NoTwin(s.sent[j], s.sent[st.k]);
      assert j > st.k ==> NoTwin(s.sent[st.k], s.sent[j]);
    }
  }

  lemma OnceDeliver(ids: seq<nat>, s: Sys, st: Step)
    requires GoodCluster(ids) && Inv(ids, s) && Once(s) && Enabled(s, st) && st.Deliver? && SingleStep(s, st)
    ensures Once(Exec(s, st))
  {
    var s' := Exec(s, st);
    forall j, k | 0 <= j < k < |s'.sent| ensures NoTwin(s'.sent[j], s'.sent[k]) {
      OnceTwins(ids, s, st, j, k);
    }
    forall j, k | 0 <= j < |s'.sent| && 0 <= k < |s'.sent| && Answers(s'.sent[k], s'.sent[j])
      ensures j in s'.delivered
    {
      OnceAnswers(ids, s, st, j, k);
    }
  }

  // ---------------------------------------------------------------- counters never exceed distinct answers

  predicate PastPersist(pc: Pc) {
    pc.Persisted? || pc.SelfCounted? || pc.AwaitCommit?
  }

  /** `single` says that answers are delivered at most once; then a counter never exceeds the number of distinct
      answers. In any case a counter above the proposer's own vote needs at least one real answer. */
  ghost predicate CountedFor(s: Sys, id: nat, single: bool) {
    id in s.threads && Holds(s.threads[id].pc) && OwnsSlot(s, id) ==>
      var own := if PastSelf(s.threads[id].pc) then 1 else 0;
      && (single ==> SlotOf(s, id).promises <= 1 + |Promisers(s, id)| && SlotOf(s, id).accepts <= own + |Ackers(s, id)|)
      && (SlotOf(s, id).accepts > own ==> Ackers(s, id) != {})
      && (PastPersist(s.threads[id].pc) ==> ThreadRecord(s, id) in s.nodes[s.threads[id].node].wal)
  }

  predicate PastSelf(pc: Pc) {
    pc.SelfCounted? || pc.AwaitCommit?
  }

  ghost predicate Counted(s: Sys, single: bool) {
    forall id :: id in s.threads ==> CountedFor(s, id, single)
  }

  lemma HeardUnchanged(sent: seq<Packet>, out: seq<Packet>, delivered: set<nat>, id: nat, ack: bool)
    requires forall k :: k in delivered ==> k < |sent|
    ensures Heard(sent + out, delivered, id, ack) == Heard(sent, delivered, id, ack)
  {
    assert forall k :: 0 <= k < |sent| ==> (sent + out)[k] == sent[k];
  }

  /** Delivering a packet for the first time adds its sender to the answers it belongs to, and nothing else. */
  lemma HeardGrows(sent: seq<Packet>, out: seq<Packet>, delivered: set<nat>, k: nat, id: nat, ack: bool)
    requires forall j :: j in delivered ==> j < |sent|
    requires k < |sent| && k !in delivered
    requires forall i, j :: 0 <= i < j < |sent| ==> NoTwin(sent[i], sent[j])
    ensures |Heard(sent + out, delivered + {k}, id, ack)|
            == |Heard(sent, delivered, id, ack)| + (if IsAnswer(sent[k], id, ack) then 1 else 0)
  {
    var before := Heard(sent, delivered, id, ack);
    var after := Heard(sent + out, delivered + {k}, id, ack);
    assert forall j :: 0 <= j < |sent| ==> (sent + out)[j] == sent[j];
    var added := if IsAnswer(sent[k], id, ack) then {sent[k].src} else {};
    forall x | x in after ensures x in before + added {
      var j :| 0 <= j < |sent + out| && j in delivered + {k} && IsAnswer((sent + out)[j], id, ack)
          && (sent + out)[j].src == x;
      assert j < |sent| && IsAnswer(sent[j], id, ack) && sent[j].src == x;
    }
    forall x | x in before + added ensures x in after {
      if x in before {
        var j :| 0 <= j < |sent| && j in delivered && IsAnswer(sent[j], id, ack) && sent[j].src == x;
        assert (sent + out)[j] == sent[j];
      } else {
        assert (sent + out)[k] == sent[k];
      }
    }
    assert after == before + added;
    if added != {} {
      NotHeardYet(sent, delivered, k, id, ack);
    }
  }

  lemma {:induction false} HeardAfter(
      sent: seq<Packet>, out: seq<Packet>, delivered: set<nat>, k: nat, id: nat, ack: bool)
    requires forall j :: j in delivered ==> j < |sent|
    requires k < |sent| && (k in delivered ==> Repeatable(sent[k].msg))
    requires forall i, j :: 0 <= i < j < |sent| ==> NoTwin(sent[i], sent[j])
    ensures |Heard(sent + out, delivered + {k}, id, ack)|
            == |Heard(sent, delivered, id, ack)| + (if IsAnswer(sent[k], id, ack) then 1 else 0)
  {
    if k in delivered {
      assert delivered + {k} == delivered;
      HeardUnchanged(sent, out, delivered, id, ack);
    } else {
      HeardGrows(sent, out, delivered, k, id, ack);
    }
  }

  /** On any network an answer that is delivered has been heard, and what was heard stays heard. */
  lemma {:induction false} HeardMore(
      sent: seq<Packet>, out: seq<Packet>, delivered: set<nat>, k: nat, id: nat, ack: bool)
    requires k < |sent|
    ensures Heard(sent, delivered, id, ack) <= Heard(sent + out, delivered + {k}, id, ack)
    ensures IsAnswer(sent[k], id, ack) ==> sent[k].src in Heard(sent + out, delivered + {k}, id, ack)
  {
    assert (sent + out)[k] == sent[k];
    forall x | x in Heard(sent, delivered, id, ack) ensures x in Heard(sent + out, delivered + {k}, id, ack) {
      var j :| 0 <= j < |sent| && j in delivered && IsAnswer(sent[j], id, ack) && sent[j].src == x;
      assert (sent + out)[j] == sent[j];
    }
  }

  lemma NotHeardYet(sent: seq<Packet>, delivered: set<nat>, k: nat, id: nat, ack: bool)
    requires k < |sent| && k !in delivered && IsAnswer(sent[k], id, ack)
    requires forall i, j :: 0 <= i < j < |sent| ==> NoTwin(sent[i], sent[j])
    ensures sent[k].src !in Heard(sent, delivered, id, ack)
  {
    forall j | 0 <= j < |sent| && j in delivered && IsAnswer(sent[j], id, ack) ensures sent[j].src != sent[k].src {
      assert if j < k then NoTwin(sent[j], sent[k]) else NoTwin(sent[k], sent[j]);
    }
  }

  lemma CountedTakeId(ids: seq<nat>, s: Sys, st: Step, single: bool)
    requires GoodCluster(ids) && Inv(ids, s) && Counted(s, single) && Enabled(s, st) && st.TakeId?
    ensures Counted(Exec(s, st), single)
  {
    FreshId(ids, s, st.node);
    var s' := Exec(s, st);
    assert s'.sent == s.sent;
    forall id | id in s'.threads ensures CountedFor(s', id, single) {
      assert id in s.threads ==> CountedFor(s, id, single) && GoodThread(ids, s, id);
    }
  }

  lemma CountedLocal(s: Sys, st: Step, single: bool)
    requires Enabled(s, st) && IsProposer(st) && CountedFor(s, st.id, single)
    requires Holds(s.threads[st.id].pc) ==> OwnsSlot(s, st.id)
    requires forall k :: k in s.delivered ==> k < |s.sent|
    ensures CountedFor(Exec(s, st), st.id, single)
  {
    var l := LocalOf(s, st);
    HeardUnchanged(s.sent, l.out, s.delivered, st.id, true);
    HeardUnchanged(s.sent, l.out, s.delivered, st.id, false);
    var s' := Exec(s, st);
    assert s'.threads[st.id] == l.t && s'.nodes[l.t.node] == l.n;
    if Holds(l.t.pc) && OwnsSlot(s', st.id) {
      assert SlotOf(s', st.id) == l.n.slots[l.t.slot];
    }
  }

  lemma {:induction false} CountedUpdate(ids: seq<nat>, s: Sys, id: nat, l: Local, u: nat, single: bool)
    requires GoodCluster(ids) && Inv(ids, s) && LocalChange(s, id, l.t, l.n) && s.nodes[l.t.node].wal <= l.n.wal
    requires u in s.threads && u != id && CountedFor(s, u, single)
    ensures CountedFor(Update(s, id, l.t, l.n, l.out), u, single)
  {
    HeardUnchanged(s.sent, l.out, s.delivered, u, true);
    HeardUnchanged(s.sent, l.out, s.delivered, u, false);
    assert GoodThread(ids, s, u) && GoodThread(ids, s, id);
  }

  lemma {:induction false} CountedOther(ids: seq<nat>, s: Sys, st: Step, id: nat, single: bool)
    requires GoodCluster(ids) && Inv(ids, s) && Enabled(s, st) && IsProposer(st)
    requires id in s.threads && id != st.id && CountedFor(s, id, single)
    ensures CountedFor(Exec(s, st), id, single)
  {
    ProposerChange(ids, s, st);
    LocalKeeps(st, s.threads[st.id], s.nodes[s.threads[st.id].node], |s.nodes|);
    CountedUpdate(ids, s, st.id, LocalOf(s, st), id, single);
  }

  lemma CountedProposer(ids: seq<nat>, s: Sys, st: Step, single: bool)
    requires GoodCluster(ids) && Inv(ids, s) && Counted(s, single) && Enabled(s, st) && IsProposer(st)
    ensures Counted(Exec(s, st), single)
  {
    var s' := Exec(s, st);
    assert GoodThread(ids, s, st.id) && CountedFor(s, st.id, single);
    forall id | id in s'.threads ensures CountedFor(s', id, single) {
      if id == st.id {
        CountedLocal(s, st, single);
      } else {
        CountedOther(ids, s, st, id, single);
      }
    }
  }

  lemma CountedDelivered(ids: seq<nat>, s: Sys, st: Step, id: nat, single: bool)
    requires GoodCluster(ids) && Inv(ids, s) && Enabled(s, st) && st.Deliver?
    requires single ==> Once(s) && SingleStep(s, st)
    requires id in s.threads && CountedFor(s, id, single)
    ensures CountedFor(Exec(s, st), id, single)
  {
    var p := s.sent[st.k];
    var o := Handle(s.nodes[p.dst], p.msg, st.persistOk);
    var out := Output(s, p, o, st.learnOk);
    HeardMore(s.sent, out, s.delivered, st.k, id, true);
    if single {
      HeardAfter(s.sent, out, s.delivered, st.k, id, true);
      HeardAfter(s.sent, out, s.delivered, st.k, id, false);
    }
    assert GoodThread(ids, s, id) && GoodPacket(s, p);
    if s.threads[id].node == p.dst && Holds(s.threads[id].pc) {
      SlotAfter(ids, s, p, o, st.persistOk, id);
    }
  }

  /** How a delivered packet moves the counters of one thread's slot. */
  lemma SlotAfter(ids: seq<nat>, s: Sys, p: Packet, o: Outcome, persistOk: bool, id: nat)
    requires Inv(ids, s) && GoodPacket(s, p) && o == Handle(s.nodes[p.dst], p.msg, persistOk)
    requires id in s.threads && s.threads[id].node == p.dst && Holds(s.threads[id].pc) && OwnsSlot(s, id)
    ensures |o.node.slots| == |s.nodes[p.dst].slots| && o.node.slots[s.threads[id].slot].Busy?
    ensures var slot := o.node.slots[s.threads[id].slot];
            && slot.promises <= SlotOf(s, id).promises + (if IsAnswer(p, id, false) then 1 else 0)
            && slot.accepts <= SlotOf(s, id).accepts + (if IsAnswer(p, id, true) then 1 else 0)
    ensures forall r :: r in s.nodes[p.dst].wal ==> r in o.node.wal
  {
    if (p.msg.Promise? || p.msg.Accepted?) && p.msg.id != id {
      SlotsApart(ids, s, p.dst, p.msg.id, id);
    }
  }

  lemma CountedDeliver(ids: seq<nat>, s: Sys, st: Step, single: bool)
    requires GoodCluster(ids) && Inv(ids, s) && Counted(s, single) && Enabled(s, st) && st.Deliver?
    requires single ==> Once(s) && SingleStep(s, st)
    ensures Counted(Exec(s, st), single)
  {
    forall id | id in Exec(s, st).threads ensures CountedFor(Exec(s, st), id, single) {
      assert CountedFor(s, id, single);
      CountedDelivered(ids, s, st, id, single);
    }
  }

  // ---------------------------------------------------------------- certificates

  ghost predicate AllCertified(s: Sys) {
    && (forall n, r :: 0 <= n < |s.nodes| && r in s.nodes[n].applied ==> Certified(s, r.id))
    && (forall k :: 0 <= k < |s.sent| && s.sent[k].msg.Learn? ==> Certified(s, s.sent[k].msg.id))
  }

  /** Logs and the packet history only grow, and a thread past its ACCEPT keeps its proposal. */
  ghost predicate Continues(s: Sys, s': Sys) {
    && |s'.nodes| == |s.nodes| && |s.sent| <= |s'.sent|
    && (forall n, r :: 0 <= n < |s.nodes| && r in s.nodes[n].wal ==> r in s'.nodes[n].wal)
    && (forall k :: 0 <= k < |s.sent| ==> s'.sent[k] == s.sent[k])
    && (forall id :: id in s.threads && PastAccept(s.threads[id].pc) ==>
          id in s'.threads && s'.threads[id].node == s.threads[id].node
          && s'.threads[id].seqno == s.threads[id].seqno && s'.threads[id].value == s.threads[id].value)
  }

  lemma {:induction false} UpdateContinues(s: Sys, id: nat, l: Local)
    requires LocalChange(s, id, l.t, l.n) && s.nodes[l.t.node].wal <= l.n.wal
    ensures Continues(s, Update(s, id, l.t, l.n, l.out))
  {
  }

  lemma {:induction false} HistoryGrows(ids: seq<nat>, s: Sys, st: Step)
    requires GoodCluster(ids) && Inv(ids, s) && Enabled(s, st)
    ensures Continues(s, Exec(s, st))
  {
    if st.TakeId? {
      FreshId(ids, s, st.node);
    } else if IsProposer(st) {
      ProposerChange(ids, s, st);
      LocalKeeps(st, s.threads[st.id], s.nodes[s.threads[st.id].node], |s.nodes|);
      UpdateContinues(s, st.id, LocalOf(s, st));
    } else {
      HandlerWal(s.nodes[s.sent[st.k].dst], s.sent[st.k].msg, st.persistOk);
    }
  }

  lemma CertifiedStays(ids: seq<nat>, s: Sys, st: Step, id: nat)
    requires GoodCluster(ids) && Inv(ids, s) && Enabled(s, st) && Certified(s, id) && id in s.threads
    requires PastAccept(s.threads[id].pc)
    ensures Certified(Exec(s, st), id)
  {
    HistoryGrows(ids, s, st);
    AcceptorsGrow(s, Exec(s, st), id);
  }

  lemma AcceptorsGrow(s: Sys, s': Sys, id: nat)
    requires |s'.nodes| == |s.nodes| && |s.sent| <= |s'.sent| && id in s.threads && id in s'.threads
    requires s'.threads[id].node == s.threads[id].node
    requires s'.threads[id].seqno == s.threads[id].seqno && s'.threads[id].value == s.threads[id].value
    requires forall n, r :: 0 <= n < |s.nodes| && r in s.nodes[n].wal ==> r in s'.nodes[n].wal
    requires forall k :: 0 <= k < |s.sent| ==> s'.sent[k] == s.sent[k]
    ensures |Acceptors(s, id)| <= |Acceptors(s', id)|
  {
    forall n | n in Acceptors(s, id) ensures n in Acceptors(s', id) {
      if exists k :: 0 <= k < |s.sent| && s.sent[k].src == n && IsAck(s.sent[k], id) {
        var k :| 0 <= k < |s.sent| && s.sent[k].src == n && IsAck(s.sent[k], id);
        assert s'.sent[k] == s.sent[k];
      }
    }
    SubsetCard(Acceptors(s, id), Acceptors(s', id));
  }

  /** A count of quorum size is a majority of distinct acceptors: the proposer and the peers that answered. With three
      nodes one real answer is enough, so there it holds on any network. */
  lemma QuorumIsCertificate(ids: seq<nat>, s: Sys, id: nat, single: bool)
    requires GoodCluster(ids) && Inv(ids, s) && Counted(s, single) && (single || |ids| == 3)
    requires id in s.threads && s.threads[id].pc.AwaitCommit?
    requires OwnsSlot(s, id) && SlotOf(s, id).accepts >= Majority(|s.nodes|)
    ensures Certified(s, id)
  {
    var t := s.threads[id];
    assert GoodThread(ids, s, id) && CountedFor(s, id, single);
    assert forall k :: 0 <= k < |s.sent| && IsAck(s.sent[k], id) ==> GoodPacket(s, s.sent[k]);
    assert t.node !in Ackers(s, id);
    forall n | n in Ackers(s, id) + {t.node} ensures n in Acceptors(s, id) {}
    SubsetCard(Ackers(s, id) + {t.node}, Acceptors(s, id));
  }

  /** Every proposal with a count of quorum size has a certificate. */
  ghost predicate Backed(s: Sys) {
    forall id ::
      id in s.threads && s.threads[id].pc.AwaitCommit? && OwnsSlot(s, id)
      && SlotOf(s, id).accepts >= Majority(|s.nodes|)
      ==> Certified(s, id)
  }

  lemma CountedIsBacked(ids: seq<nat>, s: Sys, single: bool)
    requires GoodCluster(ids) && Inv(ids, s) && Counted(s, single) && (single || |ids| == 3)
    ensures Backed(s)
  {
    forall id | id in s.threads && s.threads[id].pc.AwaitCommit? && OwnsSlot(s, id)
                && SlotOf(s, id).accepts >= Majority(|s.nodes|)
      ensures Certified(s, id)
    {
      QuorumIsCertificate(ids, s, id, single);
    }
  }

  lemma CertifiedLearn(ids: seq<nat>, s: Sys, st: Step, k: nat)
    requires GoodCluster(ids) && Inv(ids, s) && AllCertified(s) && Enabled(s, st)
    requires Inv(ids, Exec(s, st)) && Backed(Exec(s, st))
    requires k < |Exec(s, st).sent| && Exec(s, st).sent[k].msg.Learn?
    ensures Certified(Exec(s, st), Exec(s, st).sent[k].msg.id)
  {
    HistoryGrows(ids, s, st);
    if k < |s.sent| {
      assert Exec(s, st).sent[k] == s.sent[k] && GoodPacket(s, s.sent[k]);
      CertifiedStays(ids, s, st, s.sent[k].msg.id);
    } else {
      NewPackets(ids, s, st, k);
      CommitIsCertified(ids, s, st, Exec(s, st).sent[k].msg.id);
    }
  }

  lemma CertifiedStep(ids: seq<nat>, s: Sys, st: Step)
    requires GoodCluster(ids) && Inv(ids, s) && GoodRecords(s) && AllCertified(s) && Enabled(s, st)
    requires Inv(ids, Exec(s, st)) && Backed(Exec(s, st))
    ensures AllCertified(Exec(s, st))
  {
    var s' := Exec(s, st);
    forall n, r | 0 <= n < |s'.nodes| && r in s'.nodes[n].applied ensures Certified(s', r.id) {
      if r in s.nodes[n].applied {
        assert GoodRecord(s, r);
        CertifiedStays(ids, s, st, r.id);
      } else {
        AppliedIsCertified(ids, s, st, n, r);
      }
    }
    forall k | 0 <= k < |s'.sent| && s'.sent[k].msg.Learn? ensures Certified(s', s'.sent[k].msg.id) {
      CertifiedLearn(ids, s, st, k);
    }
  }

  lemma CommitIsCertified(ids: seq<nat>, s: Sys, st: Step, id: nat)
    requires GoodCluster(ids) && Inv(ids, s) && Enabled(s, st) && st.Deliver?
    requires Inv(ids, Exec(s, st)) && Backed(Exec(s, st))
    requires s.sent[st.k].msg.Accepted? && s.sent[st.k].msg.id == id
    requires OnAccepted(s.nodes[s.sent[st.k].dst], s.sent[st.k].msg).learn.Some?
    ensures Certified(Exec(s, st), id)
  {
    var s' := Exec(s, st);
    var p := s.sent[st.k];
    var i := FindSlot(s.nodes[p.dst].slots, id);
    assert s.nodes[p.dst].slots[i].id == id;
    assert s.threads[id].slot == i && s.threads[id].node == p.dst;
    assert SlotOf(s', id).committed;
    assert GoodThread(ids, s', id);
  }

  lemma AppliedIsCertified(ids: seq<nat>, s: Sys, st: Step, n: nat, r: Record)
    requires GoodCluster(ids) && Inv(ids, s) && AllCertified(s) && Enabled(s, st)
    requires Inv(ids, Exec(s, st)) && Backed(Exec(s, st))
    requires n < |s.nodes| && r !in s.nodes[n].applied && r in Exec(s, st).nodes[n].applied
    ensures Certified(Exec(s, st), r.id)
  {
    AddedBy(s, st, n, r);
    var p := s.sent[st.k];
    assert GoodPacket(s, p);
    if p.msg.Learn? {
      CertifiedStays(ids, s, st, r.id);
    } else {
      CommitIsCertified(ids, s, st, r.id);
    }
  }

  lemma AddedBy(s: Sys, st: Step, n: nat, r: Record)
    requires Enabled(s, st) && n < |s.nodes| && r !in s.nodes[n].applied
    requires n < |Exec(s, st).nodes| && r in Exec(s, st).nodes[n].applied
    requires IsProposer(st) ==> LocalOf(s, st).t.node < |s.nodes|
    ensures st.Deliver? && r.id == s.sent[st.k].msg.id
    ensures s.sent[st.k].msg.Learn?
            || (s.sent[st.k].msg.Accepted? && OnAccepted(s.nodes[s.sent[st.k].dst], s.sent[st.k].msg).learn.Some?)
  {
  }

  lemma {:induction false} CountedStep(ids: seq<nat>, s: Sys, st: Step, single: bool)
    requires GoodCluster(ids) && Inv(ids, s) && Enabled(s, st) && Counted(s, single)
    requires single ==> Once(s) && SingleStep(s, st)
    ensures Counted(Exec(s, st), single) && (single ==> Once(Exec(s, st)))
  {
    if st.TakeId? {
      CountedTakeId(ids, s, st, single);
    } else if st.Deliver? {
      CountedDeliver(ids, s, st, single);
      if single {
        OnceDeliver(ids, s, st);
      }
    } else {
      CountedProposer(ids, s, st, single);
      if single {
        OnceProposer(ids, s, st);
      }
    }
  }

  lemma {:induction false} CountedRun(d: Discipline, ids: seq<nat>, run: seq<Step>)
    requires GoodCluster(ids) && After(d, ids, run).Some?
    ensures var s := After(d, ids, run).value; Counted(s, !d.AnyDelivery?) && (!d.AnyDelivery? ==> Once(s))
  {
    if run != [] {
      CountedRun(d, ids, run[..|run| - 1]);
      InvRun(d, ids, run[..|run| - 1]);
      CountedStep(ids, After(d, ids, run[..|run| - 1]).value, run[|run| - 1], !d.AnyDelivery?);
    }
  }

  /** Certificates for every commit, LEARN and apply, whenever answers are delivered at most once or there are three
      nodes. */
  lemma {:induction false} CertifiedRun(d: Discipline, ids: seq<nat>, run: seq<Step>)
    requires GoodCluster(ids) && After(d, ids, run).Some? && (!d.AnyDelivery? || |ids| == 3)
    ensures AllCertified(After(d, ids, run).value)
  {
    if run != [] {
      var before := After(d, ids, run[..|run| - 1]).value;
      CertifiedRun(d, ids, run[..|run| - 1]);
      ExactRun(d, ids, run[..|run| - 1]);
      InvRun(d, ids, run[..|run| - 1]);
      InvRun(d, ids, run);
      CountedRun(d, ids, run);
      CountedIsBacked(ids, After(d, ids, run).value, !d.AnyDelivery?);
      CertifiedStep(ids, before, run[|run| - 1]);
    }
  }

  /** Any number of proposers: every apply is backed by a majority of distinct acceptors, applies of one id are the same
      record, which is what all its ACCEPTs and LEARNs carry, and two applies share an acceptor. */
  lemma {:induction false} AppliesAreCertified(
      d: Discipline, ids: seq<nat>, run: seq<Step>, n1: nat, r1: Record, n2: nat, r2: Record) returns (both: nat)
    requires GoodCluster(ids) && After(d, ids, run).Some? && (!d.AnyDelivery? || |ids| == 3)
    requires n1 < |ids| && n2 < |ids|
    requires var s := After(d, ids, run).value;
             |s.nodes| == |ids| && r1 in s.nodes[n1].applied && r2 in s.nodes[n2].applied
    ensures var s := After(d, ids, run).value;
            && Certified(s, r1.id) && Certified(s, r2.id)
            && HasAccepted(s, both, r1.id) && HasAccepted(s, both, r2.id)
            && (r1.id == r2.id ==> r1 == r2)
            && (forall k :: 0 <= k < |s.sent| && s.sent[k].msg.id == r1.id
                  && (s.sent[k].msg.Accept? || s.sent[k].msg.Learn?)
                  ==> s.sent[k].msg.value == r1.value && s.sent[k].msg.seqno == r1.seqno)
  {
    CertifiedRun(d, ids, run);
    ExactRun(d, ids, run);
    InvRun(d, ids, run);
    var s := After(d, ids, run).value;
    assert GoodRecord(s, r1) && GoodRecord(s, r2);
    RecordsOfOneId(ids, s, r1, r2);
    both := MajoritiesIntersect(Acceptors(s, r1.id), Acceptors(s, r2.id), |ids|);
  }

  lemma {:induction false} RecordsOfOneId(ids: seq<nat>, s: Sys, r1: Record, r2: Record)
    requires Inv(ids, s) && GoodRecord(s, r1) && GoodRecord(s, r2)
    ensures r1.id == r2.id ==> r1 == r2
    ensures forall k :: 0 <= k < |s.sent| && s.sent[k].msg.id == r1.id
                        && (s.sent[k].msg.Accept? || s.sent[k].msg.Learn?)
                        ==> s.sent[k].msg.value == r1.value && s.sent[k].msg.seqno == r1.seqno
  {
    assert forall k :: 0 <= k < |s.sent| ==> GoodPacket(s, s.sent[k]);
  }

  /** A promise count stands for that many distinct nodes (the proposer and peers that promised), each of which has seen
      the id, even if PREPAREs are repeated without limit. */
  lemma {:induction false} PromiseCountIsHonest(d: Discipline, ids: seq<nat>, run: seq<Step>, id: nat)
    requires GoodCluster(ids) && !d.AnyDelivery? && After(d, ids, run).Some?
    requires var s := After(d, ids, run).value;
             id in s.threads && Holds(s.threads[id].pc) && OwnsSlot(s, id)
    ensures var s := After(d, ids, run).value;
            && SlotOf(s, id).promises <= |Promisers(s, id) + {s.threads[id].node}|
            && (forall n :: n in Promisers(s, id) ==> n < |s.nodes| && id <= s.nodes[n].highestSeen)
  {
    CountedRun(d, ids, run);
    InvRun(d, ids, run);
    var s := After(d, ids, run).value;
    assert CountedFor(s, id, true);
    forall n | n in Promisers(s, id) ensures n < |s.nodes| && id <= s.nodes[n].highestSeen && n != s.threads[id].node {
      var k :| 0 <= k < |s.sent| && k in s.delivered && IsAnswer(s.sent[k], id, false) && s.sent[k].src == n;
      assert GoodPacket(s, s.sent[k]);
    }
    assert |Promisers(s, id) + {s.threads[id].node}| == |Promisers(s, id)| + 1;
  }
}

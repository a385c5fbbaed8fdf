/** What `paxos_propose` reports is exact, and acceptors keep their promises, in every run: any number of
    proposers and any loss, reordering or duplication of packets. */
module PaxosOutcome {
  import opened PaxosNode
  import opened PaxosSystem

  function Count(log: seq<Record>, id: nat): nat {
    if log == [] then 0
    else Count(log[..|log| - 1], id) + if log[|log| - 1].id == id then 1 else 0
  }

  lemma CountAppend(log: seq<Record>, r: Record, id: nat)
    ensures Count(log + [r], id) == Count(log, id) + if r.id == id then 1 else 0
  {
    assert (log + [r])[..|log|] == log;
  }

  lemma {:induction false} CountAbsent(log: seq<Record>, id: nat)
    requires forall r :: r in log ==> r.id != id
    ensures Count(log, id) == 0
  {
    if log != [] {
      CountAbsent(log[..|log| - 1], id);
    }
  }

  // ---------------------------------------------------------------- records carry their proposal

  /** The record a packet carries, and the record a thread proposes. */
  function RecordOf(m: Msg): Record
    requires m.Accept? || m.Learn?
  {
    Record(m.id, m.seqno, m.value)
  }

  function ThreadRecord(s: Sys, id: nat): Record
    requires id in s.threads
  {
    Record(id, s.threads[id].seqno, s.threads[id].value)
  }

  /** Sequence numbers strictly rise. */
  ghost predicate Rises(log: seq<Record>) {
    forall i, j :: 0 <= i < j < |log| ==> log[i].seqno < log[j].seqno
  }

  ghost predicate GoodRecord(s: Sys, r: Record) {
    r.id in s.threads && PastAccept(s.threads[r.id].pc) && r == ThreadRecord(s, r.id)
  }

  ghost predicate GoodRecords(s: Sys) {
    && (forall n, r :: 0 <= n < |s.nodes| && r in s.nodes[n].applied ==> GoodRecord(s, r))
    && (forall n, r :: 0 <= n < |s.nodes| && r in s.nodes[n].announced ==> GoodRecord(s, r))
  }

  lemma RecordStays(ids: seq<nat>, s: Sys, st: Step, r: Record)
    requires GoodCluster(ids) && Inv(ids, s) && Enabled(s, st) && GoodRecord(s, r)
    ensures GoodRecord(Exec(s, st), r)
  {
    if st.TakeId? {
      FreshId(ids, s, st.node);
    } else if IsProposer(st) {
      ProposerChange(ids, s, st);
    }
  }

  /** A record that a step adds to one of the two logs names the proposal of the delivered packet. */
  lemma RecordAdded(ids: seq<nat>, s: Sys, st: Step, n: nat, r: Record)
    requires GoodCluster(ids) && Inv(ids, s) && Enabled(s, st) && st.Deliver? && s.sent[st.k].dst == n
    requires n < |s.nodes| && r !in s.nodes[n].applied && r !in s.nodes[n].announced
    requires var n' := Handle(s.nodes[n], s.sent[st.k].msg, st.persistOk).node; r in n'.applied || r in n'.announced
    ensures GoodRecord(s, r) && r.id == s.sent[st.k].msg.id
  {
    var p := s.sent[st.k];
    assert GoodPacket(s, p);
    if p.msg.Accepted? {
      var i := FindSlot(s.nodes[n].slots, p.msg.id);
      assert GoodThread(ids, s, p.msg.id) && s.nodes[n].slots[i].id == p.msg.id;
    }
  }

  lemma RecordsStep(ids: seq<nat>, s: Sys, st: Step)
    requires GoodCluster(ids) && Inv(ids, s) && GoodRecords(s) && Enabled(s, st)
    ensures GoodRecords(Exec(s, st))
  {
    var s' := Exec(s, st);
    forall n, r | 0 <= n < |s'.nodes| && (r in s'.nodes[n].applied || r in s'.nodes[n].announced)
      ensures GoodRecord(s', r)
    {
      if r in s.nodes[n].applied || r in s.nodes[n].announced {
        assert GoodRecord(s, r);
      } else {
        RecordAdded(ids, s, st, n, r);
      }
      RecordStays(ids, s, st, r);
    }
  }

  // ---------------------------------------------------------------- exact outcome

  ghost predicate Committed(s: Sys, id: nat)
    requires id in s.threads
  {
    var t := s.threads[id];
    t.pc == Returned(true) || (Holds(t.pc) && OwnsSlot(s, id) && SlotOf(s, id).committed)
  }

  ghost predicate ExactFor(s: Sys, id: nat)
    requires id in s.threads
  {
    var t := s.threads[id];
    && t.node < |s.nodes|
    && Count(s.nodes[t.node].applied, id) == (if Committed(s, id) then 1 else 0)
    && Count(s.nodes[t.node].announced, id) == (if Committed(s, id) then 1 else 0)
  }

  ghost predicate Exact(s: Sys) {
    forall id :: id in s.threads ==> ExactFor(s, id)
  }

  lemma ExactTakeId(ids: seq<nat>, s: Sys, st: Step)
    requires GoodCluster(ids) && Inv(ids, s) && GoodRecords(s) && Exact(s) && Enabled(s, st) && st.TakeId?
    ensures Exact(Exec(s, st))
  {
    FreshId(ids, s, st.node);
    var id := NextId(s.nodes[st.node].highestSeen, s.nodes[st.node].nodeId);
    assert forall r :: r in s.nodes[st.node].applied ==> GoodRecord(s, r);
    assert forall r :: r in s.nodes[st.node].announced ==> GoodRecord(s, r);
    CountAbsent(s.nodes[st.node].applied, id);
    CountAbsent(s.nodes[st.node].announced, id);
    var s' := Exec(s, st);
    forall u | u in s'.threads ensures ExactFor(s', u) {
      if u in s.threads {
        assert ExactFor(s, u);
      }
    }
  }

  lemma ExactProposer(ids: seq<nat>, s: Sys, st: Step)
    requires GoodCluster(ids) && Inv(ids, s) && Exact(s) && Enabled(s, st) && IsProposer(st)
    ensures Exact(Exec(s, st))
  {
    var s' := Exec(s, st);
    assert s'.threads.Keys == s.threads.Keys;
    forall u | u in s'.threads ensures ExactFor(s', u) {
      assert ExactFor(s, u);
      if u == st.id {
        ExactOwn(ids, s, st);
      } else {
        ExactBeside(ids, s, st, u);
      }
    }
  }

  lemma {:induction false} ExactUpdate(ids: seq<nat>, s: Sys, id: nat, l: Local, u: nat)
    requires GoodCluster(ids) && Inv(ids, s) && u in s.threads && u != id && ExactFor(s, u)
    requires LocalChange(s, id, l.t, l.n)
    requires l.n.applied == s.nodes[l.t.node].applied && l.n.announced == s.nodes[l.t.node].announced
    ensures ExactFor(Update(s, id, l.t, l.n, l.out), u)
  {
    var s' := Update(s, id, l.t, l.n, l.out);
    assert GoodThread(ids, s, u) && GoodThread(ids, s, id);
    assert Committed(s, u) <==> Committed(s', u);
  }

  lemma {:induction false} ExactBeside(ids: seq<nat>, s: Sys, st: Step, u: nat)
    requires GoodCluster(ids) && Inv(ids, s) && Enabled(s, st) && IsProposer(st) && u in s.threads && u != st.id
    requires ExactFor(s, u)
    ensures u in Exec(s, st).threads && ExactFor(Exec(s, st), u)
  {
    ProposerChange(ids, s, st);
    LocalKeeps(st, s.threads[st.id], s.nodes[s.threads[st.id].node], |s.nodes|);
    ExactUpdate(ids, s, st.id, LocalOf(s, st), u);
  }

  lemma ExactOwn(ids: seq<nat>, s: Sys, st: Step)
    requires Inv(ids, s) && Enabled(s, st) && IsProposer(st) && ExactFor(s, st.id)
    ensures ExactFor(Exec(s, st), st.id)
  {
    var l := LocalOf(s, st);
    assert GoodThread(ids, s, st.id);
    assert l.n.applied == s.nodes[l.t.node].applied && l.n.announced == s.nodes[l.t.node].announced;
    assert Committed(s, st.id) <==> Committed(Exec(s, st), st.id);
  }

  /** A delivery changes the committed flag of at most one slot, together with both logs. */
  lemma ExactDeliver(ids: seq<nat>, s: Sys, st: Step)
    requires GoodCluster(ids) && Inv(ids, s) && Exact(s) && Enabled(s, st) && st.Deliver?
    ensures Exact(Exec(s, st))
  {
    DeliverChange(ids, s, st);
    var s' := Exec(s, st);
    var p := s.sent[st.k];
    assert GoodPacket(s, p);
    assert GoodThread(ids, s, p.msg.id);
    forall u | u in s'.threads ensures ExactFor(s', u) {
      assert ExactFor(s, u);
      assert GoodThread(ids, s, u);
      if s.threads[u].node == p.dst {
        ExactDelivered(ids, s, st, u);
      } else {
        assert Committed(s, u) <==> Committed(s', u);
      }
    }
  }

  predicate Commits(n: Node, m: Msg) {
    m.Accepted? && FindSlot(n.slots, m.id) < |n.slots|
    && n.slots[FindSlot(n.slots, m.id)].accepts + 1 >= n.quorum
  }

  /** What a handler adds to the two logs of its node. */
  lemma HandlerCounts(n: Node, m: Msg, persistOk: bool, u: nat)
    ensures var n' := Handle(n, m, persistOk).node;
            && Count(n'.applied, u) == Count(n.applied, u)
                 + (if u == m.id && (Commits(n, m) || (m.Learn? && m.seqno > n.committedSeq)) then 1 else 0)
            && Count(n'.announced, u) == Count(n.announced, u) + (if u == m.id && Commits(n, m) then 1 else 0)
  {
    if m.Learn? {
      CountAppend(n.applied, Record(m.id, m.seqno, m.value), u);
    } else if Commits(n, m) {
      var slot := n.slots[FindSlot(n.slots, m.id)];
      CountAppend(n.applied, Record(m.id, m.seqno, slot.value), u);
      CountAppend(n.announced, Record(slot.id, slot.seqno, slot.value), u);
    }
  }

  /** What a handler does to one slot: it commits exactly the slot the answer is booked on. */
  lemma HandlerSlot(n: Node, m: Msg, persistOk: bool, i: nat)
    requires i < |n.slots| && n.slots[i].Busy?
    ensures var n' := Handle(n, m, persistOk).node;
            && i < |n'.slots| && n'.slots[i].Busy?
            && (n'.slots[i].committed <==>
                  n.slots[i].committed || (Commits(n, m) && i == FindSlot(n.slots, m.id)))
  {
  }

  /** Exactness follows the counts and the committed flag of the thread's slot, however the node changed. */
  lemma ExactNode(s: Sys, s': Sys, n': Node, u: nat, hit: bool)
    requires u in s.threads && ExactFor(s, u) && s.threads[u].node < |s.nodes|
    requires s'.threads == s.threads && s'.nodes == s.nodes[s.threads[u].node := n']
    requires var n := s.nodes[s.threads[u].node];
             && Count(n'.applied, u) == Count(n.applied, u) + (if hit then 1 else 0)
             && Count(n'.announced, u) == Count(n.announced, u) + (if hit then 1 else 0)
    requires Holds(s.threads[u].pc) ==>
               && OwnsSlot(s, u) && s.threads[u].slot < |n'.slots| && n'.slots[s.threads[u].slot].Busy?
               && (n'.slots[s.threads[u].slot].committed <==> SlotOf(s, u).committed || hit)
    requires hit ==> Holds(s.threads[u].pc) && !SlotOf(s, u).committed
    ensures ExactFor(s', u)
  {
    assert Committed(s', u) <==> Committed(s, u) || hit;
  }

  /** A commit is booked on the slot of the proposal's own thread, which was not committed before. */
  lemma {:induction false} HitOwns(ids: seq<nat>, s: Sys, p: Packet)
    requires GoodCluster(ids) && Inv(ids, s) && GoodPacket(s, p) && Commits(s.nodes[p.dst], p.msg)
    ensures var id := p.msg.id;
            && s.threads[id].node == p.dst && Holds(s.threads[id].pc) && OwnsSlot(s, id) && !SlotOf(s, id).committed
            && s.threads[id].slot == FindSlot(s.nodes[p.dst].slots, id)
  {
    var i := FindSlot(s.nodes[p.dst].slots, p.msg.id);
    assert s.nodes[p.dst].slots[i].id == p.msg.id;
    assert GoodThread(ids, s, p.msg.id);
  }

  lemma {:induction false} ExactDelivered(ids: seq<nat>, s: Sys, st: Step, u: nat)
    requires GoodCluster(ids) && Inv(ids, s) && Enabled(s, st) && st.Deliver?
    requires u in s.threads && s.threads[u].node == s.sent[st.k].dst && ExactFor(s, u)
    requires s.threads[u].node < |s.nodes| && (s.sent[st.k].msg.Learn? ==> s.sent[st.k].msg.id != u)
    ensures ExactFor(Exec(s, st), u)
  {
    var p := s.sent[st.k];
    var n := s.nodes[p.dst];
    var n' := Handle(n, p.msg, st.persistOk).node;
    var hit := u == p.msg.id && Commits(n, p.msg);
    assert GoodPacket(s, p) && GoodThread(ids, s, u);
    if Commits(n, p.msg) {
      HitOwns(ids, s, p);
    }
    HandlerCounts(n, p.msg, st.persistOk, u);
    if Holds(s.threads[u].pc) {
      HandlerSlot(n, p.msg, st.persistOk, s.threads[u].slot);
      if p.msg.id != u {
        SlotsApart(ids, s, p.dst, p.msg.id, u);
      }
    }
    ExactNode(s, Exec(s, st), n', u, hit);
  }

  /** The slot an answer is booked on is not the slot of another thread. */
  lemma SlotsApart(ids: seq<nat>, s: Sys, n: nat, id: nat, u: nat)
    requires Inv(ids, s) && n < |s.nodes| && u in s.threads && u != id && s.threads[u].node == n
    ensures var i := FindSlot(s.nodes[n].slots, id);
            i < |s.nodes[n].slots| && Holds(s.threads[u].pc) ==> s.threads[u].slot != i
  {
    assert GoodThread(ids, s, u);
  }

  lemma ExactStep(ids: seq<nat>, s: Sys, st: Step)
    requires GoodCluster(ids) && Inv(ids, s) && GoodRecords(s) && Exact(s) && Enabled(s, st)
    ensures Exact(Exec(s, st))
  {
    if st.TakeId? {
      ExactTakeId(ids, s, st);
    } else if st.Deliver? {
      ExactDeliver(ids, s, st);
    } else {
      ExactProposer(ids, s, st);
    }
  }

  lemma {:induction false} ExactRun(d: Discipline, ids: seq<nat>, run: seq<Step>)
    requires GoodCluster(ids) && After(d, ids, run).Some?
    ensures var s := After(d, ids, run).value; Inv(ids, s) && GoodRecords(s) && Exact(s)
  {
    InvRun(d, ids, run);
    if run != [] {
      ExactRun(d, ids, run[..|run| - 1]);
      var before := After(d, ids, run[..|run| - 1]).value;
      RecordsStep(ids, before, run[|run| - 1]);
      ExactStep(ids, before, run[|run| - 1]);
    }
  }

  lemma ReturnedStays(ids: seq<nat>, s: Sys, st: Step, id: nat)
    requires GoodCluster(ids) && Inv(ids, s) && Enabled(s, st)
    requires id in s.threads && s.threads[id].pc.Returned?
    ensures id in Exec(s, st).threads && Exec(s, st).threads[id] == s.threads[id]
  {
    if st.TakeId? {
      FreshId(ids, s, st.node);
    }
  }

  lemma {:induction false} ReturnedForever(d: Discipline, ids: seq<nat>, run: seq<Step>, more: seq<Step>, id: nat)
    requires GoodCluster(ids) && After(d, ids, run).Some? && After(d, ids, run + more).Some?
    requires id in After(d, ids, run).value.threads && After(d, ids, run).value.threads[id].pc.Returned?
    ensures id in After(d, ids, run + more).value.threads
    ensures After(d, ids, run + more).value.threads[id] == After(d, ids, run).value.threads[id]
  {
    if more == [] {
      assert run + more == run;
    } else {
      var shorter := more[..|more| - 1];
      assert (run + more)[..|run + more| - 1] == run + shorter;
      ReturnedForever(d, ids, run, shorter, id);
      InvRun(d, ids, run + shorter);
      ReturnedStays(ids, After(d, ids, run + shorter).value, (run + more)[|run + more| - 1], id);
    }
  }

  /** `paxos_propose` returns 0 exactly when its value has been applied once on this node and one LEARN has been
      issued; after it returns -1 neither ever happens, whatever the rest of the run does. */
  lemma ProposeOutcomeIsExact(d: Discipline, ids: seq<nat>, run: seq<Step>, more: seq<Step>, id: nat)
    requires GoodCluster(ids) && After(d, ids, run).Some? && After(d, ids, run + more).Some?
    requires id in After(d, ids, run).value.threads && After(d, ids, run).value.threads[id].pc.Returned?
    ensures var t := After(d, ids, run).value.threads[id];
            var later := After(d, ids, run + more).value;
            && t.node < |later.nodes|
            && Count(later.nodes[t.node].applied, id) == (if t.pc.ok then 1 else 0)
            && Count(later.nodes[t.node].announced, id) == (if t.pc.ok then 1 else 0)
            && (forall r :: r in later.nodes[t.node].applied && r.id == id ==> r == Record(id, t.seqno, t.value))
            && (forall r :: r in later.nodes[t.node].announced && r.id == id ==> r == Record(id, t.seqno, t.value))
  {
    ReturnedForever(d, ids, run, more, id);
    ExactRun(d, ids, run + more);
    var later := After(d, ids, run + more).value;
    assert ExactFor(later, id);
    forall r | r in later.nodes[later.threads[id].node].applied ensures GoodRecord(later, r) {}
    forall r | r in later.nodes[later.threads[id].node].announced ensures GoodRecord(later, r) {}
  }

  // ---------------------------------------------------------------- acceptor discipline

  /** What an acceptor's earlier answer `a` demands of a later answer `b`. */
  predicate Consistent(a: Msg, b: Msg) {
    && (a.Promise? && b.Promise? ==> a.id < b.id)
    && (a.Promise? && b.Accepted? ==> a.id <= b.id)
    && (a.Accepted? && b.Promise? ==> a.id <= b.acceptedId < b.id)
    && (a.Accepted? && b.Accepted? ==> a.id <= b.id)
  }

  ghost predicate Disciplined(s: Sys) {
    forall i, j :: 0 <= i < j < |s.sent| && s.sent[i].src == s.sent[j].src ==> Consistent(s.sent[i].msg, s.sent[j].msg)
  }

  ghost predicate Grows(s: Sys, s': Sys) {
    && |s.nodes| == |s'.nodes|
    && forall n :: 0 <= n < |s.nodes| ==>
         && s.nodes[n].highestSeen <= s'.nodes[n].highestSeen
         && s.nodes[n].lastAccepted <= s'.nodes[n].lastAccepted
  }

  lemma {:induction false} DisciplinedDeliver(ids: seq<nat>, s: Sys, st: Step, i: nat, j: nat)
    requires GoodCluster(ids) && Inv(ids, s) && Disciplined(s) && Enabled(s, st) && st.Deliver?
    requires i < j < |Exec(s, st).sent| && Exec(s, st).sent[i].src == Exec(s, st).sent[j].src
    ensures Consistent(Exec(s, st).sent[i].msg, Exec(s, st).sent[j].msg)
  {
    var s' := Exec(s, st);
    if j < |s.sent| {
      assert s'.sent[i] == s.sent[i] && s'.sent[j] == s.sent[j];
    } else {
      var p := s.sent[st.k];
      ReplyIs(s.nodes[p.dst], p.msg, st.persistOk);
      var o := Handle(s.nodes[p.dst], p.msg, st.persistOk);
      assert s'.sent == s.sent + Output(s, p, o, st.learnOk);
      if i < |s.sent| {
        assert s'.sent[i] == s.sent[i];
        assert GoodPacket(s, s.sent[i]);
      }
    }
  }

  lemma {:induction false} DisciplinedSends(s: Sys, out: seq<Packet>, s': Sys)
    requires Disciplined(s) && s'.sent == s.sent + out
    requires forall k :: 0 <= k < |out| ==> out[k].msg.Prepare? || out[k].msg.Accept?
    ensures Disciplined(s')
  {
    forall i, j | 0 <= i < j < |s'.sent| && s'.sent[i].src == s'.sent[j].src
      ensures Consistent(s'.sent[i].msg, s'.sent[j].msg)
    {
      assert s'.sent[i] == if i < |s.sent| then s.sent[i] else out[i - |s.sent|];
      assert s'.sent[j] == if j < |s.sent| then s.sent[j] else out[j - |s.sent|];
    }
  }

  lemma {:induction false} DisciplinedStep(ids: seq<nat>, s: Sys, st: Step)
    requires GoodCluster(ids) && Inv(ids, s) && Disciplined(s) && Enabled(s, st)
    ensures Disciplined(Exec(s, st))
  {
    var s' := Exec(s, st);
    if st.Deliver? {
      forall i, j | 0 <= i < j < |s'.sent| && s'.sent[i].src == s'.sent[j].src
        ensures Consistent(s'.sent[i].msg, s'.sent[j].msg)
      {
        DisciplinedDeliver(ids, s, st, i, j);
      }
    } else if IsProposer(st) {
      LocalKeeps(st, s.threads[st.id], s.nodes[s.threads[st.id].node], |s.nodes|);
      DisciplinedSends(s, LocalOf(s, st).out, s');
    } else {
      assert s'.sent == s.sent;
    }
  }

  lemma GrowsStep(ids: seq<nat>, s: Sys, st: Step)
    requires GoodCluster(ids) && Inv(ids, s) && Enabled(s, st)
    ensures Grows(s, Exec(s, st))
  {
    if st.TakeId? {
      NextIdLaw(s.nodes[st.node].highestSeen, s.nodes[st.node].nodeId);
    } else if st.Deliver? {
      DeliverChange(ids, s, st);
    } else {
      ProposerChange(ids, s, st);
    }
  }

  /** In every run, an acceptor's ballots never go back, it promises every id at most once and in rising order, it
      accepts nothing below an earlier promise, and its promises report everything it accepted before. */
  lemma {:induction false} AcceptorsKeepPromises(d: Discipline, ids: seq<nat>, run: seq<Step>)
    requires GoodCluster(ids) && After(d, ids, run).Some?
    ensures Disciplined(After(d, ids, run).value)
    ensures run != [] ==>
              After(d, ids, run[..|run| - 1]).Some?
              && Grows(After(d, ids, run[..|run| - 1]).value, After(d, ids, run).value)
    ensures forall n :: 0 <= n < |After(d, ids, run).value.nodes| ==>
              After(d, ids, run).value.nodes[n].lastAccepted <= After(d, ids, run).value.nodes[n].highestSeen
  {
    InvRun(d, ids, run);
    if run != [] {
      AcceptorsKeepPromises(d, ids, run[..|run| - 1]);
      InvRun(d, ids, run[..|run| - 1]);
      DisciplinedStep(ids, After(d, ids, run[..|run| - 1]).value, run[|run| - 1]);
      GrowsStep(ids, After(d, ids, run[..|run| - 1]).value, run[|run| - 1]);
    }
  }
}

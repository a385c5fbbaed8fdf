/** Whole rounds of the protocol, built step by step: a node with the highest ballot and enough peers commits its value,
    on any of the networks. */
module PaxosRounds {
  import opened Entries
  import opened Quorums
  import opened PaxosNode
  import opened PaxosSystem

  /** A run in which only these nodes propose, and the state it leads to. */
  ghost predicate Reached(d: Discipline, ids: seq<nat>, who: set<nat>, run: seq<Step>, s: Sys) {
    After(d, ids, run) == Some(s) && forall i :: 0 <= i < |run| && run[i].TakeId? ==> run[i].node in who
  }

  lemma {:induction false} Extend(d: Discipline, ids: seq<nat>, who: set<nat>, run: seq<Step>, s: Sys, st: Step)
    requires Reached(d, ids, who, run, s) && Allowed(d, s, st) && (st.TakeId? ==> st.node in who)
    ensures Reached(d, ids, who, run + [st], Exec(s, st))
  {
    assert (run + [st])[..|run|] == run;
  }

  /** The packets of a broadcast, by destination. */
  function Pkt(base: nat, src: nat, dst: nat): nat
    requires src != dst
  {
    base + if dst < src then dst else dst - 1
  }

  lemma {:induction false} FanAt(src: nat, upTo: nat, m: Msg, dst: nat)
    requires dst != src && dst < upTo
    ensures Pkt(0, src, dst) < |Fan(src, upTo, m)| && Fan(src, upTo, m)[Pkt(0, src, dst)] == Packet(src, dst, m)
  {
    if dst != upTo - 1 {
      FanAt(src, upTo - 1, m, dst);
    }
  }

  /** It is this node's turn to propose, where proposals are serialised. */
  ghost predicate Turn(d: Discipline, s: Sys, p: nat) {
    d.Fifo? ==> d.proposer == p && forall id :: id in s.threads ==> s.threads[id].pc.Returned?
  }

  /** Where a proposer stands: its thread, and slot 0 that holds the proposal. */
  ghost predicate Running(s: Sys, p: nat, id: nat, pc: Pc, slot: Slot) {
    && p < |s.nodes| && id in s.threads && s.threads[id].node == p && s.threads[id].slot == 0 && s.threads[id].pc == pc
    && |s.nodes[p].slots| > 0 && s.nodes[p].slots[0] == slot && slot.Busy? && slot.id == id
    && slot.seqno == s.threads[id].seqno && slot.value == s.threads[id].value
  }

  /** Only packets that were sent have been delivered. */
  ghost predicate InRange(s: Sys) {
    forall k :: k in s.delivered ==> k < |s.sent|
  }

  function WithSlot(n: Node, slot: Slot): Node
    requires |n.slots| > 0
  {
    n.(slots := n.slots[0 := slot])
  }

  // ---------------------------------------------------------------- the proposer's own steps

  /** The state before the first slot is claimed. */
  ghost predicate Numbered(s: Sys, p: nat, id: nat, t: Thread) {
    p < |s.nodes| && |s.nodes[p].slots| > 0 && s.nodes[p].slots[0].Free? && id in s.threads && s.threads[id] == t
    && t.node == p && t.pc == HasSeq
  }

  lemma {:induction false} Number(d: Discipline, ids: seq<nat>, who: set<nat>, run: seq<Step>, s: Sys, p: nat, v: Entry)
      returns (run': seq<Step>, s': Sys, id: nat)
    requires p in who && Turn(d, s, p)
    requires Reached(d, ids, who, run, s) && p < |s.nodes| && |s.nodes[p].slots| > 0 && s.nodes[p].slots[0].Free?
    requires BallotOf(s.nodes[p].highestSeen) < LAST_BALLOT
    ensures Reached(d, ids, who, run', s') && id == NextId(s.nodes[p].highestSeen, s.nodes[p].nodeId)
    ensures var n := s.nodes[p];
            && s'.nodes == s.nodes[p := n.(highestSeen := id, nextSeq := n.nextSeq + 1)]
            && s'.sent == s.sent && s'.delivered == s.delivered
            && Numbered(s', p, id, Thread(p, v, n.nextSeq, 0, HasSeq))
  {
    var n := s.nodes[p];
    id := NextId(n.highestSeen, n.nodeId);
    Extend(d, ids, who, run, s, TakeId(p, v));
    var s1, run1 := Exec(s, TakeId(p, v)), run + [TakeId(p, v)];
    Extend(d, ids, who, run1, s1, TakeSeq(id));
    s', run' := Exec(s1, TakeSeq(id)), run1 + [TakeSeq(id)];
  }

  lemma {:induction false} Claim(
      d: Discipline, ids: seq<nat>, who: set<nat>, run: seq<Step>, s: Sys, p: nat, id: nat, t: Thread)
      returns (run': seq<Step>, s': Sys)
    requires Reached(d, ids, who, run, s) && Numbered(s, p, id, t)
    ensures Reached(d, ids, who, run', s')
    ensures var slot := Busy(id, t.seqno, t.value, 1, 0, false, false);
            && s'.nodes == s.nodes[p := WithSlot(s.nodes[p], slot)]
            && s'.sent == s.sent && s'.delivered == s.delivered && Running(s', p, id, HasSlot, slot)
  {
    Extend(d, ids, who, run, s, TakeSlot(id, 0));
    s', run' := Exec(s, TakeSlot(id, 0)), run + [TakeSlot(id, 0)];
  }

  /** A step of a thread that holds its slot. */
  lemma {:induction false} Advance(
      d: Discipline, ids: seq<nat>, who: set<nat>, run: seq<Step>, s: Sys, st: Step, p: nat, id: nat, pc: Pc,
      slot: Slot, l: Local)
      returns (run': seq<Step>, s': Sys)
    requires Reached(d, ids, who, run, s) && Running(s, p, id, pc, slot) && IsProposer(st) && st.id == id
             && Enabled(s, st)
    requires l == LocalOf(s, st) && l.t == s.threads[id].(pc := l.t.pc)
    requires |l.n.slots| > 0 && l.n.slots[0].Busy? && l.n.slots[0] == slot.(accepts := l.n.slots[0].accepts)
    ensures Reached(d, ids, who, run', s')
    ensures s'.nodes == s.nodes[p := l.n] && s'.sent == s.sent + l.out && s'.delivered == s.delivered
    ensures Running(s', p, id, l.t.pc, l.n.slots[0])
  {
    Extend(d, ids, who, run, s, st);
    s', run' := Exec(s, st), run + [st];
  }

  /** From taking an id to the broadcast of PREPARE. */
  lemma {:induction false} Begin(d: Discipline, ids: seq<nat>, who: set<nat>, run: seq<Step>, s: Sys, p: nat, v: Entry)
      returns (run': seq<Step>, s': Sys, id: nat)
    requires p in who && Turn(d, s, p)
    requires Reached(d, ids, who, run, s) && p < |s.nodes| && |s.nodes[p].slots| > 0 && s.nodes[p].slots[0].Free?
    requires BallotOf(s.nodes[p].highestSeen) < LAST_BALLOT
    ensures Reached(d, ids, who, run', s') && id == NextId(s.nodes[p].highestSeen, s.nodes[p].nodeId)
    ensures var n := s.nodes[p]; var slot := Busy(id, n.nextSeq, v, 1, 0, false, false);
            && s'.nodes == s.nodes[p := WithSlot(n.(highestSeen := id, nextSeq := n.nextSeq + 1), slot)]
            && s'.sent == s.sent + Fan(p, |s.nodes|, Prepare(id, n.nextSeq)) && s'.delivered == s.delivered
            && Running(s', p, id, AwaitPromises, slot)
  {
    var n := s.nodes[p];
    var run1, s1, i := Number(d, ids, who, run, s, p, v);
    id := i;
    var t := Thread(p, v, n.nextSeq, 0, HasSeq);
    var run2, s2 := Claim(d, ids, who, run1, s1, p, id, t);
    var slot := Busy(id, n.nextSeq, v, 1, 0, false, false);
    var l := Local(s2.threads[id].(pc := AwaitPromises), s2.nodes[p], Fan(p, |s.nodes|, Prepare(id, n.nextSeq)));
    run', s' := Advance(d, ids, who, run2, s2, SendPrepare(id, true), p, id, HasSlot, slot, l);
  }

  /** The proposer leaves the promise wait and accepts its own value. */
  lemma {:induction false} Adopt(
      d: Discipline, ids: seq<nat>, who: set<nat>, run: seq<Step>, s: Sys, p: nat, id: nat, slot: Slot)
      returns (run': seq<Step>, s': Sys)
    requires Reached(d, ids, who, run, s) && Running(s, p, id, AwaitPromises, slot)
             && slot.promises >= s.nodes[p].quorum
    ensures Reached(d, ids, who, run', s') && Running(s', p, id, LocallyAccepted, slot)
    ensures s'.nodes == s.nodes[p := LocalAccept(s.nodes[p], id)] && s'.sent == s.sent && s'.delivered == s.delivered
  {
    var l1 := Local(s.threads[id].(pc := Promised), s.nodes[p], []);
    var run1, s1 := Advance(d, ids, who, run, s, PromiseQuorum(id), p, id, AwaitPromises, slot, l1);
    var l2 := Local(s1.threads[id].(pc := LocallyAccepted), LocalAccept(s.nodes[p], id), []);
    run', s' := Advance(d, ids, who, run1, s1, AcceptLocally(id), p, id, Promised, slot, l2);
  }

  /** The proposer persists its own acceptance and counts it. */
  lemma {:induction false} CountOwn(
      d: Discipline, ids: seq<nat>, who: set<nat>, run: seq<Step>, s: Sys, p: nat, id: nat, slot: Slot)
      returns (run': seq<Step>, s': Sys)
    requires Reached(d, ids, who, run, s) && Running(s, p, id, LocallyAccepted, slot)
    ensures Reached(d, ids, who, run', s') && Running(s', p, id, SelfCounted, slot.(accepts := 1))
    ensures |s'.nodes| == |s.nodes|
    ensures s'.nodes == s.nodes[p := s'.nodes[p]] && s'.sent == s.sent && s'.delivered == s.delivered
    ensures s'.nodes[p] == s.nodes[p].(wal := s'.nodes[p].wal, persistedSeq := s'.nodes[p].persistedSeq,
                                       slots := s.nodes[p].slots[0 := slot.(accepts := 1)])
  {
    var t, n := s.threads[id], s.nodes[p];
    var l1 := Local(t.(pc := Persisted), n.(wal := n.wal + [Record(id, t.seqno, t.value)]), []);
    var run1, s1 := Advance(d, ids, who, run, s, Persist(id, true), p, id, LocallyAccepted, slot, l1);
    var l2 := Local(s1.threads[id].(pc := SelfCounted), SelfCount(s1.nodes[p], s1.threads[id]), []);
    run', s' := Advance(d, ids, who, run1, s1, CountSelf(id), p, id, Persisted, slot, l2);
  }

  /** From the promise quorum to the broadcast of ACCEPT. */
  lemma {:induction false} Middle(
      d: Discipline, ids: seq<nat>, who: set<nat>, run: seq<Step>, s: Sys, p: nat, id: nat, slot: Slot)
      returns (run': seq<Step>, s': Sys)
    requires Reached(d, ids, who, run, s) && Running(s, p, id, AwaitPromises, slot)
             && slot.promises >= s.nodes[p].quorum
    ensures Reached(d, ids, who, run', s') && Running(s', p, id, AwaitCommit, slot.(accepts := 1))
    ensures |s'.nodes| == |s.nodes| && s'.nodes == s.nodes[p := s'.nodes[p]] && s'.delivered == s.delivered
    ensures s'.nodes[p] == LocalAccept(s.nodes[p], id).(
                             wal := s'.nodes[p].wal, persistedSeq := s'.nodes[p].persistedSeq,
                             slots := s.nodes[p].slots[0 := slot.(accepts := 1)])
    ensures s'.sent == s.sent + Fan(p, |s.nodes|, Accept(id, slot.seqno, slot.value))
  {
    var run1, s1 := Adopt(d, ids, who, run, s, p, id, slot);
    var run2, s2 := CountOwn(d, ids, who, run1, s1, p, id, slot);
    var done := slot.(accepts := 1);
    var l := Local(s2.threads[id].(pc := AwaitCommit), s2.nodes[p],
                   Fan(p, |s2.nodes|, Accept(id, slot.seqno, slot.value)));
    run', s' := Advance(d, ids, who, run2, s2, SendAccept(id, true), p, id, SelfCounted, done, l);
  }

  // ---------------------------------------------------------------- answers from the peers

  lemma {:induction false} Give(
      d: Discipline, ids: seq<nat>, who: set<nat>, run: seq<Step>, s: Sys, k: nat, pkt: Packet, o: Outcome)
      returns (run': seq<Step>, s': Sys)
    requires Reached(d, ids, who, run, s) && k < |s.sent| && s.sent[k] == pkt && pkt.dst < |s.nodes|
    requires Allowed(d, s, Deliver(k, true, true))
    requires o == Handle(s.nodes[pkt.dst], pkt.msg, true)
    ensures Reached(d, ids, who, run', s')
    ensures s'.nodes == s.nodes[pkt.dst := o.node] && s'.threads == s.threads
    ensures s'.sent == s.sent + Output(s, pkt, o, true) && s'.delivered == s.delivered + {k}
  {
    Extend(d, ids, who, run, s, Deliver(k, true, true));
    s', run' := Exec(s, Deliver(k, true, true)), run + [Deliver(k, true, true)];
  }

  predicate Between(pkt: Packet, p: nat, q: nat) {
    (pkt.src == p && pkt.dst == q) || (pkt.src == q && pkt.dst == p)
  }

  /** Everything between these two nodes has been delivered, but perhaps this packet. */
  ghost predicate Clear(s: Sys, p: nat, q: nat, but: nat) {
    forall j :: 0 <= j < |s.sent| && j != but && Between(s.sent[j], p, q) ==> j in s.delivered
  }

  /** Packets of one broadcast that are still under way to these peers, and are the next on their links. */
  ghost predicate Pending(d: Discipline, s: Sys, base: nat, p: nat, qs: seq<nat>, m: Msg) {
    && InRange(s)
    && (forall i :: 0 <= i < |qs| ==>
          && qs[i] != p && qs[i] < |s.nodes|
          && Pkt(base, p, qs[i]) < |s.sent| && Pkt(base, p, qs[i]) !in s.delivered
          && s.sent[Pkt(base, p, qs[i])] == Packet(p, qs[i], m)
          && (d.Fifo? ==> Clear(s, p, qs[i], Pkt(base, p, qs[i]))))
    && (forall i, j :: 0 <= i < j < |qs| ==> qs[i] != qs[j])
  }

  /** One peer handles a packet and its answer comes back; the other packets stay under way. */
  lemma {:induction false} Exchange(
      d: Discipline, ids: seq<nat>, who: set<nat>, run: seq<Step>, s: Sys, base: nat, p: nat, qs: seq<nat>, m: Msg,
      answer: Msg, o: Outcome, back: Outcome)
      returns (run': seq<Step>, s': Sys)
    requires Reached(d, ids, who, run, s) && Pending(d, s, base, p, qs, m) && qs != [] && p < |s.nodes|
    requires o == Handle(s.nodes[qs[0]], m, true) && o.reply == Some(answer)
    requires back == Handle(s.nodes[p], answer, true) && back.reply.None? && (back.learn.None? || |qs| == 1)
    ensures Reached(d, ids, who, run', s') && Pending(d, s', base, p, qs[1..], m)
    ensures s'.nodes == s.nodes[qs[0] := o.node][p := back.node] && s'.threads == s.threads
    ensures d.Fifo? && back.learn.None? ==> Clear(s', p, qs[0], |s'.sent|)
    ensures back.learn.None? ==>
              forall x :: x != p && x != qs[0] && Clear(s, p, x, |s.sent|) ==> Clear(s', p, x, |s'.sent|)
  {
    var q := qs[0];
    var k := Pkt(base, p, q);
    var reply := Packet(q, p, answer);
    var run1, s1 := Give(d, ids, who, run, s, k, Packet(p, q, m), o);
    assert s1.sent == s.sent + [reply];
    run', s' := Give(d, ids, who, run1, s1, |s.sent|, reply, back);
    LinksAfter(d, s, s', base, p, qs, m, reply, Output(s1, reply, back, true));
  }

  /** The bookkeeping of the links in an exchange. */
  lemma {:induction false} LinksAfter(
      d: Discipline, s: Sys, s': Sys, base: nat, p: nat, qs: seq<nat>, m: Msg, reply: Packet, out: seq<Packet>)
    requires Pending(d, s, base, p, qs, m) && qs != [] && reply.src == qs[0] && reply.dst == p
    requires s'.sent == s.sent + [reply] + out && (out == [] || |qs| == 1) && |s'.nodes| == |s.nodes|
    requires s'.delivered == s.delivered + {Pkt(base, p, qs[0])} + {|s.sent|}
    ensures Pending(d, s', base, p, qs[1..], m)
    ensures d.Fifo? && out == [] ==> Clear(s', p, qs[0], |s'.sent|)
    ensures out == [] ==>
              forall x :: x != p && x != qs[0] && Clear(s, p, x, |s.sent|) ==> Clear(s', p, x, |s'.sent|)
  {
    assert forall j :: 0 <= j < |s.sent| ==> s'.sent[j] == s.sent[j];
    assert forall i :: 0 <= i < |qs[1..]| ==> qs[1..][i] == qs[i + 1];
  }

  /** Slot 0 is the one that answers about this proposal are counted in. */
  ghost predicate Counting(s: Sys, p: nat, id: nat, pc: Pc, slot: Slot) {
    Running(s, p, id, pc, slot) && !slot.completed
  }

  lemma {:induction false} FirstSlot(slots: seq<Slot>, id: nat)
    requires |slots| > 0 && Matches(slots[0], id)
    ensures FindSlot(slots, id) == 0
  {
  }

  lemma {:induction false} OnePromise(
      d: Discipline, ids: seq<nat>, who: set<nat>, run: seq<Step>, s: Sys, base: nat, p: nat, id: nat, slot: Slot,
      qs: seq<nat>)
      returns (run': seq<Step>, s': Sys)
    requires Reached(d, ids, who, run, s) && Counting(s, p, id, AwaitPromises, slot) && qs != []
    requires Pending(d, s, base, p, qs, Prepare(id, slot.seqno)) && s.nodes[qs[0]].highestSeen < id
    ensures Reached(d, ids, who, run', s') && Pending(d, s', base, p, qs[1..], Prepare(id, slot.seqno))
    ensures var slot1 := slot.(promises := slot.promises + 1);
            && Counting(s', p, id, AwaitPromises, slot1)
            && s'.nodes == s.nodes[qs[0] := s.nodes[qs[0]].(highestSeen := id)][p := WithSlot(s.nodes[p], slot1)]
    ensures Cleared(d, s, s', p, [qs[0]])
  {
    var q := s.nodes[qs[0]];
    var answer := Promise(id, slot.seqno, q.nodeId, q.lastAccepted);
    FirstSlot(s.nodes[p].slots, id);
    run', s' := Exchange(d, ids, who, run, s, base, p, qs, Prepare(id, slot.seqno), answer,
                         Outcome(q.(highestSeen := id), Some(answer), None),
                         Outcome(WithSlot(s.nodes[p], slot.(promises := slot.promises + 1)), None, None));
  }

  lemma {:induction false} SlotTwice(n: Node, a: Slot, b: Slot)
    requires |n.slots| > 0
    ensures WithSlot(WithSlot(n, a), b) == WithSlot(n, b)
  {
  }

  /** The links to these peers are clear now, where order counts, and no link has become less clear. */
  ghost predicate Cleared(d: Discipline, s: Sys, s': Sys, p: nat, qs: seq<nat>) {
    forall x :: x != p && ((d.Fifo? && x in qs) || Clear(s, p, x, |s.sent|)) ==> Clear(s', p, x, |s'.sent|)
  }

  lemma {:induction false} ClearedBoth(d: Discipline, s: Sys, s1: Sys, s': Sys, p: nat, qs: seq<nat>)
    requires qs != [] && Cleared(d, s, s1, p, [qs[0]]) && Cleared(d, s1, s', p, qs[1..])
    ensures Cleared(d, s, s', p, qs)
  {
    assert qs == [qs[0]] + qs[1..];
  }

  /** These peers have seen the id; nothing else has changed but the proposer. */
  ghost predicate Seen(s: Sys, s': Sys, p: nat, id: nat, qs: seq<nat>) {
    && |s'.nodes| == |s.nodes|
    && forall x :: 0 <= x < |s.nodes| && x != p ==>
         s'.nodes[x] == if x in qs then s.nodes[x].(highestSeen := id) else s.nodes[x]
  }

  lemma {:induction false} SeenBoth(s: Sys, s1: Sys, s': Sys, p: nat, id: nat, qs: seq<nat>)
    requires qs != [] && Seen(s, s1, p, id, [qs[0]]) && Seen(s1, s', p, id, qs[1..])
    ensures Seen(s, s', p, id, qs)
  {
    assert qs == [qs[0]] + qs[1..];
  }

  lemma {:induction false} CollectPromises(
      d: Discipline, ids: seq<nat>, who: set<nat>, run: seq<Step>, s: Sys, base: nat, p: nat, id: nat, slot: Slot,
      qs: seq<nat>)
      returns (run': seq<Step>, s': Sys)
    requires Reached(d, ids, who, run, s) && Counting(s, p, id, AwaitPromises, slot)
    requires Pending(d, s, base, p, qs, Prepare(id, slot.seqno))
    requires forall i :: 0 <= i < |qs| ==> s.nodes[qs[i]].highestSeen < id
    ensures Reached(d, ids, who, run', s') && InRange(s') && |s'.nodes| == |s.nodes|
    ensures Counting(s', p, id, AwaitPromises, slot.(promises := slot.promises + |qs|))
    ensures s'.nodes[p] == WithSlot(s.nodes[p], slot.(promises := slot.promises + |qs|))
    ensures Seen(s, s', p, id, qs) && Cleared(d, s, s', p, qs)
    decreases |qs|
  {
    if qs == [] {
      run', s' := run, s;
    } else {
      var slot1 := slot.(promises := slot.promises + 1);
      var run1, s1 := OnePromise(d, ids, who, run, s, base, p, id, slot, qs);
      assert Seen(s, s1, p, id, [qs[0]]);
      run', s' := CollectPromises(d, ids, who, run1, s1, base, p, id, slot1, qs[1..]);
      SlotTwice(s.nodes[p], slot1, slot1.(promises := slot1.promises + |qs[1..]|));
      SeenBoth(s, s1, s', p, id, qs);
      ClearedBoth(d, s, s1, s', p, qs);
    }
  }

  /** What an acceptor becomes when it accepts. */
  function Accepting(n: Node, id: nat, slot: Slot): Node
    requires slot.Busy?
  {
    OnAccept(n, Accept(id, slot.seqno, slot.value), true).node
  }

  /** One acceptance; `n'` is what it makes of the proposer. */
  lemma {:induction false} OneAcceptance(
      d: Discipline, ids: seq<nat>, who: set<nat>, run: seq<Step>, s: Sys, base: nat, p: nat, id: nat, slot: Slot,
      qs: seq<nat>, back: Outcome)
      returns (run': seq<Step>, s': Sys)
    requires Reached(d, ids, who, run, s) && Counting(s, p, id, AwaitCommit, slot) && qs != []
    requires Pending(d, s, base, p, qs, Accept(id, slot.seqno, slot.value)) && s.nodes[qs[0]].highestSeen <= id
    requires back == OnAccepted(s.nodes[p], Accepted(id, slot.seqno, s.nodes[qs[0]].nodeId))
    requires back.learn.None? || |qs| == 1
    ensures Reached(d, ids, who, run', s') && Pending(d, s', base, p, qs[1..], Accept(id, slot.seqno, slot.value))
    ensures s'.nodes == s.nodes[qs[0] := Accepting(s.nodes[qs[0]], id, slot)][p := back.node] && s'.threads == s.threads
  {
    var q := s.nodes[qs[0]];
    var m := Accept(id, slot.seqno, slot.value);
    var o := OnAccept(q, m, true);
    run', s' := Exchange(d, ids, who, run, s, base, p, qs, m, Accepted(id, slot.seqno, q.nodeId), o, back);
  }

  /** The proposer after it has counted an acceptance that does not make a quorum, and after one that does. */
  lemma {:induction false} CountsAcceptance(n: Node, id: nat, slot: Slot, from: nat)
    requires |n.slots| > 0 && n.slots[0] == slot && Matches(slot, id)
    ensures var o := OnAccepted(n, Accepted(id, slot.seqno, from));
            if slot.accepts + 1 < n.quorum
            then o == Outcome(WithSlot(n, slot.(accepts := slot.accepts + 1)), None, None)
            else CommitsValue(n, o.node, id, slot)
  {
    FirstSlot(n.slots, id);
  }

  /** The value is applied on the proposer; what its next proposal depends on stays. */
  ghost predicate CommitsValue(n: Node, n': Node, id: nat, slot: Slot)
    requires slot.Busy?
  {
    && n'.applied == n.applied + [Record(id, slot.seqno, slot.value)]
    && n'.highestSeen == n.highestSeen && n'.nodeId == n.nodeId && n'.quorum == n.quorum
  }

  /** These peers have accepted; nothing else has changed but the proposer. */
  ghost predicate Accepts(s: Sys, s': Sys, p: nat, id: nat, slot: Slot, qs: seq<nat>)
    requires slot.Busy?
  {
    && |s'.nodes| == |s.nodes|
    && forall x :: 0 <= x < |s.nodes| && x != p ==>
         s'.nodes[x] == if x in qs then Accepting(s.nodes[x], id, slot) else s.nodes[x]
  }

  lemma {:induction false} AcceptsBoth(s: Sys, s1: Sys, s': Sys, p: nat, id: nat, slot: Slot, qs: seq<nat>)
    requires qs != [] && qs[0] !in qs[1..] && slot.Busy?
    requires Accepts(s, s1, p, id, slot, [qs[0]]) && Accepts(s1, s', p, id, slot, qs[1..])
    ensures Accepts(s, s', p, id, slot, qs)
  {
    assert qs == [qs[0]] + qs[1..];
  }

  /** An acceptance that does not make a quorum. */
  lemma {:induction false} FurtherAcceptance(
      d: Discipline, ids: seq<nat>, who: set<nat>, run: seq<Step>, s: Sys, base: nat, p: nat, id: nat, slot: Slot,
      qs: seq<nat>)
      returns (run': seq<Step>, s': Sys)
    requires Reached(d, ids, who, run, s) && Counting(s, p, id, AwaitCommit, slot) && qs != []
    requires slot.accepts + 1 < s.nodes[p].quorum
    requires Pending(d, s, base, p, qs, Accept(id, slot.seqno, slot.value)) && s.nodes[qs[0]].highestSeen <= id
    ensures Reached(d, ids, who, run', s') && Counting(s', p, id, AwaitCommit, slot.(accepts := slot.accepts + 1))
    ensures s'.nodes[p] == WithSlot(s.nodes[p], slot.(accepts := slot.accepts + 1))
    ensures Pending(d, s', base, p, qs[1..], Accept(id, slot.seqno, slot.value)) && Accepts(s, s', p, id, slot, [qs[0]])
  {
    var back := OnAccepted(s.nodes[p], Accepted(id, slot.seqno, s.nodes[qs[0]].nodeId));
    CountsAcceptance(s.nodes[p], id, slot, s.nodes[qs[0]].nodeId);
    run', s' := OneAcceptance(d, ids, who, run, s, base, p, id, slot, qs, back);
  }

  lemma {:induction false} CollectAcceptances(
      d: Discipline, ids: seq<nat>, who: set<nat>, run: seq<Step>, s: Sys, base: nat, p: nat, id: nat, slot: Slot,
      qs: seq<nat>)
      returns (run': seq<Step>, s': Sys)
    requires Reached(d, ids, who, run, s) && Counting(s, p, id, AwaitCommit, slot) && qs != []
    requires slot.accepts + |qs| == s.nodes[p].quorum
    requires Pending(d, s, base, p, qs, Accept(id, slot.seqno, slot.value))
    requires forall i :: 0 <= i < |qs| ==> s.nodes[qs[i]].highestSeen <= id
    ensures Reached(d, ids, who, run', s') && InRange(s') && |s'.nodes| == |s.nodes|
    ensures CommitsValue(s.nodes[p], s'.nodes[p], id, slot)
    ensures Accepts(s, s', p, id, slot, qs)
    decreases |qs|
  {
    if |qs| == 1 {
      var back := OnAccepted(s.nodes[p], Accepted(id, slot.seqno, s.nodes[qs[0]].nodeId));
      CountsAcceptance(s.nodes[p], id, slot, s.nodes[qs[0]].nodeId);
      run', s' := OneAcceptance(d, ids, who, run, s, base, p, id, slot, qs, back);
    } else {
      var run1, s1 := FurtherAcceptance(d, ids, who, run, s, base, p, id, slot, qs);
      run', s' := CollectAcceptances(d, ids, who, run1, s1, base, p, id, slot.(accepts := slot.accepts + 1), qs[1..]);
      AcceptsBoth(s, s1, s', p, id, slot, qs);
    }
  }

  // ---------------------------------------------------------------- two rounds

  /** Peers of p that together with it are a quorum. */
  ghost predicate Backers(n: nat, p: nat, qs: seq<nat>) {
    && |qs| + 1 == Majority(n) && qs != []
    && (forall i :: 0 <= i < |qs| ==> qs[i] < n && qs[i] != p)
    && (forall i, j :: 0 <= i < j < |qs| ==> qs[i] != qs[j])
  }

  lemma {:induction false} BroadcastPending(d: Discipline, s: Sys, s': Sys, p: nat, qs: seq<nat>, m: Msg)
    requires InRange(s) && |s'.nodes| == |s.nodes| && Backers(|s.nodes|, p, qs)
    requires d.Fifo? ==> forall x :: x in qs ==> Clear(s, p, x, |s.sent|)
    requires s'.sent == s.sent + Fan(p, |s.nodes|, m) && s'.delivered == s.delivered
    ensures Pending(d, s', |s.sent|, p, qs, m)
  {
    forall i | 0 <= i < |qs|
      ensures Pkt(|s.sent|, p, qs[i]) < |s'.sent| && s'.sent[Pkt(|s.sent|, p, qs[i])] == Packet(p, qs[i], m)
    {
      FanAt(p, |s.nodes|, m, qs[i]);
      assert Pkt(|s.sent|, p, qs[i]) == |s.sent| + Pkt(0, p, qs[i]);
    }
    if d.Fifo? {
      forall i | 0 <= i < |qs| ensures Clear(s', p, qs[i], Pkt(|s.sent|, p, qs[i])) {
        ClearBroadcast(s, s', p, qs[i], m);
      }
    }
  }

  /** A broadcast puts one packet on each link. */
  lemma {:induction false} ClearBroadcast(s: Sys, s': Sys, p: nat, q: nat, m: Msg)
    requires Clear(s, p, q, |s.sent|) && q != p && q < |s.nodes|
    requires s'.sent == s.sent + Fan(p, |s.nodes|, m) && s'.delivered == s.delivered
    ensures Clear(s', p, q, Pkt(|s.sent|, p, q))
  {
    FanAt(p, |s.nodes|, m, q);
    var fan := Fan(p, |s.nodes|, m);
    var at := Pkt(0, p, q);
    assert forall i :: 0 <= i < |fan| && i != at ==> fan[i].dst != q && fan[i].src != q;
    assert forall j :: 0 <= j < |s.sent| ==> s'.sent[j] == s.sent[j];
    assert forall j :: |s.sent| <= j < |s'.sent| ==> s'.sent[j] == fan[j - |s.sent|];
  }

  /** A node that is ready to propose. */
  ghost predicate Ready(s: Sys, p: nat) {
    && p < |s.nodes| && |s.nodes[p].slots| > 0 && s.nodes[p].slots[0].Free?
    && BallotOf(s.nodes[p].highestSeen) < LAST_BALLOT && s.nodes[p].quorum == Majority(|s.nodes|)
  }

  /** What a bystander or backer keeps through someone else's round. */
  ghost predicate Kept(n: Node, n': Node, backed: bool, id: nat) {
    && n'.slots == n.slots && n'.nextSeq == n.nextSeq && n'.quorum == n.quorum && n'.nodeId == n.nodeId
    && n'.applied == n.applied && n'.highestSeen == (if backed then id else n.highestSeen) && (!backed ==> n' == n)
  }

  lemma {:induction false} AcceptingKeeps(n: Node, n1: Node, id: nat, slot: Slot)
    requires slot.Busy? && n1 == n.(highestSeen := id)
    ensures Kept(n, Accepting(n1, id, slot), true, id)
  {
  }

  /** A whole successful round of p with these backers, from any state in which p has the highest ballot. */
  lemma {:induction false} Round(
      d: Discipline, ids: seq<nat>, who: set<nat>, run: seq<Step>, s: Sys, p: nat, qs: seq<nat>, v: Entry)
      returns (run': seq<Step>, s': Sys, id: nat)
    requires p in who && Turn(d, s, p)
    requires Reached(d, ids, who, run, s) && InRange(s) && Ready(s, p) && Backers(|s.nodes|, p, qs)
    requires d.Fifo? ==> forall x :: x in qs ==> Clear(s, p, x, |s.sent|)
    requires forall i :: 0 <= i < |qs| ==>
               s.nodes[qs[i]].highestSeen < NextId(s.nodes[p].highestSeen, s.nodes[p].nodeId)
    ensures Reached(d, ids, who, run', s') && InRange(s') && |s'.nodes| == |s.nodes|
    ensures id == NextId(s.nodes[p].highestSeen, s.nodes[p].nodeId)
    ensures s'.nodes[p].applied == s.nodes[p].applied + [Record(id, s.nodes[p].nextSeq, v)]
    ensures s'.nodes[p].highestSeen == id
    ensures forall x :: 0 <= x < |s.nodes| && x != p ==> Kept(s.nodes[x], s'.nodes[x], x in qs, id)
  {
    var n := s.nodes[p];
    var run1, s1, i := Begin(d, ids, who, run, s, p, v);
    id := i;
    var slot := Busy(id, n.nextSeq, v, 1, 0, false, false);
    BroadcastPending(d, s, s1, p, qs, Prepare(id, n.nextSeq));
    var run2, s2 := CollectPromises(d, ids, who, run1, s1, |s.sent|, p, id, slot, qs);
    var slot2 := slot.(promises := 1 + |qs|);
    var run3, s3 := Middle(d, ids, who, run2, s2, p, id, slot2);
    BroadcastPending(d, s2, s3, p, qs, Accept(id, n.nextSeq, v));
    run', s' := CollectAcceptances(d, ids, who, run3, s3, |s2.sent|, p, id, slot2.(accepts := 1), qs);
    forall x | 0 <= x < |s.nodes| && x != p ensures Kept(s.nodes[x], s'.nodes[x], x in qs, id) {
      if x in qs {
        AcceptingKeeps(s.nodes[x], s2.nodes[x], id, slot2.(accepts := 1));
      }
    }
  }

  lemma {:induction false} FirstId(nodeId: nat)
    ensures BallotOf(NextId(0, nodeId)) < LAST_BALLOT && NextId(0, nodeId) > 0
  {
    NextIdLaw(0, nodeId);
  }

  /** The nodes other than these two. */
  function Others(n: nat, p: nat, q: nat): (xs: seq<nat>)
    ensures forall i :: 0 <= i < |xs| ==> xs[i] < n && xs[i] != p && xs[i] != q
    ensures forall i, j :: 0 <= i < j < |xs| ==> xs[i] != xs[j]
    ensures |xs| == n - (if p < n then 1 else 0) - (if q < n && q != p then 1 else 0)
  {
    if n == 0 then []
    else if n - 1 == p || n - 1 == q then Others(n - 1, p, q)
    else Others(n - 1, p, q) + [n - 1]
  }

  lemma {:induction false} SomeBackers(n: nat, p: nat, q: nat) returns (qs: seq<nat>)
    requires n >= 3 && p < n && q < n && p != q
    ensures Backers(n, p, qs) && q in qs
  {
    qs := [q] + Others(n, p, q)[..n / 2 - 1];
  }
}

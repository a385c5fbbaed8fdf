/** The cluster as a step system: proposer threads running `paxos_propose`, message handlers, and a network
    that may lose, reorder and (unless a run says otherwise) duplicate packets. */
module PaxosSystem {
  import opened Entries
  import opened Quorums
  import opened PaxosNode

  /** Where a thread is inside `paxos_propose`. */
  datatype Pc =
    | HasId | HasSeq | HasSlot | AwaitPromises | Promised | LocallyAccepted | Persisted | SelfCounted | AwaitCommit
    | Returned(ok: bool)

  datatype Thread = Thread(node: nat, value: Entry, seqno: nat, slot: nat, pc: Pc)

  datatype Packet = Packet(src: nat, dst: nat, msg: Msg)

  /** `threads` is keyed by proposal id (ids are never reused, see `FreshId`); a packet is named by its
      position in `sent`; `delivered` holds the positions handled at least once. */
  datatype Sys = Sys(nodes: seq<Node>, threads: map<nat, Thread>, sent: seq<Packet>, delivered: set<nat>)

  datatype Step =
    | TakeId(node: nat, value: Entry)
    | TakeSeq(id: nat)
    | TakeSlot(id: nat, slot: nat)
    | NoSlot(id: nat)
    | SendPrepare(id: nat, ok: bool)
    | PromiseQuorum(id: nat)
    | PromiseTimeout(id: nat)
    | AcceptLocally(id: nat)
    | Persist(id: nat, ok: bool)
    | CountSelf(id: nat)
    | SendAccept(id: nat, ok: bool)
    | Finish(id: nat)
    | Deliver(k: nat, persistOk: bool, learnOk: bool)

  predicate Holds(pc: Pc) {
    !pc.HasId? && !pc.HasSeq? && !pc.Returned?
  }

  predicate AtPc(s: Sys, id: nat, pc: Pc) {
    id in s.threads && s.threads[id].pc == pc && s.threads[id].node < |s.nodes|
  }

  predicate OwnsSlot(s: Sys, id: nat) {
    && id in s.threads
    && s.threads[id].node < |s.nodes|
    && s.threads[id].slot < |s.nodes[s.threads[id].node].slots|
    && SlotOf(s, id).Busy?
  }

  function SlotOf(s: Sys, id: nat): Slot
    requires id in s.threads && s.threads[id].node < |s.nodes|
    requires s.threads[id].slot < |s.nodes[s.threads[id].node].slots|
  {
    s.nodes[s.threads[id].node].slots[s.threads[id].slot]
  }

  /** One packet for every peer of `src` below `upTo`. */
  function Fan(src: nat, upTo: nat, m: Msg): (ps: seq<Packet>)
    ensures forall k :: 0 <= k < |ps| ==> ps[k].src == src && ps[k].dst != src && ps[k].dst < upTo && ps[k].msg == m
    ensures forall k, l :: 0 <= k < l < |ps| ==> ps[k].dst < ps[l].dst
    ensures |ps| == if src < upTo then upTo - 1 else upTo
  {
    if upTo == 0 then []
    else if upTo - 1 == src then Fan(src, upTo - 1, m)
    else Fan(src, upTo - 1, m) + [Packet(src, upTo - 1, m)]
  }

  predicate Enabled(s: Sys, st: Step) {
    match st
    case TakeId(n, _) => n < |s.nodes| && BallotOf(s.nodes[n].highestSeen) < LAST_BALLOT
    case TakeSeq(id) => AtPc(s, id, HasId)
    case TakeSlot(id, i) => AtPc(s, id, HasSeq) && i < |s.nodes[s.threads[id].node].slots|
                            && s.nodes[s.threads[id].node].slots[i].Free?
    case NoSlot(id) => AtPc(s, id, HasSeq)
    case SendPrepare(id, _) => AtPc(s, id, HasSlot) && OwnsSlot(s, id)
    case PromiseQuorum(id) => AtPc(s, id, AwaitPromises) && OwnsSlot(s, id)
                              && SlotOf(s, id).promises >= s.nodes[s.threads[id].node].quorum
    case PromiseTimeout(id) => AtPc(s, id, AwaitPromises) && OwnsSlot(s, id)
                               && SlotOf(s, id).promises < s.nodes[s.threads[id].node].quorum
    case AcceptLocally(id) => AtPc(s, id, Promised)
    case Persist(id, _) => AtPc(s, id, LocallyAccepted) && OwnsSlot(s, id)
    case CountSelf(id) => AtPc(s, id, Persisted) && OwnsSlot(s, id)
    case SendAccept(id, _) => AtPc(s, id, SelfCounted) && OwnsSlot(s, id)
    case Finish(id) => AtPc(s, id, AwaitCommit) && OwnsSlot(s, id)
    case Deliver(k, _, _) => k < |s.sent| && s.sent[k].dst < |s.nodes|
  }

  /** What a step changes: one thread, one node, packets appended. */
  function Update(s: Sys, id: nat, t: Thread, n: Node, out: seq<Packet>): Sys
    requires t.node < |s.nodes|
  {
    s.(nodes := s.nodes[t.node := n], threads := s.threads[id := t], sent := s.sent + out)
  }

  function Released(n: Node, i: nat): Node
    requires i < |n.slots|
  {
    n.(slots := n.slots[i := Free])
  }

  /** The effect of one proposer step on its thread and node, and the packets it sends. */
  datatype Local = Local(t: Thread, n: Node, out: seq<Packet>)

  predicate IsProposer(st: Step) {
    !st.TakeId? && !st.Deliver?
  }

  function ProposerStep(st: Step, t: Thread, n: Node, total: nat): Local
    requires IsProposer(st)
    requires !st.TakeSeq? && !st.NoSlot? && !st.TakeSlot? && !st.AcceptLocally? ==>
               t.slot < |n.slots| && n.slots[t.slot].Busy?
    requires st.TakeSlot? ==> st.slot < |n.slots|
  {
    var failed := t.(pc := Returned(false));
    match st
    case TakeSeq(_) => Local(t.(seqno := n.nextSeq, pc := HasSeq), n.(nextSeq := n.nextSeq + 1), [])
    case TakeSlot(id, i) =>
      Local(t.(slot := i, pc := HasSlot),
            n.(slots := n.slots[i := Busy(id, t.seqno, t.value, 1, 0, false, false)]), [])
    case NoSlot(_) => Local(failed, n, [])
    case SendPrepare(id, ok) =>
      if ok then Local(t.(pc := AwaitPromises), n, Fan(t.node, total, Prepare(id, t.seqno)))
      else Local(failed, Released(n, t.slot), [])
    case PromiseQuorum(_) => Local(t.(pc := Promised), n, [])
    case PromiseTimeout(_) => Local(failed, Released(n, t.slot), [])
    case AcceptLocally(id) => Local(t.(pc := LocallyAccepted), LocalAccept(n, id), [])
    case Persist(id, ok) =>
      if ok then Local(t.(pc := Persisted), n.(wal := n.wal + [Record(id, t.seqno, t.value)]), [])
      else Local(failed, Released(n, t.slot), [])
    case CountSelf(_) => Local(t.(pc := SelfCounted), SelfCount(n, t), [])
    case SendAccept(id, ok) =>
      if ok then Local(t.(pc := AwaitCommit), n, Fan(t.node, total, Accept(id, t.seqno, t.value)))
      else Local(failed, Released(n, t.slot), [])
    case Finish(_) => Local(t.(pc := Returned(n.slots[t.slot].committed)), Released(n, t.slot), [])
  }

  function SelfCount(n: Node, t: Thread): Node
    requires t.slot < |n.slots| && n.slots[t.slot].Busy?
  {
    n.(persistedSeq := if t.seqno > n.persistedSeq then t.seqno else n.persistedSeq,
       slots := n.slots[t.slot := n.slots[t.slot].(accepts := 1)])
  }

  function LocalOf(s: Sys, st: Step): Local
    requires Enabled(s, st) && IsProposer(st)
  {
    ProposerStep(st, s.threads[st.id], s.nodes[s.threads[st.id].node], |s.nodes|)
  }

  function Exec(s: Sys, st: Step): Sys
    requires Enabled(s, st)
  {
    if st.Deliver? then ExecDeliver(s, st.k, st.persistOk, st.learnOk)
    else if st.TakeId? then
      var n := s.nodes[st.node];
      var id := NextId(n.highestSeen, n.nodeId);
      Update(s, id, Thread(st.node, st.value, 0, 0, HasId), n.(highestSeen := id), [])
    else
      var l := LocalOf(s, st);
      Update(s, st.id, l.t, l.n, l.out)
  }

  function Output(s: Sys, p: Packet, o: Outcome, learnOk: bool): seq<Packet> {
    if o.reply.Some? then [Packet(p.dst, p.src, o.reply.value)]
    else if o.learn.Some? && learnOk then Fan(p.dst, |s.nodes|, o.learn.value)
    else []
  }

  function ExecDeliver(s: Sys, k: nat, persistOk: bool, learnOk: bool): Sys
    requires k < |s.sent| && s.sent[k].dst < |s.nodes|
  {
    var p := s.sent[k];
    var o := Handle(s.nodes[p.dst], p.msg, persistOk);
    s.(nodes := s.nodes[p.dst := o.node], sent := s.sent + Output(s, p, o, learnOk), delivered := s.delivered + {k})
  }

  // ---------------------------------------------------------------- runs

  function Start(ids: seq<nat>): Sys {
    Sys(seq(|ids|, i requires 0 <= i < |ids| => InitNode(ids[i], |ids|)), map[], [], {})
  }

  /** Distinct 16-bit node numbers, and a cluster size `paxos_init` accepts. */
  predicate GoodCluster(ids: seq<nat>) {
    && |ids| >= 3 && |ids| % 2 == 1
    && forall i, j :: 0 <= i < j < |ids| ==> LowBits(ids[i]) != LowBits(ids[j])
  }

  /** How the network may behave: any packet any number of times; PREPARE and LEARN any number of times and the other
      packets at most once; each packet at most once; or, for the replication results, in order and without loss between
      one serialised proposer and its followers. */
  datatype Discipline = AnyDelivery | SingleAnswers | AtMostOnce | Fifo(proposer: nat)

  /** Delivering this packet a second time cannot be mistaken for another answer. */
  predicate Repeatable(m: Msg) {
    m.Prepare? || m.Learn?
  }

  ghost predicate SingleStep(s: Sys, st: Step) {
    st.Deliver? && st.k < |s.sent| && !Repeatable(s.sent[st.k].msg) ==> st.k !in s.delivered
  }

  ghost predicate Allowed(d: Discipline, s: Sys, st: Step) {
    && Enabled(s, st)
    && (d.SingleAnswers? ==> SingleStep(s, st))
    && (d.AtMostOnce? && st.Deliver? ==> st.k !in s.delivered)
    && (d.Fifo? ==> FifoStep(d.proposer, s, st))
  }

  /** One proposing node, proposals one after the other, and every link delivering its packets once and in the order
      they were sent. Persists may fail, and so may the broadcasts of PREPARE and ACCEPT as a whole. */
  ghost predicate FifoStep(p: nat, s: Sys, st: Step) {
    match st
    case TakeId(n, _) => n == p && (forall id :: id in s.threads ==> s.threads[id].pc.Returned?)
    case Deliver(k, _, learnOk) =>
      && learnOk && k !in s.delivered
      && (forall j :: 0 <= j < k < |s.sent| && s.sent[j].src == s.sent[k].src && s.sent[j].dst == s.sent[k].dst ==>
            j in s.delivered)
    case _ => true
  }

  /** The state after a run, if every step of the run is allowed when it is taken. */
  ghost function After(d: Discipline, ids: seq<nat>, run: seq<Step>): Option<Sys> {
    if run == [] then Some(Start(ids))
    else
      var before := After(d, ids, run[..|run| - 1]);
      var st := run[|run| - 1];
      if before.Some? && Allowed(d, before.value, st) then Some(Exec(before.value, st)) else None
  }

  // ---------------------------------------------------------------- what every step keeps

  predicate PastPrepare(pc: Pc) {
    !pc.HasId? && !pc.HasSeq? && !pc.HasSlot?
  }

  predicate PastAccept(pc: Pc) {
    pc.AwaitCommit? || pc.Returned?
  }

  ghost predicate GoodNodes(ids: seq<nat>, s: Sys) {
    && |s.nodes| == |ids|
    && forall n :: 0 <= n < |s.nodes| ==>
         && s.nodes[n].nodeId == ids[n]
         && s.nodes[n].quorum == Majority(|ids|)
         && s.nodes[n].lastAccepted <= s.nodes[n].highestSeen < U64
  }

  ghost predicate GoodThread(ids: seq<nat>, s: Sys, id: nat)
    requires |s.nodes| == |ids| && id in s.threads
  {
    var t := s.threads[id];
    && t.node < |ids|
    && 0 < id <= s.nodes[t.node].highestSeen
    && id % BALLOT_SHIFT == LowBits(ids[t.node])
    && (!t.pc.HasId? ==> t.seqno < s.nodes[t.node].nextSeq)
    && (Holds(t.pc) ==>
          && OwnsSlot(s, id)
          && SlotOf(s, id).id == id && SlotOf(s, id).seqno == t.seqno && SlotOf(s, id).value == t.value
          && (SlotOf(s, id).completed <==> SlotOf(s, id).committed)
          && (SlotOf(s, id).committed ==> t.pc.AwaitCommit?))
  }

  ghost predicate SeqnosApart(t: Thread, u: Thread) {
    t.node == u.node && !t.pc.HasId? && !u.pc.HasId? ==> t.seqno != u.seqno
  }

  ghost predicate GoodThreads(ids: seq<nat>, s: Sys)
    requires |s.nodes| == |ids|
  {
    && (forall id :: id in s.threads ==> GoodThread(ids, s, id))
    && (forall i, j :: i in s.threads && j in s.threads && i != j ==> SeqnosApart(s.threads[i], s.threads[j]))
  }

  /** Every busy slot belongs to the thread of its proposal. */
  ghost predicate GoodSlots(s: Sys) {
    forall n, i :: 0 <= n < |s.nodes| && 0 <= i < |s.nodes[n].slots| && s.nodes[n].slots[i].Busy? ==>
      var id := s.nodes[n].slots[i].id;
      id in s.threads && s.threads[id].node == n && s.threads[id].slot == i && Holds(s.threads[id].pc)
  }

  ghost predicate GoodPacket(s: Sys, p: Packet) {
    var id := p.msg.id;
    && p.src < |s.nodes| && p.dst < |s.nodes| && p.src != p.dst
    && id in s.threads
    && p.msg.seqno == s.threads[id].seqno
    && match p.msg
       case Prepare(_, _) => p.src == s.threads[id].node && PastPrepare(s.threads[id].pc)
       case Promise(_, _, a, _) => p.dst == s.threads[id].node && PastPrepare(s.threads[id].pc)
                                   && id <= s.nodes[p.src].highestSeen
       case Accept(_, _, v) => p.src == s.threads[id].node && PastAccept(s.threads[id].pc) && v == s.threads[id].value
       case Accepted(_, _, a) => p.dst == s.threads[id].node && PastAccept(s.threads[id].pc)
                                 && id <= s.nodes[p.src].lastAccepted
       case Learn(_, _, v) => p.src == s.threads[id].node && PastAccept(s.threads[id].pc) && v == s.threads[id].value
  }

  ghost predicate GoodPackets(s: Sys) {
    && (forall k :: 0 <= k < |s.sent| ==> GoodPacket(s, s.sent[k]))
    && (forall k :: k in s.delivered ==> k < |s.sent|)
  }

  ghost predicate Inv(ids: seq<nat>, s: Sys) {
    GoodNodes(ids, s) && GoodThreads(ids, s) && GoodSlots(s) && GoodPackets(s)
  }

  lemma InvStart(ids: seq<nat>)
    requires GoodCluster(ids)
    ensures Inv(ids, Start(ids))
  {
  }

  /** The id a node is about to take has not been used by any thread of any node. */
  lemma FreshId(ids: seq<nat>, s: Sys, n: nat)
    requires GoodCluster(ids) && Inv(ids, s)
    requires n < |s.nodes| && BallotOf(s.nodes[n].highestSeen) < LAST_BALLOT
    ensures NextId(s.nodes[n].highestSeen, s.nodes[n].nodeId) !in s.threads
  {
    NextIdLaw(s.nodes[n].highestSeen, s.nodes[n].nodeId);
    var id := NextId(s.nodes[n].highestSeen, s.nodes[n].nodeId);
    assert forall u :: u in s.threads ==> GoodThread(ids, s, u) && u != id;
  }

  /** A new thread at a new id, and the raised ballot of its node. */
  lemma {:induction false} TakeIdPackets(ids: seq<nat>, s: Sys, st: Step)
    requires GoodCluster(ids) && Inv(ids, s) && Enabled(s, st) && st.TakeId?
    ensures GoodPackets(Exec(s, st))
  {
    FreshId(ids, s, st.node);
    NextIdLaw(s.nodes[st.node].highestSeen, s.nodes[st.node].nodeId);
    var s' := Exec(s, st);
    forall k | 0 <= k < |s'.sent| ensures GoodPacket(s', s'.sent[k]) {
      assert GoodPacket(s, s.sent[k]);
    }
  }

  lemma {:induction false} TakeIdThreads(ids: seq<nat>, s: Sys, st: Step)
    requires GoodCluster(ids) && Inv(ids, s) && Enabled(s, st) && st.TakeId?
    ensures GoodNodes(ids, Exec(s, st)) && GoodThreads(ids, Exec(s, st))
  {
    FreshId(ids, s, st.node);
    NextIdLaw(s.nodes[st.node].highestSeen, s.nodes[st.node].nodeId);
    var s' := Exec(s, st);
    forall id | id in s'.threads ensures GoodThread(ids, s', id) {
      assert id in s.threads ==> GoodThread(ids, s, id);
    }
  }

  lemma {:induction false} InvTakeId(ids: seq<nat>, s: Sys, st: Step)
    requires GoodCluster(ids) && Inv(ids, s) && Enabled(s, st) && st.TakeId?
    ensures Inv(ids, Exec(s, st))
  {
    FreshId(ids, s, st.node);
    TakeIdPackets(ids, s, st);
    TakeIdThreads(ids, s, st);
  }

  /** What a proposer step may do to its own thread and node. */
  ghost predicate LocalChange(s: Sys, id: nat, t: Thread, n: Node) {
    && id in s.threads
    && var t0 := s.threads[id];
    && t0.node < |s.nodes|
    && t.node == t0.node && t.value == t0.value
    && var n0 := s.nodes[t0.node];
    && n.nodeId == n0.nodeId && n.quorum == n0.quorum
    && n.lastAccepted <= n.highestSeen < U64
    && n0.highestSeen <= n.highestSeen && n0.lastAccepted <= n.lastAccepted && n0.nextSeq <= n.nextSeq
    && |n.slots| == |n0.slots|
    && (PastPrepare(t0.pc) ==> PastPrepare(t.pc)) && (PastAccept(t0.pc) ==> PastAccept(t.pc))
    && (t0.pc.HasId? || (t.seqno == t0.seqno && !t.pc.HasId?))
    && (t0.pc.HasId? ==> t.seqno == n0.nextSeq < n.nextSeq)
    && (Holds(t0.pc) ==> t.slot == t0.slot)
    && (!Holds(t0.pc) && !Holds(t.pc) ==> n.slots == n0.slots)
    && (Holds(t0.pc) || Holds(t.pc) ==>
          t.slot < |n.slots| && n.slots == n0.slots[t.slot := n.slots[t.slot]]
          && (!Holds(t0.pc) ==> n0.slots[t.slot].Free?)
          && (!Holds(t.pc) ==> n.slots[t.slot].Free?))
    && (Holds(t.pc) ==>
          var sl := n.slots[t.slot];
          && sl.Busy? && sl.id == id && sl.seqno == t.seqno && sl.value == t.value
          && (sl.completed <==> sl.committed) && (sl.committed ==> t.pc.AwaitCommit?))
  }

  lemma UpdateThreads(ids: seq<nat>, s: Sys, id: nat, t: Thread, n: Node, out: seq<Packet>, u: nat)
    requires GoodCluster(ids) && Inv(ids, s) && LocalChange(s, id, t, n)
    requires u in s.threads
    ensures GoodThread(ids, Update(s, id, t, n, out), u)
  {
    assert GoodThread(ids, s, id);
    assert GoodThread(ids, s, u);
  }

  lemma UpdateSeqnos(ids: seq<nat>, s: Sys, id: nat, t: Thread, n: Node, i: nat, j: nat)
    requires GoodCluster(ids) && Inv(ids, s) && LocalChange(s, id, t, n)
    requires i in s.threads && j in s.threads && i != j
    ensures SeqnosApart(s.threads[id := t][i], s.threads[id := t][j])
  {
    assert SeqnosApart(s.threads[i], s.threads[j]);
    assert GoodThread(ids, s, i) && GoodThread(ids, s, j);
  }

  lemma UpdateSlots(ids: seq<nat>, s: Sys, id: nat, t: Thread, n: Node, out: seq<Packet>)
    requires GoodCluster(ids) && Inv(ids, s) && LocalChange(s, id, t, n)
    ensures GoodSlots(Update(s, id, t, n, out))
  {
    assert GoodThread(ids, s, id);
    var s' := Update(s, id, t, n, out);
    forall m, i | 0 <= m < |s'.nodes| && 0 <= i < |s'.nodes[m].slots| && s'.nodes[m].slots[i].Busy?
      ensures
        var u := s'.nodes[m].slots[i].id;
        u in s'.threads && s'.threads[u].node == m && s'.threads[u].slot == i && Holds(s'.threads[u].pc)
    {
      if m != t.node || i != t.slot || (!Holds(s.threads[id].pc) && !Holds(t.pc)) {
        assert s'.nodes[m].slots[i] == s.nodes[m].slots[i];
      }
    }
  }

  lemma UpdatePackets(s: Sys, id: nat, t: Thread, n: Node, out: seq<Packet>)
    requires GoodPackets(s) && LocalChange(s, id, t, n)
    requires s.threads[id].pc.HasId? ==> forall k :: 0 <= k < |s.sent| ==> s.sent[k].msg.id != id
    requires forall k :: 0 <= k < |out| ==> GoodPacket(Update(s, id, t, n, out), out[k])
    ensures GoodPackets(Update(s, id, t, n, out))
  {
    var s' := Update(s, id, t, n, out);
    forall k | 0 <= k < |s'.sent| ensures GoodPacket(s', s'.sent[k]) {
      if k < |s.sent| {
        assert s'.sent[k] == s.sent[k];
        assert GoodPacket(s, s.sent[k]);
      }
    }
  }

  lemma InvUpdate(ids: seq<nat>, s: Sys, id: nat, t: Thread, n: Node, out: seq<Packet>)
    requires GoodCluster(ids) && Inv(ids, s) && LocalChange(s, id, t, n)
    requires forall k :: 0 <= k < |out| ==> GoodPacket(Update(s, id, t, n, out), out[k])
    ensures Inv(ids, Update(s, id, t, n, out))
  {
    var s' := Update(s, id, t, n, out);
    forall u | u in s'.threads ensures GoodThread(ids, s', u) {
      UpdateThreads(ids, s, id, t, n, out, u);
    }
    forall i, j | i in s'.threads && j in s'.threads && i != j ensures SeqnosApart(s'.threads[i], s'.threads[j]) {
      UpdateSeqnos(ids, s, id, t, n, i, j);
    }
    UpdateSlots(ids, s, id, t, n, out);
    assert forall k :: 0 <= k < |s.sent| ==> GoodPacket(s, s.sent[k]);
    UpdatePackets(s, id, t, n, out);
  }

  predicate FailsOrFinishes(st: Step) {
    st.NoSlot? || st.PromiseTimeout? || st.Finish?
    || (st.SendPrepare? && !st.ok) || (st.Persist? && !st.ok) || (st.SendAccept? && !st.ok)
  }

  lemma ReleaseChange(ids: seq<nat>, s: Sys, st: Step)
    requires Inv(ids, s) && Enabled(s, st) && IsProposer(st) && FailsOrFinishes(st)
    ensures LocalChange(s, st.id, LocalOf(s, st).t, LocalOf(s, st).n)
  {
    assert GoodThread(ids, s, st.id);
  }

  /** The steps up to the broadcast of PREPARE, and those after it. */
  predicate Opening(st: Step) {
    st.TakeSeq? || st.TakeSlot? || st.SendPrepare? || st.PromiseQuorum? || st.AcceptLocally?
  }

  lemma {:induction false} OpeningChange(ids: seq<nat>, s: Sys, st: Step)
    requires Inv(ids, s) && Enabled(s, st) && IsProposer(st) && !FailsOrFinishes(st) && Opening(st)
    ensures LocalChange(s, st.id, LocalOf(s, st).t, LocalOf(s, st).n)
  {
    assert GoodThread(ids, s, st.id);
  }

  lemma {:induction false} ClosingChange(ids: seq<nat>, s: Sys, st: Step)
    requires Inv(ids, s) && Enabled(s, st) && IsProposer(st) && !FailsOrFinishes(st) && !Opening(st)
    ensures LocalChange(s, st.id, LocalOf(s, st).t, LocalOf(s, st).n)
  {
    assert GoodThread(ids, s, st.id);
  }

  lemma ProposerChange(ids: seq<nat>, s: Sys, st: Step)
    requires Inv(ids, s) && Enabled(s, st) && IsProposer(st)
    ensures LocalChange(s, st.id, LocalOf(s, st).t, LocalOf(s, st).n)
  {
    if FailsOrFinishes(st) {
      ReleaseChange(ids, s, st);
    } else if Opening(st) {
      OpeningChange(ids, s, st);
    } else {
      ClosingChange(ids, s, st);
    }
  }

  /** What no proposer step touches: the applied and announced logs and the committed mark. */
  lemma {:induction false} LocalKeeps(st: Step, t: Thread, n: Node, total: nat)
    requires IsProposer(st)
    requires !st.TakeSeq? && !st.NoSlot? && !st.TakeSlot? && !st.AcceptLocally? ==>
               t.slot < |n.slots| && n.slots[t.slot].Busy?
    requires st.TakeSlot? ==> st.slot < |n.slots|
    ensures var l := ProposerStep(st, t, n, total);
            && l.n.applied == n.applied && l.n.announced == n.announced && l.n.committedSeq == n.committedSeq
            && n.wal <= l.n.wal && l.n.nextSeq >= n.nextSeq
            && (forall k :: 0 <= k < |l.out| ==>
                  l.out[k].src == t.node && (l.out[k].msg.Prepare? || l.out[k].msg.Accept?))
  {
  }

  lemma InvProposer(ids: seq<nat>, s: Sys, st: Step)
    requires GoodCluster(ids) && Inv(ids, s) && Enabled(s, st) && IsProposer(st)
    ensures Inv(ids, Exec(s, st))
  {
    ProposerChange(ids, s, st);
    var l := LocalOf(s, st);
    assert GoodThread(ids, s, st.id);
    InvUpdate(ids, s, st.id, l.t, l.n, l.out);
  }

  /** What a handler may do to its node: fields grow and slots keep their owner and content. */
  ghost predicate HandlerChange(s: Sys, n0: Node, n: Node) {
    && n.nodeId == n0.nodeId && n.quorum == n0.quorum
    && n.lastAccepted <= n.highestSeen < U64
    && n0.highestSeen <= n.highestSeen && n0.lastAccepted <= n.lastAccepted && n0.nextSeq == n.nextSeq
    && |n.slots| == |n0.slots|
    && forall i :: 0 <= i < |n.slots| ==>
         && (n.slots[i].Busy? <==> n0.slots[i].Busy?)
         && (n.slots[i].Busy? && n.slots[i] != n0.slots[i] ==>
               && n.slots[i].id == n0.slots[i].id && n.slots[i].seqno == n0.slots[i].seqno
               && n.slots[i].value == n0.slots[i].value
               && (n.slots[i].completed <==> n.slots[i].committed)
               && (n.slots[i].committed ==> n.slots[i].id in s.threads && s.threads[n.slots[i].id].pc.AwaitCommit?))
  }

  lemma {:induction false} QuietChange(s: Sys, n: Node, m: Msg, persistOk: bool)
    requires n.lastAccepted <= n.highestSeen < U64 && m.id < U64 && !m.Promise? && !m.Accepted?
    ensures HandlerChange(s, n, Handle(n, m, persistOk).node)
  {
  }

  lemma {:induction false} AnswerChange(s: Sys, n: Node, m: Msg, persistOk: bool)
    requires n.lastAccepted <= n.highestSeen < U64 && (m.Promise? || m.Accepted?)
    requires var i := FindSlot(n.slots, m.id);
             i < |n.slots| ==> (n.slots[i].completed <==> n.slots[i].committed)
    requires m.Accepted? && FindSlot(n.slots, m.id) < |n.slots| ==> m.id in s.threads && s.threads[m.id].pc.AwaitCommit?
    ensures HandlerChange(s, n, Handle(n, m, persistOk).node)
  {
  }

  lemma {:induction false} DeliverChange(ids: seq<nat>, s: Sys, st: Step)
    requires GoodCluster(ids) && Inv(ids, s) && Enabled(s, st) && st.Deliver?
    ensures var p := s.sent[st.k];
            HandlerChange(s, s.nodes[p.dst], Handle(s.nodes[p.dst], p.msg, st.persistOk).node)
  {
    var p := s.sent[st.k];
    assert GoodPacket(s, p) && GoodThread(ids, s, p.msg.id);
    var n := s.nodes[p.dst];
    if p.msg.Promise? || p.msg.Accepted? {
      var i := FindSlot(n.slots, p.msg.id);
      if i < |n.slots| {
        assert n.slots[i].Busy? && n.slots[i].id == p.msg.id;
      }
      AnswerChange(s, n, p.msg, st.persistOk);
    } else {
      QuietChange(s, n, p.msg, st.persistOk);
    }
  }

  /** A handler's log only grows. */
  lemma {:induction false} HandlerWal(n: Node, m: Msg, persistOk: bool)
    ensures n.wal <= Handle(n, m, persistOk).node.wal
  {
  }

  /** What a handler sends: a promise for a higher id, an acceptance of an id that is not lower, or a LEARN. */
  lemma {:induction false} ReplyIs(n: Node, m: Msg, persistOk: bool)
    ensures var o := Handle(n, m, persistOk);
            && (o.reply.Some? ==>
                  || (m.Prepare? && m.id > n.highestSeen && o.node.highestSeen == m.id
                      && o.reply.value == Promise(m.id, m.seqno, n.nodeId, n.lastAccepted))
                  || (m.Accept? && m.id >= n.highestSeen && o.node.lastAccepted == m.id
                      && o.reply.value == Accepted(m.id, m.seqno, n.nodeId)))
            && (o.learn.Some? ==>
                  && o.reply.None? && m.Accepted? && FindSlot(n.slots, m.id) < |n.slots|
                  && var slot := n.slots[FindSlot(n.slots, m.id)];
                     o.learn.value == Learn(slot.id, slot.seqno, slot.value))
  {
  }

  lemma {:induction false} PacketStays(s: Sys, s': Sys, p: Packet)
    requires GoodPacket(s, p) && s'.threads == s.threads && |s'.nodes| == |s.nodes|
    requires forall n :: 0 <= n < |s.nodes| ==> s.nodes[n].highestSeen <= s'.nodes[n].highestSeen
                                                && s.nodes[n].lastAccepted <= s'.nodes[n].lastAccepted
    ensures GoodPacket(s', p)
  {
  }

  lemma {:induction false} NewPacketGood(ids: seq<nat>, s: Sys, st: Step, k: nat)
    requires GoodCluster(ids) && Inv(ids, s) && Enabled(s, st) && st.Deliver?
    requires |s.sent| <= k < |Exec(s, st).sent|
    ensures GoodPacket(Exec(s, st), Exec(s, st).sent[k])
  {
    var p := s.sent[st.k];
    var n := s.nodes[p.dst];
    assert GoodPacket(s, p) && GoodThread(ids, s, p.msg.id);
    ReplyIs(n, p.msg, st.persistOk);
    var o := Handle(n, p.msg, st.persistOk);
    assert Exec(s, st).sent[k] == Output(s, p, o, st.learnOk)[k - |s.sent|];
    if o.learn.Some? {
      assert n.slots[FindSlot(n.slots, p.msg.id)].id == p.msg.id;
    }
  }

  lemma {:induction false} DeliverPackets(ids: seq<nat>, s: Sys, st: Step)
    requires GoodCluster(ids) && Inv(ids, s) && Enabled(s, st) && st.Deliver?
    ensures GoodPackets(Exec(s, st))
  {
    DeliverChange(ids, s, st);
    var s' := Exec(s, st);
    forall k | 0 <= k < |s'.sent| ensures GoodPacket(s', s'.sent[k]) {
      if k < |s.sent| {
        assert s'.sent[k] == s.sent[k];
        assert GoodPacket(s, s.sent[k]);
        PacketStays(s, s', s.sent[k]);
      } else {
        NewPacketGood(ids, s, st, k);
      }
    }
  }

  lemma {:induction false} HandledThread(ids: seq<nat>, s: Sys, s': Sys, n: nat, u: nat)
    requires Inv(ids, s) && n < |s.nodes| && |s'.nodes| == |s.nodes| && u in s.threads
    requires s'.threads == s.threads && s'.nodes == s.nodes[n := s'.nodes[n]]
    requires HandlerChange(s, s.nodes[n], s'.nodes[n])
    ensures GoodThread(ids, s', u)
  {
    assert GoodThread(ids, s, u);
  }

  lemma {:induction false} HandledSlots(ids: seq<nat>, s: Sys, s': Sys, n: nat)
    requires Inv(ids, s) && n < |s.nodes| && |s'.nodes| == |s.nodes|
    requires s'.threads == s.threads && s'.nodes == s.nodes[n := s'.nodes[n]]
    requires HandlerChange(s, s.nodes[n], s'.nodes[n])
    ensures GoodNodes(ids, s') && GoodSlots(s')
  {
  }

  lemma {:induction false} InvDeliver(ids: seq<nat>, s: Sys, st: Step)
    requires GoodCluster(ids) && Inv(ids, s) && Enabled(s, st) && st.Deliver?
    ensures Inv(ids, Exec(s, st))
  {
    DeliverChange(ids, s, st);
    DeliverPackets(ids, s, st);
    var s' := Exec(s, st);
    var n := s.sent[st.k].dst;
    forall u | u in s'.threads ensures GoodThread(ids, s', u) {
      HandledThread(ids, s, s', n, u);
    }
    HandledSlots(ids, s, s', n);
  }

  lemma InvStep(ids: seq<nat>, s: Sys, st: Step)
    requires GoodCluster(ids) && Inv(ids, s) && Enabled(s, st)
    ensures Inv(ids, Exec(s, st))
  {
    if st.TakeId? {
      InvTakeId(ids, s, st);
    } else if st.Deliver? {
      InvDeliver(ids, s, st);
    } else {
      InvProposer(ids, s, st);
    }
  }

  lemma {:induction false} InvRun(d: Discipline, ids: seq<nat>, run: seq<Step>)
    requires GoodCluster(ids) && After(d, ids, run).Some?
    ensures Inv(ids, After(d, ids, run).value)
  {
    if run == [] {
      InvStart(ids);
    } else {
      InvRun(d, ids, run[..|run| - 1]);
      InvStep(ids, After(d, ids, run[..|run| - 1]).value, run[|run| - 1]);
    }
  }

  /** Every discipline but the first is a case of the second. */
  lemma {:induction false} RunsAreSingle(d: Discipline, ids: seq<nat>, run: seq<Step>)
    requires !d.AnyDelivery? && After(d, ids, run).Some?
    ensures After(SingleAnswers, ids, run) == After(d, ids, run)
  {
    if run != [] {
      RunsAreSingle(d, ids, run[..|run| - 1]);
    }
  }

  /** On any network and with any number of proposers, all ACCEPTs and LEARNs of one proposal id carry one value and one
      sequence number. */
  lemma {:induction false} OneValuePerId(d: Discipline, ids: seq<nat>, run: seq<Step>, j: nat, k: nat)
    requires GoodCluster(ids) && After(d, ids, run).Some?
    requires var s := After(d, ids, run).value;
             && j < |s.sent| && k < |s.sent| && s.sent[j].msg.id == s.sent[k].msg.id
             && (s.sent[j].msg.Accept? || s.sent[j].msg.Learn?) && (s.sent[k].msg.Accept? || s.sent[k].msg.Learn?)
    ensures var s := After(d, ids, run).value;
            s.sent[j].msg.value == s.sent[k].msg.value && s.sent[j].msg.seqno == s.sent[k].msg.seqno
  {
    InvRun(d, ids, run);
    var s := After(d, ids, run).value;
    assert GoodPacket(s, s.sent[j]) && GoodPacket(s, s.sent[k]);
  }
}

/** One Paxos node as functions on its state: the ballot generator, the proposal slot pool and the five message
    handlers. */
module PaxosNode {
  import opened Entries
  import opened Quorums

  const BALLOT_SHIFT: nat := 0x1_0000
  const LAST_BALLOT: nat := 0xFFFF_FFFF_FFFF
  const MAX_PROPOSALS: nat := 256

  datatype Msg =
    | Prepare(id: nat, seqno: nat)
    | Promise(id: nat, seqno: nat, acceptor: nat, acceptedId: nat)
    | Accept(id: nat, seqno: nat, value: Entry)
    | Accepted(id: nat, seqno: nat, acceptor: nat)
    | Learn(id: nat, seqno: nat, value: Entry)

  /** A pool slot that is not in use is all zero, so `Free` carries nothing. */
  datatype Slot =
    | Free
    | Busy(id: nat, seqno: nat, value: Entry, promises: nat, accepts: nat, completed: bool, committed: bool)

  /** One call of a callback (persist, apply or broadcast of LEARN), with the proposal id it is about. */
  datatype Record = Record(id: nat, seqno: nat, value: Entry)

  datatype Node = Node(
    nodeId: nat, quorum: nat,
    highestSeen: nat, lastAccepted: nat, committedSeq: nat, persistedSeq: nat, nextSeq: nat,
    slots: seq<Slot>,
    wal: seq<Record>, applied: seq<Record>, announced: seq<Record>)

  datatype Outcome = Outcome(node: Node, reply: Option<Msg>, learn: Option<Msg>)

  function LowBits(nodeId: nat): nat {
    nodeId % BALLOT_SHIFT
  }

  function BallotOf(id: nat): nat {
    id / BALLOT_SHIFT
  }

  /** The proposal id in 64-bit arithmetic: the shift drops what does not fit, the low 16 bits are the node's,
      and a ballot that has become zero is saturated. */
  function NextId(highestSeen: nat, nodeId: nat): (id: nat) {
    var ballot := (highestSeen / BALLOT_SHIFT + 1) % U64;
    if ballot == 0 then U64 - 1 else (ballot * BALLOT_SHIFT) % U64 + LowBits(nodeId)
  }

  /** Strictly larger and tagged with the node's 16 bits exactly up to the last ballot, where the id
      falls back to the bare node bits; the saturating branch is never taken. */
  lemma NextIdLaw(highestSeen: nat, nodeId: nat)
    requires highestSeen < U64
    ensures (highestSeen / BALLOT_SHIFT + 1) % U64 != 0
    ensures NextId(highestSeen, nodeId) < U64
    ensures NextId(highestSeen, nodeId) % BALLOT_SHIFT == LowBits(nodeId)
    ensures NextId(highestSeen, nodeId) > highestSeen <==> BallotOf(highestSeen) < LAST_BALLOT
    ensures BallotOf(highestSeen) < LAST_BALLOT ==>
              BallotOf(NextId(highestSeen, nodeId)) == BallotOf(highestSeen) + 1
    ensures BallotOf(highestSeen) == LAST_BALLOT ==> NextId(highestSeen, nodeId) == LowBits(nodeId)
  {
    var b := highestSeen / BALLOT_SHIFT;
    assert b <= LAST_BALLOT;
    assert (b + 1) % U64 == b + 1;
    if b < LAST_BALLOT {
      assert ((b + 1) * BALLOT_SHIFT) % U64 == (b + 1) * BALLOT_SHIFT;
    } else {
      assert (b + 1) * BALLOT_SHIFT == U64;
      assert highestSeen >= LAST_BALLOT * BALLOT_SHIFT;
    }
  }

  /** The first slot at or after `from` that is in use, not completed and holds this proposal. */
  function FindSlot(slots: seq<Slot>, id: nat, from: nat := 0): (i: nat)
    requires from <= |slots|
    ensures from <= i <= |slots|
    ensures i < |slots| ==> Matches(slots[i], id)
    ensures forall j :: from <= j < i ==> !Matches(slots[j], id)
    decreases |slots| - from
  {
    if from == |slots| || Matches(slots[from], id) then from else FindSlot(slots, id, from + 1)
  }

  predicate Matches(slot: Slot, id: nat) {
    slot.Busy? && slot.id == id && !slot.completed
  }

  function OnPrepare(n: Node, m: Msg): Outcome
    requires m.Prepare?
  {
    if m.id > n.highestSeen then
      Outcome(n.(highestSeen := m.id), Some(Promise(m.id, m.seqno, n.nodeId, n.lastAccepted)), None)
    else
      Outcome(n, None, None)
  }

  function OnPromise(n: Node, m: Msg): Outcome
    requires m.Promise?
  {
    var i := FindSlot(n.slots, m.id);
    if i < |n.slots| then
      Outcome(n.(slots := n.slots[i := n.slots[i].(promises := n.slots[i].promises + 1)]), None, None)
    else
      Outcome(n, None, None)
  }

  /** `persistOk` is the result of the persist callback, if it is called. */
  function OnAccept(n: Node, m: Msg, persistOk: bool): Outcome
    requires m.Accept?
  {
    if m.id >= n.highestSeen then
      var n1 := n.(highestSeen := m.id, lastAccepted := m.id);
      if m.seqno > n.persistedSeq then
        if persistOk then
          Outcome(n1.(persistedSeq := m.seqno, wal := n.wal + [Record(m.id, m.seqno, m.value)]),
                  Some(Accepted(m.id, m.seqno, n.nodeId)), None)
        else
          Outcome(n1, None, None)
      else
        Outcome(n1, Some(Accepted(m.id, m.seqno, n.nodeId)), None)
    else
      Outcome(n, None, None)
  }

  function OnAccepted(n: Node, m: Msg): Outcome
    requires m.Accepted?
  {
    var i := FindSlot(n.slots, m.id);
    if i < |n.slots| then
      var slot := n.slots[i].(accepts := n.slots[i].accepts + 1);
      if slot.accepts >= n.quorum then
        var done := slot.(completed := true, committed := true);
        Outcome(
          n.(slots := n.slots[i := done],
             committedSeq := if m.seqno > n.committedSeq then m.seqno else n.committedSeq,
             applied := n.applied + [Record(m.id, m.seqno, slot.value)],
             announced := n.announced + [Record(slot.id, slot.seqno, slot.value)]),
          None, Some(Learn(slot.id, slot.seqno, slot.value)))
      else
        Outcome(n.(slots := n.slots[i := slot]), None, None)
    else
      Outcome(n, None, None)
  }

  /** A learner ignores the persist result but still moves its persisted mark. */
  function OnLearn(n: Node, m: Msg, persistOk: bool): Outcome
    requires m.Learn?
  {
    if m.seqno > n.committedSeq then
      var r := Record(m.id, m.seqno, m.value);
      var unseen := m.seqno > n.persistedSeq;
      Outcome(
        n.(persistedSeq := if unseen then m.seqno else n.persistedSeq,
           wal := if unseen && persistOk then n.wal + [r] else n.wal,
           applied := n.applied + [r],
           committedSeq := m.seqno),
        None, None)
    else
      Outcome(n, None, None)
  }

  function Handle(n: Node, m: Msg, persistOk: bool): Outcome {
    match m
    case Prepare(_, _) => OnPrepare(n, m)
    case Promise(_, _, _, _) => OnPromise(n, m)
    case Accept(_, _, _) => OnAccept(n, m, persistOk)
    case Accepted(_, _, _) => OnAccepted(n, m)
    case Learn(_, _, _) => OnLearn(n, m, persistOk)
  }

  function LocalAccept(n: Node, id: nat): Node {
    if id >= n.highestSeen then n.(highestSeen := id, lastAccepted := id) else n
  }

  function InitNode(nodeId: nat, total: nat): Node {
    Node(nodeId, Majority(total), 0, 0, 0, 0, 1, seq(MAX_PROPOSALS, i => Free), [], [], [])
  }
}

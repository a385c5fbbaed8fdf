/** The node as the program keeps it: fields and a fixed slot array updated in place. Every method is the state
    function of the same name. */
module PaxosMachine {
  import opened Entries
  import opened PaxosNode

  class Machine {
    const nodeId: nat
    const quorum: nat
    var highestSeen: nat
    var lastAccepted: nat
    var committedSeq: nat
    var persistedSeq: nat
    var nextSeq: nat
    const slots: array<Slot>
    // what the persist, apply and LEARN-broadcast callbacks have been given
    ghost var wal: seq<Record>
    ghost var applied: seq<Record>
    ghost var announced: seq<Record>

    ghost function View(): Node
      reads this, slots
    {
      Node(nodeId, quorum, highestSeen, lastAccepted, committedSeq, persistedSeq, nextSeq, slots[..],
           wal, applied, announced)
    }

    constructor (nodeId: nat, total: nat)
      ensures fresh(slots) && View() == InitNode(nodeId, total)
    {
      this.nodeId, quorum := nodeId, total / 2 + 1;
      highestSeen, lastAccepted, committedSeq, persistedSeq, nextSeq := 0, 0, 0, 0, 1;
      wal, applied, announced := [], [], [];
      slots := new Slot[MAX_PROPOSALS](i => Free);
      new;
      assert slots[..] == seq(MAX_PROPOSALS, i => Free);
    }

    /** The cluster size is refused unless it is odd and at least three. */
    static method Init(nodeId: nat, total: nat) returns (m: Machine?)
      ensures m == null <==> total < 3 || total % 2 == 0
      ensures m != null ==> fresh(m) && fresh(m.slots) && m.View() == InitNode(nodeId, total)
    {
      if total < 3 || total % 2 == 0 {
        return null;
      }
      m := new Machine(nodeId, total);
    }

    method NextProposalId() returns (id: nat)
      modifies this
      ensures id == NextId(old(highestSeen), nodeId)
      ensures View() == old(View()).(highestSeen := id)
    {
      var ballot := (highestSeen / BALLOT_SHIFT + 1) % U64;
      id := (ballot * BALLOT_SHIFT) % U64 + nodeId % BALLOT_SHIFT;
      if ballot == 0 {
        id := U64 - 1;
      }
      highestSeen := id;
    }

    method TakeSequence() returns (sequence: nat)
      modifies this
      ensures sequence == old(nextSeq) && View() == old(View()).(nextSeq := old(nextSeq) + 1)
    {
      sequence := nextSeq;
      nextSeq := nextSeq + 1;
    }

    /** Claims the first free slot, or reports that every slot is busy. */
    method ClaimSlot(id: nat, sequence: nat, value: Entry) returns (i: nat)
      modifies slots
      ensures i <= slots.Length
      ensures forall j :: 0 <= j < i ==> old(slots[j]).Busy?
      ensures i == slots.Length ==> View() == old(View())
      ensures i < slots.Length ==>
                old(slots[i]).Free?
                && View() == old(View()).(slots := old(slots[..])[i := Busy(id, sequence, value, 1, 0, false, false)])
    {
      i := 0;
      while i < slots.Length
        invariant i <= slots.Length
        invariant forall j :: 0 <= j < i ==> slots[j].Busy?
        invariant slots[..] == old(slots[..])
      {
        if slots[i].Free? {
          slots[i] := Busy(id, sequence, value, 1, 0, false, false);
          return;
        }
        i := i + 1;
      }
    }

    method ReleaseSlot(i: nat)
      requires i < slots.Length
      modifies slots
      ensures View() == old(View()).(slots := old(slots[..])[i := Free])
    {
      slots[i] := Free;
    }

    method AcceptLocally(id: nat)
      modifies this
      ensures View() == LocalAccept(old(View()), id)
    {
      if id >= highestSeen {
        highestSeen := id;
        lastAccepted := id;
      }
    }

    /** The slot scan of the PROMISE and ACCEPTED handlers. */
    method Scan(id: nat) returns (i: nat)
      ensures i == FindSlot(slots[..], id)
    {
      i := 0;
      while i < slots.Length && !Matches(slots[i], id)
        invariant i <= slots.Length
        invariant FindSlot(slots[..], id) == FindSlot(slots[..], id, i)
      {
        i := i + 1;
      }
    }

    method HandleMessage(m: Msg, persistOk: bool) returns (reply: Option<Msg>, learn: Option<Msg>)
      modifies this, slots
      ensures Outcome(View(), reply, learn) == Handle(old(View()), m, persistOk)
    {
      reply, learn := None, None;
      match m
      case Prepare(id, sequence) =>
        if id > highestSeen {
          highestSeen := id;
          reply := Some(Promise(id, sequence, nodeId, lastAccepted));
        }
      case Promise(id, _, _, _) =>
        var i := Scan(id);
        if i < slots.Length {
          slots[i] := slots[i].(promises := slots[i].promises + 1);
        }
      case Accept(id, sequence, value) =>
        if id >= highestSeen {
          highestSeen := id;
          lastAccepted := id;
          if sequence > persistedSeq {
            if !persistOk {
              return;
            }
            wal := wal + [Record(id, sequence, value)];
            persistedSeq := sequence;
          }
          reply := Some(Accepted(id, sequence, nodeId));
        }
      case Accepted(id, sequence, _) =>
        learn := CountAccept(id, sequence, m);
      case Learn(id, sequence, value) =>
        if sequence > committedSeq {
          if sequence > persistedSeq {
            if persistOk {
              wal := wal + [Record(id, sequence, value)];
            }
            persistedSeq := sequence;
          }
          applied := applied + [Record(id, sequence, value)];
          committedSeq := sequence;
        }
    }

    method CountAccept(id: nat, sequence: nat, ghost m: Msg) returns (learn: Option<Msg>)
      requires m.Accepted? && m.id == id && m.seqno == sequence
      modifies this, slots
      ensures Outcome(View(), None, learn) == OnAccepted(old(View()), m)
    {
      learn := None;
      var i := Scan(id);
      if i < slots.Length {
        slots[i] := slots[i].(accepts := slots[i].accepts + 1);
        if slots[i].accepts >= quorum {
          slots[i] := slots[i].(completed := true, committed := true);
          if sequence > committedSeq {
            committedSeq := sequence;
          }
          applied := applied + [Record(id, sequence, slots[i].value)];
          announced := announced + [Record(slots[i].id, slots[i].seqno, slots[i].value)];
          learn := Some(Learn(slots[i].id, slots[i].seqno, slots[i].value));
        }
      }
    }
  }
}

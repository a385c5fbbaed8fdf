/** Quorum reads over whole runs, from what the storage nodes do: as long as no replica with a short store is counted
    for a committed write, reads are right. */
module QuorumRuns {
  import opened Quorums
  import opened AppendFile
  import opened QuorumFile

  /** The replica does not execute the write, stores all of it, or reports an error and stores nothing of it. */
  predicate StoresWhole(r: Replica, offset: nat, data: seq<byte>, fate: WriteFate) {
    || fate.Unreached?
    || !Reaches(Content(r), offset, fate.io)
    || (var gap, length := offset - Content(r).size, |Payload(data, fate)|;
        || Complete(fate.io, gap, length)
        || (fate.io.counted < length && Min(fate.io.zeros, gap) == 0 && Min(fate.io.kept, length) == 0))
  }

  /** Replica i makes no short store in this event. */
  ghost predicate StepStoresWhole(c: Cluster, ev: Event, i: nat)
    requires Shaped(|c.replicas|, ev) && i < |c.replicas|
  {
    match ev
    case Ask(w) => StoresWhole(c.replicas[i], WriteOffset(c, w.offset), w.data, w.fates[i])
    case Late(j, offset, data, fate) => j == i ==> StoresWhole(c.replicas[i], offset, data, fate)
    case Cleared(_) => true
  }

  /** Replica i has made no short store since it was last cleared. */
  ghost predicate Intact(c: Cluster, events: seq<Event>, i: nat)
    requires AllShaped(|c.replicas|, events) && i < |c.replicas|
    decreases |events|
  {
    if events == [] then Content(c.replicas[i]).Consistent()
    else
      var before, ev := events[..|events| - 1], events[|events| - 1];
      Run(c, events).replicas[i].None? || (Intact(c, before, i) && StepStoresWhole(Run(c, before), ev, i))
  }

  /** What a run needs of the environment: every replica that is counted for a committed Write receives all of the data,
      stores it whole and has made no earlier short store, and an uncommitted Remove leaves enough holders. Replicas
      that are not counted may miss any writes, get them late, and store any part of them. */
  ghost predicate IntactRun(c: Cluster, events: seq<Event>)
    requires AllShaped(|c.replicas|, events)
    decreases |events|
  {
    events == [] ||
    (var before, ev := events[..|events| - 1], events[|events| - 1];
     IntactRun(c, before) && IntactEvent(c, before, ev))
  }

  ghost predicate IntactEvent(c: Cluster, before: seq<Event>, ev: Event)
    requires AllShaped(|c.replicas|, before) && Shaped(|c.replicas|, ev)
  {
    var s := Run(c, before);
    match ev
    case Ask(w) =>
      Succeeds(s, w) ==>
        forall i :: i in Reporters(s, w) ==>
          w.fates[i].arrived >= |w.data| && Intact(c, before, i) && StepStoresWhole(s, ev, i)
    case Late(_, _, _, _) => true
    case Cleared(_) => Sound(s, ev)
  }

  lemma {:induction false} WholeStoreIsConsistent(r: Replica, offset: nat, data: seq<byte>, fate: WriteFate)
    requires Content(r).Consistent() && StoresWhole(r, offset, data, fate)
    ensures Content(ReplicaWrite(r, offset, data, fate)).Consistent()
  {
    if fate.Reached? {
      WriteKeepsConsistency(Content(r), offset, Payload(data, fate), fate.io);
    }
  }

  lemma {:induction false} IntactStep(c: Cluster, ev: Event, i: nat)
    requires Shaped(|c.replicas|, ev) && i < |c.replicas|
    requires Content(c.replicas[i]).Consistent() && StepStoresWhole(c, ev, i)
    ensures Content(Step(c, ev).replicas[i]).Consistent()
  {
    match ev
    case Ask(w) => WholeStoreIsConsistent(c.replicas[i], WriteOffset(c, w.offset), w.data, w.fates[i]);
    case Late(j, offset, data, fate) =>
      if j == i {
        WholeStoreIsConsistent(c.replicas[i], offset, data, fate);
      }
    case Cleared(_) =>
  }

  /** A replica without a short store has the size of its content. */
  lemma {:induction false} IntactIsConsistent(c: Cluster, events: seq<Event>, i: nat)
    requires AllShaped(|c.replicas|, events) && i < |c.replicas| && Intact(c, events, i)
    ensures Content(Run(c, events).replicas[i]).Consistent()
    decreases |events|
  {
    if events != [] && Run(c, events).replicas[i].Some? {
      var before := events[..|events| - 1];
      IntactIsConsistent(c, before, i);
      IntactStep(Run(c, before), events[|events| - 1], i);
    }
  }

  lemma {:induction false} IntactEventIsSound(c: Cluster, before: seq<Event>, ev: Event)
    requires AllShaped(|c.replicas|, before) && Shaped(|c.replicas|, ev) && IntactEvent(c, before, ev)
    ensures Sound(Run(c, before), ev)
  {
    var s := Run(c, before);
    if ev.Ask? && Succeeds(s, ev.w) {
      forall i | i in Reporters(s, ev.w)
        ensures var offset := WriteOffset(s, ev.w.offset); var f := Content(s.replicas[i]);
                && ev.w.fates[i].arrived >= |ev.w.data| && f.Consistent() && offset >= f.size
                && Complete(ev.w.fates[i].io, offset - f.size, |ev.w.data|)
      {
        IntactIsConsistent(c, before, i);
      }
      CompleteIsSound(s, ev.w);
    }
  }

  lemma {:induction false} IntactRunIsSound(c: Cluster, events: seq<Event>)
    requires AllShaped(|c.replicas|, events) && IntactRun(c, events)
    ensures SoundRun(c, events)
    decreases |events|
  {
    if events != [] {
      IntactRunIsSound(c, events[..|events| - 1]);
      IntactEventIsSound(c, events[..|events| - 1], events[|events| - 1]);
    }
  }

  // ---------------------------------------------------------------- runs with full stores

  /** No replica makes a short store, and whatever is acknowledged arrived whole. */
  ghost predicate FullEvent(c: Cluster, ev: Event)
    requires Shaped(|c.replicas|, ev)
  {
    && (forall i :: 0 <= i < |c.replicas| ==> StepStoresWhole(c, ev, i))
    && (ev.Ask? ==> forall i :: i in Reporters(c, ev.w) ==> ev.w.fates[i].arrived >= |ev.w.data|)
    && !ev.Cleared?
  }

  ghost predicate FullRun(c: Cluster, events: seq<Event>)
    requires AllShaped(|c.replicas|, events)
    decreases |events|
  {
    events == [] ||
    (FullRun(c, events[..|events| - 1]) && FullEvent(Run(c, events[..|events| - 1]), events[|events| - 1]))
  }

  /** Full stores are the simplest such runs, whichever writes each replica misses. */
  lemma {:induction false} FullRunIsIntact(c: Cluster, events: seq<Event>)
    requires AllShaped(|c.replicas|, events) && FullRun(c, events)
    requires forall i :: 0 <= i < |c.replicas| ==> Content(c.replicas[i]).Consistent()
    ensures IntactRun(c, events) && forall i :: 0 <= i < |c.replicas| ==> Intact(c, events, i)
    decreases |events|
  {
    if events != [] {
      FullRunIsIntact(c, events[..|events| - 1]);
    }
  }

  // ---------------------------------------------------------------- the theorems

  /** After every such run every majority of the replicas includes a holder of each committed write, committed writes do
      not overlap, and the committed size is where the last one ends. */
  lemma {:induction false} CommitsAreKept(n: nat, events: seq<Event>)
    requires AllShaped(n, events) && IntactRun(Fresh(n), events)
    ensures Inv(Run(Fresh(n), events))
  {
    IntactRunIsSound(Fresh(n), events);
    InvAfter(n, events);
  }

  /** Quorum read correctness: each byte a successful Get returns at a committed position is the byte committed there,
      however many replicas missed writes, got them late or (uncounted) stored them in part, and even if answers are
      cut short. */
  lemma {:induction false} QuorumReadIsCorrect(
      n: nat, events: seq<Event>, offset: nat, count: nat, fates: seq<ReadFate>, v: seq<byte>)
    requires AllShaped(n, events) && IntactRun(Fresh(n), events)
    requires |fates| == n && GetReturns(Run(Fresh(n), events), offset, count, fates, v)
    ensures ReadsRight(Run(Fresh(n), events), offset, v)
  {
    IntactRunIsSound(Fresh(n), events);
    SoundReadIsCorrect(n, events, offset, count, fates, v);
  }

  /** If no answer is cut short, a successful Get returns everything it was asked for below the committed size, and
      never more than it was asked for. */
  lemma {:induction false} QuorumReadIsComplete(
      n: nat, events: seq<Event>, offset: nat, count: nat, fates: seq<ReadFate>, v: seq<byte>)
    requires AllShaped(n, events) && IntactRun(Fresh(n), events)
    requires |fates| == n && GetReturns(Run(Fresh(n), events), offset, count, fates, v)
    requires var c := Run(Fresh(n), events); var length := ReadLength(c.size, offset, count);
             forall i :: 0 <= i < n ==> fates[i].NoAnswer? || Uncut(c.replicas[i], offset, length, fates[i])
    ensures var c := Run(Fresh(n), events); var length := ReadLength(c.size, offset, count);
            && |v| <= length
            && (offset < c.size ==> |v| >= if offset + length < c.size then length else c.size - offset)
  {
    IntactRunIsSound(Fresh(n), events);
    SoundReadIsComplete(n, events, offset, count, fates, v);
  }

  /** The case without faults on the nodes: writes reach any subset of the replicas and are stored whole where
      they do. */
  lemma {:induction false} FullStoresReadRight(
      n: nat, events: seq<Event>, offset: nat, count: nat, fates: seq<ReadFate>, v: seq<byte>)
    requires AllShaped(n, events) && FullRun(Fresh(n), events)
    requires |fates| == n && GetReturns(Run(Fresh(n), events), offset, count, fates, v)
    ensures ReadsRight(Run(Fresh(n), events), offset, v)
  {
    FullRunIsIntact(Fresh(n), events);
    QuorumReadIsCorrect(n, events, offset, count, fates, v);
  }
}

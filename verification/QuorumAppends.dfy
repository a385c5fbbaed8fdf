/** Cluster-level append-only: exactly when no successful Write can start below the committed size. */
module QuorumAppends {
  import opened Quorums
  import opened AppendFile
  import opened QuorumFile
  import opened QuorumEdges

  /** The replicas that have grown to the committed size, whatever their backing files hold. */
  ghost function Grown(c: Cluster): set<nat> {
    set i | 0 <= i < |c.replicas| && Content(c.replicas[i]).size >= c.size
  }

  /** Every majority meets a replica that refuses to write below the committed size; a size of at most one needs none,
      because offset zero means append. */
  ghost predicate Ahead(c: Cluster) {
    c.size <= 1 || Meeting(Grown(c), |c.replicas|)
  }

  ghost predicate AppendsNow(c: Cluster) {
    forall w :: Fits(c, w) && Succeeds(c, w) ==> WriteOffset(c, w.offset) >= c.size
  }

  lemma {:induction false} AheadAppends(c: Cluster, w: Request)
    requires Ahead(c) && Fits(c, w) && |c.replicas| > 0 && |Reporters(c, w)| >= Majority(|c.replicas|)
    ensures WriteOffset(c, w.offset) >= c.size && |w.data| > 0
  {
    var n := |c.replicas|;
    var someone := MajoritiesIntersect(Reporters(c, w), Reporters(c, w), n);
    if c.size > 1 {
      var i := MajorityMeets(Grown(c), Reporters(c, w), n);
    }
  }

  lemma {:induction false} BehindWritesLow(c: Cluster)
    requires |c.replicas| > 0 && !Ahead(c)
    ensures !AppendsNow(c)
  {
    var n := |c.replicas|;
    var short := set i | 0 <= i < n && i !in Grown(c);
    ComplementCard(Grown(c), short, n);
    var w := Plain(n, c.size - 1, [0], c.size);
    forall i | i in short ensures i in Reporters(c, w) {
      assert Payload(w.data, w.fates[i]) == w.data;
    }
    SubsetCard(short, Reporters(c, w));
    assert Fits(c, w) && Succeeds(c, w) && WriteOffset(c, w.offset) < c.size;
  }

  // ---------------------------------------------------------------- runs

  /** All of the data arrives at every replica that is counted for a committed Write, and an uncommitted Remove leaves
      enough grown replicas. How much each replica stores does not matter. */
  ghost predicate ArrivesWhole(c: Cluster, ev: Event)
    requires Shaped(|c.replicas|, ev)
  {
    match ev
    case Ask(w) => Succeeds(c, w) ==> forall i :: i in Reporters(c, w) ==> w.fates[i].arrived >= |w.data|
    case Late(_, _, _, _) => true
    case Cleared(reached) => Ahead(FailedRemove(c, reached))
  }

  ghost predicate ArrivalRun(c: Cluster, events: seq<Event>)
    requires AllShaped(|c.replicas|, events)
    decreases |events|
  {
    events == [] ||
    (ArrivalRun(c, events[..|events| - 1]) && ArrivesWhole(Run(c, events[..|events| - 1]), events[|events| - 1]))
  }

  lemma {:induction false} GrownStay(c: Cluster, replicas: seq<Replica>)
    requires Ahead(c) && |replicas| == |c.replicas|
    requires forall i :: 0 <= i < |replicas| ==> Content(replicas[i]).size >= Content(c.replicas[i]).size
    ensures Ahead(c.(replicas := replicas))
  {
    if c.size > 1 {
      MeetingGrows(Grown(c), Grown(c.(replicas := replicas)), |replicas|);
    }
  }

  lemma {:induction false} WriteGrowsReplica(r: Replica, offset: nat, data: seq<byte>, fate: WriteFate)
    ensures Content(ReplicaWrite(r, offset, data, fate)).size >= Content(r).size
  {
    if fate.Reached? {
      WriteGrows(Content(r), offset, Payload(data, fate), fate.io);
    }
  }

  lemma {:induction false} AheadWrite(c: Cluster, w: Request)
    requires Ahead(c) && Fits(c, w) && ArrivesWhole(c, Ask(w))
    ensures Ahead(WriteStep(c, w))
  {
    var c' := WriteStep(c, w);
    forall i | 0 <= i < |c.replicas| ensures Content(AfterWrite(c, w)[i]).size >= Content(c.replicas[i]).size {
      WriteGrowsReplica(c.replicas[i], WriteOffset(c, w.offset), w.data, w.fates[i]);
    }
    if Succeeds(c, w) {
      AheadAppends(c, w);
      forall i | i in Reporters(c, w) ensures i in Grown(c') {
        assert Payload(w.data, w.fates[i]) == w.data;
      }
      MajorityIsMeeting(Reporters(c, w), |c.replicas|);
      MeetingGrows(Reporters(c, w), Grown(c'), |c.replicas|);
    } else if |c.replicas| > 0 && !RollsBack(c, w) {
      GrownStay(c, AfterWrite(c, w));
    }
  }

  lemma {:induction false} AheadStep(c: Cluster, ev: Event)
    requires Ahead(c) && Shaped(|c.replicas|, ev) && ArrivesWhole(c, ev)
    ensures Ahead(Step(c, ev))
  {
    match ev
    case Ask(w) => AheadWrite(c, w);
    case Late(i, offset, data, fate) =>
      WriteGrowsReplica(c.replicas[i], offset, data, fate);
      GrownStay(c, Step(c, ev).replicas);
    case Cleared(_) =>
  }

  lemma {:induction false} AheadRun(c: Cluster, events: seq<Event>)
    requires Ahead(c) && AllShaped(|c.replicas|, events) && ArrivalRun(c, events)
    ensures Ahead(Run(c, events))
    decreases |events|
  {
    if events != [] {
      AheadRun(c, events[..|events| - 1]);
      AheadStep(Run(c, events[..|events| - 1]), events[|events| - 1]);
    }
  }

  /** From this state on, every successful Write starts at or beyond the committed size. */
  ghost predicate AlwaysAppends(c: Cluster) {
    forall events :: AllShaped(|c.replicas|, events) && ArrivalRun(c, events) ==> AppendsNow(Run(c, events))
  }

  /** The exact condition, for the next Write and for all continuations alike. */
  lemma {:induction false} AppendsIffAhead(c: Cluster)
    requires |c.replicas| > 0
    ensures AppendsNow(c) <==> Ahead(c)
    ensures AlwaysAppends(c) <==> Ahead(c)
  {
    if Ahead(c) {
      forall events | AllShaped(|c.replicas|, events) && ArrivalRun(c, events) ensures AppendsNow(Run(c, events)) {
        AheadRun(c, events);
        AheadIsAppending(Run(c, events));
      }
      AheadIsAppending(c);
    } else {
      BehindWritesLow(c);
      assert AllShaped(|c.replicas|, []) && ArrivalRun(c, []) && Run(c, []) == c;
    }
  }

  lemma {:induction false} AheadIsAppending(c: Cluster)
    requires Ahead(c)
    ensures AppendsNow(c)
  {
    forall w | Fits(c, w) && Succeeds(c, w) ensures WriteOffset(c, w.offset) >= c.size {
      AheadAppends(c, w);
    }
  }

  // ---------------------------------------------------------------- the theorem

  /** Committed writes do not overlap, and the committed size is where the last one ends. */
  lemma {:induction false} ApartRun(n: nat, events: seq<Event>)
    requires AllShaped(n, events) && ArrivalRun(Fresh(n), events)
    ensures Ahead(Run(Fresh(n), events)) && Apart(Run(Fresh(n), events))
    decreases |events|
  {
    if events != [] {
      var before, ev := events[..|events| - 1], events[|events| - 1];
      ApartRun(n, before);
      var c := Run(Fresh(n), before);
      AheadStep(c, ev);
      if ev.Ask? && Succeeds(c, ev.w) {
        AheadAppends(c, ev.w);
        ApartAppend(c, Commit(WriteOffset(c, ev.w.offset), ev.w.data));
      }
    }
  }

  /** Cluster-level append-only, for every run in which data arrives whole where it is counted, with any short stores: a
      Write that reports success wrote at or beyond the committed size, raises size and version, and every other Write
      leaves them; committed writes do not overlap; and the rollback delete only ever runs on a file without a
      committed byte. */
  lemma {:induction false} ClusterIsAppendOnly(n: nat, events: seq<Event>, w: Request)
    requires AllShaped(n, events) && ArrivalRun(Fresh(n), events) && |w.fates| == |w.cleaned| == n
    ensures var c := Run(Fresh(n), events); var c' := WriteStep(c, w); var offset := WriteOffset(c, w.offset);
            && Apart(c)
            && (Succeeds(c, w) ==>
                  offset >= c.size && c'.size == offset + |w.data| > c.size && c'.version == c.version + 1
                  && c'.commits == c.commits + [Commit(offset, w.data)])
            && (!Succeeds(c, w) ==> c'.size == c.size && c'.version == c.version && c'.commits == c.commits)
            && (RollsBack(c, w) ==> c.commits == [])
  {
    ApartRun(n, events);
    var c := Run(Fresh(n), events);
    if Succeeds(c, w) {
      AheadAppends(c, w);
    }
    if c.commits != [] {
      assert c.commits[|c.commits| - 1].End() > 0;
    }
  }

  // ---------------------------------------------------------------- a part that is acknowledged

  /** Every replica ends at or before the offset, and reports success for what arrives. */
  ghost predicate AcceptsAll(c: Cluster, w: Request)
    requires Fits(c, w)
  {
    var offset := WriteOffset(c, w.offset);
    forall i :: 0 <= i < |c.replicas| ==>
      && Content(c.replicas[i]).size <= offset
      && (w.fates[i].Reached? ==> w.fates[i].io.Io? && w.fates[i].io.counted >= |Payload(w.data, w.fates[i])|)
  }

  /** After a write that is counted a success, the file stays append-only exactly when it ends within the first byte or
      all of it arrived at replicas that every majority meets. */
  lemma {:induction false} PartialArrivalIff(c: Cluster, w: Request)
    requires Fits(c, w) && Succeeds(c, w) && AcceptsAll(c, w) && WriteOffset(c, w.offset) >= c.size && |w.data| > 0
    ensures AlwaysAppends(WriteStep(c, w)) <==>
              WriteOffset(c, w.offset) + |w.data| <= 1 || Meeting(Arrivals(w), |c.replicas|)
  {
    var offset, c' := WriteOffset(c, w.offset), WriteStep(c, w);
    forall i | 0 <= i < |c.replicas| ensures i in Grown(c') <==> i in Arrivals(w) {
      var r := ReplicaWrite(c.replicas[i], offset, w.data, w.fates[i]);
      assert c'.replicas[i] == r && c'.size == offset + |w.data|;
    }
    assert Grown(c') == Arrivals(w);
    AppendsIffAhead(c');
  }

  /** A first write of which every replica gets the same first k bytes. */
  function Part(n: nat, data: seq<byte>, k: nat): Request {
    Request(0, data, seq(n, i => Reached(k, Io(0, k, k), true)), true, seq(n, i => false))
  }

  /** For every number of replicas, all data and every part of it: a first write of which only that part arrives
      succeeds with the size of the whole, and then a write right behind the part, below the committed size, succeeds
      as well. Its bytes overlap the committed ones, and the size grows by less than was written or not at all. */
  lemma {:induction false} PartialArrivalRun(n: nat, data: seq<byte>, k: nat, more: seq<byte>)
    requires n > 0 && 0 < k < |data| && |more| > 0
    ensures var first := Part(n, data, k); var c := WriteStep(Fresh(n), first);
            var next := Plain(n, k, more, 0); var c' := WriteStep(c, next);
            && Succeeds(Fresh(n), first) && c.size == |data| && !Ahead(c)
            && Succeeds(c, next) && WriteOffset(c, k) == k < c.size
            && c'.version == c.version + 1 && c'.size == (if k + |more| > |data| then k + |more| else |data|)
            && c'.commits == [Commit(0, data), Commit(k, more)] && !Apart(c')
  {
    var first, next := Part(n, data, k), Plain(n, k, more, 0);
    var c := WriteStep(Fresh(n), first);
    forall i | 0 <= i < n ensures i in Reporters(Fresh(n), first) {
      assert |Payload(data, first.fates[i])| == k;
    }
    ComplementCard(Reporters(Fresh(n), first), {}, n);
    forall i | 0 <= i < n ensures Content(c.replicas[i]).size == k && i in Reporters(c, next) {
      assert Payload(more, next.fates[i]) == more;
    }
    ComplementCard(Reporters(c, next), {}, n);
    assert Grown(c) == {};
    var c' := WriteStep(c, next);
    assert c'.commits[0] == Commit(0, data) && c'.commits[1] == Commit(k, more);
  }
}

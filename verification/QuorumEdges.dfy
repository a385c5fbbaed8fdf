/** Exactly when quorum reads stay right after an uncommitted Remove, after an acknowledged write of which only a part
    arrived, and after a short store. */
module QuorumEdges {
  import opened Entries
  import opened Quorums
  import opened AppendFile
  import opened QuorumFile

  // ---------------------------------------------------------------- a lost byte is read as zero

  /** A write that reaches every replica, is stored completely and answered by all. */
  function Plain(n: nat, offset: nat, data: seq<byte>, gap: nat): Request {
    Request(offset, data, seq(n, i => Reached(|data|, Io(gap, |data|, |data|), true)), true, seq(n, i => false))
  }

  /** The replicas this Get hears from. */
  ghost function Asking(n: nat, who: set<nat>, k: nat): (fates: seq<ReadFate>)
    ensures |fates| == n
  {
    seq(n, i requires 0 <= i < n => if i in who then Arrived(k) else NoAnswer)
  }

  /** The replica has nothing at this position or beyond, and its size is right. */
  predicate Short(r: Replica, pos: nat) {
    Content(r).Consistent() && Content(r).size <= pos
  }

  lemma {:induction false} FillsWithZeros(r: Replica, size: nat, x: byte, pos: nat)
    requires Short(r, pos) && pos < size
    ensures var fate := Reached(1, Io(size, 1, 1), true);
            && Reported(r, size, [x], fate) && InPlace(r, size, [x], fate)
            && Answer(ReplicaWrite(r, size, [x], fate), pos, 1, Arrived(1)) == Some([0])
  {
    var fate := Reached(1, Io(size, 1, 1), true);
    assert Payload([x], fate) == [x];
    var f := Content(r);
    var g := Write(f, size, [x], fate.io).0;
    assert g.bytes == f.bytes + (Zeros(size - f.size) + [x][..1]);
    assert g.bytes[pos] == 0;
    assert Read(g, pos, 1) == g.bytes[pos..pos + 1] == [0];
  }

  /** One more append makes the short replicas answer zero at a position they have lost. */
  lemma {:induction false} AppendZeros(c: Cluster, short: set<nat>, x: byte, pos: nat)
    requires c.size > pos && Within(short, |c.replicas|) && |short| >= Majority(|c.replicas|)
    requires forall i :: i in short ==> Short(c.replicas[i], pos)
    ensures var w := Plain(|c.replicas|, 0, [x], c.size);
            && Fits(c, w) && Sound(c, Ask(w)) && WriteStep(c, w).commits == c.commits + [Commit(c.size, [x])]
            && GetReturns(WriteStep(c, w), pos, 1, Asking(|c.replicas|, short, 1), [0])
  {
    var n := |c.replicas|;
    var w := Plain(n, 0, [x], c.size);
    var c' := WriteStep(c, w);
    forall i | i in short
      ensures i in Reporters(c, w) && i in Landers(c, w)
      ensures Answer(AfterWrite(c, w)[i], pos, 1, Arrived(1)) == Some([0])
    {
      FillsWithZeros(c.replicas[i], c.size, x, pos);
    }
    SubsetCard(short, Reporters(c, w));
    MajorityIsMeeting(short, n);
    MeetingGrows(short, Landers(c, w), n);
    var voters := Voters(c', pos, 1, Asking(n, short, 1), [0]);
    assert short <= voters;
    SubsetCard(short, voters);
  }

  /** If the holders of a commit with a non-zero byte do not meet every majority, and the other replicas are short of
      that byte, some sound continuation reads it wrong. */
  lemma {:induction false} LostByteIsRead(c: Cluster, k: nat, pos: nat)
    requires k < |c.commits| && c.commits[k].offset <= pos < c.commits[k].End() && pos < c.size
    requires c.commits[k].data[pos - c.commits[k].offset] != 0
    requires forall i :: 0 <= i < |c.replicas| ==> Holding(c.replicas[i], c.commits[k]) || Short(c.replicas[i], pos)
    requires !Kept(c.replicas, c.commits[k])
    ensures !AlwaysReadsRight(c)
  {
    var n := |c.replicas|;
    var holders := Holders(c.replicas, c.commits[k]);
    var short := set i | 0 <= i < n && i !in holders;
    ComplementCard(holders, short, n);
    var w := Plain(n, 0, [1], c.size);
    AppendZeros(c, short, 1, pos);
    var c' := WriteStep(c, w);
    OneEvent(c, Ask(w));
    assert c'.commits[k] == c.commits[k];
    assert !Agrees(c'.commits, pos, 0);
    assert !ReadsRight(c', pos, [0]) by {
      assert [0][0] == 0 && pos + 0 == pos;
    }
    assert GetReturns(Run(c, [Ask(w)]), pos, 1, Asking(n, short, 1), [0]);
  }

  lemma {:induction false} OneEvent(c: Cluster, ev: Event)
    requires Shaped(|c.replicas|, ev) && Sound(c, ev)
    ensures AllShaped(|c.replicas|, [ev]) && SoundRun(c, [ev]) && Run(c, [ev]) == Step(c, ev)
  {
    assert [ev][..0] == [];
    assert Run(c, []) == c && SoundRun(c, []);
  }

  // ---------------------------------------------------------------- an uncommitted Remove

  /** The positions of the replicas that are marked. */
  ghost function Marked(reached: seq<bool>): set<nat> {
    set i | 0 <= i < |reached| && reached[i]
  }

  /** Whatever the cluster has been through: if every commit keeps holders that meet every majority, a majority of them
      in particular, reads stay right in every continuation. */
  lemma {:induction false} RemoveKeepsReads(c: Cluster, reached: seq<bool>)
    requires Inv(c) && |reached| == |c.replicas|
    requires forall i :: 0 <= i < |c.commits| ==> Kept(FailedRemove(c, reached).replicas, c.commits[i])
    ensures AlwaysReadsRight(FailedRemove(c, reached))
  {
    InvAlwaysReadsRight(FailedRemove(c, reached));
  }

  lemma {:induction false} HoldersAfterRemove(c: Cluster, reached: seq<bool>, commit: Commit)
    requires |reached| == |c.replicas| && forall i :: 0 <= i < |c.replicas| ==> Holding(c.replicas[i], commit)
    ensures Kept(FailedRemove(c, reached).replicas, commit) <==> |Marked(reached)| < Majority(|c.replicas|)
  {
    var holders := Holders(FailedRemove(c, reached).replicas, commit);
    ComplementCard(holders, Marked(reached), |c.replicas|);
  }

  ghost predicate AllHold(c: Cluster) {
    forall i, k :: 0 <= i < |c.replicas| && 0 <= k < |c.commits| ==> Holding(c.replicas[i], c.commits[k])
  }

  /** A file all of whose replicas hold every commit, with a committed byte that is not zero: after an uncommitted
      Remove all continuations read right exactly when fewer than a majority of the replicas were cleared, which is
      what the coordinator's quorum test looks at. */
  lemma {:induction false} RemoveReadsRightIff(c: Cluster, reached: seq<bool>, k: nat, pos: nat)
    requires Inv(c) && AllHold(c) && |reached| == |c.replicas|
    requires k < |c.commits| && c.commits[k].offset <= pos < c.commits[k].End()
    requires c.commits[k].data[pos - c.commits[k].offset] != 0
    ensures AlwaysReadsRight(FailedRemove(c, reached)) <==> |Marked(reached)| < Majority(|c.replicas|)
  {
    var c' := FailedRemove(c, reached);
    assert c.commits[k].End() <= c.size by {
      assert k < |c.commits| - 1 ==> c.commits[k].End() <= c.commits[|c.commits| - 1].offset;
    }
    forall i | 0 <= i < |c.commits| ensures Kept(c'.replicas, c.commits[i]) <==> Kept(c'.replicas, c.commits[k]) {
      HoldersAfterRemove(c, reached, c.commits[i]);
      HoldersAfterRemove(c, reached, c.commits[k]);
    }
    HoldersAfterRemove(c, reached, c.commits[k]);
    if Kept(c'.replicas, c.commits[k]) {
      RemoveKeepsReads(c, reached);
    } else {
      LostByteIsRead(c', k, pos);
    }
  }

  // ---------------------------------------------------------------- an acknowledged part

  /** The replicas that all of the data arrives at. */
  ghost function Arrivals(w: Request): set<nat> {
    set i | 0 <= i < |w.fates| && w.fates[i].Reached? && w.fates[i].arrived >= |w.data|
  }

  /** Every replica is consistent and ends at or before the offset, and stores all that arrives. */
  ghost predicate StoresAll(c: Cluster, w: Request)
    requires Fits(c, w)
  {
    var offset := WriteOffset(c, w.offset);
    forall i :: 0 <= i < |c.replicas| ==>
      && Short(c.replicas[i], offset)
      && (w.fates[i].Reached? ==>
            Complete(w.fates[i].io, offset - Content(c.replicas[i]).size, |Payload(w.data, w.fates[i])|))
  }

  lemma {:induction false} PartIsShort(r: Replica, offset: nat, data: seq<byte>, fate: WriteFate)
    requires Short(r, offset) && |data| > 0
    requires fate.Reached? ==> Complete(fate.io, offset - Content(r).size, |Payload(data, fate)|)
    ensures var r' := ReplicaWrite(r, offset, data, fate);
            if fate.Reached? && fate.arrived >= |data|
            then InPlace(r, offset, data, fate) && Holding(r', Commit(offset, data))
            else !InPlace(r, offset, data, fate) && Short(r', offset + |data| - 1) && !Holding(r', Commit(offset, data))
  {
    if fate.Reached? {
      var f, p := Content(r), Payload(data, fate);
      WriteKeepsConsistency(f, offset, p, fate.io);
      if fate.arrived >= |data| {
        assert p == data;
        LandsHas(f, offset, data, fate.io);
      }
    }
  }

  /** On replicas that store all that arrives, a write that is counted a success, whose last byte is not zero, is read
      right in all continuations exactly when all of it arrived at replicas that every majority meets. The coordinator
      counts a part as a success, so it may be less. */
  lemma {:induction false} AcknowledgedPartIff(c: Cluster, w: Request)
    requires Inv(c) && Fits(c, w) && Succeeds(c, w) && StoresAll(c, w)
    requires |w.data| > 0 && w.data[|w.data| - 1] != 0
    ensures AlwaysReadsRight(WriteStep(c, w)) <==> Meeting(Arrivals(w), |c.replicas|)
    ensures Sound(c, Ask(w)) <==> Meeting(Arrivals(w), |c.replicas|)
  {
    var offset, c' := WriteOffset(c, w.offset), WriteStep(c, w);
    var k, pos := |c.commits|, offset + |w.data| - 1;
    QuorumWriteAppends(c, w);
    forall i | 0 <= i < |c.replicas|
      ensures i in Landers(c, w) <==> i in Arrivals(w)
      ensures i in Holders(c'.replicas, c'.commits[k]) <==> i in Arrivals(w)
      ensures i !in Arrivals(w) ==> Short(c'.replicas[i], pos)
    {
      PartIsShort(c.replicas[i], offset, w.data, w.fates[i]);
    }
    assert Landers(c, w) == Arrivals(w);
    assert Holders(c'.replicas, c'.commits[k]) == Arrivals(w);
    if Meeting(Arrivals(w), |c.replicas|) {
      InvStep(c, Ask(w));
      InvAlwaysReadsRight(c');
    } else {
      LostByteIsRead(c', k, pos);
    }
  }

  // ---------------------------------------------------------------- a short store

  /** The replica holds a byte beyond its size, which a write at the offset will not replace. */
  predicate Stale(r: Replica, offset: nat, b: byte) {
    Content(r).size <= offset < |Content(r).bytes| && Content(r).bytes[offset] == b
  }

  ghost function StaleSet(c: Cluster, offset: nat, b: byte): set<nat> {
    set i | 0 <= i < |c.replicas| && Stale(c.replicas[i], offset, b)
  }

  lemma {:induction false} StaleAnswers(r: Replica, offset: nat, data: seq<byte>, fate: WriteFate, b: byte)
    requires Stale(r, offset, b) && |data| > 0 && fate.Reached? && fate.arrived >= |data|
    requires Complete(fate.io, offset - Content(r).size, |data|)
    ensures !InPlace(r, offset, data, fate)
            && Answer(ReplicaWrite(r, offset, data, fate), offset, 1, Arrived(1)) == Some([b])
  {
    assert Payload(data, fate) == data;
    var f := Content(r);
    var g := Write(f, offset, data, fate.io).0;
    assert g.bytes[offset] == f.bytes[offset];
    assert Read(g, offset, 1) == g.bytes[offset..offset + 1] == [b];
  }

  /** The write is stored completely and answered everywhere. */
  ghost predicate WellServed(c: Cluster, w: Request)
    requires Fits(c, w)
  {
    var offset := WriteOffset(c, w.offset);
    && w.commitOk && |w.data| > 0
    && forall i :: 0 <= i < |c.replicas| ==>
         && Content(c.replicas[i]).size <= offset && w.fates[i].Reached? && w.fates[i].answered
         && w.fates[i].arrived >= |w.data| && Complete(w.fates[i].io, offset - Content(c.replicas[i]).size, |w.data|)
  }

  lemma {:induction false} WellServedSucceeds(c: Cluster, w: Request)
    requires Fits(c, w) && |c.replicas| > 0 && WellServed(c, w)
    ensures Succeeds(c, w)
  {
    forall i | 0 <= i < |c.replicas| ensures i in Reporters(c, w) {
      assert Payload(w.data, w.fates[i]) == w.data;
    }
    ComplementCard(Reporters(c, w), {}, |c.replicas|);
  }

  /** Some replicas are consistent, the others keep the same stale byte from an earlier short store: a write that all
      of them store completely and acknowledge is read right in all continuations exactly when the stale replicas are
      fewer than a majority. */
  lemma {:induction false} StaleByteIff(c: Cluster, w: Request, b: byte)
    requires Inv(c) && Fits(c, w) && |c.replicas| > 0 && WellServed(c, w) && w.data[0] != b
    requires forall i :: 0 <= i < |c.replicas| ==>
               Content(c.replicas[i]).Consistent() || Stale(c.replicas[i], WriteOffset(c, w.offset), b)
    ensures AlwaysReadsRight(WriteStep(c, w)) <==>
              |StaleSet(c, WriteOffset(c, w.offset), b)| < Majority(|c.replicas|)
  {
    var n, offset, c' := |c.replicas|, WriteOffset(c, w.offset), WriteStep(c, w);
    var stale := StaleSet(c, offset, b);
    WellServedSucceeds(c, w);
    forall i | 0 <= i < n ensures i in Landers(c, w) <==> i !in stale {
      if i in stale {
        StaleAnswers(c.replicas[i], offset, w.data, w.fates[i], b);
      }
    }
    ComplementCard(Landers(c, w), stale, n);
    if |stale| < Majority(n) {
      InvStep(c, Ask(w));
      InvAlwaysReadsRight(c');
    } else {
      StaleMajority(c, w, b);
    }
  }

  lemma {:induction false} StaleMajority(c: Cluster, w: Request, b: byte)
    requires Fits(c, w) && WellServed(c, w) && Succeeds(c, w) && w.data[0] != b
    requires |StaleSet(c, WriteOffset(c, w.offset), b)| >= Majority(|c.replicas|)
    ensures !AlwaysReadsRight(WriteStep(c, w))
  {
    var n, offset, c' := |c.replicas|, WriteOffset(c, w.offset), WriteStep(c, w);
    var stale := StaleSet(c, offset, b);
    var voters := Voters(c', offset, 1, Asking(n, stale, 1), [b]);
    forall i | i in stale ensures i in voters {
      StaleAnswers(c.replicas[i], offset, w.data, w.fates[i], b);
    }
    SubsetCard(stale, voters);
    var k := |c.commits|;
    assert c'.commits[k] == Commit(offset, w.data);
    assert !Agrees(c'.commits, offset, b);
    assert !ReadsRight(c', offset, [b]) by {
      assert [b][0] == b && offset + 0 == offset;
    }
    assert AllShaped(n, []) && SoundRun(c', []) && Run(c', []) == c';
    assert GetReturns(Run(c', []), offset, 1, Asking(n, stale, 1), [b]);
  }

  /** How the stale byte gets there: a first write of two bytes that reaches some replicas, of which one byte is stored
      and counted, so that it fails. */
  ghost function ShortFirst(dirty: seq<bool>, b: byte, x: byte): Request {
    Request(0, [b, x],
            seq(|dirty|, i requires 0 <= i < |dirty| => if dirty[i] then Reached(2, Io(0, 1, 1), true) else Unreached),
            true, seq(|dirty|, i => false))
  }

  lemma {:induction false} ShortFirstLeaves(n: nat, dirty: seq<bool>, b: byte, x: byte)
    requires |dirty| == n > 0
    ensures WriteStep(Fresh(n), ShortFirst(dirty, b, x)) ==
              Cluster(seq(n, i requires 0 <= i < n => if dirty[i] then Some(FileData(0, [b])) else None), 0, 1, [])
  {
    var w := ShortFirst(dirty, b, x);
    forall i | 0 <= i < n
      ensures AfterWrite(Fresh(n), w)[i] == (if dirty[i] then Some(FileData(0, [b])) else None)
      ensures !Reported(Fresh(n).replicas[i], 0, w.data, w.fates[i])
    {
      if dirty[i] {
        var p := Payload([b, x], w.fates[i]);
        assert p == [b, x];
        assert [] + (Zeros(0) + p[..1]) == [b];
      }
    }
    assert Reporters(Fresh(n), w) == {};
    assert AfterWrite(Fresh(n), w)
           == seq(n, i requires 0 <= i < n => if dirty[i] then Some(FileData(0, [b])) else None);
  }

  /** For every number of replicas and every choice of those with the short store: the run that follows it with a write
      of one different byte, stored and acknowledged everywhere, reads right in all continuations exactly when the
      short store hit fewer than a majority. */
  lemma {:induction false} ShortStoreRun(n: nat, dirty: seq<bool>, b: byte, x: byte, y: byte)
    requires |dirty| == n > 0 && b != y
    ensures AlwaysReadsRight(WriteStep(WriteStep(Fresh(n), ShortFirst(dirty, b, x)), Plain(n, 0, [y], 0)))
            <==> |Marked(dirty)| < Majority(n)
  {
    ShortFirstLeaves(n, dirty, b, x);
    var c := WriteStep(Fresh(n), ShortFirst(dirty, b, x));
    var w := Plain(n, 0, [y], 0);
    assert StaleSet(c, 0, b) == Marked(dirty);
    StaleByteIff(c, w, b);
  }
}

/** One file replicated over storage nodes by one coordinator: quorum writes with a metadata commit, the rollback of a
    first write, and quorum reads. Replicas may miss writes, get them late or in part, store less than they report,
    keep failed writes and answer short. */
module QuorumFile {
  import opened Entries
  import opened Quorums
  import opened AppendFile

  /** A replica of the file on one storage node; `None` until its first write creates it. */
  type Replica = Option<FileData>

  /** What happens to a write request on its way to one replica: it does not get there (or the slot holds no node), or
      the first `arrived` bytes of its data are written as `io` says, and the answer is lost or gets back. */
  datatype WriteFate = Unreached | Reached(arrived: nat, io: Io, answered: bool)

  /** A read request is refused or lost, or its answer arrives, possibly cut after k bytes. */
  datatype ReadFate = NoAnswer | Arrived(k: nat)

  datatype Commit = Commit(offset: nat, data: seq<byte>)
  {
    function End(): nat {
      offset + |data|
    }
  }

  /** `size` and `version` are the metadata entry's; `commits` is the history of committed writes. */
  datatype Cluster = Cluster(replicas: seq<Replica>, size: nat, version: nat, commits: seq<Commit>)

  /** One request to `Write` with everything the environment decides. */
  datatype Request = Request(
    offset: nat, data: seq<byte>, fates: seq<WriteFate>, commitOk: bool, cleaned: seq<bool>)

  ghost predicate Fits(c: Cluster, w: Request) {
    |w.fates| == |w.cleaned| == |c.replicas|
  }

  function Payload(data: seq<byte>, fate: WriteFate): seq<byte>
    requires fate.Reached?
  {
    data[..Min(fate.arrived, |data|)]
  }

  function Content(r: Replica): FileData {
    if r.Some? then r.value else EMPTY
  }

  function ReplicaWrite(r: Replica, offset: nat, data: seq<byte>, fate: WriteFate): Replica {
    if fate.Unreached? then r else Some(Write(Content(r), offset, Payload(data, fate), fate.io).0)
  }

  /** The adapter answers OK for a write that reports at least one byte, and the coordinator does not compare the number
      of bytes with what it sent. */
  predicate Reported(r: Replica, offset: nat, data: seq<byte>, fate: WriteFate) {
    && fate.Reached? && fate.answered && |Payload(data, fate)| > 0
    && Write(Content(r), offset, Payload(data, fate), fate.io).1.Written?
  }

  /** Offset zero on a non-empty file means append. */
  function WriteOffset(c: Cluster, offset: nat): nat {
    if offset == 0 && c.size > 0 then c.size else offset
  }

  ghost function AfterWrite(c: Cluster, w: Request): seq<Replica>
    requires Fits(c, w)
  {
    seq(|c.replicas|, i requires 0 <= i < |c.replicas| =>
      ReplicaWrite(c.replicas[i], WriteOffset(c, w.offset), w.data, w.fates[i]))
  }

  ghost function Reporters(c: Cluster, w: Request): set<nat>
    requires Fits(c, w)
  {
    set i | 0 <= i < |c.replicas| && Reported(c.replicas[i], WriteOffset(c, w.offset), w.data, w.fates[i])
  }

  ghost predicate Succeeds(c: Cluster, w: Request)
    requires Fits(c, w)
  {
    |c.replicas| > 0 && |Reporters(c, w)| >= Majority(|c.replicas|) && w.commitOk
  }

  /** The rollback runs after a failed commit of a write at offset zero of a file without committed bytes. */
  ghost predicate RollsBack(c: Cluster, w: Request)
    requires Fits(c, w)
  {
    && |c.replicas| > 0 && |Reporters(c, w)| >= Majority(|c.replicas|) && !w.commitOk
    && c.size == 0 && WriteOffset(c, w.offset) == 0
  }

  ghost function WriteStep(c: Cluster, w: Request): Cluster
    requires Fits(c, w)
  {
    if |c.replicas| == 0 then c
    else
      var replicas := AfterWrite(c, w);
      var offset := WriteOffset(c, w.offset);
      if Succeeds(c, w) then
        Cluster(replicas, if offset + |w.data| > c.size then offset + |w.data| else c.size, c.version + 1,
                c.commits + [Commit(offset, w.data)])
      else if RollsBack(c, w) then
        c.(replicas := seq(|replicas|, i requires 0 <= i < |replicas| => if w.cleaned[i] then None else replicas[i]))
      else c.(replicas := replicas)
  }

  /** A Remove whose deletes reach some replicas but which is not committed leaves the entry active. A delete that is
      executed late, after the request that sent it, is the same for one replica. */
  function FailedRemove(c: Cluster, reached: seq<bool>): Cluster
    requires |reached| == |c.replicas|
  {
    c.(replicas := seq(|c.replicas|, i requires 0 <= i < |c.replicas| => if reached[i] then None else c.replicas[i]))
  }

  /** A write that a replica executes after its request was given up. */
  function LateWrite(c: Cluster, i: nat, offset: nat, data: seq<byte>, fate: WriteFate): Cluster
    requires i < |c.replicas|
  {
    c.(replicas := c.replicas[i := ReplicaWrite(c.replicas[i], offset, data, fate)])
  }

  datatype Event =
    | Ask(w: Request)
    | Late(i: nat, offset: nat, data: seq<byte>, fate: WriteFate)
    | Cleared(reached: seq<bool>)

  predicate Shaped(n: nat, ev: Event) {
    match ev
    case Ask(w) => |w.fates| == |w.cleaned| == n
    case Late(i, _, _, _) => i < n
    case Cleared(reached) => |reached| == n
  }

  ghost function Step(c: Cluster, ev: Event): (c': Cluster)
    requires Shaped(|c.replicas|, ev)
    ensures |c'.replicas| == |c.replicas|
  {
    match ev
    case Ask(w) => WriteStep(c, w)
    case Late(i, offset, data, fate) => LateWrite(c, i, offset, data, fate)
    case Cleared(reached) => FailedRemove(c, reached)
  }

  // ---------------------------------------------------------------- the invariant

  /** The replica has the committed bytes where they were committed. */
  predicate Holding(r: Replica, commit: Commit) {
    r.Some? && HasAt(r.value, commit.offset, commit.data)
  }

  ghost function Holders(replicas: seq<Replica>, commit: Commit): set<nat> {
    set i | 0 <= i < |replicas| && Holding(replicas[i], commit)
  }

  /** Every majority of the replicas includes one that holds the commit. */
  ghost predicate Kept(replicas: seq<Replica>, commit: Commit) {
    Meeting(Holders(replicas, commit), |replicas|)
  }

  /** Committed writes are not empty and lie one behind the other, and the committed size is where the last one ends. */
  ghost predicate Apart(c: Cluster) {
    && (forall i :: 0 <= i < |c.commits| ==> |c.commits[i].data| > 0)
    && (forall i, j :: 0 <= i < j < |c.commits| ==> c.commits[i].End() <= c.commits[j].offset)
    && c.size == (if c.commits == [] then 0 else c.commits[|c.commits| - 1].End())
  }

  lemma {:induction false} ApartAppend(c: Cluster, commit: Commit)
    requires Apart(c) && commit.offset >= c.size && |commit.data| > 0
    ensures Apart(c.(size := commit.End(), commits := c.commits + [commit]))
  {
    var commits := c.commits + [commit];
    forall i, j | 0 <= i < j < |commits| ensures commits[i].End() <= commits[j].offset {
      if j == |c.commits| && i < j - 1 {
        assert c.commits[i].End() <= c.commits[j - 1].offset;
      }
    }
  }

  ghost predicate Inv(c: Cluster) {
    Apart(c) && forall i :: 0 <= i < |c.commits| ==> Kept(c.replicas, c.commits[i])
  }

  /** The replica has all of the data at its offset, whether its answer gets back or not: all of it arrived, the write
      reports success, all of it is stored, and the content before it ends there. */
  predicate InPlace(r: Replica, offset: nat, data: seq<byte>, fate: WriteFate) {
    && fate.Reached? && fate.arrived >= |data|
    && Lands(Content(r), offset, |data|, fate.io) && fate.io.counted >= |data|
  }

  ghost function Landers(c: Cluster, w: Request): set<nat>
    requires Fits(c, w)
  {
    set i | 0 <= i < |c.replicas| && InPlace(c.replicas[i], WriteOffset(c, w.offset), w.data, w.fates[i])
  }

  /** What the environment must grant: a committed write is in place on a set of replicas that every majority meets, and
      an uncommitted Remove leaves such a set of holders for every commit. */
  ghost predicate Sound(c: Cluster, ev: Event)
    requires Shaped(|c.replicas|, ev)
  {
    match ev
    case Ask(w) => Succeeds(c, w) ==> Meeting(Landers(c, w), |c.replicas|)
    case Late(_, _, _, _) => true
    case Cleared(reached) =>
      forall i :: 0 <= i < |c.commits| ==> Kept(FailedRemove(c, reached).replicas, c.commits[i])
  }

  /** If all counted replicas were consistent, got all of the data and stored all of it, the write is sound. */
  lemma {:induction false} CompleteIsSound(c: Cluster, w: Request)
    requires Fits(c, w)
    requires forall i :: i in Reporters(c, w) ==>
               var offset := WriteOffset(c, w.offset); var f := Content(c.replicas[i]);
               w.fates[i].arrived >= |w.data| && f.Consistent() && offset >= f.size
               && Complete(w.fates[i].io, offset - f.size, |w.data|)
    ensures Sound(c, Ask(w))
  {
    if Succeeds(c, w) {
      forall i | i in Reporters(c, w) ensures i in Landers(c, w) {
      }
      MajorityIsMeeting(Reporters(c, w), |c.replicas|);
      MeetingGrows(Reporters(c, w), Landers(c, w), |c.replicas|);
    }
  }

  /** A replica only ever grows, so what it holds it keeps, whatever part of the write is stored. */
  lemma {:induction false} HoldingStays(r: Replica, offset: nat, data: seq<byte>, fate: WriteFate, commit: Commit)
    requires Holding(r, commit)
    ensures Holding(ReplicaWrite(r, offset, data, fate), commit)
  {
    if fate.Reached? {
      var f, g := r.value, ReplicaWrite(r, offset, data, fate).value;
      WriteGrows(f, offset, Payload(data, fate), fate.io);
      assert g.bytes[commit.offset..commit.End()] == f.bytes[commit.offset..commit.End()];
    }
  }

  lemma {:induction false} KeptByGrowth(before: seq<Replica>, after: seq<Replica>, commit: Commit)
    requires |before| == |after| && Kept(before, commit)
    requires forall i :: 0 <= i < |before| && Holding(before[i], commit) ==> Holding(after[i], commit)
    ensures Kept(after, commit)
  {
    MeetingGrows(Holders(before, commit), Holders(after, commit), |before|);
  }

  lemma {:induction false} WritesKeep(c: Cluster, w: Request, commit: Commit)
    requires Fits(c, w) && Kept(c.replicas, commit)
    ensures Kept(AfterWrite(c, w), commit)
  {
    forall i | 0 <= i < |c.replicas| && Holding(c.replicas[i], commit) ensures Holding(AfterWrite(c, w)[i], commit) {
      HoldingStays(c.replicas[i], WriteOffset(c, w.offset), w.data, w.fates[i], commit);
    }
    KeptByGrowth(c.replicas, AfterWrite(c, w), commit);
  }

  lemma {:induction false} LandedIsKept(c: Cluster, w: Request)
    requires Fits(c, w) && Meeting(Landers(c, w), |c.replicas|)
    ensures Kept(AfterWrite(c, w), Commit(WriteOffset(c, w.offset), w.data))
  {
    var offset := WriteOffset(c, w.offset);
    forall i | i in Landers(c, w) ensures i in Holders(AfterWrite(c, w), Commit(offset, w.data)) {
      assert Payload(w.data, w.fates[i]) == w.data;
      LandsHas(Content(c.replicas[i]), offset, w.data, w.fates[i].io);
    }
    MeetingGrows(Landers(c, w), Holders(AfterWrite(c, w), Commit(offset, w.data)), |c.replicas|);
  }

  /** A quorum of reported replica writes lies at or beyond the committed size, because one of those replicas holds the
      last committed bytes and would have refused a lower offset. */
  lemma {:induction false} QuorumWriteAppends(c: Cluster, w: Request)
    requires Fits(c, w) && Inv(c) && |c.replicas| > 0 && |Reporters(c, w)| >= Majority(|c.replicas|)
    ensures WriteOffset(c, w.offset) >= c.size && |w.data| > 0
  {
    var n := |c.replicas|;
    var someone := MajoritiesIntersect(Reporters(c, w), Reporters(c, w), n);
    if c.commits != [] {
      var i := MajorityMeets(Holders(c.replicas, c.commits[|c.commits| - 1]), Reporters(c, w), n);
    }
  }

  lemma {:induction false} InvCommit(c: Cluster, w: Request)
    requires Fits(c, w) && Inv(c) && Succeeds(c, w) && Sound(c, Ask(w))
    ensures Inv(WriteStep(c, w))
  {
    var c' := WriteStep(c, w);
    QuorumWriteAppends(c, w);
    LandedIsKept(c, w);
    ApartAppend(c, Commit(WriteOffset(c, w.offset), w.data));
    forall i | 0 <= i < |c'.commits| ensures Kept(c'.replicas, c'.commits[i]) {
      if i < |c.commits| {
        WritesKeep(c, w, c.commits[i]);
      }
    }
  }

  lemma {:induction false} InvFailure(c: Cluster, w: Request)
    requires Fits(c, w) && Inv(c) && !Succeeds(c, w)
    ensures Inv(WriteStep(c, w))
  {
    var c' := WriteStep(c, w);
    if |c.replicas| > 0 && c.commits != [] {
      assert c.commits[|c.commits| - 1].End() > 0;
      forall i | 0 <= i < |c.commits| ensures Kept(c'.replicas, c.commits[i]) {
        WritesKeep(c, w, c.commits[i]);
      }
    }
  }

  lemma {:induction false} InvLate(c: Cluster, i: nat, offset: nat, data: seq<byte>, fate: WriteFate)
    requires Inv(c) && i < |c.replicas|
    ensures Inv(LateWrite(c, i, offset, data, fate))
  {
    var c' := LateWrite(c, i, offset, data, fate);
    forall k | 0 <= k < |c.commits| ensures Kept(c'.replicas, c.commits[k]) {
      if Holding(c.replicas[i], c.commits[k]) {
        HoldingStays(c.replicas[i], offset, data, fate, c.commits[k]);
      }
      KeptByGrowth(c.replicas, c'.replicas, c.commits[k]);
    }
  }

  lemma {:induction false} InvStep(c: Cluster, ev: Event)
    requires Inv(c) && Shaped(|c.replicas|, ev) && Sound(c, ev)
    ensures Inv(Step(c, ev))
  {
    match ev
    case Ask(w) =>
      if Succeeds(c, w) {
        InvCommit(c, w);
      } else {
        InvFailure(c, w);
      }
    case Late(i, offset, data, fate) => InvLate(c, i, offset, data, fate);
    case Cleared(reached) =>
  }

  // ---------------------------------------------------------------- runs

  function Fresh(n: nat): Cluster {
    Cluster(seq(n, i => None), 0, 1, [])
  }

  ghost predicate AllShaped(n: nat, events: seq<Event>) {
    forall i :: 0 <= i < |events| ==> Shaped(n, events[i])
  }

  /** The state after a sequence of events. */
  ghost function Run(c: Cluster, events: seq<Event>): (c': Cluster)
    requires AllShaped(|c.replicas|, events)
    ensures |c'.replicas| == |c.replicas|
    decreases |events|
  {
    if events == [] then c else Step(Run(c, events[..|events| - 1]), events[|events| - 1])
  }

  ghost predicate SoundRun(c: Cluster, events: seq<Event>)
    requires AllShaped(|c.replicas|, events)
    decreases |events|
  {
    events == [] ||
    (SoundRun(c, events[..|events| - 1]) && Sound(Run(c, events[..|events| - 1]), events[|events| - 1]))
  }

  lemma {:induction false} InvRun(c: Cluster, events: seq<Event>)
    requires Inv(c) && AllShaped(|c.replicas|, events) && SoundRun(c, events)
    ensures Inv(Run(c, events))
    decreases |events|
  {
    if events != [] {
      InvRun(c, events[..|events| - 1]);
      InvStep(Run(c, events[..|events| - 1]), events[|events| - 1]);
    }
  }

  /** After every sound run every majority of the replicas includes a holder of each committed write, committed writes
      do not overlap, and the committed size is where the last one ends. */
  lemma {:induction false} InvAfter(n: nat, events: seq<Event>)
    requires AllShaped(n, events) && SoundRun(Fresh(n), events)
    ensures Inv(Run(Fresh(n), events))
  {
    InvRun(Fresh(n), events);
  }

  // ---------------------------------------------------------------- reads

  /** A requested size of zero stands for the rest of the committed file. */
  function ReadLength(size: nat, offset: nat, count: nat): nat {
    if count != 0 then count else if offset < size then size - offset else 0
  }

  /** A node without the file sends nothing, which the coordinator takes for an empty answer. */
  function Answer(r: Replica, offset: nat, length: nat, fate: ReadFate): Option<seq<byte>> {
    if fate.NoAnswer? then None
    else
      var full := if r.None? || length == 0 then [] else Read(r.value, offset, length);
      Some(if fate.k < |full| then full[..fate.k] else full)
  }

  ghost predicate Uncut(r: Replica, offset: nat, length: nat, fate: ReadFate) {
    Answer(r, offset, length, fate) == Answer(r, offset, length, Arrived(length))
  }

  ghost function Voters(c: Cluster, offset: nat, length: nat, fates: seq<ReadFate>, value: seq<byte>): set<nat>
    requires |fates| == |c.replicas|
  {
    set i | 0 <= i < |c.replicas| && Answer(c.replicas[i], offset, length, fates[i]) == Some(value)
  }

  /** `Get` returns a value that a majority of the replicas answered, if there is one (there is at most one). */
  ghost predicate GetReturns(c: Cluster, offset: nat, count: nat, fates: seq<ReadFate>, value: seq<byte>)
    requires |fates| == |c.replicas|
  {
    |c.replicas| > 0 && |Voters(c, offset, ReadLength(c.size, offset, count), fates, value)| >= Majority(|c.replicas|)
  }

  lemma {:induction false} GetIsUnique(
      c: Cluster, offset: nat, count: nat, fates: seq<ReadFate>, v: seq<byte>, w: seq<byte>)
    requires |fates| == |c.replicas|
    requires GetReturns(c, offset, count, fates, v) && GetReturns(c, offset, count, fates, w)
    ensures v == w
  {
    var length := ReadLength(c.size, offset, count);
    var i := MajoritiesIntersect(
      Voters(c, offset, length, fates, v), Voters(c, offset, length, fates, w), |c.replicas|);
  }

  /** What one replica's answer says about a committed byte that this replica holds. */
  lemma {:induction false} AnswerHasByte(
      r: Replica, offset: nat, length: nat, fate: ReadFate, v: seq<byte>, commit: Commit, pos: nat)
    requires Holding(r, commit) && Answer(r, offset, length, fate) == Some(v)
    requires commit.offset <= pos < commit.End() && offset <= pos < offset + |v|
    ensures v[pos - offset] == commit.data[pos - commit.offset]
  {
    assert commit.data[pos - commit.offset] == r.value.bytes[pos];
    AnswerIsSlice(r, offset, length, fate, v);
  }

  lemma {:induction false} AnswerIsSlice(r: Replica, offset: nat, length: nat, fate: ReadFate, v: seq<byte>)
    requires Answer(r, offset, length, fate) == Some(v) && v != []
    ensures r.Some? && offset + |v| <= |r.value.bytes| && v == r.value.bytes[offset..offset + |v|]
  {
  }

  /** A majority of equal answers includes a replica that holds the write. */
  lemma {:induction false} HoldingVoter(
      c: Cluster, offset: nat, length: nat, fates: seq<ReadFate>, v: seq<byte>, commit: Commit) returns (i: nat)
    requires |fates| == |c.replicas| && |Voters(c, offset, length, fates, v)| >= Majority(|c.replicas|)
    requires Kept(c.replicas, commit)
    ensures i < |c.replicas| && Answer(c.replicas[i], offset, length, fates[i]) == Some(v)
    ensures Holding(c.replicas[i], commit)
  {
    i := MajorityMeets(Holders(c.replicas, commit), Voters(c, offset, length, fates, v), |c.replicas|);
  }

  lemma {:induction false} ReadByte(
      c: Cluster, offset: nat, length: nat, fates: seq<ReadFate>, v: seq<byte>, commit: Commit, pos: nat)
    requires |fates| == |c.replicas| && |Voters(c, offset, length, fates, v)| >= Majority(|c.replicas|)
    requires Kept(c.replicas, commit) && commit.offset <= pos < commit.End() && offset <= pos < offset + |v|
    ensures commit.data[pos - commit.offset] == v[pos - offset]
  {
    var i := HoldingVoter(c, offset, length, fates, v, commit);
    AnswerHasByte(c.replicas[i], offset, length, fates[i], v, commit, pos);
  }

  /** A byte at a position agrees with every committed write that covers the position (there is at most one). */
  ghost predicate Agrees(commits: seq<Commit>, pos: nat, b: byte) {
    forall k :: 0 <= k < |commits| && commits[k].offset <= pos < commits[k].End() ==>
      commits[k].data[pos - commits[k].offset] == b
  }

  /** Every byte of an answer agrees with what was committed. */
  ghost predicate ReadsRight(c: Cluster, offset: nat, v: seq<byte>) {
    forall j :: 0 <= j < |v| ==> Agrees(c.commits, offset + j, v[j])
  }

  lemma {:induction false} MajorityIsCorrect(
      c: Cluster, offset: nat, length: nat, fates: seq<ReadFate>, v: seq<byte>, j: nat)
    requires Inv(c) && |fates| == |c.replicas| && |Voters(c, offset, length, fates, v)| >= Majority(|c.replicas|)
    requires j < |v|
    ensures Agrees(c.commits, offset + j, v[j])
  {
    var pos := offset + j;
    assert v[j] == v[pos - offset];
    forall k | 0 <= k < |c.commits| && c.commits[k].offset <= pos < c.commits[k].End()
      ensures c.commits[k].data[pos - c.commits[k].offset] == v[pos - offset]
    {
      ReadByte(c, offset, length, fates, v, c.commits[k], pos);
    }
  }

  lemma {:induction false} InvReadsRight(c: Cluster, offset: nat, count: nat, fates: seq<ReadFate>, v: seq<byte>)
    requires Inv(c) && |fates| == |c.replicas| && GetReturns(c, offset, count, fates, v)
    ensures ReadsRight(c, offset, v)
  {
    forall j | 0 <= j < |v| ensures Agrees(c.commits, offset + j, v[j]) {
      MajorityIsCorrect(c, offset, ReadLength(c.size, offset, count), fates, v, j);
    }
  }

  /** Quorum read correctness for every sound run: each byte a successful Get returns at a committed position is the
      byte committed there, however many replicas missed writes, got them late or stored them in part, and even if
      answers are cut short. */
  lemma {:induction false} SoundReadIsCorrect(
      n: nat, events: seq<Event>, offset: nat, count: nat, fates: seq<ReadFate>, v: seq<byte>)
    requires AllShaped(n, events) && SoundRun(Fresh(n), events)
    requires |fates| == n && GetReturns(Run(Fresh(n), events), offset, count, fates, v)
    ensures ReadsRight(Run(Fresh(n), events), offset, v)
  {
    InvAfter(n, events);
    InvReadsRight(Run(Fresh(n), events), offset, count, fates, v);
  }

  /** After this state every Get, whatever happens in between, returns committed bytes at committed positions. */
  ghost predicate AlwaysReadsRight(c: Cluster) {
    forall events, offset: nat, count: nat, fates, v ::
      AllShaped(|c.replicas|, events) && SoundRun(c, events) && |fates| == |c.replicas|
      && GetReturns(Run(c, events), offset, count, fates, v)
      ==> ReadsRight(Run(c, events), offset, v)
  }

  lemma {:induction false} InvAlwaysReadsRight(c: Cluster)
    requires Inv(c)
    ensures AlwaysReadsRight(c)
  {
    forall events, offset: nat, count: nat, fates, v |
      AllShaped(|c.replicas|, events) && SoundRun(c, events) && |fates| == |c.replicas|
      && GetReturns(Run(c, events), offset, count, fates, v)
      ensures ReadsRight(Run(c, events), offset, v)
    {
      InvRun(c, events);
      InvReadsRight(Run(c, events), offset, count, fates, v);
    }
  }

  lemma {:induction false} LongAnswer(
      r: Replica, offset: nat, length: nat, fate: ReadFate, v: seq<byte>, commit: Commit)
    requires Holding(r, commit) && Answer(r, offset, length, fate) == Some(v) && Uncut(r, offset, length, fate)
    requires offset < commit.End()
    ensures |v| >= if offset + length < commit.End() then length else commit.End() - offset
  {
  }

  lemma {:induction false} ShortAnswer(r: Replica, offset: nat, length: nat, fate: ReadFate, v: seq<byte>)
    requires Answer(r, offset, length, fate) == Some(v)
    ensures |v| <= length
  {
  }

  lemma {:induction false} MajorityIsComplete(
      c: Cluster, offset: nat, count: nat, fates: seq<ReadFate>, v: seq<byte>)
    requires Inv(c) && |fates| == |c.replicas| && GetReturns(c, offset, count, fates, v)
    requires forall i :: 0 <= i < |fates| ==>
               fates[i].NoAnswer? || Uncut(c.replicas[i], offset, ReadLength(c.size, offset, count), fates[i])
    ensures var length := ReadLength(c.size, offset, count);
            && |v| <= length
            && (offset < c.size ==> |v| >= if offset + length < c.size then length else c.size - offset)
  {
    var length := ReadLength(c.size, offset, count);
    var voters := Voters(c, offset, length, fates, v);
    var someone := MajoritiesIntersect(voters, voters, |fates|);
    ShortAnswer(c.replicas[someone], offset, length, fates[someone], v);
    if offset < c.size {
      var i := HoldingVoter(c, offset, length, fates, v, c.commits[|c.commits| - 1]);
      LongAnswer(c.replicas[i], offset, length, fates[i], v, c.commits[|c.commits| - 1]);
    }
  }

  /** If no answer is cut short, a successful Get after a sound run returns everything it was asked for below the
      committed size, and never more than it was asked for. */
  lemma {:induction false} SoundReadIsComplete(
      n: nat, events: seq<Event>, offset: nat, count: nat, fates: seq<ReadFate>, v: seq<byte>)
    requires AllShaped(n, events) && SoundRun(Fresh(n), events)
    requires |fates| == n && GetReturns(Run(Fresh(n), events), offset, count, fates, v)
    requires var c := Run(Fresh(n), events); var length := ReadLength(c.size, offset, count);
             forall i :: 0 <= i < n ==> fates[i].NoAnswer? || Uncut(c.replicas[i], offset, length, fates[i])
    ensures var c := Run(Fresh(n), events); var length := ReadLength(c.size, offset, count);
            && |v| <= length
            && (offset < c.size ==> |v| >= if offset + length < c.size then length else c.size - offset)
  {
    InvAfter(n, events);
    MajorityIsComplete(Run(Fresh(n), events), offset, count, fates, v);
  }
}

/** The coordinator's loops over the replicas of one file. Every method is proved to be the step, or to return the
    answer, of the value model. */
module QuorumMachine {
  import opened Entries
  import opened Quorums
  import opened AppendFile
  import opened QuorumFile

  /** The coordinator's view of the file, updated in place by `Write`. */
  class ReplicatedFile {
    const replicas: array<Replica>
    var size: nat
    var version: nat
    ghost var commits: seq<Commit>

    ghost function View(): Cluster
      reads this, replicas
    {
      Cluster(replicas[..], size, version, commits)
    }

    constructor (n: nat)
      ensures View() == Fresh(n) && fresh(replicas)
    {
      replicas := new Replica[n](i => None);
      size, version, commits := 0, 1, [];
      new;
      assert replicas[..] == seq(n, i => None);
    }

    /** Sends the write to every replica in turn and counts the answers. */
    method WriteReplicas(ghost w: Request, offset: nat, data: seq<byte>, fates: seq<WriteFate>) returns (successes: nat)
      requires Fits(View(), w) && w.data == data && w.fates == fates && offset == WriteOffset(View(), w.offset)
      modifies replicas
      ensures replicas[..] == AfterWrite(old(View()), w) && successes == |Reporters(old(View()), w)|
    {
      successes := 0;
      ghost var c := View();
      var i := 0;
      while i < replicas.Length
        invariant 0 <= i <= replicas.Length
        invariant forall j :: 0 <= j < i ==> replicas[j] == ReplicaWrite(c.replicas[j], offset, data, fates[j])
        invariant forall j :: i <= j < replicas.Length ==> replicas[j] == c.replicas[j]
        invariant successes == |ReportersUpTo(c, w, i)|
      {
        ReportersNext(c, w, i);
        if Reported(replicas[i], offset, data, fates[i]) {
          successes := successes + 1;
        }
        replicas[i] := ReplicaWrite(replicas[i], offset, data, fates[i]);
        i := i + 1;
      }
      assert ReportersUpTo(c, w, i) == Reporters(c, w);
    }

    method Cleanup(cleaned: seq<bool>)
      requires |cleaned| == replicas.Length
      modifies replicas
      ensures forall j :: 0 <= j < replicas.Length ==> replicas[j] == if cleaned[j] then None else old(replicas[j])
    {
      for i := 0 to replicas.Length
        invariant forall j :: 0 <= j < i ==> replicas[j] == if cleaned[j] then None else old(replicas[j])
        invariant forall j :: i <= j < replicas.Length ==> replicas[j] == old(replicas[j])
      {
        if cleaned[i] {
          replicas[i] := None;
        }
      }
    }

    method WriteFile(w: Request) returns (ok: bool)
      requires Fits(View(), w)
      modifies this, replicas
      ensures View() == WriteStep(old(View()), w)
      ensures ok <==> Succeeds(old(View()), w)
    {
      if replicas.Length == 0 {
        return false;
      }
      var original := size;
      var offset := w.offset;
      if offset == 0 && size > 0 {
        offset := size;
      }
      var successes := WriteReplicas(w, offset, w.data, w.fates);
      if successes < replicas.Length / 2 + 1 {
        return false;
      }
      if !w.commitOk {
        if original == 0 && offset == 0 {
          Cleanup(w.cleaned);
          assert replicas[..] == WriteStep(old(View()), w).replicas;
        }
        return false;
      }
      if offset + |w.data| > size {
        size := offset + |w.data|;
      }
      version := version + 1;
      commits := commits + [Commit(offset, w.data)];
      ok := true;
    }

    /** Asks every replica (a read changes none of them) and counts the answers. */
    method Get(offset: nat, count: nat, fates: seq<ReadFate>) returns (result: Option<seq<byte>>)
      requires |fates| == replicas.Length
      ensures result.Some? ==> GetReturns(View(), offset, count, fates, result.value)
      ensures result.None? ==> forall v :: !GetReturns(View(), offset, count, fates, v)
    {
      var length := ReadLength(size, offset, count);
      var answers: seq<Option<seq<byte>>> := [];
      for i := 0 to replicas.Length
        invariant |answers| == i
        invariant forall j :: 0 <= j < i ==> answers[j] == Answer(replicas[j], offset, length, fates[j])
      {
        answers := answers + [Answer(replicas[i], offset, length, fates[i])];
      }
      result := CountAnswers(answers);
      forall v ensures VotesFor(answers, v, |answers|) == Voters(View(), offset, length, fates, v) {
      }
    }
  }

  /** The replicas among the first n that gave this answer. */
  ghost function VotesFor(answers: seq<Option<seq<byte>>>, v: seq<byte>, n: nat): set<nat>
    requires n <= |answers|
  {
    set i | 0 <= i < n && answers[i] == Some(v)
  }

  lemma {:induction false} VotesNext(answers: seq<Option<seq<byte>>>, v: seq<byte>, n: nat)
    requires n < |answers|
    ensures |VotesFor(answers, v, n + 1)| == |VotesFor(answers, v, n)| + if answers[n] == Some(v) then 1 else 0
  {
    var more := if answers[n] == Some(v) then {n} else {};
    assert VotesFor(answers, v, n + 1) == VotesFor(answers, v, n) + more;
  }

  lemma {:induction false} VotesGrow(answers: seq<Option<seq<byte>>>, v: seq<byte>, n: nat)
    requires n <= |answers|
    ensures |VotesFor(answers, v, n)| <= |VotesFor(answers, v, |answers|)|
  {
    SubsetCard(VotesFor(answers, v, n), VotesFor(answers, v, |answers|));
  }

  function Tally(counts: map<seq<byte>, nat>, v: seq<byte>): nat {
    if v in counts then counts[v] else 0
  }

  /** The counters are the numbers of equal answers so far. */
  ghost predicate Tallied(answers: seq<Option<seq<byte>>>, counts: map<seq<byte>, nat>, n: nat)
    requires n <= |answers|
  {
    forall v :: |VotesFor(answers, v, n)| == Tally(counts, v)
  }

  /** Counts equal answers until one of them has a majority. */
  method CountAnswers(answers: seq<Option<seq<byte>>>) returns (result: Option<seq<byte>>)
    ensures result.Some? ==> answers != [] && |VotesFor(answers, result.value, |answers|)| >= Majority(|answers|)
    ensures result.None? ==> forall v :: |VotesFor(answers, v, |answers|)| < Majority(|answers|)
  {
    var counts: map<seq<byte>, nat> := map[];
    var i := 0;
    while i < |answers|
      invariant i <= |answers| && Tallied(answers, counts, i)
      invariant forall v :: v in counts ==> counts[v] < Majority(|answers|)
    {
      forall v ensures |VotesFor(answers, v, i + 1)| ==
                       |VotesFor(answers, v, i)| + if answers[i] == Some(v) then 1 else 0
      {
        VotesNext(answers, v, i);
      }
      if answers[i].Some? {
        var v := answers[i].value;
        counts := counts[v := Tally(counts, v) + 1];
        if counts[v] >= |answers| / 2 + 1 {
          VotesGrow(answers, v, i + 1);
          return Some(v);
        }
      }
      i := i + 1;
    }
    return None;
  }

  ghost function ReportersUpTo(c: Cluster, w: Request, n: nat): set<nat>
    requires Fits(c, w) && n <= |c.replicas|
  {
    set i | 0 <= i < n && Reported(c.replicas[i], WriteOffset(c, w.offset), w.data, w.fates[i])
  }

  lemma ReportersNext(c: Cluster, w: Request, n: nat)
    requires Fits(c, w) && n < |c.replicas|
    ensures |ReportersUpTo(c, w, n + 1)|
            == |ReportersUpTo(c, w, n)|
               + (if Reported(c.replicas[n], WriteOffset(c, w.offset), w.data, w.fates[n]) then 1 else 0)
  {
    var more := if Reported(c.replicas[n], WriteOffset(c, w.offset), w.data, w.fates[n]) then {n} else {};
    assert ReportersUpTo(c, w, n + 1) == ReportersUpTo(c, w, n) + more;
  }
}

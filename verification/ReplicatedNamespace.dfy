/** The whole system under one serialised proposer: the entries it proposes are decisions of namespace requests on its
    own map, and every node's map is what a serial run of such requests leaves. */
module ReplicatedNamespace {
  import opened Entries
  import opened PaxosNode
  import opened PaxosSystem
  import opened PaxosOutcome
  import opened PaxosFollower
  import opened ReplicatedMetadata
  import PaxosDurability
  import MM = MetadataMap
  import NS = Namespace
  import NR = NamespaceRuns

  /** On this map the request, in the world in which it is committed, proposes this entry. */
  ghost predicate Asks(t: MM.Table, ev: NR.Event, v: Entry)
    requires |t.buckets| == MM.BUCKETS
  {
    && NS.Clean(ev.request) && ev.world.committed
    && MM.Lookup(t, ev.world.id).None? && NS.Decide(t, ev.request, ev.world) == NS.Propose(v)
  }

  ghost predicate Asked(t: MM.Table, v: Entry)
    requires |t.buckets| == MM.BUCKETS
  {
    exists ev :: Asks(t, ev, v)
  }

  /** Every entry that is proposed was decided on the proposer's map of that moment. */
  ghost predicate FromRequests(p: nat, ids: seq<nat>, run: seq<Step>)
    requires p < |ids| && After(Fifo(p), ids, run).Some?
  {
    run == [] ||
    (var before, st := run[..|run| - 1], run[|run| - 1];
     && FromRequests(p, ids, before)
     && (st.TakeId? ==>
           var s := After(Fifo(p), ids, before).value;
           p < |s.nodes| && Asked(MapOf(s.nodes[p].applied), st.value)))
  }

  lemma {:induction false} FromRequestsBefore(p: nat, ids: seq<nat>, run: seq<Step>, i: nat)
    requires p < |ids| && After(Fifo(p), ids, run).Some? && i <= |run| && After(Fifo(p), ids, run[..i]).Some?
    requires FromRequests(p, ids, run)
    ensures FromRequests(p, ids, run[..i])
  {
    if i == |run| {
      assert run[..i] == run;
    } else {
      assert run[..|run| - 1][..i] == run[..i];
      FromRequestsBefore(p, ids, run[..|run| - 1], i);
    }
  }

  /** What a thread that has not returned will commit is still a decision on the proposer's map. */
  ghost predicate Pending(p: nat, s: Sys)
    requires p < |s.nodes|
  {
    forall id :: id in s.threads && !s.threads[id].pc.Returned? && Count(s.nodes[p].applied, id) == 0 ==>
      Asked(MapOf(s.nodes[p].applied), s.threads[id].value)
  }

  /** The proposer's log is the log of this serial run of requests. */
  ghost predicate History(log: seq<Record>, history: seq<NR.Event>) {
    && NR.Serial(history)
    && NR.Log(history) == Values(log)
    && NR.After(history) == MapOf(log)
  }

  // ---------------------------------------------------------------- steps

  lemma {:induction false} PendingTakeId(p: nat, ids: seq<nat>, s: Sys, st: Step)
    requires GoodCluster(ids) && Inv(ids, s) && Serial(p, s) && Pending(p, s) && Allowed(Fifo(p), s, st) && st.TakeId?
    requires Asked(MapOf(s.nodes[p].applied), st.value)
    ensures p < |Exec(s, st).nodes| && Exec(s, st).nodes[p].applied == s.nodes[p].applied && Pending(p, Exec(s, st))
  {
    LocalKeepsLogs(ids, s, st);
  }

  lemma {:induction false} PendingProposer(p: nat, ids: seq<nat>, s: Sys, st: Step)
    requires GoodCluster(ids) && Inv(ids, s) && Serial(p, s) && Pending(p, s) && Enabled(s, st) && IsProposer(st)
    ensures p < |Exec(s, st).nodes| && Exec(s, st).nodes[p].applied == s.nodes[p].applied && Pending(p, Exec(s, st))
  {
    LocalKeepsLogs(ids, s, st);
    ProposerChange(ids, s, st);
  }

  /** A delivery that is not a commit leaves the proposer's log alone. */
  lemma {:induction false} QuietAtProposer(p: nat, ids: seq<nat>, s: Sys, st: Step)
    requires GoodCluster(ids) && Inv(ids, s) && Replicated(p, s) && Enabled(s, st) && st.Deliver?
    requires !Commits(s.nodes[s.sent[st.k].dst], s.sent[st.k].msg)
    ensures |Exec(s, st).nodes| == |s.nodes| && Exec(s, st).nodes[p].applied == s.nodes[p].applied
    ensures Exec(s, st).threads == s.threads
  {
    assert GoodPacket(s, s.sent[st.k]);
  }

  /** A commit appends the value of the one thread that has not returned. */
  lemma {:induction false} CommitAtProposer(p: nat, ids: seq<nat>, s: Sys, st: Step) returns (id: nat)
    requires GoodCluster(ids) && Inv(ids, s) && GoodRecords(s) && Exact(s) && Serial(p, s) && Replicated(p, s)
    requires Allowed(Fifo(p), s, st) && st.Deliver? && Commits(s.nodes[s.sent[st.k].dst], s.sent[st.k].msg)
    ensures id in s.threads && !s.threads[id].pc.Returned? && Count(s.nodes[p].applied, id) == 0
    ensures |Exec(s, st).nodes| == |s.nodes| && Exec(s, st).threads == s.threads
    ensures Exec(s, st).nodes[p].applied == s.nodes[p].applied + [ThreadRecord(s, id)]
    ensures forall i :: i in s.threads && !s.threads[i].pc.Returned? ==> i == id
  {
    id := s.sent[st.k].msg.id;
    assert GoodPacket(s, s.sent[st.k]);
    CommitRises(p, ids, s, st);
    CommitEffect(ids, s, st);
    HitOwns(ids, s, s.sent[st.k]);
    assert ExactFor(s, id);
  }

  lemma {:induction false} HistoryNext(log: seq<Record>, history: seq<NR.Event>, r: Record, ev: NR.Event)
    requires History(log, history) && Asks(MapOf(log), ev, r.value)
    ensures History(log + [r], history + [ev])
  {
    var longer := history + [ev];
    assert longer[..|longer| - 1] == history && longer[|longer| - 1] == ev;
    NR.LogStep(longer);
    MapOfNext(log, r);
  }

  lemma {:induction false} MapOfNext(log: seq<Record>, r: Record)
    ensures Values(log + [r]) == Values(log) + [r.value]
    ensures MapOf(log + [r]) == MM.Apply(MapOf(log), r.value)
  {
    assert Values(log + [r]) == Values(log) + [r.value];
    assert Values(log + [r])[..|log|] == Values(log);
  }

  lemma {:induction false} HistoryDeliver(p: nat, ids: seq<nat>, s: Sys, st: Step, history: seq<NR.Event>)
      returns (history': seq<NR.Event>)
    requires GoodCluster(ids) && Inv(ids, s) && GoodRecords(s) && Exact(s) && Serial(p, s) && Replicated(p, s)
    requires Allowed(Fifo(p), s, st) && st.Deliver? && Pending(p, s) && History(s.nodes[p].applied, history)
    ensures p < |Exec(s, st).nodes| && Pending(p, Exec(s, st)) && History(Exec(s, st).nodes[p].applied, history')
  {
    if Commits(s.nodes[s.sent[st.k].dst], s.sent[st.k].msg) {
      var id := CommitAtProposer(p, ids, s, st);
      var r := ThreadRecord(s, id);
      var ev :| Asks(MapOf(s.nodes[p].applied), ev, r.value);
      HistoryNext(s.nodes[p].applied, history, r, ev);
      CountAppend(s.nodes[p].applied, r, id);
      history' := history + [ev];
    } else {
      QuietAtProposer(p, ids, s, st);
      history' := history;
    }
  }

  // ---------------------------------------------------------------- runs

  lemma {:induction false} ProposerHistory(p: nat, ids: seq<nat>, run: seq<Step>) returns (history: seq<NR.Event>)
    requires GoodCluster(ids) && p < |ids| && After(Fifo(p), ids, run).Some? && FromRequests(p, ids, run)
    ensures var s := After(Fifo(p), ids, run).value;
            p < |s.nodes| && Pending(p, s) && History(s.nodes[p].applied, history)
  {
    if run == [] {
      history := [];
      assert Values([]) == [];
    } else {
      var shorter, st := run[..|run| - 1], run[|run| - 1];
      var s := After(Fifo(p), ids, shorter).value;
      history := ProposerHistory(p, ids, shorter);
      InvRun(Fifo(p), ids, shorter);
      ExactRun(Fifo(p), ids, shorter);
      ReplicatedRun(p, ids, shorter);
      if st.Deliver? {
        history := HistoryDeliver(p, ids, s, st, history);
      } else if st.TakeId? {
        PendingTakeId(p, ids, s, st);
      } else {
        PendingProposer(p, ids, s, st);
      }
    }
  }

  /** End to end: if the proposer serves namespace requests one at a time and the links are in order, the map of every
      node is at every moment exactly the map some serial run of requests leaves, chain order and counters included. So
      it is tidy: canonical paths, no path with two live entries, every live entry below a live directory. */
  lemma {:induction false} EveryNodeServesTheNamespace(p: nat, ids: seq<nat>, run: seq<Step>, n: nat)
      returns (history: seq<NR.Event>)
    requires GoodCluster(ids) && p < |ids| && n < |ids| && After(Fifo(p), ids, run).Some? && FromRequests(p, ids, run)
    ensures var s := After(Fifo(p), ids, run).value;
            && |s.nodes| == |ids| && NR.Serial(history)
            && MapOf(s.nodes[n].applied) == NR.After(history) && Values(s.nodes[n].applied) == NR.Log(history)
            && MM.Refines(MapOf(s.nodes[n].applied), NR.MapAfter(history)) && NS.Tidy(NR.MapAfter(history))
  {
    InvRun(Fifo(p), ids, run);
    if n == p {
      history := ProposerHistory(p, ids, run);
    } else {
      var i := PaxosDurability.FollowersReplayTheProposer(p, ids, run, n);
      FromRequestsBefore(p, ids, run, i);
      history := ProposerHistory(p, ids, run[..i]);
    }
    NR.NamespaceStaysTidy(history);
  }
}

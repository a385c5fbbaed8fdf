/** Whole runs of namespace requests on one frontend, served one at a time. */
module NamespaceRuns {
  import opened Entries
  import opened MetadataMap
  import opened Namespace

  datatype Event = Event(request: Request, world: World)

  ghost function After(run: seq<Event>): (t: Table)
    ensures |t.buckets| == BUCKETS
    decreases |run|
  {
    if run == [] then NewTable()
    else Serve(After(run[..|run| - 1]), run[|run| - 1].request, run[|run| - 1].world).0
  }

  /** The entries the run has committed, in order. */
  ghost function Log(run: seq<Event>): seq<Entry>
    decreases |run|
  {
    if run == [] then []
    else
      var before, ev := run[..|run| - 1], run[|run| - 1];
      var d := Decide(After(before), ev.request, ev.world);
      if d.Propose? && ev.world.committed then Log(before) + [d.entry] else Log(before)
  }

  /** Every request is clean and every generated file id is new. */
  ghost predicate Serial(run: seq<Event>)
    decreases |run|
  {
    run == [] ||
    (var before, ev := run[..|run| - 1], run[|run| - 1];
     Serial(before) && Clean(ev.request) && Lookup(After(before), ev.world.id).None?)
  }

  ghost function MapAfter(run: seq<Event>): Directory {
    Replay(map[], Log(run))
  }

  lemma {:induction false} LogStep(run: seq<Event>)
    requires run != []
    ensures var before, ev := run[..|run| - 1], run[|run| - 1];
            var d := Decide(After(before), ev.request, ev.world);
            if d.Propose? && ev.world.committed
            then After(run) == Apply(After(before), d.entry) && MapAfter(run) == Put(MapAfter(before), d.entry)
                 && Log(run) == Log(before) + [d.entry]
            else After(run) == After(before) && MapAfter(run) == MapAfter(before) && Log(run) == Log(before)
  {
    var before := Log(run[..|run| - 1]);
    if Log(run) != before {
      assert Log(run)[..|Log(run)| - 1] == before;
    }
  }

  /** The namespace invariant over every serial run: the map is the replay of what was committed, and it is tidy. */
  lemma {:induction false} NamespaceStaysTidy(run: seq<Event>)
    requires Serial(run)
    ensures Refines(After(run), MapAfter(run)) && Tidy(MapAfter(run))
    decreases |run|
  {
    if run == [] {
      NewRefines();
    } else {
      var before, ev := run[..|run| - 1], run[|run| - 1];
      NamespaceStaysTidy(before);
      LogStep(run);
      LookupRefines(After(before), MapAfter(before), ev.world.id);
      var d := Decide(After(before), ev.request, ev.world);
      if d.Propose? && ev.world.committed {
        DecideKeepsTidy(After(before), MapAfter(before), ev.request, ev.world);
        ApplyRefines(After(before), MapAfter(before), d.entry);
      }
    }
  }

  function Commits(log: seq<Entry>, id: string): nat
    decreases |log|
  {
    if log == [] then 0
    else Commits(log[..|log| - 1], id) + if log[|log| - 1].fileId == id then 1 else 0
  }

  /** One step of a run on the map: nothing, a first version, or the next version of a live entry. */
  ghost predicate Advances(m: Directory, m': Directory, id: string) {
    || Get(m', id) == Get(m, id)
    || (id !in m && id in m' && m'[id].version == 1)
    || (id in m' && Follows(m, m'[id]))
  }

  lemma {:induction false} MapAdvances(run: seq<Event>, id: string)
    requires Serial(run) && run != []
    ensures Advances(MapAfter(run[..|run| - 1]), MapAfter(run), id)
    ensures Commits(Log(run), id) == Commits(Log(run[..|run| - 1]), id)
              + if Get(MapAfter(run), id) == Get(MapAfter(run[..|run| - 1]), id) then 0 else 1
  {
    var before, ev := run[..|run| - 1], run[|run| - 1];
    NamespaceStaysTidy(before);
    LogStep(run);
    LookupRefines(After(before), MapAfter(before), ev.world.id);
    var d := Decide(After(before), ev.request, ev.world);
    if d.Propose? && ev.world.committed {
      DecideKeepsTidy(After(before), MapAfter(before), ev.request, ev.world);
      CommitAdvances(MapAfter(before), d.entry, id);
      assert Log(run)[..|Log(run)| - 1] == Log(before);
    }
  }

  lemma {:induction false} CommitAdvances(m: Directory, e: Entry, id: string)
    requires if e.fileId in m then Follows(m, e) else e.version == 1
    ensures Advances(m, Put(m, e), id)
    ensures Get(Put(m, e), id) == Get(m, id) <==> e.fileId != id
  {
    if e.fileId in m {
      VersionMoves(m[e.fileId].version);
    }
  }

  lemma VersionMoves(v: nat)
    ensures (v + 1) % U64 != v
  {
  }

  ghost predicate Counted(e: Option<Entry>, commits: nat) {
    if e.Some? then e.value.version == commits % U64 else commits == 0
  }

  lemma {:induction false} VersionStep(m: Directory, m': Directory, id: string, n: nat, n': nat)
    requires Advances(m, m', id) && Counted(Get(m, id), n)
    requires n' == n + if Get(m', id) == Get(m, id) then 0 else 1
    ensures Counted(Get(m', id), n')
  {
  }

  /** A file's version is the number of commits about it, in 64 bits; an id without commits is not in the map. */
  lemma {:induction false} VersionCountsCommits(run: seq<Event>, id: string)
    requires Serial(run)
    ensures Counted(Get(MapAfter(run), id), Commits(Log(run), id))
    decreases |run|
  {
    if run == [] {
      assert Log(run) == [];
      assert Commits(Log(run), id) == 0;
      assert MapAfter(run) == map[];
    } else {
      var before := run[..|run| - 1];
      VersionCountsCommits(before, id);
      MapAdvances(run, id);
      var n, n' := Commits(Log(before), id), Commits(Log(run), id);
      var m, m' := MapAfter(before), MapAfter(run);
      VersionStep(m, m', id, n, n');
    }
  }

  /** A deleted file id is never revived and never changes again. */
  lemma {:induction false} DeletedStaysDeleted(run: seq<Event>, i: nat, id: string)
    requires Serial(run) && i <= |run|
    requires id in MapAfter(run[..i]) && !MapAfter(run[..i])[id].Live()
    ensures Get(MapAfter(run), id) == Get(MapAfter(run[..i]), id)
    decreases |run|
  {
    if i == |run| {
      assert run[..i] == run;
    } else {
      var before := run[..|run| - 1];
      assert before[..i] == run[..i];
      DeletedStaysDeleted(before, i, id);
      MapAdvances(run, id);
    }
  }
}

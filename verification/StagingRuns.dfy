/** Repeated staging runs converge: with an unchanged authority and bundles that stage, they end in the
    manifest that one uninterrupted run gives. */
module StagingRuns {
  import opened Collections
  import opened Text
  import opened NameOrder
  import opened Staging
  import opened StagingSafety

  function FileOf(r: Row): string { FileName(r.component, Normalized(r.selected)) }

  function Staged(t: Tools, r: Row): Option<Entry> { StageEntry(t, r, FileOf(r), t.acquire(r)) }

  /** Every ready row's bundle, as acquired, passes `_stage_entry`. */
  ghost predicate Stageable(t: Tools, repo: Repo) {
    forall c | c in Ready(repo) :: Lookup(repo.rows, c).Some? && Staged(t, Lookup(repo.rows, c).value).Some?
  }

  function EntryOf(t: Tools, repo: Repo, c: string): (e: Entry)
    requires Lookup(repo.rows, c).Some? && Staged(t, Lookup(repo.rows, c).value).Some?
    ensures e.component == c
  {
    LookupHas(repo.rows, c);
    Staged(t, Lookup(repo.rows, c).value).value
  }

  /** The entry is that of a ready row. */
  ghost predicate Proper(t: Tools, repo: Repo, e: Entry) {
    && e.component in Ready(repo) && Lookup(repo.rows, e.component).Some?
    && Staged(t, Lookup(repo.rows, e.component).value) == Some(e)
  }

  /** A bundle of a ready row on disk is the acquired one. */
  ghost predicate BundlesAcquired(t: Tools, repo: Repo, files: map<string, Bytes>) {
    forall c | c in Ready(repo) && Lookup(repo.rows, c).Some? ::
      var r := Lookup(repo.rows, c).value; FileOf(r) in files ==> files[FileOf(r)] == t.acquire(r)
  }

  ghost predicate AllProper(t: Tools, repo: Repo, entries: seq<Entry>) {
    forall i | 0 <= i < |entries| :: Proper(t, repo, entries[i])
  }

  lemma ReadyRowExact(repo: Repo, c: string)
    requires AuthorityOk(repo) && c in Ready(repo)
    ensures Lookup(repo.rows, c).Some? && Lookup(repo.rows, c).value.component == c
    ensures Exact(Normalized(Lookup(repo.rows, c).value.selected))
  {
    ReadyIs(repo);
    LookupHas(repo.rows, c);
    var r := Lookup(repo.rows, c).value;
    var i :| 0 <= i < |repo.rows| && repo.rows[i] == r;
    assert RowOk(repo, repo.rows[i]);
  }

  lemma FetchAcquires(t: Tools, repo: Repo, disk: Disk, c: string, writes: nat, fails: string -> bool)
    requires AuthorityOk(repo) && c in Ready(repo) && BundlesAcquired(t, repo, disk.files)
    ensures Lookup(repo.rows, c).Some?
    ensures var r := Lookup(repo.rows, c).value;
            var f := Fetch(t, r, disk, writes, fails);
            && BundlesAcquired(t, repo, f.0.files)
            && (f.2 == Returned ==> FileOf(r) in f.0.files && f.0.files[FileOf(r)] == t.acquire(r))
            && (writes > 0 && !fails(c) ==> f.2 == Returned && f.1 >= writes - 1)
  {
    ReadyRowExact(repo, c);
    var r := Lookup(repo.rows, c).value;
    var f := Fetch(t, r, disk, writes, fails);
    forall d | d in Ready(repo) && Lookup(repo.rows, d).Some?
      ensures var q := Lookup(repo.rows, d).value; FileOf(q) in f.0.files ==> f.0.files[FileOf(q)] == t.acquire(q)
    {
      ReadyRowExact(repo, d);
      var q := Lookup(repo.rows, d).value;
      if FileOf(q) == FileOf(r) { FileNameTells(d, Normalized(q.selected), c, Normalized(r.selected)); }
    }
  }

  /** One turn of the stage loop: it records the ready row's own entry, and does so whenever two writes
      are allowed and the acquisition succeeds. */
  lemma StageOneRecords(t: Tools, repo: Repo, p: Progress, c: string, writes: nat, fails: string -> bool)
    requires AuthorityOk(repo) && Stageable(t, repo) && c in Ready(repo) && BundlesAcquired(t, repo, p.disk.files)
    ensures Lookup(repo.rows, c).Some? && Staged(t, Lookup(repo.rows, c).value).Some?
    ensures var turn := StageOne(t, repo, p, c, writes, fails);
            && BundlesAcquired(t, repo, turn.state.disk.files)
            && (turn.outcome == Returned ==>
                  && turn.state.done == p.done + [EntryOf(t, repo, c)]
                  && turn.state.disk.manifest == Some(Sort(turn.state.done, EntryName)))
            && (turn.outcome != Returned ==> turn.state.done == p.done && turn.state.disk.manifest == p.disk.manifest)
            && (writes >= 2 && !fails(c) ==> turn.outcome == Returned && turn.writes >= writes - 2)
  {
    FetchAcquires(t, repo, p.disk, c, writes, fails);
  }

  /** The names are ready and their bundles stage. */
  ghost predicate AllStage(t: Tools, repo: Repo, names: seq<string>) {
    forall c | c in names ::
      c in Ready(repo) && Lookup(repo.rows, c).Some? && Staged(t, Lookup(repo.rows, c).value).Some?
  }

  /** The entries of some ready rows. */
  ghost function EntriesOf(t: Tools, repo: Repo, names: seq<string>): (es: seq<Entry>)
    requires AllStage(t, repo, names)
    ensures |es| == |names| && forall i | 0 <= i < |names| :: names[i] in names && es[i] == EntryOf(t, repo, names[i])
  {
    seq(|names|, i requires 0 <= i < |names| => assert names[i] in names; EntryOf(t, repo, names[i]))
  }

  /** How far a run got: the first `k` of the entries it was to record are recorded. */
  predicate Reached(p: Progress, es: seq<Entry>, end: Progress, k: nat) {
    && k <= |es| && end.done == p.done + es[..k]
    && end.disk.manifest == if k == 0 then p.disk.manifest else Some(Sort(end.done, EntryName))
  }

  lemma ReachedOneMore(p: Progress, es: seq<Entry>, mid: Progress, end: Progress, k: nat)
    requires es != [] && mid.done == p.done + [es[0]] && mid.disk.manifest == Some(Sort(mid.done, EntryName))
    requires Reached(mid, es[1..], end, k)
    ensures Reached(p, es, end, k + 1)
  {
    assert es[..k + 1] == [es[0]] + es[1..][..k];
    assert p.done + es[..k + 1] == mid.done + es[1..][..k];
    assert k == 0 ==> end.done == mid.done;
  }

  /** What a turn that is to record this entry does. */
  ghost predicate Records(turn: Turn<Progress>, p: Progress, e: Entry, writes: nat, lucky: bool) {
    && (turn.outcome == Returned ==>
          turn.state.done == p.done + [e] && turn.state.disk.manifest == Some(Sort(turn.state.done, EntryName)))
    && (turn.outcome != Returned ==> turn.state.done == p.done && turn.state.disk.manifest == p.disk.manifest)
    && (writes >= 2 && lucky ==> turn.outcome == Returned && turn.writes >= writes - 2)
  }

  /** A turn function that records, for every name, its entry, and keeps an invariant. */
  ghost predicate AllRecord(turn: (Progress, string, nat) -> Turn<Progress>, inv: Progress -> bool, names: seq<string>,
                            es: seq<Entry>, fails: string -> bool) {
    && |es| == |names|
    && forall p, i, w | inv(p) && 0 <= i < |names| ::
         inv(turn(p, names[i], w).state) && Records(turn(p, names[i], w), p, es[i], w, !fails(names[i]))
  }

  lemma AllRecordRest(turn: (Progress, string, nat) -> Turn<Progress>, inv: Progress -> bool, names: seq<string>,
                      es: seq<Entry>, fails: string -> bool)
    requires AllRecord(turn, inv, names, es, fails) && names != []
    ensures AllRecord(turn, inv, names[1..], es[1..], fails)
  {
    var ns, fs := names[1..], es[1..];
    forall p, i, w | inv(p) && 0 <= i < |ns|
      ensures inv(turn(p, ns[i], w).state) && Records(turn(p, ns[i], w), p, fs[i], w, !fails(ns[i]))
    {
      assert ns[i] == names[i + 1] && fs[i] == es[i + 1];
    }
  }

  lemma {:induction false} LoopRecords(turn: (Progress, string, nat) -> Turn<Progress>, inv: Progress -> bool,
                                       p: Progress, names: seq<string>, es: seq<Entry>, writes: nat,
                                       fails: string -> bool)
    returns (k: nat)
    requires AllRecord(turn, inv, names, es, fails) && inv(p)
    ensures var end := Loop(turn, p, names, writes);
            && Reached(p, es, end.state, k) && inv(end.state)
            && (end.outcome == Returned ==> k == |names|)
            && (writes >= 2 * |names| && (forall c | c in names :: !fails(c)) ==> end.outcome == Returned)
    decreases |names|
  {
    k := 0;
    if names == [] {
    } else {
      var first := turn(p, names[0], writes);
      assert inv(first.state) && Records(first, p, es[0], writes, !fails(names[0]));
      if first.outcome == Returned {
        AllRecordRest(turn, inv, names, es, fails);
        var j := LoopRecords(turn, inv, first.state, names[1..], es[1..], first.writes, fails);
        ReachedOneMore(p, es, first.state, Loop(turn, p, names, writes).state, j);
        k := j + 1;
      }
      assert forall c | c in names[1..] :: c in names;
    }
  }

  ghost function Acquired(t: Tools, repo: Repo): Progress -> bool {
    (p: Progress) => BundlesAcquired(t, repo, p.disk.files)
  }

  lemma StageTurnRecords(t: Tools, repo: Repo, names: seq<string>, fails: string -> bool)
    requires AuthorityOk(repo) && Stageable(t, repo) && AllStage(t, repo, names)
    ensures AllRecord(StageTurn(t, repo, fails), Acquired(t, repo), names, EntriesOf(t, repo, names), fails)
  {
    var turn, es := StageTurn(t, repo, fails), EntriesOf(t, repo, names);
    forall p: Progress, i, w | Acquired(t, repo)(p) && 0 <= i < |names|
      ensures Acquired(t, repo)(turn(p, names[i], w).state)
      ensures Records(turn(p, names[i], w), p, es[i], w, !fails(names[i]))
    {
      StageOneRecords(t, repo, p, names[i], w, fails);
    }
  }

  lemma StageEachRecords(t: Tools, repo: Repo, p: Progress, names: seq<string>, writes: nat, fails: string -> bool)
    returns (k: nat)
    requires AuthorityOk(repo) && Stageable(t, repo) && BundlesAcquired(t, repo, p.disk.files)
    requires AllStage(t, repo, names)
    ensures var end := StageEach(t, repo, p, names, writes, fails);
            && Reached(p, EntriesOf(t, repo, names), end.state, k) && BundlesAcquired(t, repo, end.state.disk.files)
            && (end.outcome == Returned ==> k == |names|)
            && (writes >= 2 * |names| && (forall c | c in names :: !fails(c)) ==> end.outcome == Returned)
  {
    StageTurnRecords(t, repo, names, fails);
    k := LoopRecords(StageTurn(t, repo, fails), Acquired(t, repo), p, names, EntriesOf(t, repo, names), writes, fails);
  }

  // ---- one run ------------------------------------------------------------------------------

  /** A directory that only staging runs of this authority have written to. */
  ghost predicate Own(t: Tools, repo: Repo, disk: Disk) {
    && BundlesAcquired(t, repo, disk.files) && DiskOk(t, repo, disk)
    && (disk.manifest.Some? ==> Increasing(disk.manifest.value, EntryName) && AllProper(t, repo, disk.manifest.value))
  }

  lemma SortOfIncreasing(entries: seq<Entry>)
    requires Increasing(entries, EntryName)
    ensures Sort(entries, EntryName) == entries
  {
    IncreasingDistinct(entries, EntryName);
    SortIncreasing(entries, EntryName);
    forall e ensures e in Sort(entries, EntryName) <==> e in entries { SortMember(entries, EntryName, e); }
    IncreasingUnique(Sort(entries, EntryName), entries, EntryName);
  }

  lemma OwnRecorded(t: Tools, repo: Repo, disk: Disk)
    requires Own(t, repo, disk)
    ensures AllProper(t, repo, Recorded(disk)) && Increasing(Recorded(disk), EntryName)
    ensures disk.manifest == if Recorded(disk) == [] then None else Some(Recorded(disk))
  {
    if disk.manifest.Some? { SortOfIncreasing(disk.manifest.value); }
  }

  lemma ProperSort(t: Tools, repo: Repo, entries: seq<Entry>)
    requires AllProper(t, repo, entries) && KeysDistinct(entries, EntryName)
    ensures AllProper(t, repo, Sort(entries, EntryName)) && Increasing(Sort(entries, EntryName), EntryName)
  {
    var s := Sort(entries, EntryName);
    SortIncreasing(entries, EntryName);
    forall i | 0 <= i < |s|
      ensures Proper(t, repo, s[i])
    {
      SortMember(entries, EntryName, s[i]);
      assert s[i] in entries;
    }
  }

  /** What a run selects, in terms that hold for the whole module. */
  lemma SelectedReady(t: Tools, repo: Repo, done: seq<Entry>, limit: nat)
    requires AuthorityOk(repo) && Stageable(t, repo)
    ensures AllStage(t, repo, Selected(repo, done, limit))
  {
    SelectedFits(repo, done, limit);
  }

  /** The loop of a run, from what the directory records: it stays the run's own, forgets nothing, and
      records all it was given when it returns. */
  lemma StageEachOwn(t: Tools, repo: Repo, disk: Disk, names: seq<string>, writes: nat, fails: string -> bool)
    requires AuthorityOk(repo) && Stageable(t, repo) && Own(t, repo, disk)
    requires AllStage(t, repo, names) && Checkpoint(t, repo, disk, Recorded(disk))
    requires var end := StageEach(t, repo, Progress(disk, Recorded(disk)), names, writes, fails);
             Checkpoint(t, repo, end.state.disk, end.state.done)
    ensures var end := StageEach(t, repo, Progress(disk, Recorded(disk)), names, writes, fails);
            && Own(t, repo, end.state.disk)
            && (forall c | Listed(Recorded(disk), c) :: Listed(Recorded(end.state.disk), c))
            && (end.outcome == Returned ==> forall c | c in names :: Listed(Recorded(end.state.disk), c))
            && (writes >= 2 * |names| && (forall c | c in names :: !fails(c)) ==> end.outcome == Returned)
  {
    var p := Progress(disk, Recorded(disk));
    var end := StageEach(t, repo, p, names, writes, fails);
    var k := StageEachRecords(t, repo, p, names, writes, fails);
    ReachedOwn(t, repo, p, names, end.state, k);
    ReachedLists(p, EntriesOf(t, repo, names), end.state, k);
    if k == |names| { AllNamed(t, repo, names, Recorded(end.state.disk)); }
  }

  lemma AllNamed(t: Tools, repo: Repo, names: seq<string>, recorded: seq<Entry>)
    requires AllStage(t, repo, names)
    requires forall i | 0 <= i < |names| :: Listed(recorded, EntriesOf(t, repo, names)[i].component)
    ensures forall c | c in names :: Listed(recorded, c)
  {
    var es := EntriesOf(t, repo, names);
    forall c | c in names ensures Listed(recorded, c) {
      var i :| 0 <= i < |names| && names[i] == c;
      assert Listed(recorded, es[i].component) && es[i].component == c;
    }
  }

  /** A run keeps the directory its own and forgets nothing; one that returns has recorded all that it
      selected; one that is allowed two writes for each and meets no failure returns. */
  lemma StageRecords(t: Tools, repo: Repo, disk: Disk, limit: nat, writes: nat, fails: string -> bool)
    requires AuthorityOk(repo) && Stageable(t, repo) && Own(t, repo, disk)
    ensures var names, end := Selected(repo, Recorded(disk), limit), Stage(t, repo, disk, limit, writes, fails);
            && Own(t, repo, end.0)
            && (forall c | Listed(Recorded(disk), c) :: Listed(Recorded(end.0), c))
            && (end.1 == Returned ==> forall c | c in names :: Listed(Recorded(end.0), c))
            && (writes >= 2 * |names| && (forall c | c in names :: !fails(c)) ==> end.1 == Returned)
  {
    var done := Recorded(disk);
    var names := Selected(repo, done, limit);
    OwnRecorded(t, repo, disk);
    SelectedReady(t, repo, done, limit);
    SelectedFits(repo, done, limit);
    StartIsCheckpoint(t, repo, disk);
    StageEachKeeps(t, repo, Progress(disk, done), names, writes, fails);
    StageEachOwn(t, repo, disk, names, writes, fails);
  }

  lemma {:induction false} ListedPrefix(entries: seq<Entry>, more: seq<Entry>, c: string)
    ensures Listed(entries + more, c) <==> Listed(entries, c) || Listed(more, c)
  {
    if entries == [] {
      assert entries + more == more;
    } else {
      ListedPrefix(entries[1..], more, c);
      assert (entries + more)[1..] == entries[1..] + more;
    }
  }

  lemma SortLists(entries: seq<Entry>, c: string)
    ensures Listed(Sort(entries, EntryName), c) <==> Listed(entries, c)
  {
    var s := Sort(entries, EntryName);
    ListedIff(s, c);
    ListedIff(entries, c);
    if i :| 0 <= i < |s| && s[i].component == c { SortMember(entries, EntryName, s[i]); assert s[i] in entries; }
    if i :| 0 <= i < |entries| && entries[i].component == c {
      SortMember(entries, EntryName, entries[i]);
      assert entries[i] in s;
    }
  }

  lemma ReachedLists(p: Progress, es: seq<Entry>, end: Progress, k: nat)
    requires Reached(p, es, end, k) && p.done == Recorded(p.disk)
    ensures forall c | Listed(p.done, c) :: Listed(Recorded(end.disk), c)
    ensures forall i | 0 <= i < k :: Listed(Recorded(end.disk), es[i].component)
  {
    if k > 0 {
      forall c ensures Listed(Recorded(end.disk), c) <==> Listed(p.done, c) || Listed(es[..k], c) {
        SortLists(end.done, c);
        SortLists(Sort(end.done, EntryName), c);
        ListedPrefix(p.done, es[..k], c);
      }
      forall i | 0 <= i < k
        ensures Listed(es[..k], es[i].component)
      {
        ListedIff(es[..k], es[i].component);
        assert es[..k][i] == es[i];
      }
    }
  }

  lemma ReachedProper(t: Tools, repo: Repo, p: Progress, names: seq<string>, end: Progress, k: nat)
    requires AllStage(t, repo, names)
    requires Reached(p, EntriesOf(t, repo, names), end, k) && AllProper(t, repo, p.done)
    ensures AllProper(t, repo, end.done)
  {
    var es := EntriesOf(t, repo, names);
    forall i | 0 <= i < |es| ensures Proper(t, repo, es[i]) { assert names[i] in names; }
  }

  lemma ReachedOwn(t: Tools, repo: Repo, p: Progress, names: seq<string>, end: Progress, k: nat)
    requires AllStage(t, repo, names)
    requires Reached(p, EntriesOf(t, repo, names), end, k) && Checkpoint(t, repo, end.disk, end.done)
    requires BundlesAcquired(t, repo, end.disk.files) && p.done == Recorded(p.disk) && Own(t, repo, p.disk)
    ensures Own(t, repo, end.disk)
  {
    OwnRecorded(t, repo, p.disk);
    ReachedProper(t, repo, p, names, end, k);
    if k > 0 { ProperSort(t, repo, end.done); }
  }

  // ---- many runs ----------------------------------------------------------------------------

  function Left(repo: Repo, disk: Disk): nat { |Missing(Ready(repo), Recorded(disk))| }

  lemma {:induction false} MissingShrinks(names: seq<string>, before: seq<Entry>, after: seq<Entry>)
    requires forall c | Listed(before, c) :: Listed(after, c)
    ensures |Missing(names, after)| <= |Missing(names, before)|
    ensures (exists c :: c in names && !Listed(before, c) && Listed(after, c))
            ==> |Missing(names, after)| < |Missing(names, before)|
  {
    if names == [] {
    } else {
      MissingShrinks(names[1..], before, after);
      if c :| c in names && !Listed(before, c) && Listed(after, c) {
        assert c != names[0] ==> c in names[1..];
      }
    }
  }

  lemma SelectedSome(repo: Repo, disk: Disk, limit: nat)
    requires AuthorityOk(repo) && Left(repo, disk) > 0
    ensures Selected(repo, Recorded(disk), limit) != []
    ensures var c := Selected(repo, Recorded(disk), limit)[0];
            c in Selected(repo, Recorded(disk), limit) && c in Ready(repo) && !Listed(Recorded(disk), c)
  {
    SelectedFits(repo, Recorded(disk), limit);
  }

  /** Every returning run records at least one more ready component, until none is left. */
  lemma StageProgresses(t: Tools, repo: Repo, disk: Disk, limit: nat, writes: nat, fails: string -> bool)
    requires AuthorityOk(repo) && Stageable(t, repo) && Own(t, repo, disk)
    ensures var end := Stage(t, repo, disk, limit, writes, fails);
            && Own(t, repo, end.0) && Left(repo, end.0) <= Left(repo, disk)
            && (end.1 == Returned && Left(repo, disk) > 0 ==> Left(repo, end.0) < Left(repo, disk))
            && (end.1 == Returned && limit == 0 ==> Left(repo, end.0) == 0)
  {
    var end := Stage(t, repo, disk, limit, writes, fails);
    StageRecords(t, repo, disk, limit, writes, fails);
    MissingShrinks(Ready(repo), Recorded(disk), Recorded(end.0));
    if Left(repo, disk) > 0 { SelectedSome(repo, disk, limit); }
    if end.1 == Returned && limit == 0 { NothingMissing(repo, Recorded(disk), Recorded(end.0)); }
  }

  lemma NothingMissing(repo: Repo, before: seq<Entry>, after: seq<Entry>)
    requires AuthorityOk(repo) && (forall c | Listed(before, c) :: Listed(after, c))
    requires forall c | c in Missing(Ready(repo), before) :: Listed(after, c)
    ensures Missing(Ready(repo), after) == []
  {
    var m := Missing(Ready(repo), after);
    var first := if |m| > 0 then m[0] else "";
    assert |m| > 0 ==> first in m;
    ReadyIs(repo);
    IncreasingDistinct(Ready(repo), Same);
    MissingIs(Ready(repo), before);
    MissingIs(Ready(repo), after);
    assert first !in m;
  }

  datatype Attempt = Attempt(limit: nat, writes: nat, fails: string -> bool)

  function Runs(t: Tools, repo: Repo, disk: Disk, attempts: seq<Attempt>): Disk
    decreases |attempts|
  {
    if attempts == [] then disk
    else Runs(t, repo, Stage(t, repo, disk, attempts[0].limit, attempts[0].writes, attempts[0].fails).0, attempts[1..])
  }

  function Returns(t: Tools, repo: Repo, disk: Disk, attempts: seq<Attempt>): nat
    decreases |attempts|
  {
    if attempts == [] then 0
    else
      var end := Stage(t, repo, disk, attempts[0].limit, attempts[0].writes, attempts[0].fails);
      (if end.1 == Returned then 1 else 0) + Returns(t, repo, end.0, attempts[1..])
  }

  lemma {:induction false} RunsProgress(t: Tools, repo: Repo, disk: Disk, attempts: seq<Attempt>)
    requires AuthorityOk(repo) && Stageable(t, repo) && Own(t, repo, disk)
    ensures Own(t, repo, Runs(t, repo, disk, attempts))
    ensures Left(repo, Runs(t, repo, disk, attempts)) == 0 ||
            Left(repo, Runs(t, repo, disk, attempts)) + Returns(t, repo, disk, attempts) <= Left(repo, disk)
    decreases |attempts|
  {
    if attempts == [] {
    } else {
      var a := attempts[0];
      StageProgresses(t, repo, disk, a.limit, a.writes, a.fails);
      RunsProgress(t, repo, Stage(t, repo, disk, a.limit, a.writes, a.fails).0, attempts[1..]);
    }
  }

  /** The manifest that covers exactly the ready components, in order. */
  ghost function FullManifest(t: Tools, repo: Repo): Option<seq<Entry>>
    requires AllStage(t, repo, Ready(repo))
  {
    if Ready(repo) == [] then None else Some(EntriesOf(t, repo, Ready(repo)))
  }

  lemma FullMember(t: Tools, repo: Repo, done: seq<Entry>, e: Entry)
    requires AllStage(t, repo, Ready(repo))
    requires AllProper(t, repo, done) && forall c | c in Ready(repo) :: Listed(done, c)
    ensures e in EntriesOf(t, repo, Ready(repo)) <==> e in done
  {
    var names := Ready(repo);
    var full := EntriesOf(t, repo, names);
    if e in full {
      var i :| 0 <= i < |full| && full[i] == e;
      assert names[i] in names;
      ListedIff(done, names[i]);
      var j :| 0 <= j < |done| && done[j].component == names[i];
      assert Proper(t, repo, done[j]);
    }
    if e in done {
      assert Proper(t, repo, e);
      var i :| 0 <= i < |names| && names[i] == e.component;
      assert full[i] == e;
    }
  }

  lemma FullIncreasing(t: Tools, repo: Repo)
    requires AllStage(t, repo, Ready(repo))
    requires Increasing(Ready(repo), Same)
    ensures Increasing(EntriesOf(t, repo, Ready(repo)), EntryName)
  {
    var names := Ready(repo);
    var full := EntriesOf(t, repo, names);
    forall i, j | 0 <= i < j < |full|
      ensures Below(EntryName(full[i]), EntryName(full[j]))
    {
      assert Below(Same(names[i]), Same(names[j]));
    }
  }

  lemma AllListed(repo: Repo, disk: Disk)
    requires AuthorityOk(repo) && Left(repo, disk) == 0
    ensures forall c | c in Ready(repo) :: Listed(Recorded(disk), c)
  {
    ReadyIs(repo);
    IncreasingDistinct(Ready(repo), Same);
    MissingIs(Ready(repo), Recorded(disk));
  }

  lemma CompleteIsFull(t: Tools, repo: Repo, disk: Disk)
    requires AuthorityOk(repo) && Stageable(t, repo) && Own(t, repo, disk) && Left(repo, disk) == 0
    ensures disk.manifest == FullManifest(t, repo)
  {
    var done, full := Recorded(disk), EntriesOf(t, repo, Ready(repo));
    OwnRecorded(t, repo, disk);
    ReadyIs(repo);
    AllListed(repo, disk);
    FullIncreasing(t, repo);
    forall e ensures e in full <==> e in done { FullMember(t, repo, done, e); }
    IncreasingUnique(full, done, EntryName);
  }

  const EMPTY := Disk(map[], None)

  lemma EmptyIsOwn(t: Tools, repo: Repo)
    requires AuthorityOk(repo)
    ensures Own(t, repo, EMPTY) && Left(repo, EMPTY) <= |Ready(repo)|
  {
    MissingAtMost(Ready(repo), []);
  }

  lemma MissingAtMost(names: seq<string>, done: seq<Entry>)
    ensures |Missing(names, done)| <= |names|
  {
  }

  /** One uninterrupted, unlimited run stages everything. */
  lemma StagesAtOnce(t: Tools, repo: Repo)
    requires AuthorityOk(repo) && Stageable(t, repo)
    ensures var once := Stage(t, repo, EMPTY, 0, 2 * |Ready(repo)|, _ => false);
            once.1 == Returned && once.0.manifest == FullManifest(t, repo)
  {
    EmptyIsOwn(t, repo);
    MissingAtMost(Ready(repo), Recorded(EMPTY));
    StageRecords(t, repo, EMPTY, 0, 2 * |Ready(repo)|, _ => false);
    StageProgresses(t, repo, EMPTY, 0, 2 * |Ready(repo)|, _ => false);
    CompleteIsFull(t, repo, Stage(t, repo, EMPTY, 0, 2 * |Ready(repo)|, _ => false).0);
  }

  /** Convergence: however many runs are cut short and whatever the limits, once as many runs have
      returned as there are ready components the manifest is the one an uninterrupted run gives, and it
      covers exactly the ready components. */
  lemma StagingConverges(t: Tools, repo: Repo, attempts: seq<Attempt>)
    requires AuthorityOk(repo) && Stageable(t, repo) && Returns(t, repo, EMPTY, attempts) >= |Ready(repo)|
    ensures Runs(t, repo, EMPTY, attempts).manifest == FullManifest(t, repo)
    ensures Stage(t, repo, EMPTY, 0, 2 * |Ready(repo)|, _ => false).0.manifest == FullManifest(t, repo)
  {
    EmptyIsOwn(t, repo);
    RunsProgress(t, repo, EMPTY, attempts);
    CompleteIsFull(t, repo, Runs(t, repo, EMPTY, attempts));
    StagesAtOnce(t, repo);
  }

  // ---- the condition is needed --------------------------------------------------------------

  /** Whatever is on disk comes from ready rows whose bundles stage. */
  ghost predicate OwnDisk(t: Tools, repo: Repo, disk: Disk) {
    BundlesAcquired(t, repo, disk.files) && (disk.manifest.Some? ==> AllProper(t, repo, disk.manifest.value))
  }

  ghost function OwnSoFar(t: Tools, repo: Repo): Progress -> bool {
    (p: Progress) => OwnDisk(t, repo, p.disk) && AllProper(t, repo, p.done)
  }

  lemma SortProper(t: Tools, repo: Repo, entries: seq<Entry>)
    requires AllProper(t, repo, entries)
    ensures AllProper(t, repo, Sort(entries, EntryName))
  {
    var s := Sort(entries, EntryName);
    forall i | 0 <= i < |s|
      ensures Proper(t, repo, s[i])
    {
      SortMember(entries, EntryName, s[i]);
      assert s[i] in entries;
    }
  }

  /** What one turn does to the entries: one more, proper and recorded, or none. */
  lemma StageOneAdds(t: Tools, repo: Repo, p: Progress, c: string, writes: nat, fails: string -> bool)
    requires AuthorityOk(repo) && c in Ready(repo) && BundlesAcquired(t, repo, p.disk.files)
    ensures var turn := StageOne(t, repo, p, c, writes, fails);
            && BundlesAcquired(t, repo, turn.state.disk.files)
            && if turn.outcome == Returned
               then && |turn.state.done| == |p.done| + 1 && turn.state.done[..|p.done|] == p.done
                    && Proper(t, repo, turn.state.done[|p.done|])
                    && turn.state.disk.manifest == Some(Sort(turn.state.done, EntryName))
               else turn.state.done == p.done && turn.state.disk.manifest == p.disk.manifest
  {
    FetchAcquires(t, repo, p.disk, c, writes, fails);
    ReadyRowExact(repo, c);
  }

  lemma ProperMore(t: Tools, repo: Repo, before: seq<Entry>, after: seq<Entry>)
    requires AllProper(t, repo, before) && |after| == |before| + 1 && after[..|before|] == before
    requires Proper(t, repo, after[|before|])
    ensures AllProper(t, repo, after)
  {
    forall i | 0 <= i < |after| ensures Proper(t, repo, after[i]) {
      assert i < |before| ==> after[i] == after[..|before|][i];
    }
  }

  lemma StageOneOwn(t: Tools, repo: Repo, p: Progress, c: string, writes: nat, fails: string -> bool)
    requires AuthorityOk(repo) && c in Ready(repo) && OwnSoFar(t, repo)(p)
    ensures OwnSoFar(t, repo)(StageOne(t, repo, p, c, writes, fails).state)
  {
    StageOneAdds(t, repo, p, c, writes, fails);
    var turn := StageOne(t, repo, p, c, writes, fails);
    if turn.outcome == Returned {
      ProperMore(t, repo, p.done, turn.state.done);
      SortProper(t, repo, turn.state.done);
    }
  }

  lemma {:induction false} LoopKeeps(turn: (Progress, string, nat) -> Turn<Progress>, inv: Progress -> bool,
                                     p: Progress, names: seq<string>, writes: nat)
    requires inv(p) && forall q, i, w | inv(q) && 0 <= i < |names| :: inv(turn(q, names[i], w).state)
    ensures inv(Loop(turn, p, names, writes).state)
    decreases |names|
  {
    if names == [] {
    } else {
      var first := turn(p, names[0], writes);
      assert inv(first.state);
      if first.outcome == Returned {
        forall q, i, w | inv(q) && 0 <= i < |names[1..]| ensures inv(turn(q, names[1..][i], w).state) {
          assert names[1..][i] == names[i + 1];
        }
        LoopKeeps(turn, inv, first.state, names[1..], first.writes);
      }
    }
  }

  lemma StageOwn(t: Tools, repo: Repo, disk: Disk, limit: nat, writes: nat, fails: string -> bool)
    requires AuthorityOk(repo) && OwnDisk(t, repo, disk)
    ensures OwnDisk(t, repo, Stage(t, repo, disk, limit, writes, fails).0)
  {
    var done, turn, inv := Recorded(disk), StageTurn(t, repo, fails), OwnSoFar(t, repo);
    if disk.manifest.Some? { SortProper(t, repo, disk.manifest.value); }
    SelectedFits(repo, done, limit);
    var names := Selected(repo, done, limit);
    forall q, i, w | inv(q) && 0 <= i < |names| ensures inv(turn(q, names[i], w).state) {
      assert names[i] in names;
      StageOneOwn(t, repo, q, names[i], w, fails);
    }
    LoopKeeps(turn, inv, Progress(disk, done), names, writes);
  }

  lemma {:induction false} RunsOwn(t: Tools, repo: Repo, disk: Disk, attempts: seq<Attempt>)
    requires AuthorityOk(repo) && OwnDisk(t, repo, disk)
    ensures OwnDisk(t, repo, Runs(t, repo, disk, attempts))
    decreases |attempts|
  {
    if attempts == [] {
    } else {
      var a := attempts[0];
      StageOwn(t, repo, disk, a.limit, a.writes, a.fails);
      RunsOwn(t, repo, Stage(t, repo, disk, a.limit, a.writes, a.fails).0, attempts[1..]);
    }
  }

  /** The manifest lists every ready component. */
  ghost predicate CoversReady(repo: Repo, disk: Disk) {
    disk.manifest.Some? && forall c | c in Ready(repo) :: Listed(disk.manifest.value, c)
  }

  lemma CoveredStages(t: Tools, repo: Repo, disk: Disk)
    requires AuthorityOk(repo) && OwnDisk(t, repo, disk) && CoversReady(repo, disk)
    ensures Stageable(t, repo)
  {
    var m := disk.manifest.value;
    forall c | c in Ready(repo) ensures Lookup(repo.rows, c).Some? && Staged(t, Lookup(repo.rows, c).value).Some? {
      ListedIff(m, c);
      var i :| 0 <= i < |m| && m[i].component == c;
      assert Proper(t, repo, m[i]);
    }
  }

  lemma FullCovers(t: Tools, repo: Repo, disk: Disk)
    requires AuthorityOk(repo) && Stageable(t, repo) && disk.manifest == FullManifest(t, repo) && Ready(repo) != []
    ensures CoversReady(repo, disk)
  {
    var names := Ready(repo);
    forall c | c in names ensures Listed(disk.manifest.value, c) {
      ListedIff(disk.manifest.value, c);
      var i :| 0 <= i < |names| && names[i] == c;
      assert disk.manifest.value[i].component == c;
    }
  }

  lemma StagedByRuns(t: Tools, repo: Repo, attempts: seq<Attempt>)
    requires AuthorityOk(repo) && CoversReady(repo, Runs(t, repo, EMPTY, attempts))
    ensures Stageable(t, repo)
  {
    RunsOwn(t, repo, EMPTY, attempts);
    CoveredStages(t, repo, Runs(t, repo, EMPTY, attempts));
  }

  lemma SomeRunStages(t: Tools, repo: Repo) returns (attempts: seq<Attempt>)
    requires AuthorityOk(repo) && Stageable(t, repo) && Ready(repo) != []
    ensures CoversReady(repo, Runs(t, repo, EMPTY, attempts))
  {
    var a := Attempt(0, 2 * |Ready(repo)|, _ => false);
    StagesAtOnce(t, repo);
    FullCovers(t, repo, Stage(t, repo, EMPTY, 0, 2 * |Ready(repo)|, _ => false).0);
    OneRun(t, repo, EMPTY, a);
    attempts := [a];
  }

  /** Some runs from an empty directory stage every ready component. */
  ghost predicate SomeRunsStage(t: Tools, repo: Repo) {
    exists attempts :: CoversReady(repo, Runs(t, repo, EMPTY, attempts))
  }

  lemma StagedIsStageable(t: Tools, repo: Repo)
    requires AuthorityOk(repo) && SomeRunsStage(t, repo)
    ensures Stageable(t, repo)
  {
    var attempts :| CoversReady(repo, Runs(t, repo, EMPTY, attempts));
    StagedByRuns(t, repo, attempts);
  }

  lemma StageableIsStaged(t: Tools, repo: Repo)
    requires AuthorityOk(repo) && Stageable(t, repo) && Ready(repo) != []
    ensures SomeRunsStage(t, repo)
  {
    var attempts := SomeRunStages(t, repo);
  }

  /** Some runs from an empty directory stage every ready component if and only if every ready bundle, as
      acquired, passes `_stage_entry`. */
  lemma StagesAllIffStageable(t: Tools, repo: Repo)
    requires AuthorityOk(repo) && Ready(repo) != []
    ensures SomeRunsStage(t, repo) <==> Stageable(t, repo)
  {
    if SomeRunsStage(t, repo) { StagedIsStageable(t, repo); }
    if Stageable(t, repo) { StageableIsStaged(t, repo); }
  }

  lemma OneRun(t: Tools, repo: Repo, disk: Disk, a: Attempt)
    ensures Runs(t, repo, disk, [a]) == Stage(t, repo, disk, a.limit, a.writes, a.fails).0
  {
    assert [a][1..] == [];
  }

  // ---- the exit code ------------------------------------------------------------------------

  ghost function InStep(): Progress -> bool {
    (p: Progress) => p.done == [] <==> p.disk.manifest.None?
  }

  lemma StageOneInStep(t: Tools, repo: Repo, p: Progress, c: string, writes: nat, fails: string -> bool)
    requires InStep()(p)
    ensures InStep()(StageOne(t, repo, p, c, writes, fails).state)
  {
  }

  /** The entries of a run and the manifest on disk are absent together. */
  lemma StageEachInStep(t: Tools, repo: Repo, p: Progress, names: seq<string>, writes: nat, fails: string -> bool)
    requires InStep()(p)
    ensures InStep()(StageEach(t, repo, p, names, writes, fails).state)
  {
    var turn, inv := StageTurn(t, repo, fails), InStep();
    forall q, i, w | inv(q) && 0 <= i < |names| ensures inv(turn(q, names[i], w).state) {
      StageOneInStep(t, repo, q, names[i], w, fails);
    }
    LoopKeeps(turn, inv, p, names, writes);
  }

  lemma RecordedInStep(t: Tools, repo: Repo, disk: Disk)
    requires disk.manifest.Some? ==> ManifestOk(t, repo, disk)
    ensures InStep()(Progress(disk, Recorded(disk)))
  {
    if disk.manifest.Some? {
      var first := disk.manifest.value[0];
      SortMember(disk.manifest.value, EntryName, first);
    }
  }

  lemma {:induction false} LoopRecordsAny(turn: (Progress, string, nat) -> Turn<Progress>, p: Progress,
                                          names: seq<string>, writes: nat)
    requires forall q, c, w :: turn(q, c, w).outcome == Returned ==> |turn(q, c, w).state.done| > |q.done|
    ensures var end := Loop(turn, p, names, writes);
            end.outcome == Returned ==> |end.state.done| >= |p.done| && (names != [] ==> end.state.done != [])
    decreases |names|
  {
    if names == [] {
    } else {
      var first := turn(p, names[0], writes);
      if first.outcome == Returned { LoopRecordsAny(turn, first.state, names[1..], first.writes); }
    }
  }

  lemma StageTurnRecordsAny(t: Tools, repo: Repo, fails: string -> bool, q: Progress, c: string, w: nat)
    ensures var one := StageTurn(t, repo, fails)(q, c, w);
            one.outcome == Returned ==> |one.state.done| > |q.done|
  {
  }

  lemma {:induction false} NothingDone(names: seq<string>)
    ensures Missing(names, []) == names
  {
    if names == [] {
    } else {
      NothingDone(names[1..]);
      assert names == [names[0]] + names[1..];
    }
  }

  /** A returning run ends without a manifest if and only if it found none and nothing is ready. */
  lemma EndsBareIff(t: Tools, repo: Repo, disk: Disk, limit: nat, writes: nat, fails: string -> bool)
    requires Stage(t, repo, disk, limit, writes, fails).1 == Returned
    ensures Stage(t, repo, disk, limit, writes, fails).0.manifest.None? <==> disk.manifest.None? && Ready(repo) == []
  {
    var done, turn := Recorded(disk), StageTurn(t, repo, fails);
    var p, names := Progress(disk, done), Selected(repo, done, limit);
    RecordedInStep(t, repo, disk);
    StageEachInStep(t, repo, p, names, writes, fails);
    forall q, c, w ensures turn(q, c, w).outcome == Returned ==> |turn(q, c, w).state.done| > |q.done| {
      StageTurnRecordsAny(t, repo, fails, q, c, w);
    }
    LoopRecordsAny(turn, p, names, writes);
    NothingDone(Ready(repo));
  }

  /** `stage` exits with 3 exactly when it found no manifest and there are rows, of which none is ready. */
  lemma BlockedIff(t: Tools, repo: Repo, disk: Disk, limit: nat, writes: nat, fails: string -> bool)
    requires Stage(t, repo, disk, limit, writes, fails).1 == Returned
    ensures ExitCode(repo, Stage(t, repo, disk, limit, writes, fails).0) == 3
            <==> && disk.manifest.None? && repo.rows != []
                 && forall i | 0 <= i < |repo.rows| :: repo.rows[i].status != READY
  {
    EndsBareIff(t, repo, disk, limit, writes, fails);
    NoneReadyIff(repo);
  }

  lemma NoneReadyIff(repo: Repo)
    requires AuthorityOk(repo)
    ensures Ready(repo) == [] <==> forall i | 0 <= i < |repo.rows| :: repo.rows[i].status != READY
  {
    ReadyIs(repo);
    var none := Ready(repo) == [];
    if !none { assert Ready(repo)[0] in Ready(repo); }
    forall i | 0 <= i < |repo.rows| && repo.rows[i].status == READY ensures repo.rows[i].component in Ready(repo) {
      LookupHas(repo.rows, repo.rows[i].component);
      var r := Lookup(repo.rows, repo.rows[i].component).value;
      var j :| 0 <= j < |repo.rows| && repo.rows[j] == r;
      assert RowName(repo.rows[i]) == RowName(repo.rows[j]);
    }
    if !none {
      var c := Ready(repo)[0];
      LookupHas(repo.rows, c);
    }
  }
}

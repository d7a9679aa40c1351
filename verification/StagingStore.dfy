/** The stage directory and the repository as the objects that `stage` and `install_staged` update in
    place, each method proved against the function that specifies it. */
module StagingStore {
  import opened Collections
  import opened NameOrder
  import opened Staging
  import StagingRuns

  predicate AllGood(entries: seq<Entry>, ok: Entry -> bool) {
    && KeysDistinct(entries, EntryName) && KeysDistinct(entries, EntryFile)
    && forall i | 0 <= i < |entries| :: ok(entries[i])
  }

  lemma AllGoodPrefix(entries: seq<Entry>, n: nat, ok: Entry -> bool)
    requires n <= |entries|
    ensures AllGood(entries, ok) ==> AllGood(entries[..n], ok)
  {
  }

  ghost predicate Scanned(before: seq<Entry>, ok: Entry -> bool, components: set<string>, names: set<string>) {
    AllGood(before, ok) && components == Keys(before, EntryName) && names == Keys(before, EntryFile)
  }

  lemma ScanOne(before: seq<Entry>, ok: Entry -> bool, components: set<string>, names: set<string>, e: Entry)
    requires Scanned(before, ok, components, names)
    ensures AllGood(before + [e], ok) <==> e.component !in components && e.file !in names && ok(e)
    ensures AllGood(before + [e], ok) ==> Scanned(before + [e], ok, components + {e.component}, names + {e.file})
  {
    KeysSnoc(before, e, EntryName);
    KeysSnoc(before, e, EntryFile);
    KeysDistinctSnoc(before, e, EntryName);
    KeysDistinctSnoc(before, e, EntryFile);
    var after := before + [e];
    assert after[|before|] == e && forall i | 0 <= i < |before| :: after[i] == before[i];
  }

  /** The entry loop of `validate_stage_manifest`. */
  method CheckEntries(entries: seq<Entry>, ok: Entry -> bool) returns (good: bool)
    ensures good <==> AllGood(entries, ok)
  {
    var components: set<string>, names: set<string> := {}, {};
    for n := 0 to |entries|
      invariant Scanned(entries[..n], ok, components, names)
    {
      var e := entries[n];
      ScanOne(entries[..n], ok, components, names, e);
      assert entries[..n + 1] == entries[..n] + [e];
      if e.component in components || e.file in names || !ok(e) {
        AllGoodPrefix(entries, n + 1, ok);
        return false;
      }
      components, names := components + {e.component}, names + {e.file};
    }
    assert entries[..|entries|] == entries;
    return true;
  }

  class StageDirectory {
    var files: map<string, Bytes>
    var manifest: Option<seq<Entry>>

    constructor ()
      ensures Contents() == Disk(map[], None)
    {
      files, manifest := map[], None;
    }

    function Contents(): Disk
      reads this
    {
      Disk(files, manifest)
    }

    method Validate(t: Tools, repo: Repo) returns (ok: bool)
      ensures ok <==> ManifestOk(t, repo, Contents())
    {
      if manifest.None? || manifest.value == [] || !AuthorityOk(repo) { return false; }
      var bundles := files;
      ok := CheckEntries(manifest.value, e => EntryOk(t, repo, bundles, e));
    }

    /** One turn of the loop of `stage`. */
    method StageTurn(t: Tools, repo: Repo, done: seq<Entry>, name: string, allowed: nat, fails: string -> bool)
      returns (done': seq<Entry>, left: nat, outcome: Outcome)
      modifies this
      ensures Turn(Progress(Contents(), done'), left, outcome)
              == StageOne(t, repo, Progress(old(Contents()), done), name, allowed, fails)
    {
      done', left := done, allowed;
      var row := Lookup(repo.rows, name);
      if row.None? { outcome := Raised; return; }
      var file := FileName(row.value.component, Normalized(row.value.selected));
      if file !in files {
        if fails(row.value.component) { outcome := Failed; return; }
        if left == 0 { outcome := Crashed; return; }
        files := files[file := t.acquire(row.value)];
        left := left - 1;
      }
      var entry := StageEntry(t, row.value, file, files[file]);
      if entry.None? { outcome := Raised; return; }
      if left == 0 { outcome := Crashed; return; }
      done' := done + [entry.value];
      manifest := Some(Sort(done', EntryName));
      left, outcome := left - 1, Returned;
    }

    method StageLoop(t: Tools, repo: Repo, done: seq<Entry>, names: seq<string>, allowed: nat, fails: string -> bool)
      returns (done': seq<Entry>, left: nat, outcome: Outcome)
      modifies this
      ensures Turn(Progress(Contents(), done'), left, outcome)
              == StageEach(t, repo, Progress(old(Contents()), done), names, allowed, fails)
    {
      done', left, outcome := done, allowed, Returned;
      ghost var whole := StageEach(t, repo, Progress(Contents(), done), names, allowed, fails);
      for i := 0 to |names|
        invariant outcome == Returned
        invariant StageEach(t, repo, Progress(Contents(), done'), names[i..], left, fails) == whole
      {
        assert names[i..][1..] == names[i + 1..] && names[i..][0] == names[i];
        done', left, outcome := StageTurn(t, repo, done', names[i], left, fails);
        if outcome != Returned { return; }
      }
    }

    /** `stage` */
    method Stage(t: Tools, repo: Repo, limit: nat, allowed: nat, fails: string -> bool)
      returns (outcome: Outcome, code: int)
      modifies this
      ensures (Contents(), outcome) == Staging.Stage(t, repo, old(Contents()), limit, allowed, fails)
      ensures outcome == Returned ==> code == ExitCode(repo, Contents())
    {
      if !AuthorityOk(repo) { return Raised, 1; }
      if manifest.Some? {
        var valid := Validate(t, repo);
        if !valid { return Raised, 1; }
      }
      StagingRuns.RecordedInStep(t, repo, Contents());
      var done := Recorded(Contents());
      var names := Selected(repo, done, limit);
      StagingRuns.StageEachInStep(t, repo, Progress(Contents(), done), names, allowed, fails);
      var done', left, end := StageLoop(t, repo, done, names, allowed, fails);
      if end != Returned { return end, 1; }
      if done' == [] { return Returned, if AwaitsReview(repo.rows) then 3 else 0; }
      var valid := Validate(t, repo);
      if !valid { return Raised, 1; }
      return Returned, 0;
    }
  }

  lemma WithoutFrom(rows: seq<Row>, i: nat, name: string, kept: seq<Row>)
    requires i < |rows|
    ensures kept + Without(rows[i..], name)
            == kept + (if rows[i].component == name then [] else [rows[i]]) + Without(rows[i + 1..], name)
  {
    assert rows[i..][0] == rows[i] && rows[i..][1..] == rows[i + 1..];
  }

  class Repository {
    var rows: seq<Row>
    var components: map<string, Component>
    var locks: map<(string, string), Lock>
    var log: seq<Entry>

    constructor (repo: Repo)
      ensures Value() == Ledger(repo, [])
    {
      rows, components, locks, log := repo.rows, repo.components, repo.locks, [];
    }

    function Value(): Ledger
      reads this
    {
      Ledger(Repo(rows, components, locks), log)
    }

    method RetireRow(name: string)
      modifies this`rows
      ensures rows == Without(old(rows), name)
    {
      var kept: seq<Row> := [];
      for i := 0 to |rows|
        invariant rows == old(rows) && kept + Without(rows[i..], name) == Without(rows, name)
      {
        WithoutFrom(rows, i, name, kept);
        if rows[i].component != name { kept := kept + [rows[i]]; }
      }
      rows := kept;
    }

    /** One turn of the loop of `install_staged`. */
    method InstallTurn(t: Tools, files: map<string, Bytes>, e: Entry, allowed: nat, fails: string -> bool)
      returns (left: nat, outcome: Outcome)
      modifies this
      ensures Turn(Value(), left, outcome) == InstallOne(t, files, old(Value()), e, allowed, fails)
    {
      left := allowed;
      if LockKey(e) in locks {
        if locks[LockKey(e)] == LockFor(e) { outcome := Returned; } else { outcome := Raised; }
        return;
      }
      if !StillVerifies(t, files, e) || e.component !in components { outcome := Raised; return; }
      if left == 0 { outcome := Crashed; return; }
      locks := locks[LockKey(e) := LockFor(e)];
      components := components[e.component := components[e.component].(resolved := true)];
      RetireRow(e.component);
      log := log + [e];
      left := left - 1;
      if fails(e.component) { outcome := Failed; } else { outcome := Returned; }
    }

    /** `install_staged` */
    method InstallStaged(t: Tools, stage: StageDirectory, allowed: nat, fails: string -> bool)
      returns (outcome: Outcome)
      modifies this
      ensures stage.Contents() == old(stage.Contents())
      ensures var end := Staging.InstallStaged(t, old(Value()), stage.Contents(), allowed, fails);
              Value() == end.state && outcome == end.outcome
    {
      var valid := stage.Validate(t, Repo(rows, components, locks));
      if !valid { return Raised; }
      var files, entries := stage.files, Sort(stage.manifest.value, EntryName);
      var left := allowed;
      ghost var whole := InstallEach(t, files, Value(), entries, allowed, fails);
      for i := 0 to |entries|
        invariant stage.Contents() == old(stage.Contents())
        invariant InstallEach(t, files, Value(), entries[i..], left, fails) == whole
      {
        assert entries[i..][1..] == entries[i + 1..] && entries[i..][0] == entries[i];
        left, outcome := InstallTurn(t, files, entries[i], left, fails);
        if outcome != Returned { return; }
      }
      return Returned;
    }
  }
}

/** What staging and installing keep, wherever a run is cut short. */
module StagingSafety {
  import opened Collections
  import opened Text
  import opened NameOrder
  import opened Staging

  // ---- versions and file names --------------------------------------------------------------

  lemma PartDigits(v: string, a: nat, b: nat)
    requires a <= b <= |v| && Digits(v[a..b])
    ensures a < b && forall k | a <= k < b :: '0' <= v[k] <= '9'
  {
    assert forall k | a <= k < b :: v[k] == v[a..b][k - a];
  }

  lemma ExactChars(v: string)
    requires Exact(v)
    ensures v != "" && (forall k | 0 <= k < |v| :: v[k] == '.' || '0' <= v[k] <= '9')
    ensures '0' <= v[0] <= '9' && '0' <= v[|v| - 1] <= '9'
  {
    var i, j :| 0 <= i < j < |v| && v[i] == '.' == v[j] && Digits(v[..i]) && Digits(v[i + 1..j]) && Digits(v[j + 1..]);
    assert v[..i] == v[0..i] && v[j + 1..] == v[j + 1..|v|];
    PartDigits(v, 0, i);
    PartDigits(v, i + 1, j);
    PartDigits(v, j + 1, |v|);
    forall k | 0 <= k < |v| ensures v[k] == '.' || '0' <= v[k] <= '9' {
      assert k < i || k == i || i < k < j || k == j || j < k;
    }
  }

  lemma ExactNormalized(v: string)
    requires Exact(v)
    ensures Normalized(v) == v
  {
    ExactChars(v);
    TrimTight(v, IsPythonSpace);
  }

  lemma {:induction false} LastDash(a: string, v: string, b: string, u: string)
    requires a + "-" + v == b + "-" + u && '-' !in v && '-' !in u
    ensures a == b && v == u
  {
    var s, r := a + "-" + v, b + "-" + u;
    assert s[|a|] == '-' && r[|b|] == '-';
    assert forall k | |a| < k < |s| :: s[k] == v[k - |a| - 1] && s[k] in v;
    assert forall k | |b| < k < |r| :: r[k] == u[k - |b| - 1] && r[k] in u;
    assert |a| == |b|;
    assert a == s[..|a|] && b == r[..|b|];
    assert v == s[|a| + 1..] && u == r[|b| + 1..];
  }

  /** A version holds no dash, so a bundle's file name tells its component and version. */
  lemma FileNameTells(a: string, v: string, b: string, u: string)
    requires Exact(v) && Exact(u) && FileName(a, v) == FileName(b, u)
    ensures a == b && v == u
  {
    ExactChars(v);
    ExactChars(u);
    var x, y := a + "-" + v, b + "-" + u;
    assert x == (x + ".zip")[..|x + ".zip"| - 4] && y == (y + ".zip")[..|y + ".zip"| - 4];
    LastDash(a, v, b, u);
  }

  lemma FilesDistinct(t: Tools, repo: Repo, files: map<string, Bytes>, entries: seq<Entry>)
    requires KeysDistinct(entries, EntryName) && forall i | 0 <= i < |entries| :: EntryOk(t, repo, files, entries[i])
    ensures KeysDistinct(entries, EntryFile) && EntriesOk(t, repo, files, entries)
  {
    forall i, j | 0 <= i < j < |entries| ensures EntryFile(entries[i]) != EntryFile(entries[j]) {
      var a, b := entries[i], entries[j];
      assert EntryName(a) != EntryName(b);
      if a.file == b.file { FileNameTells(a.component, Normalized(a.version), b.component, Normalized(b.version)); }
    }
  }

  // ---- the authority ------------------------------------------------------------------------

  lemma {:induction false} LookupHas(rows: seq<Row>, name: string)
    ensures var r := Lookup(rows, name);
            && (r.Some? ==> r.value in rows && r.value.component == name)
            && (r.None? ==> forall i | 0 <= i < |rows| :: rows[i].component != name)
  {
    if rows == [] {
    } else {
      LookupHas(rows[1..], name);
    }
  }

  lemma LookupIs(rows: seq<Row>, i: nat)
    requires KeysDistinct(rows, RowName) && i < |rows|
    ensures Lookup(rows, rows[i].component) == Some(rows[i])
  {
    LookupHas(rows, rows[i].component);
    var j :| 0 <= j < |rows| && rows[j] == Lookup(rows, rows[i].component).value;
    assert RowName(rows[i]) == RowName(rows[j]);
  }

  lemma {:induction false} ReadyHas(rows: seq<Row>, name: string)
    ensures name in ReadyNames(rows)
            <==> exists i :: 0 <= i < |rows| && rows[i].component == name && rows[i].status == READY
  {
    if rows == [] {
    } else {
      ReadyHas(rows[1..], name);
      if i :| 0 <= i < |rows| && rows[i].component == name && rows[i].status == READY {
        assert i > 0 ==> rows[1..][i - 1] == rows[i];
      }
      if i :| 0 <= i < |rows[1..]| && rows[1..][i].component == name && rows[1..][i].status == READY {
        assert rows[i + 1] == rows[1..][i];
      }
    }
  }

  lemma {:induction false} ReadyDistinct(rows: seq<Row>)
    requires KeysDistinct(rows, RowName)
    ensures KeysDistinct(ReadyNames(rows), Same)
  {
    if rows == [] {
    } else {
      var rest := ReadyNames(rows[1..]);
      ReadyDistinct(rows[1..]);
      forall i | 0 <= i < |rest| ensures rest[i] != rows[0].component {
        ReadyHas(rows[1..], rest[i]);
        var k :| 0 <= k < |rows[1..]| && rows[1..][k].component == rest[i] && rows[1..][k].status == READY;
        assert RowName(rows[0]) != RowName(rows[k + 1]);
      }
    }
  }

  /** The queue names, in order, exactly the ready rows. */
  lemma ReadyIs(repo: Repo)
    requires AuthorityOk(repo)
    ensures Increasing(Ready(repo), Same)
    ensures forall c :: c in Ready(repo) <==> Lookup(repo.rows, c).Some? && Lookup(repo.rows, c).value.status == READY
  {
    ReadyDistinct(repo.rows);
    SortIncreasing(ReadyNames(repo.rows), Same);
    forall c ensures c in Ready(repo) <==> Lookup(repo.rows, c).Some? && Lookup(repo.rows, c).value.status == READY {
      SortMember(ReadyNames(repo.rows), Same, c);
      ReadyHas(repo.rows, c);
      LookupHas(repo.rows, c);
      if i :| 0 <= i < |repo.rows| && repo.rows[i].component == c && repo.rows[i].status == READY {
        LookupIs(repo.rows, i);
      }
      if Lookup(repo.rows, c).Some? {
        var i :| 0 <= i < |repo.rows| && repo.rows[i] == Lookup(repo.rows, c).value;
      }
    }
  }

  // ---- one entry ----------------------------------------------------------------------------

  /** Whatever `_stage_entry` returns for a row of the authority is acceptable to
      `validate_stage_manifest`. */
  lemma EntryAcceptable(t: Tools, repo: Repo, files: map<string, Bytes>, name: string, file: string)
    requires AuthorityOk(repo) && Lookup(repo.rows, name).Some? && file in files
    requires StageEntry(t, Lookup(repo.rows, name).value, file, files[file]).Some?
    ensures var e := StageEntry(t, Lookup(repo.rows, name).value, file, files[file]).value;
            EntryOk(t, repo, files, e) && e.component == name
  {
    var r := Lookup(repo.rows, name).value;
    LookupHas(repo.rows, name);
    var i :| 0 <= i < |repo.rows| && repo.rows[i] == r;
    assert RowOk(repo, repo.rows[i]);
    ExactNormalized(Normalized(r.selected));
  }

  /** Bundles are only ever added, so an entry stays good. */
  lemma EntryStaysOk(t: Tools, repo: Repo, files: map<string, Bytes>, file: string, content: Bytes, e: Entry)
    requires EntryOk(t, repo, files, e) && file !in files
    ensures EntryOk(t, repo, files[file := content], e)
  {
  }

  // ---- the manifest -------------------------------------------------------------------------

  lemma {:induction false} ListedIff(entries: seq<Entry>, name: string)
    ensures Listed(entries, name) <==> exists i :: 0 <= i < |entries| && entries[i].component == name
  {
    if entries == [] {
    } else {
      ListedIff(entries[1..], name);
      if i :| 0 <= i < |entries| && entries[i].component == name { assert i > 0 ==> entries[1..][i - 1] == entries[i]; }
      if i :| 0 <= i < |entries[1..]| && entries[1..][i].component == name { assert entries[i + 1] == entries[1..][i]; }
    }
  }

  /** Sorting does not matter to validity. */
  lemma SortedOk(t: Tools, repo: Repo, files: map<string, Bytes>, entries: seq<Entry>)
    requires KeysDistinct(entries, EntryName) && forall i | 0 <= i < |entries| :: EntryOk(t, repo, files, entries[i])
    ensures EntriesOk(t, repo, files, Sort(entries, EntryName)) && |Sort(entries, EntryName)| == |entries|
    ensures Increasing(Sort(entries, EntryName), EntryName)
  {
    var s := Sort(entries, EntryName);
    SortIncreasing(entries, EntryName);
    IncreasingDistinct(s, EntryName);
    if entries != [] { SortMember(entries, EntryName, entries[0]); }
    forall i | 0 <= i < |s| ensures EntryOk(t, repo, files, s[i]) {
      SortMember(entries, EntryName, s[i]);
      assert s[i] in entries;
    }
    FilesDistinct(t, repo, files, s);
  }

  /** What holds between the turns of the stage loop. */
  ghost predicate Checkpoint(t: Tools, repo: Repo, disk: Disk, done: seq<Entry>) {
    && KeysDistinct(done, EntryName) && (forall i | 0 <= i < |done| :: EntryOk(t, repo, disk.files, done[i]))
    && (disk.manifest.Some? ==> ManifestOk(t, repo, disk))
    && (done != [] ==> disk.manifest.Some?)
  }

  ghost predicate Fits(repo: Repo, done: seq<Entry>, names: seq<string>) {
    && KeysDistinct(names, Same) && forall i | 0 <= i < |names| :: !Listed(done, names[i])
  }

  lemma FetchKeeps(t: Tools, repo: Repo, disk: Disk, done: seq<Entry>, r: Row, writes: nat, fails: string -> bool)
    requires Checkpoint(t, repo, disk, done)
    ensures var f := Fetch(t, r, disk, writes, fails);
            Checkpoint(t, repo, f.0, done) && f.0.manifest == disk.manifest && Grows(disk, f.0)
  {
    var f, file := Fetch(t, r, disk, writes, fails), FileName(r.component, Normalized(r.selected));
    if f.0.files != disk.files {
      forall i | 0 <= i < |done|
        ensures EntryOk(t, repo, f.0.files, done[i])
      {
        EntryStaysOk(t, repo, disk.files, file, t.acquire(r), done[i]);
      }
      if disk.manifest.Some? {
        var m := disk.manifest.value;
        forall i | 0 <= i < |m|
          ensures EntryOk(t, repo, f.0.files, m[i])
        {
          EntryStaysOk(t, repo, disk.files, file, t.acquire(r), m[i]);
        }
      }
    }
  }

  lemma AppendDistinct(done: seq<Entry>, e: Entry)
    requires KeysDistinct(done, EntryName) && !Listed(done, e.component)
    ensures KeysDistinct(done + [e], EntryName)
  {
    ListedIff(done, e.component);
  }

  lemma RecordKeeps(t: Tools, repo: Repo, disk: Disk, done: seq<Entry>, e: Entry)
    requires AuthorityOk(repo) && Checkpoint(t, repo, disk, done) && EntryOk(t, repo, disk.files, e)
             && !Listed(done, e.component)
    ensures Checkpoint(t, repo, disk.(manifest := Some(Sort(done + [e], EntryName))), done + [e])
  {
    AppendDistinct(done, e);
    SortedOk(t, repo, disk.files, done + [e]);
  }

  lemma FitsRest(repo: Repo, done: seq<Entry>, names: seq<string>, e: Entry)
    requires names != [] && Fits(repo, done, names) && e.component == names[0]
    ensures Fits(repo, done + [e], names[1..])
  {
    forall i | 0 <= i < |names[1..]| ensures !Listed(done + [e], names[1..][i]) {
      assert Same(names[0]) != Same(names[i + 1]) && !Listed(done, names[i + 1]);
      ListedIff(done, names[i + 1]);
      ListedIff(done + [e], names[i + 1]);
    }
  }

  /** Nothing that was on disk is gone or changed. */
  ghost predicate Grows(before: Disk, after: Disk) {
    forall k | k in before.files :: k in after.files && after.files[k] == before.files[k]
  }

  lemma StageOneKeeps(t: Tools, repo: Repo, p: Progress, name: string, writes: nat, fails: string -> bool)
    requires AuthorityOk(repo) && Checkpoint(t, repo, p.disk, p.done) && !Listed(p.done, name)
    ensures var turn := StageOne(t, repo, p, name, writes, fails);
            && Checkpoint(t, repo, turn.state.disk, turn.state.done) && Grows(p.disk, turn.state.disk)
            && (turn.outcome == Returned ==> exists e: Entry :: e.component == name && turn.state.done == p.done + [e])
            && (turn.outcome != Returned ==> turn.state.done == p.done)
  {
    if Lookup(repo.rows, name).Some? {
      var row := Lookup(repo.rows, name).value;
      LookupHas(repo.rows, name);
      FetchKeeps(t, repo, p.disk, p.done, row, writes, fails);
      var f, file := Fetch(t, row, p.disk, writes, fails), FileName(row.component, Normalized(row.selected));
      if f.2 == Returned && file in f.0.files && StageEntry(t, row, file, f.0.files[file]).Some? && f.1 > 0 {
        var e := StageEntry(t, row, file, f.0.files[file]).value;
        EntryAcceptable(t, repo, f.0.files, name, file);
        RecordKeeps(t, repo, f.0, p.done, e);
      }
    }
  }

  /** At every point where a staging run can end, the manifest on disk is valid. */
  lemma {:induction false} StageEachKeeps(t: Tools, repo: Repo, p: Progress, names: seq<string>, writes: nat,
                                          fails: string -> bool)
    requires AuthorityOk(repo) && Checkpoint(t, repo, p.disk, p.done) && Fits(repo, p.done, names)
    ensures var end := StageEach(t, repo, p, names, writes, fails).state;
            Checkpoint(t, repo, end.disk, end.done) && Grows(p.disk, end.disk)
    decreases |names|
  {
    if names == [] {
    } else {
      StageOneKeeps(t, repo, p, names[0], writes, fails);
      var turn := StageOne(t, repo, p, names[0], writes, fails);
      if turn.outcome == Returned {
        var e: Entry :| e.component == names[0] && turn.state.done == p.done + [e];
        FitsRest(repo, p.done, names, e);
        StageEachKeeps(t, repo, turn.state, names[1..], turn.writes, fails);
      }
    }
  }

  lemma {:induction false} MissingIs(names: seq<string>, done: seq<Entry>)
    requires KeysDistinct(names, Same)
    ensures KeysDistinct(Missing(names, done), Same)
    ensures forall c :: c in Missing(names, done) <==> c in names && !Listed(done, c)
  {
    if names == [] {
    } else {
      MissingIs(names[1..], done);
      assert forall i | 0 <= i < |names[1..]| :: Same(names[0]) != Same(names[1..][i]);
      assert names == [names[0]] + names[1..];
    }
  }

  lemma SelectedFits(repo: Repo, done: seq<Entry>, limit: nat)
    requires AuthorityOk(repo)
    ensures Fits(repo, done, Selected(repo, done, limit))
    ensures forall c | c in Selected(repo, done, limit) :: c in Ready(repo)
  {
    ReadyIs(repo);
    IncreasingDistinct(Ready(repo), Same);
    MissingIs(Ready(repo), done);
    var all, some := Missing(Ready(repo), done), Selected(repo, done, limit);
    forall i | 0 <= i < |some|
      ensures !Listed(done, some[i]) && some[i] in Ready(repo)
    {
      assert some[i] == all[i] && all[i] in all;
    }
  }

  lemma StartIsCheckpoint(t: Tools, repo: Repo, disk: Disk)
    requires disk.manifest.Some? ==> ManifestOk(t, repo, disk)
    ensures Checkpoint(t, repo, disk, Recorded(disk))
  {
    if disk.manifest.Some? {
      SortedOk(t, repo, disk.files, disk.manifest.value);
      IncreasingDistinct(Recorded(disk), EntryName);
    }
  }

  /** The manifest on disk, if there is one, is valid. */
  predicate DiskOk(t: Tools, repo: Repo, disk: Disk) {
    disk.manifest.Some? ==> ManifestOk(t, repo, disk)
  }

  /** Crash safety of staging: from any directory whose manifest is valid, whatever the limit, however
      many writes happen before the run is cut short and whichever acquisitions fail, the manifest on
      disk is valid, and every bundle that was there is there unchanged. */
  lemma StageKeepsValid(t: Tools, repo: Repo, disk: Disk, limit: nat, writes: nat, fails: string -> bool)
    requires DiskOk(t, repo, disk)
    ensures var end := Stage(t, repo, disk, limit, writes, fails);
            DiskOk(t, repo, end.0) && Grows(disk, end.0)
  {
    if AuthorityOk(repo) {
      var done := Recorded(disk);
      StartIsCheckpoint(t, repo, disk);
      SelectedFits(repo, done, limit);
      StageEachKeeps(t, repo, Progress(disk, done), Selected(repo, done, limit), writes, fails);
    }
  }

  // ---- install ------------------------------------------------------------------------------

  lemma {:induction false} WithoutIs(rows: seq<Row>, name: string)
    requires KeysDistinct(rows, RowName)
    ensures KeysDistinct(Without(rows, name), RowName)
    ensures forall r :: r in Without(rows, name) <==> r in rows && r.component != name
  {
    if rows == [] {
    } else {
      var rest := Without(rows[1..], name);
      WithoutIs(rows[1..], name);
      assert rows == [rows[0]] + rows[1..];
      forall i | 0 <= i < |rest| ensures rest[i].component != rows[0].component {
        assert rest[i] in rows[1..];
        var k :| 0 <= k < |rows[1..]| && rows[1..][k] == rest[i];
        assert RowName(rows[0]) != RowName(rows[k + 1]);
      }
    }
  }

  lemma {:induction false} LookupWithout(rows: seq<Row>, name: string, c: string)
    ensures Lookup(Without(rows, name), c) == if c == name then None else Lookup(rows, c)
  {
    if rows == [] {
    } else {
      LookupWithout(rows[1..], name, c);
      var rest := Without(rows[1..], name);
      assert Without(rows, name) == if rows[0].component == name then rest else [rows[0]] + rest;
    }
  }

  /** An install leaves the authority valid and every manifest entry valid. */
  lemma InstallKeepsAuthority(repo: Repo, e: Entry)
    requires AuthorityOk(repo) && e.component in repo.components
    ensures AuthorityOk(Install(repo, e))
  {
    var r := Install(repo, e);
    WithoutIs(repo.rows, e.component);
    forall i | 0 <= i < |r.rows| ensures RowOk(r, r.rows[i]) {
      assert r.rows[i] in repo.rows;
      var k :| 0 <= k < |repo.rows| && repo.rows[k] == r.rows[i];
      assert RowOk(repo, repo.rows[k]);
    }
    forall c | c in r.components && !r.components[c].resolved ensures Lookup(r.rows, c).Some? {
      LookupWithout(repo.rows, e.component, c);
    }
  }

  lemma InstallKeepsEntry(t: Tools, repo: Repo, files: map<string, Bytes>, e: Entry, x: Entry)
    requires AuthorityOk(repo) && e.component in repo.components && EntryOk(t, repo, files, x)
    ensures EntryOk(t, Install(repo, e), files, x)
  {
    LookupWithout(repo.rows, e.component, x.component);
  }

  lemma InstallKeepsManifest(t: Tools, repo: Repo, disk: Disk, e: Entry)
    requires ManifestOk(t, repo, disk) && e.component in repo.components
    ensures ManifestOk(t, Install(repo, e), disk)
  {
    var m := disk.manifest.value;
    InstallKeepsAuthority(repo, e);
    forall i | 0 <= i < |m|
      ensures EntryOk(t, Install(repo, e), disk.files, m[i])
    {
      InstallKeepsEntry(t, repo, disk.files, e, m[i]);
    }
  }

  /** Everything in the log has its lock, and nothing is in it twice. */
  predicate LogOk(repo: Repo, log: seq<Entry>) {
    && (forall i | 0 <= i < |log| :: LockKey(log[i]) in repo.locks)
    && (forall i, j | 0 <= i < j < |log| :: LockKey(log[i]) != LockKey(log[j]))
  }

  ghost predicate LocksKept(before: Repo, after: Repo) {
    forall k | k in before.locks :: k in after.locks && after.locks[k] == before.locks[k]
  }

  lemma LogAfterInstall(repo: Repo, log: seq<Entry>, e: Entry)
    requires LogOk(repo, log) && LockKey(e) !in repo.locks && e.component in repo.components
    ensures LogOk(Install(repo, e), log + [e]) && LocksKept(repo, Install(repo, e)) && Installed(Install(repo, e), e)
  {
  }

  lemma InstallOneKeeps(t: Tools, disk: Disk, l: Ledger, e: Entry, writes: nat, fails: string -> bool)
    requires ManifestOk(t, l.repo, disk) && LogOk(l.repo, l.log)
    ensures var turn := InstallOne(t, disk.files, l, e, writes, fails);
            && ManifestOk(t, turn.state.repo, disk) && LogOk(turn.state.repo, turn.state.log) && l.log <= turn.state.log
            && LocksKept(l.repo, turn.state.repo)
            && (turn.outcome == Returned ==> Installed(turn.state.repo, e))
  {
    if InstallOne(t, disk.files, l, e, writes, fails).state != l {
      InstallKeepsManifest(t, l.repo, disk, e);
      LogAfterInstall(l.repo, l.log, e);
    }
  }

  /** Wherever an install run ends: the manifest is still valid, locks are only added, nothing was
      installed twice, and a run that returns normally leaves every entry with its matching lock. */
  lemma {:induction false} InstallEachKeeps(t: Tools, disk: Disk, l: Ledger, entries: seq<Entry>, writes: nat,
                                            fails: string -> bool)
    requires ManifestOk(t, l.repo, disk) && LogOk(l.repo, l.log)
    ensures var end := InstallEach(t, disk.files, l, entries, writes, fails);
            && ManifestOk(t, end.state.repo, disk) && LogOk(end.state.repo, end.state.log) && l.log <= end.state.log
            && LocksKept(l.repo, end.state.repo)
            && (end.outcome == Returned ==> forall i | 0 <= i < |entries| :: Installed(end.state.repo, entries[i]))
    decreases |entries|
  {
    if entries == [] {
    } else {
      InstallOneKeeps(t, disk, l, entries[0], writes, fails);
      var turn := InstallOne(t, disk.files, l, entries[0], writes, fails);
      if turn.outcome == Returned { InstallEachKeeps(t, disk, turn.state, entries[1..], turn.writes, fails); }
    }
  }

  /** Exactly-once installation: over an interrupted or finished run the manifest stays valid, the log
      never repeats, and a normal return leaves every entry with its matching lock. */
  lemma InstallStagedKeeps(t: Tools, l: Ledger, disk: Disk, writes: nat, fails: string -> bool)
    requires LogOk(l.repo, l.log)
    ensures var end := InstallStaged(t, l, disk, writes, fails);
            && (ManifestOk(t, l.repo, disk) ==> ManifestOk(t, end.state.repo, disk))
            && (AuthorityOk(l.repo) ==> AuthorityOk(end.state.repo))
            && LogOk(end.state.repo, end.state.log) && l.log <= end.state.log
            && (end.outcome == Returned ==>
                  disk.manifest.Some? && forall e | e in disk.manifest.value :: Installed(end.state.repo, e))
  {
    if ManifestOk(t, l.repo, disk) {
      InstallEachKeeps(t, disk, l, Sort(disk.manifest.value, EntryName), writes, fails);
      var end := InstallStaged(t, l, disk, writes, fails);
      if end.outcome == Returned {
        forall e | e in disk.manifest.value
          ensures Installed(end.state.repo, e)
        {
          SortMember(disk.manifest.value, EntryName, e);
        }
      }
    }
  }

  // ---- any mixture of runs ------------------------------------------------------------------

  datatype Act =
    | StageRun(limit: nat, writes: nat, fails: string -> bool)
    | InstallRun(writes: nat, fails: string -> bool)

  datatype System = System(ledger: Ledger, disk: Disk)

  function Step(t: Tools, s: System, act: Act): System {
    match act
    case StageRun(limit, writes, fails) => s.(disk := Stage(t, s.ledger.repo, s.disk, limit, writes, fails).0)
    case InstallRun(writes, fails) => s.(ledger := InstallStaged(t, s.ledger, s.disk, writes, fails).state)
  }

  function Steps(t: Tools, s: System, acts: seq<Act>): System
    decreases |acts|
  {
    if acts == [] then s else Steps(t, Step(t, s, acts[0]), acts[1..])
  }

  predicate SystemOk(t: Tools, s: System) {
    AuthorityOk(s.ledger.repo) && DiskOk(t, s.ledger.repo, s.disk) && LogOk(s.ledger.repo, s.ledger.log)
  }

  lemma StepKeeps(t: Tools, s: System, act: Act)
    requires SystemOk(t, s)
    ensures SystemOk(t, Step(t, s, act)) && s.ledger.log <= Step(t, s, act).ledger.log
  {
    match act
    case StageRun(limit, writes, fails) => StageKeepsValid(t, s.ledger.repo, s.disk, limit, writes, fails);
    case InstallRun(writes, fails) => InstallStagedKeeps(t, s.ledger, s.disk, writes, fails);
  }

  /** Over any mixture of staging and install runs, each cut short anywhere: the authority and the
      manifest stay valid and nothing is installed twice. */
  lemma {:induction false} StepsKeep(t: Tools, s: System, acts: seq<Act>)
    requires SystemOk(t, s)
    ensures SystemOk(t, Steps(t, s, acts)) && s.ledger.log <= Steps(t, s, acts).ledger.log
    decreases |acts|
  {
    if acts == [] {
    } else {
      StepKeeps(t, s, acts[0]);
      StepsKeep(t, Step(t, s, acts[0]), acts[1..]);
    }
  }
}

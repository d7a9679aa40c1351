/** What the authority, an accepted manifest and a staged bundle say, and that what was staged installs. */
module StagingLaws {
  import opened Collections
  import opened NameOrder
  import opened Staging
  import opened StagingSafety
  import opened StagingRuns
  import opened StagingInstalls
  import Pins = ImagePins

  // ---- the authority and the manifest -------------------------------------------------------

  /** A valid authority has a row for exactly the unresolved components, one for each. */
  lemma RowsAreUnresolved(repo: Repo, c: string)
    requires AuthorityOk(repo)
    ensures (exists i | 0 <= i < |repo.rows| :: repo.rows[i].component == c)
            <==> c in repo.components && !repo.components[c].resolved
    ensures forall i, j | 0 <= i < j < |repo.rows| :: repo.rows[i].component != repo.rows[j].component
  {
    if i :| 0 <= i < |repo.rows| && repo.rows[i].component == c { assert RowOk(repo, repo.rows[i]); }
    if c in repo.components && !repo.components[c].resolved {
      LookupHas(repo.rows, c);
      var r := Lookup(repo.rows, c).value;
      var i :| 0 <= i < |repo.rows| && repo.rows[i] == r;
      assert repo.rows[i].component == c;
    }
    forall i, j | 0 <= i < j < |repo.rows| ensures repo.rows[i].component != repo.rows[j].component {
      assert RowName(repo.rows[i]) != RowName(repo.rows[j]);
    }
  }

  /** Letters, digits and dashes, not a dash first. */
  predicate PlainName(name: string) {
    && 1 <= |name| <= 63 && name[0] != '-'
    && forall i | 0 <= i < |name| :: name[i] == '-' || 'a' <= name[i] <= 'z' || '0' <= name[i] <= '9'
  }

  lemma NameIsPlain(name: string)
    requires NameOk(name)
    ensures PlainName(name)
  {
    forall i | 0 <= i < |name| ensures name[i] == '-' || 'a' <= name[i] <= 'z' || '0' <= name[i] <= '9' {
      assert name[i] in name;
    }
  }

  lemma ReadyRowIs(repo: Repo, i: nat)
    requires AuthorityOk(repo) && i < |repo.rows|
    ensures var r := repo.rows[i];
            && PlainName(r.component)
            && (r.status == READY ==>
                  && r.component in repo.components && repo.components[r.component].release == Normalized(r.selected)
                  && Exact(Normalized(r.selected))
                  && r.upstream != "" && Normalized(r.upstream) == Normalized(r.selected))
  {
    assert RowOk(repo, repo.rows[i]);
    NameIsPlain(repo.rows[i].component);
  }

  /** The ready row says what the entry says. */
  predicate Backs(r: Row, e: Entry) {
    && r.component == e.component && r.status == "ready-for-acquisition"
    && Normalized(r.selected) == Normalized(e.version) && r.source == e.source && r.upstream == e.upstream
  }

  /** An accepted entry is of the component's release, names its file and key after it, and records the
      digest of the bundle on disk; while the component is unresolved a ready row says the same. */
  lemma EntryIsBacked(t: Tools, repo: Repo, disk: Disk, e: Entry)
    requires ManifestOk(t, repo, disk) && e in disk.manifest.value
    ensures PlainName(e.component) && Exact(Normalized(e.version)) && e.component in repo.components
    ensures Normalized(repo.components[e.component].release) == Normalized(e.version)
    ensures e.file == e.component + "-" + Normalized(e.version) + ".zip"
    ensures e.key == e.component + "/" + Normalized(e.version)
    ensures e.file in disk.files && t.hash(disk.files[e.file]) == e.digest
    ensures Pins.IsDigest(e.digest) && Pins.IsDigest(e.artifact)
    ensures !repo.components[e.component].resolved ==>
              exists i | 0 <= i < |repo.rows| :: Backs(repo.rows[i], e)
    ensures forall x | x in disk.manifest.value && x.component == e.component :: x == e
  {
    var m := disk.manifest.value;
    var i :| 0 <= i < |m| && m[i] == e;
    assert EntryOk(t, repo, disk.files, m[i]);
    NameIsPlain(e.component);
    if !repo.components[e.component].resolved { RowBacks(repo, e); }
    OnlyEntry(m, i);
  }

  lemma RowBacks(repo: Repo, e: Entry)
    requires AuthorityOk(repo) && RowMatches(Lookup(repo.rows, e.component), e, Normalized(e.version))
    ensures exists i | 0 <= i < |repo.rows| :: Backs(repo.rows[i], e)
  {
    LookupHas(repo.rows, e.component);
    var r := Lookup(repo.rows, e.component).value;
    var j :| 0 <= j < |repo.rows| && repo.rows[j] == r;
    ReadyRowIs(repo, j);
    assert Backs(repo.rows[j], e);
  }

  lemma OnlyEntry(m: seq<Entry>, i: nat)
    requires KeysDistinct(m, EntryName) && i < |m|
    ensures forall x | x in m && x.component == m[i].component :: x == m[i]
  {
    forall x | x in m && x.component == m[i].component ensures x == m[i] {
      var j :| 0 <= j < |m| && m[j] == x;
      assert EntryName(m[i]) == EntryName(m[j]);
    }
  }

  // ---- what was acquired --------------------------------------------------------------------

  /** The bundle is that of a ready row whose acquisition does not fail. */
  ghost predicate AcquiredFor(t: Tools, repo: Repo, fails: string -> bool, file: string, content: Bytes) {
    exists i | 0 <= i < |repo.rows| ::
      && repo.rows[i].status == READY && FileOf(repo.rows[i]) == file
      && !fails(repo.rows[i].component) && content == t.acquire(repo.rows[i])
  }

  ghost function OnlyAcquired(t: Tools, repo: Repo, fails: string -> bool, before: Disk): Progress -> bool {
    (p: Progress) =>
      && (forall f | f in before.files :: f in p.disk.files && p.disk.files[f] == before.files[f])
      && (forall f | f in p.disk.files && f !in before.files :: AcquiredFor(t, repo, fails, f, p.disk.files[f]))
  }

  /** What a turn does to the bundles: nothing, or it adds the one acquired for its row. */
  lemma StageOneFiles(t: Tools, repo: Repo, p: Progress, c: string, writes: nat, fails: string -> bool)
    requires Lookup(repo.rows, c).Some?
    ensures var r, files := Lookup(repo.rows, c).value, StageOne(t, repo, p, c, writes, fails).state.disk.files;
            || files == p.disk.files
            || (FileOf(r) !in p.disk.files && !fails(r.component) && files == p.disk.files[FileOf(r) := t.acquire(r)])
  {
  }

  lemma StageOneAcquires(t: Tools, repo: Repo, p: Progress, c: string, writes: nat, fails: string -> bool, before: Disk)
    requires AuthorityOk(repo) && c in Ready(repo) && OnlyAcquired(t, repo, fails, before)(p)
    ensures OnlyAcquired(t, repo, fails, before)(StageOne(t, repo, p, c, writes, fails).state)
  {
    ReadyIs(repo);
    StageOneFiles(t, repo, p, c, writes, fails);
    var r, files := Lookup(repo.rows, c).value, StageOne(t, repo, p, c, writes, fails).state.disk.files;
    if files != p.disk.files { RowAcquires(t, repo, c, fails); }
  }

  lemma RowAcquires(t: Tools, repo: Repo, c: string, fails: string -> bool)
    requires Lookup(repo.rows, c).Some? && Lookup(repo.rows, c).value.status == READY
    requires !fails(Lookup(repo.rows, c).value.component)
    ensures var r := Lookup(repo.rows, c).value; AcquiredFor(t, repo, fails, FileOf(r), t.acquire(r))
  {
    LookupHas(repo.rows, c);
    var r := Lookup(repo.rows, c).value;
    var i :| 0 <= i < |repo.rows| && repo.rows[i] == r;
    assert FileOf(repo.rows[i]) == FileOf(r);
  }

  /** A staging run, wherever it is cut, changes no bundle on disk, and every bundle it adds is that of a
      ready row, as acquired, whose acquisition did not fail. */
  lemma StageOnlyAcquires(t: Tools, repo: Repo, disk: Disk, limit: nat, writes: nat, fails: string -> bool)
    requires AuthorityOk(repo)
    ensures var after := Stage(t, repo, disk, limit, writes, fails).0.files;
            && (forall f | f in disk.files :: f in after && after[f] == disk.files[f])
            && (forall f | f in after && f !in disk.files :: AcquiredFor(t, repo, fails, f, after[f]))
  {
    var done, turn, inv := Recorded(disk), StageTurn(t, repo, fails), OnlyAcquired(t, repo, fails, disk);
    var names := Selected(repo, done, limit);
    SelectedFits(repo, done, limit);
    forall q, i, w | inv(q) && 0 <= i < |names| ensures inv(turn(q, names[i], w).state) {
      assert names[i] in names;
      StageOneAcquires(t, repo, q, names[i], w, fails, disk);
    }
    LoopKeeps(turn, inv, Progress(disk, done), names, writes);
    assert inv(Progress(disk, done));
    assert inv(Loop(turn, Progress(disk, done), names, writes).state);
  }

  // ---- what was staged ----------------------------------------------------------------------

  /** The bundle on disk, as the verifier reports it, is what the entry records. */
  predicate Reported(t: Tools, files: map<string, Bytes>, e: Entry) {
    && e.file in files && t.verify(files[e.file]).Some?
    && var v := t.verify(files[e.file]).value;
       && v.valid && v.component == e.component && Normalized(v.version) == e.version && v.url == e.source
       && v.digest == e.digest == t.hash(files[e.file]) && v.artifact == e.artifact
  }

  lemma {:induction false} RunsDiskOk(t: Tools, repo: Repo, disk: Disk, attempts: seq<Attempt>)
    requires AuthorityOk(repo) && DiskOk(t, repo, disk)
    ensures DiskOk(t, repo, Runs(t, repo, disk, attempts))
    decreases |attempts|
  {
    if attempts == [] {
    } else {
      var a := attempts[0];
      StageKeepsValid(t, repo, disk, a.limit, a.writes, a.fails);
      RunsDiskOk(t, repo, Stage(t, repo, disk, a.limit, a.writes, a.fails).0, attempts[1..]);
    }
  }

  lemma ProperIsReported(t: Tools, repo: Repo, files: map<string, Bytes>, e: Entry)
    requires BundlesAcquired(t, repo, files) && Proper(t, repo, e) && e.file in files
    ensures Reported(t, files, e)
  {
    var r := Lookup(repo.rows, e.component).value;
    assert e.file == FileOf(r) && files[FileOf(r)] == t.acquire(r);
  }

  /** However often staging runs are cut short, every entry on record has its bundle on disk, and the
      verifier reports of that bundle exactly what the entry records. */
  lemma StagedIsReported(t: Tools, repo: Repo, attempts: seq<Attempt>, e: Entry)
    requires AuthorityOk(repo)
    requires var disk := Runs(t, repo, EMPTY, attempts); disk.manifest.Some? && e in disk.manifest.value
    ensures Reported(t, Runs(t, repo, EMPTY, attempts).files, e)
  {
    var disk := Runs(t, repo, EMPTY, attempts);
    RunsDiskOk(t, repo, EMPTY, attempts);
    RunsOwn(t, repo, EMPTY, attempts);
    EntryIsBacked(t, repo, disk, e);
    var i :| 0 <= i < |disk.manifest.value| && disk.manifest.value[i] == e;
    ProperIsReported(t, repo, disk.files, e);
  }

  /** What was staged installs: after any staging runs from an empty directory, an install run into a
      repository that has no lock yet for the entries, neither cut short nor failing its validations,
      returns, and leaves every entry's component resolved and locked to what was staged. */
  lemma StagedInstalls(t: Tools, l: Ledger, attempts: seq<Attempt>, writes: nat, fails: string -> bool)
    requires AuthorityOk(l.repo)
    requires var disk := Runs(t, l.repo, EMPTY, attempts);
             && disk.manifest.Some? && writes >= |disk.manifest.value|
             && forall e | e in disk.manifest.value ::
                  !fails(e.component) && (e.component, Normalized(e.version)) !in l.repo.locks
    ensures var disk := Runs(t, l.repo, EMPTY, attempts);
            var end := InstallStaged(t, l, disk, writes, fails);
            && end.outcome == Returned
            && forall e | e in disk.manifest.value ::
                 && e.component in end.state.repo.components && end.state.repo.components[e.component].resolved
                 && (e.component, Normalized(e.version)) in end.state.repo.locks
                 && LockSays(end.state.repo.locks[(e.component, Normalized(e.version))], e)
  {
    var disk := Runs(t, l.repo, EMPTY, attempts);
    RunsDiskOk(t, l.repo, EMPTY, attempts);
    forall e | e in disk.manifest.value ensures Passes(t, disk.files, l.repo.locks, e) {
      StagedIsReported(t, l.repo, attempts, e);
    }
    InstallReturnsIff(t, l, disk, writes, fails);
    var pending, k := InstallsLeastPending(t, l, disk, writes, fails);
    assert pending[..k] == pending;
    forall e | e in disk.manifest.value
      ensures var repo := InstallStaged(t, l, disk, writes, fails).state.repo;
              && e.component in repo.components && repo.components[e.component].resolved
              && (e.component, Normalized(e.version)) in repo.locks
              && LockSays(repo.locks[(e.component, Normalized(e.version))], e)
    {
      EntryIsBacked(t, l.repo, disk, e);
      assert e in pending && KeyOf(e, (e.component, Normalized(e.version)));
      assert StagingInstalls.Names(pending, e.component);
    }
  }
}

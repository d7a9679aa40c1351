/** What `--limit` promises of a staging run: at most so many new components, the least of those still
    missing, at every cut, and exactly so many when the run returns. */
module StagingLimits {
  import opened Collections
  import opened NameOrder
  import opened Staging
  import opened StagingSafety
  import opened StagingRuns

  /** The loop got through the first `k` names: it recorded one entry for each. */
  predicate GotThrough(p: Progress, names: seq<string>, end: Progress, k: nat) {
    && k <= |names| && |end.done| == |p.done| + k && end.done[..|p.done|] == p.done
    && (forall i | 0 <= i < k :: end.done[|p.done| + i].component == names[i])
    && end.disk.manifest == if k == 0 then p.disk.manifest else Some(Sort(end.done, EntryName))
  }

  /** What a turn for this name does to the entries. */
  predicate RecordsName(turn: Turn<Progress>, p: Progress, name: string) {
    GotThrough(p, [name], turn.state, if turn.outcome == Returned then 1 else 0)
  }

  lemma StageOneRecordsName(t: Tools, repo: Repo, p: Progress, c: string, writes: nat, fails: string -> bool)
    ensures RecordsName(StageOne(t, repo, p, c, writes, fails), p, c)
  {
    LookupHas(repo.rows, c);
  }

  lemma OneMoreName(p: Progress, names: seq<string>, mid: Progress, end: Progress, k: nat)
    requires names != [] && GotThrough(p, [names[0]], mid, 1) && GotThrough(mid, names[1..], end, k)
    ensures GotThrough(p, names, end, k + 1)
  {
    assert end.done[..|p.done|] == mid.done[..|p.done|];
    var n := |p.done|;
    assert mid.done[n + 0].component == [names[0]][0];
    assert end.done[n] == end.done[..n + 1][n] == mid.done[n];
    forall i | 0 < i < k + 1 ensures end.done[n + i].component == names[i] {
      var j := i - 1;
      assert end.done[|mid.done| + j].component == names[1..][j];
    }
    if k == 0 { assert end.done == mid.done; }
  }

  lemma {:induction false} LoopGetsThrough(turn: (Progress, string, nat) -> Turn<Progress>, p: Progress,
                                           names: seq<string>, writes: nat)
    returns (k: nat)
    requires forall q, c, w :: RecordsName(turn(q, c, w), q, c)
    ensures var end := Loop(turn, p, names, writes);
            GotThrough(p, names, end.state, k) && (end.outcome == Returned ==> k == |names|)
    decreases |names|
  {
    k := 0;
    if names == [] {
    } else {
      var first := turn(p, names[0], writes);
      assert RecordsName(first, p, names[0]);
      if first.outcome == Returned {
        var j := LoopGetsThrough(turn, first.state, names[1..], first.writes);
        OneMoreName(p, names, first.state, Loop(turn, p, names, writes).state, j);
        k := j + 1;
      }
    }
  }

  lemma NamesListed(entries: seq<Entry>, names: seq<string>, c: string)
    requires |entries| == |names| && forall i | 0 <= i < |names| :: entries[i].component == names[i]
    ensures Listed(entries, c) <==> c in names
  {
    ListedIff(entries, c);
  }

  lemma ThroughLists(p: Progress, names: seq<string>, end: Progress, k: nat, c: string)
    requires GotThrough(p, names, end, k) && p.done == Recorded(p.disk)
    ensures Listed(Recorded(end.disk), c) <==> Listed(Recorded(p.disk), c) || c in names[..k]
  {
    if k > 0 {
      var n := |p.done|;
      SortLists(end.done, c);
      SortLists(Sort(end.done, EntryName), c);
      assert end.done == p.done + end.done[n..];
      ListedPrefix(p.done, end.done[n..], c);
      NamesListed(end.done[n..], names[..k], c);
    }
  }

  lemma MissingBelow(names: seq<string>, done: seq<Entry>)
    requires Increasing(names, Same)
    ensures Increasing(Missing(names, done), Same)
  {
    if names == [] {
    } else {
      var rest := names[1..];
      assert forall i | 0 <= i < |rest| :: rest[i] == names[i + 1];
      MissingBelow(rest, done);
      IncreasingDistinct(rest, Same);
      MissingIs(rest, done);
      var m := Missing(rest, done);
      forall i | 0 <= i < |m| ensures Below(Same(names[0]), Same(m[i])) {
        assert m[i] in m && m[i] in rest;
      }
    }
  }

  /** The ready components a directory lacks, in increasing order of name. */
  ghost predicate Lacks(repo: Repo, disk: Disk, names: seq<string>) {
    && Increasing(names, Same)
    && forall c :: c in names <==>
         (exists i | 0 <= i < |repo.rows| :: repo.rows[i].component == c && repo.rows[i].status == READY)
         && !Listed(Recorded(disk), c)
  }

  lemma ReadyByRow(repo: Repo, c: string)
    requires AuthorityOk(repo)
    ensures c in Ready(repo) <==>
            exists i | 0 <= i < |repo.rows| :: repo.rows[i].component == c && repo.rows[i].status == READY
  {
    ReadyIs(repo);
    LookupHas(repo.rows, c);
    if i :| 0 <= i < |repo.rows| && repo.rows[i].component == c && repo.rows[i].status == READY {
      var r := Lookup(repo.rows, c).value;
      var j :| 0 <= j < |repo.rows| && repo.rows[j] == r;
      assert RowName(repo.rows[i]) == RowName(repo.rows[j]);
    }
  }

  lemma MissingIsLacked(repo: Repo, disk: Disk)
    requires AuthorityOk(repo)
    ensures Lacks(repo, disk, Missing(Ready(repo), Recorded(disk)))
  {
    ReadyIs(repo);
    MissingBelow(Ready(repo), Recorded(disk));
    IncreasingDistinct(Ready(repo), Same);
    MissingIs(Ready(repo), Recorded(disk));
    forall c ensures c in Ready(repo) <==>
                     exists i | 0 <= i < |repo.rows| :: repo.rows[i].component == c && repo.rows[i].status == READY
    {
      ReadyByRow(repo, c);
    }
  }

  /** The names a run works through. */
  lemma SelectedIsPrefix(repo: Repo, done: seq<Entry>, limit: nat, k: nat)
    requires k <= |Selected(repo, done, limit)|
    ensures var names := Missing(Ready(repo), done);
            && |Selected(repo, done, limit)| == (if 0 < limit < |names| then limit else |names|)
            && Selected(repo, done, limit)[..k] == names[..k]
  {
  }

  lemma StageGetsThrough(t: Tools, repo: Repo, disk: Disk, limit: nat, writes: nat, fails: string -> bool)
    returns (k: nat)
    requires AuthorityOk(repo)
    ensures var names, end := Missing(Ready(repo), Recorded(disk)), Stage(t, repo, disk, limit, writes, fails);
            && k <= |names| && (limit > 0 ==> k <= limit)
            && (forall c :: Listed(Recorded(end.0), c) <==> Listed(Recorded(disk), c) || c in names[..k])
            && (end.1 == Returned ==> k == if 0 < limit < |names| then limit else |names|)
  {
    var done, turn := Recorded(disk), StageTurn(t, repo, fails);
    var p, some, end := Progress(disk, done), Selected(repo, done, limit), Stage(t, repo, disk, limit, writes, fails);
    k := 0;
    if disk.manifest.None? || ManifestOk(t, repo, disk) {
      forall q, c, w ensures RecordsName(turn(q, c, w), q, c) { StageOneRecordsName(t, repo, q, c, w, fails); }
      k := LoopGetsThrough(turn, p, some, writes);
      SelectedIsPrefix(repo, done, limit, k);
      forall c ensures Listed(Recorded(end.0), c) <==> Listed(Recorded(disk), c) || c in some[..k] {
        ThroughLists(p, some, Loop(turn, p, some, writes).state, k, c);
      }
    }
  }

  /** Every run, cut short or not, records besides what was recorded the least of the ready components that
      the directory lacked: at most `limit` of them when there is a limit, and exactly that many, or all,
      when it returns. */
  lemma StagesLeastMissing(t: Tools, repo: Repo, disk: Disk, limit: nat, writes: nat, fails: string -> bool)
    returns (lacked: seq<string>, k: nat)
    requires AuthorityOk(repo)
    ensures Lacks(repo, disk, lacked) && k <= |lacked| && (limit > 0 ==> k <= limit)
    ensures var end := Stage(t, repo, disk, limit, writes, fails);
            && (forall c :: Listed(Recorded(end.0), c) <==> Listed(Recorded(disk), c) || c in lacked[..k])
            && (end.1 == Returned ==> k == if 0 < limit < |lacked| then limit else |lacked|)
  {
    lacked := Missing(Ready(repo), Recorded(disk));
    MissingIsLacked(repo, disk);
    k := StageGetsThrough(t, repo, disk, limit, writes, fails);
  }

  lemma LackedRest(repo: Repo, before: Disk, after: Disk, names: seq<string>, k: nat)
    requires Lacks(repo, before, names) && k <= |names|
    requires forall c :: Listed(Recorded(after), c) <==> Listed(Recorded(before), c) || c in names[..k]
    ensures Lacks(repo, after, names[k..])
  {
    var rest := names[k..];
    IncreasingDistinct(names, Same);
    assert forall i | 0 <= i < |rest| :: rest[i] == names[k + i];
    forall c | c in names ensures c in rest <==> c !in names[..k] {
      var i :| 0 <= i < |names| && names[i] == c;
      if i < k {
        assert names[..k][i] == c;
        assert forall j | 0 <= j < |rest| :: Same(rest[j]) != Same(names[i]);
      } else {
        assert rest[i - k] == c;
        assert forall j | 0 <= j < k :: Same(names[j]) != Same(names[i]);
      }
    }
  }

  /** How many components are left: at most `limit` fewer at every cut, and when the run returns exactly so
      many fewer as the limit and what was left allow. */
  lemma LimitIsKept(t: Tools, repo: Repo, disk: Disk, limit: nat, writes: nat, fails: string -> bool)
    requires AuthorityOk(repo)
    ensures var end := Stage(t, repo, disk, limit, writes, fails);
            var staged := Left(repo, disk) - Left(repo, end.0);
            && 0 <= staged && (limit > 0 ==> staged <= limit)
            && (end.1 == Returned ==> staged == if 0 < limit < Left(repo, disk) then limit else Left(repo, disk))
  {
    var end, before := Stage(t, repo, disk, limit, writes, fails).0, Missing(Ready(repo), Recorded(disk));
    var k := StageGetsThrough(t, repo, disk, limit, writes, fails);
    MissingIsLacked(repo, disk);
    MissingIsLacked(repo, end);
    LackedRest(repo, disk, end, before, k);
    IncreasingUnique(Missing(Ready(repo), Recorded(end)), before[k..], Same);
  }
}

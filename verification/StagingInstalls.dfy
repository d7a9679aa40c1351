/** What an install run does to the repository, at every cut, and exactly when it returns. */
module StagingInstalls {
  import opened Collections
  import opened NameOrder
  import opened Staging
  import opened StagingSafety
  import opened StagingRuns

  // ---- the effect of installing some entries ------------------------------------------------

  /** The lock records where the entry came from and the artifact it holds. */
  predicate LockSays(lock: Lock, e: Entry) {
    && lock.component == e.component && lock.version == Normalized(e.version)
    && lock.url == e.source && lock.artifact == e.artifact
  }

  predicate KeyOf(e: Entry, key: (string, string)) { key == (e.component, Normalized(e.version)) }

  /** Locks are added for these entries and no others, and none is changed. */
  ghost predicate LocksFor(before: Repo, after: Repo, added: seq<Entry>) {
    && (forall k :: k in after.locks <==> k in before.locks || exists e | e in added :: KeyOf(e, k))
    && (forall k | k in before.locks :: k in after.locks && after.locks[k] == before.locks[k])
    && (forall e, k | e in added && KeyOf(e, k) :: k in after.locks && LockSays(after.locks[k], e))
  }

  predicate Names(added: seq<Entry>, c: string) { exists e | e in added :: e.component == c }

  /** The components of these entries are resolved, and no component changes otherwise. */
  ghost predicate ResolvedFor(before: Repo, after: Repo, added: seq<Entry>) {
    && after.components.Keys == before.components.Keys
    && forall c | c in before.components ::
         after.components[c] == before.components[c].(resolved := before.components[c].resolved || Names(added, c))
  }

  /** The rows of these entries are retired, and no others. */
  ghost predicate RowsFor(before: Repo, after: Repo, added: seq<Entry>) {
    forall r :: r in after.rows <==> r in before.rows && !Names(added, r.component)
  }

  ghost predicate Installs(before: Ledger, after: Ledger, added: seq<Entry>) {
    && after.log == before.log + added && LocksFor(before.repo, after.repo, added)
    && ResolvedFor(before.repo, after.repo, added) && RowsFor(before.repo, after.repo, added)
  }

  lemma {:induction false} WithoutMember(rows: seq<Row>, name: string, r: Row)
    ensures r in Without(rows, name) <==> r in rows && r.component != name
  {
    if rows == [] {
    } else {
      WithoutMember(rows[1..], name, r);
      assert rows == [rows[0]] + rows[1..];
    }
  }

  lemma InstallsOne(l: Ledger, e: Entry)
    requires e.component in l.repo.components && LockKey(e) !in l.repo.locks
    ensures Installs(l, Ledger(Install(l.repo, e), l.log + [e]), [e])
  {
    forall r ensures r in Install(l.repo, e).rows <==> r in l.repo.rows && r.component != e.component {
      WithoutMember(l.repo.rows, e.component, r);
    }
    assert e in [e] && KeyOf(e, LockKey(e));
    assert forall c :: Names([e], c) <==> c == e.component;
  }

  lemma InstallsNone(l: Ledger)
    ensures Installs(l, l, [])
  {
    assert forall c :: !Names([], c);
  }

  lemma NamesMore(e: Entry, more: seq<Entry>, c: string)
    ensures Names([e] + more, c) <==> e.component == c || Names(more, c)
  {
    assert e in [e] + more;
    assert forall x :: x in [e] + more <==> x == e || x in more;
  }

  lemma LocksMore(a: Repo, b: Repo, c: Repo, e: Entry, more: seq<Entry>)
    requires LocksFor(a, b, [e]) && LocksFor(b, c, more)
    ensures LocksFor(a, c, [e] + more)
  {
    assert e in [e] && KeyOf(e, LockKey(e)) && LockKey(e) in b.locks;
    forall k ensures k in c.locks <==> k in a.locks || exists x | x in [e] + more :: KeyOf(x, k) {
      if x :| x in more && KeyOf(x, k) { assert x in [e] + more; }
      if k == LockKey(e) { assert e in [e] + more && KeyOf(e, k); }
      if k in b.locks && k !in a.locks { var x :| x in [e] && KeyOf(x, k); }
    }
  }

  lemma InstallsMore(a: Ledger, b: Ledger, c: Ledger, e: Entry, more: seq<Entry>)
    requires Installs(a, b, [e]) && Installs(b, c, more)
    ensures Installs(a, c, [e] + more)
  {
    LocksMore(a.repo, b.repo, c.repo, e, more);
    forall x ensures Names([e] + more, x) <==> Names([e], x) || Names(more, x) {
      NamesMore(e, more, x);
      NamesMore(e, [], x);
      assert [e] + [] == [e];
    }
  }

  // ---- the loop -----------------------------------------------------------------------------

  /** The entries that have no lock yet, in order. */
  function Unlocked(locks: map<(string, string), Lock>, entries: seq<Entry>): seq<Entry> {
    if entries == [] then []
    else (if LockKey(entries[0]) in locks then [] else [entries[0]]) + Unlocked(locks, entries[1..])
  }

  lemma {:induction false} UnlockedMember(locks: map<(string, string), Lock>, entries: seq<Entry>, e: Entry)
    ensures e in Unlocked(locks, entries) <==> e in entries && LockKey(e) !in locks
  {
    if entries == [] {
    } else {
      UnlockedMember(locks, entries[1..], e);
      assert entries == [entries[0]] + entries[1..];
    }
  }

  lemma {:induction false} UnlockedSame(before: map<(string, string), Lock>, after: map<(string, string), Lock>,
                                        entries: seq<Entry>)
    requires forall e | e in entries :: LockKey(e) in before <==> LockKey(e) in after
    ensures Unlocked(before, entries) == Unlocked(after, entries)
  {
    if entries == [] {
    } else {
      assert entries[0] in entries && forall e | e in entries[1..] :: e in entries;
      UnlockedSame(before, after, entries[1..]);
    }
  }

  /** The entry can be got through: its lock says what it says, or it has none and its bundle, verified
      again, reports exactly what the entry records. */
  predicate Passes(t: Tools, files: map<string, Bytes>, locks: map<(string, string), Lock>, e: Entry) {
    var key := (e.component, Normalized(e.version));
    if key in locks then LockSays(locks[key], e)
    else
      && e.file in files && t.verify(files[e.file]).Some?
      && var v := t.verify(files[e.file]).value;
         && v.component == e.component && Normalized(v.version) == e.version && v.url == e.source
         && v.digest == e.digest && v.artifact == e.artifact
  }

  lemma PassesIs(t: Tools, files: map<string, Bytes>, repo: Repo, e: Entry)
    ensures Passes(t, files, repo.locks, e)
            <==> if LockKey(e) in repo.locks then Installed(repo, e) else StillVerifies(t, files, e)
  {
  }

  function Passing(t: Tools, files: map<string, Bytes>, locks: map<(string, string), Lock>): Entry -> bool {
    (e: Entry) => Passes(t, files, locks, e)
  }

  /** How a run over these entries ends, when `added` are those of them to install and `k` were installed. */
  ghost predicate Ends(entries: seq<Entry>, added: seq<Entry>, passes: Entry -> bool, fails: string -> bool,
                       writes: nat, outcome: Outcome, k: nat)
  {
    && k <= |added| && (forall i | 0 <= i < k :: passes(added[i]))
    && (outcome == Returned ==>
          && k == |added| && (forall e | e in added :: !fails(e.component))
          && forall e | e in entries :: passes(e))
    && (writes >= |added| && outcome != Returned ==>
          (exists e | e in entries :: !passes(e)) || (exists e | e in added :: fails(e.component)))
  }

  lemma EndsMore(e: Entry, rest: seq<Entry>, added: seq<Entry>, passes: Entry -> bool, before: Entry -> bool,
                 fails: string -> bool, writes: nat, outcome: Outcome, k: nat)
    requires before(e) && !fails(e.component) && writes > 0 && (forall x | x in added :: x in rest)
    requires forall x | x in rest :: before(x) <==> passes(x)
    requires Ends(rest, added, passes, fails, writes - 1, outcome, k)
    ensures Ends([e] + rest, [e] + added, before, fails, writes, outcome, k + 1)
  {
    var entries, all := [e] + rest, [e] + added;
    forall i | 0 <= i < k + 1 ensures before(all[i]) {
      if i > 0 { assert all[i] == added[i - 1] && added[i - 1] in added; }
    }
    if writes >= |all| && outcome != Returned {
      if x :| x in rest && !passes(x) { assert x in entries; }
      if x :| x in added && fails(x.component) { assert x in all; }
    }
  }

  lemma EndsSkip(e: Entry, rest: seq<Entry>, added: seq<Entry>, passes: Entry -> bool, fails: string -> bool,
                 writes: nat, outcome: Outcome, k: nat)
    requires passes(e) && Ends(rest, added, passes, fails, writes, outcome, k)
    ensures Ends([e] + rest, added, passes, fails, writes, outcome, k)
  {
    if x :| x in rest && !passes(x) { assert x in [e] + rest; }
  }

  /** What a loop over these entries leaves after installing the first `k` that had no lock. */
  ghost predicate Ran(t: Tools, files: map<string, Bytes>, l: Ledger, entries: seq<Entry>, writes: nat,
                      fails: string -> bool, end: Turn<Ledger>, k: nat)
  {
    var added := Unlocked(l.repo.locks, entries);
    && Ends(entries, added, Passing(t, files, l.repo.locks), fails, writes, end.outcome, k)
    && Installs(l, end.state, added[..k])
  }

  /** The entry can be installed whatever else is. */
  ghost predicate Known(l: Ledger, entries: seq<Entry>) {
    KeysDistinct(entries, EntryName) && forall e | e in entries :: e.component in l.repo.components
  }

  lemma KnownRest(l: Ledger, l': Ledger, entries: seq<Entry>)
    requires Known(l, entries) && entries != [] && l'.repo.components.Keys == l.repo.components.Keys
    ensures Known(l', entries[1..]) && entries[0].component in l.repo.components
    ensures forall e | e in entries[1..] :: e.component != entries[0].component
  {
    var rest := entries[1..];
    assert entries[0] in entries;
    assert forall i | 0 <= i < |rest| :: rest[i] == entries[i + 1];
    forall e | e in rest ensures e.component != entries[0].component && e in entries {
      var i :| 0 <= i < |rest| && rest[i] == e;
      assert EntryName(entries[0]) != EntryName(entries[i + 1]);
    }
  }

  lemma AfterSkip(t: Tools, files: map<string, Bytes>, l: Ledger, entries: seq<Entry>, writes: nat,
                  fails: string -> bool, end: Turn<Ledger>, k: nat)
    requires entries != [] && LockKey(entries[0]) in l.repo.locks && Passes(t, files, l.repo.locks, entries[0])
    requires Ran(t, files, l, entries[1..], writes, fails, end, k)
    ensures Ran(t, files, l, entries, writes, fails, end, k)
  {
    var added := Unlocked(l.repo.locks, entries[1..]);
    assert Unlocked(l.repo.locks, entries) == added;
    EndsSkip(entries[0], entries[1..], added, Passing(t, files, l.repo.locks), fails, writes, end.outcome, k);
    assert entries == [entries[0]] + entries[1..];
  }

  lemma SameUnlocked(l: Ledger, l': Ledger, entries: seq<Entry>)
    requires entries != [] && Known(l, entries) && Installs(l, l', [entries[0]]) && LockKey(entries[0]) !in l.repo.locks
    ensures Known(l', entries[1..])
    ensures forall e | e in entries[1..] :: LockKey(e) in l.repo.locks <==> LockKey(e) in l'.repo.locks
    ensures Unlocked(l.repo.locks, entries) == [entries[0]] + Unlocked(l'.repo.locks, entries[1..])
  {
    KnownRest(l, l', entries);
    forall e | e in entries[1..] ensures LockKey(e) in l.repo.locks <==> LockKey(e) in l'.repo.locks {
      assert forall x | x in [entries[0]] :: !KeyOf(x, LockKey(e));
    }
    UnlockedSame(l.repo.locks, l'.repo.locks, entries[1..]);
  }

  lemma PassesSame(t: Tools, files: map<string, Bytes>, before: Repo, after: Repo, added: seq<Entry>, e: Entry)
    requires LocksFor(before, after, added) && (LockKey(e) in before.locks <==> LockKey(e) in after.locks)
    ensures Passes(t, files, before.locks, e) <==> Passes(t, files, after.locks, e)
  {
  }

  lemma PassingSame(t: Tools, files: map<string, Bytes>, l: Ledger, mid: Ledger, entries: seq<Entry>)
    requires entries != [] && Known(l, entries) && Installs(l, mid, [entries[0]])
    requires LockKey(entries[0]) !in l.repo.locks
    ensures forall x | x in entries[1..] ::
              Passing(t, files, l.repo.locks)(x) <==> Passing(t, files, mid.repo.locks)(x)
  {
    SameUnlocked(l, mid, entries);
    forall x | x in entries[1..]
      ensures Passing(t, files, l.repo.locks)(x) <==> Passing(t, files, mid.repo.locks)(x)
    {
      PassesSame(t, files, l.repo, mid.repo, [entries[0]], x);
    }
  }

  lemma EndsAfterInstall(t: Tools, files: map<string, Bytes>, l: Ledger, entries: seq<Entry>, writes: nat,
                         fails: string -> bool, mid: Ledger, outcome: Outcome, k: nat)
    requires entries != [] && Known(l, entries) && Installs(l, mid, [entries[0]]) && !fails(entries[0].component)
    requires LockKey(entries[0]) !in l.repo.locks && Passes(t, files, l.repo.locks, entries[0]) && writes > 0
    requires Ends(entries[1..], Unlocked(mid.repo.locks, entries[1..]), Passing(t, files, mid.repo.locks), fails,
                  writes - 1, outcome, k)
    ensures Ends(entries, [entries[0]] + Unlocked(mid.repo.locks, entries[1..]), Passing(t, files, l.repo.locks), fails,
                 writes, outcome, k + 1)
  {
    var rest, added := entries[1..], Unlocked(mid.repo.locks, entries[1..]);
    PassingSame(t, files, l, mid, entries);
    forall x | x in added ensures x in rest { UnlockedMember(mid.repo.locks, rest, x); }
    EndsMore(entries[0], rest, added, Passing(t, files, mid.repo.locks), Passing(t, files, l.repo.locks), fails, writes,
             outcome, k);
    assert entries == [entries[0]] + rest;
  }

  lemma UnlockedNow(l: Ledger, mid: Ledger, entries: seq<Entry>)
    requires entries != [] && Known(l, entries) && Installs(l, mid, [entries[0]])
    requires LockKey(entries[0]) !in l.repo.locks
    ensures Unlocked(l.repo.locks, entries) == [entries[0]] + Unlocked(mid.repo.locks, entries[1..])
  {
    SameUnlocked(l, mid, entries);
  }

  lemma InstallsFirst(l: Ledger, mid: Ledger, end: Ledger, e: Entry, added: seq<Entry>, k: nat)
    requires k <= |added| && Installs(l, mid, [e]) && Installs(mid, end, added[..k])
    ensures Installs(l, end, ([e] + added)[..k + 1])
  {
    InstallsMore(l, mid, end, e, added[..k]);
    assert ([e] + added)[..k + 1] == [e] + added[..k];
  }

  lemma AfterInstall(t: Tools, files: map<string, Bytes>, l: Ledger, entries: seq<Entry>, writes: nat,
                     fails: string -> bool, mid: Ledger, end: Turn<Ledger>, k: nat)
    requires entries != [] && Known(l, entries) && Installs(l, mid, [entries[0]]) && !fails(entries[0].component)
    requires LockKey(entries[0]) !in l.repo.locks && Passes(t, files, l.repo.locks, entries[0]) && writes > 0
    requires Ran(t, files, mid, entries[1..], writes - 1, fails, end, k)
    ensures Ran(t, files, l, entries, writes, fails, end, k + 1)
  {
    EndsAfterInstall(t, files, l, entries, writes, fails, mid, end.outcome, k);
    UnlockedNow(l, mid, entries);
    InstallsFirst(l, mid, end.state, entries[0], Unlocked(mid.repo.locks, entries[1..]), k);
  }

  /** The first turn changes nothing and the loop stops. */
  lemma StoppedAtOnce(t: Tools, files: map<string, Bytes>, l: Ledger, entries: seq<Entry>, writes: nat,
                      fails: string -> bool, end: Turn<Ledger>)
    requires entries != [] && end.state == l && end.outcome != Returned
    requires Passes(t, files, l.repo.locks, entries[0]) ==> LockKey(entries[0]) !in l.repo.locks && writes == 0
    ensures Ran(t, files, l, entries, writes, fails, end, 0)
  {
    InstallsNone(l);
    var added := Unlocked(l.repo.locks, entries);
    assert added[..0] == [] && entries[0] in entries;
    if LockKey(entries[0]) !in l.repo.locks { assert added[0] == entries[0]; }
  }

  /** The first turn installs and the validation after it fails. */
  lemma FailedAtOnce(t: Tools, files: map<string, Bytes>, l: Ledger, entries: seq<Entry>, writes: nat,
                     fails: string -> bool, end: Turn<Ledger>)
    requires entries != [] && Installs(l, end.state, [entries[0]]) && end.outcome != Returned
    requires LockKey(entries[0]) !in l.repo.locks && Passes(t, files, l.repo.locks, entries[0])
    requires fails(entries[0].component)
    ensures Ran(t, files, l, entries, writes, fails, end, 1)
  {
    var added := Unlocked(l.repo.locks, entries);
    assert added[..1] == [entries[0]] && added[0] in added;
  }

  lemma {:induction false} InstallEachRan(t: Tools, files: map<string, Bytes>, l: Ledger, entries: seq<Entry>,
                                          writes: nat, fails: string -> bool)
    returns (k: nat)
    requires Known(l, entries)
    ensures Ran(t, files, l, entries, writes, fails, InstallEach(t, files, l, entries, writes, fails), k)
    decreases |entries|
  {
    k := 0;
    InstallsNone(l);
    if entries == [] {
    } else {
      var e, turn := entries[0], InstallOne(t, files, l, entries[0], writes, fails);
      var end := InstallEach(t, files, l, entries, writes, fails);
      PassesIs(t, files, l.repo, e);
      KnownRest(l, l, entries);
      assert e in entries;
      if turn.state == l {
        if turn.outcome == Returned {
          k := InstallEachRan(t, files, l, entries[1..], writes, fails);
          AfterSkip(t, files, l, entries, writes, fails, end, k);
        } else {
          StoppedAtOnce(t, files, l, entries, writes, fails, end);
        }
      } else {
        InstallsOne(l, e);
        if turn.outcome == Returned {
          SameUnlocked(l, turn.state, entries);
          var j := InstallEachRan(t, files, turn.state, entries[1..], turn.writes, fails);
          AfterInstall(t, files, l, entries, writes, fails, turn.state, end, j);
          k := j + 1;
        } else {
          FailedAtOnce(t, files, l, entries, writes, fails, end);
          k := 1;
        }
      }
    }
  }

  // ---- one run ------------------------------------------------------------------------------

  lemma {:induction false} UnlockedIncreasing(locks: map<(string, string), Lock>, entries: seq<Entry>)
    requires Increasing(entries, EntryName)
    ensures Increasing(Unlocked(locks, entries), EntryName)
  {
    if entries == [] {
    } else {
      var rest := entries[1..];
      assert forall i | 0 <= i < |rest| :: rest[i] == entries[i + 1];
      UnlockedIncreasing(locks, rest);
      var more := Unlocked(locks, rest);
      forall i | 0 <= i < |more| ensures Below(EntryName(entries[0]), EntryName(more[i])) {
        UnlockedMember(locks, rest, more[i]);
        assert more[i] in rest;
      }
    }
  }

  lemma ManifestKnown(t: Tools, l: Ledger, disk: Disk)
    requires ManifestOk(t, l.repo, disk)
    ensures var entries := Sort(disk.manifest.value, EntryName); Known(l, entries) && Increasing(entries, EntryName)
  {
    var m, s := disk.manifest.value, Sort(disk.manifest.value, EntryName);
    SortIncreasing(m, EntryName);
    IncreasingDistinct(s, EntryName);
    forall e | e in s ensures e.component in l.repo.components {
      SortMember(m, EntryName, e);
      var i :| 0 <= i < |m| && m[i] == e;
      assert EntryOk(t, l.repo, disk.files, m[i]);
    }
  }

  /** The entries of the manifest that have no lock, in increasing order of component. */
  ghost predicate Pending(repo: Repo, entries: seq<Entry>, pending: seq<Entry>) {
    && Increasing(pending, EntryName)
    && forall e :: e in pending <==> e in entries && (e.component, Normalized(e.version)) !in repo.locks
  }

  lemma UnlockedIsPending(repo: Repo, entries: seq<Entry>)
    requires KeysDistinct(entries, EntryName)
    ensures Pending(repo, entries, Unlocked(repo.locks, Sort(entries, EntryName)))
  {
    var s := Sort(entries, EntryName);
    SortIncreasing(entries, EntryName);
    UnlockedIncreasing(repo.locks, s);
    forall e ensures e in Unlocked(repo.locks, s) <==> e in entries && LockKey(e) !in repo.locks {
      UnlockedMember(repo.locks, s, e);
      SortMember(entries, EntryName, e);
    }
  }

  /** Every install run over a valid manifest, wherever it is cut, installs the least of the entries that
      had no lock, each of which passed its verification, and changes nothing else: their locks are added,
      their components resolved and their rows retired. One that returns has installed all of them. */
  lemma InstallsLeastPending(t: Tools, l: Ledger, disk: Disk, writes: nat, fails: string -> bool)
    returns (pending: seq<Entry>, k: nat)
    requires ManifestOk(t, l.repo, disk)
    ensures Pending(l.repo, disk.manifest.value, pending) && k <= |pending|
    ensures forall i | 0 <= i < k :: Passes(t, disk.files, l.repo.locks, pending[i])
    ensures var end := InstallStaged(t, l, disk, writes, fails);
            && Installs(l, end.state, pending[..k])
            && (end.outcome == Returned ==> k == |pending| && forall e | e in pending :: !fails(e.component))
  {
    var entries := Sort(disk.manifest.value, EntryName);
    ManifestKnown(t, l, disk);
    UnlockedIsPending(l.repo, disk.manifest.value);
    pending := Unlocked(l.repo.locks, entries);
    k := InstallEachRan(t, disk.files, l, entries, writes, fails);
  }

  lemma AtMostAll(t: Tools, l: Ledger, disk: Disk)
    requires ManifestOk(t, l.repo, disk)
    ensures var added := Unlocked(l.repo.locks, Sort(disk.manifest.value, EntryName));
            && |added| <= |disk.manifest.value|
            && forall e :: e in added <==> e in disk.manifest.value && LockKey(e) !in l.repo.locks
  {
    var m := disk.manifest.value;
    UnlockedIsPending(l.repo, m);
    UnlockedAtMost(l.repo.locks, Sort(m, EntryName));
    if m != [] { SortMember(m, EntryName, m[0]); }
  }

  lemma UnlockedAtMost(locks: map<(string, string), Lock>, entries: seq<Entry>)
    ensures |Unlocked(locks, entries)| <= |entries|
  {
  }

  /** An install run that is not cut short returns exactly when the manifest is valid and every entry passes:
      its lock says what it says, or it has none, its bundle verifies, and the validation of the repository
      after its installation does not fail. */
  lemma InstallReturnsIff(t: Tools, l: Ledger, disk: Disk, writes: nat, fails: string -> bool)
    requires disk.manifest.Some? ==> writes >= |disk.manifest.value|
    ensures InstallStaged(t, l, disk, writes, fails).outcome == Returned
            <==> && ManifestOk(t, l.repo, disk)
                 && forall e | e in disk.manifest.value ::
                      && Passes(t, disk.files, l.repo.locks, e)
                      && ((e.component, Normalized(e.version)) !in l.repo.locks ==> !fails(e.component))
  {
    if ManifestOk(t, l.repo, disk) {
      var m, entries := disk.manifest.value, Sort(disk.manifest.value, EntryName);
      ManifestKnown(t, l, disk);
      AtMostAll(t, l, disk);
      var k := InstallEachRan(t, disk.files, l, entries, writes, fails);
      forall e ensures e in entries <==> e in m { SortMember(m, EntryName, e); }
    }
  }
}

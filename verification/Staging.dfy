/** Checkpointed staging of upstream bundles and their offline installation
    (scripts/acquire_upstream_batch.py), over the admission queue of
    scripts/catalog_upstream_admission.py. A run that is cut short is a run allowed only so many
    atomic writes. */
module Staging {
  import opened Collections
  import opened Text
  import opened NameOrder
  import Pins = ImagePins

  type Bytes = seq<bv8>

  /** A row of the admission authority. */
  datatype Row = Row(component: string, status: string, selected: string, upstream: string, source: string)

  /** What the runner reads of a Helm component document. */
  datatype Component = Component(release: string, resolved: bool)

  datatype Lock = Lock(component: string, version: string, url: string, artifact: string)

  datatype Repo = Repo(rows: seq<Row>, components: map<string, Component>, locks: map<(string, string), Lock>)

  datatype Entry = Entry(component: string, version: string, source: string, upstream: string, file: string,
                         digest: string, artifact: string, key: string)

  /** What `catalog-bundle verify` reports of a bundle. */
  datatype Report = Report(valid: bool, component: string, version: string, url: string, digest: string,
                           artifact: string)

  /** The file digest, the acquisition of a row's bundle and the bundle verifier. */
  datatype Tools = Tools(hash: Bytes -> string, acquire: Row -> Bytes, verify: Bytes -> Option<Report>)

  /** The stage directory: bundles by file name, and the entries of the manifest if there is one. */
  datatype Disk = Disk(files: map<string, Bytes>, manifest: Option<seq<Entry>>)

  datatype Outcome = Returned | Failed | Raised | Crashed

  const READY := "ready-for-acquisition"

  // ---- versions and names -------------------------------------------------------------------

  function Normalized(v: string): string {
    var s := PythonStrip(v);
    if "v" <= s then s[1..] else s
  }

  predicate Digits(s: string) {
    s != "" && forall i | 0 <= i < |s| :: '0' <= s[i] <= '9'
  }

  /** Three runs of digits separated by dots. */
  predicate Exact(v: string) {
    exists i, j | 0 <= i < j < |v| :: v[i] == '.' == v[j] && Digits(v[..i]) && Digits(v[i + 1..j]) && Digits(v[j + 1..])
  }

  predicate NameChar(c: char) { 'a' <= c <= 'z' || '0' <= c <= '9' || c == '-' }

  predicate NameOk(name: string) {
    1 <= |name| <= 63 && name[0] != '-' && forall c | c in name :: NameChar(c)
  }

  function FileName(component: string, version: string): string {
    component + "-" + version + ".zip"
  }

  // ---- the admission authority --------------------------------------------------------------

  function RowName(r: Row): string { r.component }
  function EntryName(e: Entry): string { e.component }
  function EntryFile(e: Entry): string { e.file }
  function Same(name: string): string { name }

  predicate RowOk(repo: Repo, r: Row) {
    && NameOk(r.component) && r.component in repo.components && !repo.components[r.component].resolved
    && (r.status == READY ==>
          && Exact(Normalized(r.selected)) && r.upstream != "" && Normalized(r.upstream) == Normalized(r.selected)
          && repo.components[r.component].release == Normalized(r.selected))
  }

  /** `validate`: one good row for every unresolved component, and no other. */
  predicate AuthorityOk(repo: Repo) {
    && KeysDistinct(repo.rows, RowName)
    && (forall i | 0 <= i < |repo.rows| :: RowOk(repo, repo.rows[i]))
    && (forall c | c in repo.components && !repo.components[c].resolved :: Lookup(repo.rows, c).Some?)
  }

  function Lookup(rows: seq<Row>, name: string): Option<Row> {
    if rows == [] then None
    else if rows[0].component == name then Some(rows[0])
    else Lookup(rows[1..], name)
  }

  function ReadyNames(rows: seq<Row>): seq<string> {
    if rows == [] then []
    else (if rows[0].status == READY then [rows[0].component] else []) + ReadyNames(rows[1..])
  }

  /** The ready half of `queue`. */
  function Ready(repo: Repo): seq<string> {
    Sort(ReadyNames(repo.rows), Same)
  }

  function UpstreamOf(r: Row): string {
    if r.upstream != "" then r.upstream else r.selected
  }

  // ---- manifest entries ---------------------------------------------------------------------

  /** `_stage_entry`; `None` when it raises. */
  function StageEntry(t: Tools, r: Row, file: string, content: Bytes): Option<Entry> {
    var version, report := Normalized(r.selected), t.verify(content);
    if || r.status != READY || !Exact(version) || file != FileName(r.component, version)
       || !NameOk(r.component) || report.None?
    then None
    else
      var v := report.value;
      if !v.valid || v.component != r.component || Normalized(v.version) != version || v.url != r.source
         || !Pins.IsDigest(v.digest) || v.digest != t.hash(content) || !Pins.IsDigest(v.artifact) then None
      else
        Some(Entry(r.component, version, r.source, UpstreamOf(r), file, v.digest, v.artifact,
                   r.component + "/" + version))
  }

  /** The row of an unresolved component still says what the entry says. */
  predicate RowMatches(r: Option<Row>, e: Entry, version: string) {
    && r.Some? && r.value.status == READY && Normalized(r.value.selected) == version
    && r.value.source == e.source && UpstreamOf(r.value) == e.upstream
  }

  /** The checks of `validate_stage_manifest` on one entry. */
  predicate EntryOk(t: Tools, repo: Repo, files: map<string, Bytes>, e: Entry) {
    var version := Normalized(e.version);
    && Exact(version) && NameOk(e.component) && e.file == FileName(e.component, version)
    && e.key == e.component + "/" + version && Pins.IsDigest(e.digest) && Pins.IsDigest(e.artifact)
    && e.component in repo.components && Normalized(repo.components[e.component].release) == version
    && (!repo.components[e.component].resolved ==> RowMatches(Lookup(repo.rows, e.component), e, version))
    && e.file in files && t.hash(files[e.file]) == e.digest
  }

  predicate EntriesOk(t: Tools, repo: Repo, files: map<string, Bytes>, entries: seq<Entry>) {
    && KeysDistinct(entries, EntryName) && KeysDistinct(entries, EntryFile)
    && forall i | 0 <= i < |entries| :: EntryOk(t, repo, files, entries[i])
  }

  /** `validate_stage_manifest` accepts the manifest on disk. */
  predicate ManifestOk(t: Tools, repo: Repo, disk: Disk) {
    && disk.manifest.Some? && disk.manifest.value != []
    && AuthorityOk(repo) && EntriesOk(t, repo, disk.files, disk.manifest.value)
  }

  // ---- stage --------------------------------------------------------------------------------

  function Listed(entries: seq<Entry>, name: string): bool {
    entries != [] && (entries[0].component == name || Listed(entries[1..], name))
  }

  function Missing(names: seq<string>, done: seq<Entry>): seq<string> {
    if names == [] then []
    else (if Listed(done, names[0]) then [] else [names[0]]) + Missing(names[1..], done)
  }

  function Limited(names: seq<string>, limit: nat): seq<string> {
    if 0 < limit < |names| then names[..limit] else names
  }

  function Selected(repo: Repo, done: seq<Entry>, limit: nat): seq<string> {
    Limited(Missing(Ready(repo), done), limit)
  }

  /** The bundle of one component on disk: found there, or acquired by one atomic write. */
  function Fetch(t: Tools, r: Row, disk: Disk, writes: nat, fails: string -> bool): (Disk, nat, Outcome) {
    var file := FileName(r.component, Normalized(r.selected));
    if file in disk.files then (disk, writes, Returned)
    else if fails(r.component) then (disk, writes, Failed)
    else if writes == 0 then (disk, 0, Crashed)
    else (disk.(files := disk.files[file := t.acquire(r)]), writes - 1, Returned)
  }

  /** What a turn of a loop leaves: the state, the writes still allowed, and whether to go on. */
  datatype Turn<S> = Turn(state: S, writes: nat, outcome: Outcome)

  datatype Progress = Progress(disk: Disk, done: seq<Entry>)

  /** One turn of the loop of `stage`: the bundle, its entry, then the manifest replaced atomically. */
  function StageOne(t: Tools, repo: Repo, p: Progress, name: string, writes: nat,
                    fails: string -> bool): Turn<Progress>
  {
    var row := Lookup(repo.rows, name);
    if row.None? then Turn(p, writes, Raised)
    else
      var f := Fetch(t, row.value, p.disk, writes, fails);
      var file := FileName(row.value.component, Normalized(row.value.selected));
      if f.2 != Returned || file !in f.0.files then Turn(p.(disk := f.0), f.1, f.2)
      else
        var entry := StageEntry(t, row.value, file, f.0.files[file]);
        if entry.None? then Turn(p.(disk := f.0), f.1, Raised)
        else if f.1 == 0 then Turn(p.(disk := f.0), 0, Crashed)
        else
          var done := p.done + [entry.value];
          Turn(Progress(f.0.(manifest := Some(Sort(done, EntryName))), done), f.1 - 1, Returned)
  }

  /** A loop that goes on while its turns return normally. */
  function Loop<S, X>(turn: (S, X, nat) -> Turn<S>, state: S, xs: seq<X>, writes: nat): Turn<S>
    decreases |xs|
  {
    if xs == [] then Turn(state, writes, Returned)
    else
      var t := turn(state, xs[0], writes);
      if t.outcome != Returned then t else Loop(turn, t.state, xs[1..], t.writes)
  }

  function StageTurn(t: Tools, repo: Repo, fails: string -> bool): (Progress, string, nat) -> Turn<Progress> {
    (p: Progress, name: string, writes: nat) => StageOne(t, repo, p, name, writes, fails)
  }

  /** The loop of `stage`. */
  function StageEach(t: Tools, repo: Repo, p: Progress, names: seq<string>, writes: nat,
                     fails: string -> bool): Turn<Progress>
  {
    Loop(StageTurn(t, repo, fails), p, names, writes)
  }

  /** The entries a run starts from. */
  function Recorded(disk: Disk): seq<Entry> {
    if disk.manifest.None? then [] else Sort(disk.manifest.value, EntryName)
  }

  /** `stage`, allowed only so many writes. */
  function Stage(t: Tools, repo: Repo, disk: Disk, limit: nat, writes: nat, fails: string -> bool): (Disk, Outcome) {
    if !AuthorityOk(repo) || (disk.manifest.Some? && !ManifestOk(t, repo, disk)) then (disk, Raised)
    else
      var done := Recorded(disk);
      var end := StageEach(t, repo, Progress(disk, done), Selected(repo, done, limit), writes, fails);
      if end.outcome != Returned then (end.state.disk, end.outcome)
      else if end.state.done != [] && !ManifestOk(t, repo, end.state.disk) then (end.state.disk, Raised)
      else (end.state.disk, Returned)
  }

  /** Some row is not ready and awaits review. */
  predicate AwaitsReview(rows: seq<Row>) {
    exists i | 0 <= i < |rows| :: rows[i].status != READY
  }

  /** The code a returning `stage` exits with: 3 when nothing is recorded and something awaits review. */
  function ExitCode(repo: Repo, disk: Disk): int {
    if disk.manifest.None? && AwaitsReview(repo.rows) then 3 else 0
  }

  // ---- install ------------------------------------------------------------------------------

  function LockFor(e: Entry): Lock {
    Lock(e.component, Normalized(e.version), e.source, e.artifact)
  }

  function LockKey(e: Entry): (string, string) {
    (e.component, Normalized(e.version))
  }

  /** `installed_current_source_matches` is true. */
  predicate Installed(repo: Repo, e: Entry) {
    LockKey(e) in repo.locks && repo.locks[LockKey(e)] == LockFor(e)
  }

  function Without(rows: seq<Row>, name: string): seq<Row> {
    if rows == [] then []
    else (if rows[0].component == name then [] else [rows[0]]) + Without(rows[1..], name)
  }

  /** `catalog-bundle install`: resolves the component, writes its lock and retires its row, at once. */
  function Install(repo: Repo, e: Entry): Repo
    requires e.component in repo.components
  {
    Repo(Without(repo.rows, e.component),
         repo.components[e.component := repo.components[e.component].(resolved := true)],
         repo.locks[LockKey(e) := LockFor(e)])
  }

  /** The re-verification of a bundle just before it is installed. */
  predicate StillVerifies(t: Tools, files: map<string, Bytes>, e: Entry) {
    && e.file in files && t.verify(files[e.file]).Some?
    && var v := t.verify(files[e.file]).value;
       && v.component == e.component && Normalized(v.version) == e.version && v.digest == e.digest
       && v.artifact == e.artifact && v.url == e.source
  }

  /** The repository, and what was installed into it so far, in order. */
  datatype Ledger = Ledger(repo: Repo, log: seq<Entry>)

  /** One turn of the loop of `install_staged`: skip, refuse, or install and validate. */
  function InstallOne(t: Tools, files: map<string, Bytes>, l: Ledger, e: Entry, writes: nat,
                      fails: string -> bool): Turn<Ledger>
  {
    if LockKey(e) in l.repo.locks then Turn(l, writes, if Installed(l.repo, e) then Returned else Raised)
    else if !StillVerifies(t, files, e) || e.component !in l.repo.components then Turn(l, writes, Raised)
    else if writes == 0 then Turn(l, 0, Crashed)
    else Turn(Ledger(Install(l.repo, e), l.log + [e]), writes - 1, if fails(e.component) then Failed else Returned)
  }

  function InstallTurn(t: Tools, files: map<string, Bytes>, fails: string -> bool)
    : (Ledger, Entry, nat) -> Turn<Ledger>
  {
    (l: Ledger, e: Entry, writes: nat) => InstallOne(t, files, l, e, writes, fails)
  }

  /** The loop of `install_staged`. */
  function InstallEach(t: Tools, files: map<string, Bytes>, l: Ledger, entries: seq<Entry>, writes: nat,
                       fails: string -> bool): Turn<Ledger>
  {
    Loop(InstallTurn(t, files, fails), l, entries, writes)
  }

  /** `install_staged`, allowed only so many installs. */
  function InstallStaged(t: Tools, l: Ledger, disk: Disk, writes: nat, fails: string -> bool): Turn<Ledger> {
    if !ManifestOk(t, l.repo, disk) then Turn(l, writes, Raised)
    else InstallEach(t, disk.files, l, Sort(disk.manifest.value, EntryName), writes, fails)
  }
}

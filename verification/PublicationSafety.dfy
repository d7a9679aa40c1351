/** What every step of the publication machine keeps, and what follows for whole runs. */
module PublicationSafety {
  import opened Collections
  import opened FileSystem
  import opened Publication

  // ---- the invariant ------------------------------------------------------------------------

  /** An inode still being written is reachable only through its temporary name. */
  ghost predicate OnlyNamed(fs: Fs, i: Ino, n: Name) {
    forall k :: k in fs.entries && fs.entries[k] == i ==> k.1 == n
  }

  predicate AfterTempStat(p: Proc) {
    HasTemp(p) && !p.pc.RequireTemp? && !p.pc.TempStat? && p.pc != Cleanup(false)
  }

  ghost predicate TempInv(c: Config, fs: Fs, p: Proc) {
    && (HasTemp(p) ==> p.tempIno in fs.inodes && fs.inodes[p.tempIno].regular && p.temp != c.target)
    && (AfterTempStat(p) ==> p.inParent)
    && (p.pc.RequireTemp? || p.pc.TempStat? ==> !p.inParent)
    && (HasTempEntry(p) ==> Refers(fs, p.parentFd, p.temp, p.tempIno))
    && (Unsealed(p) ==> fs.inodes[p.tempIno].writable && OnlyNamed(fs, p.tempIno, p.temp) && !p.created)
    && (AfterTempStat(p) && !Unsealed(p) ==> !fs.inodes[p.tempIno].writable)
  }

  /** The temporary file holds the wanted bytes from the moment they were read back, and the target
      entry a publisher created is its own until it rolls it back. */
  predicate LinkInv(c: Config, fs: Fs, p: Proc)
    requires HasTemp(p) ==> p.tempIno in fs.inodes
  {
    && (p.pc.ReadBack? ==> p.acc <= fs.inodes[p.tempIno].content)
    && (p.pc.TempFstat? || p.pc.TempNamed? ==> p.acc == fs.inodes[p.tempIno].content)
    && (p.pc.RequireLink? || p.pc.Link? ==> Matches(c, p, fs.inodes[p.tempIno].content))
    && ((p.pc.RequireFinal? && p.created) || p.pc.Rollback? ==>
          && p.created
          && Refers(fs, p.parentFd, c.target, p.tempIno)
          && Matches(c, p, fs.inodes[p.tempIno].content))
    && (HasTemp(p) && !p.pc.RequireFinal? && !p.pc.Rollback? && !p.pc.Cleanup? ==> !p.created)
  }

  predicate PastFstat(p: Proc) {
    p.pc.CheckNamed? || p.pc.CheckRead? || p.pc.CheckFstatAgain? || p.pc.CheckNamedAgain?
  }

  /** The bytes read so far are the file's, unless its `ctime` has moved since the first `fstat`. */
  predicate CheckInv(fs: Fs, p: Proc) {
    && (p.pc.CheckFstat? || PastFstat(p) ==> p.fd in fs.inodes)
    && (PastFstat(p) ==>
          var node := fs.inodes[p.fd];
          && p.before.ino == p.fd && p.before.ctime <= node.ctime
          && (node.ctime == p.before.ctime ==>
                && p.before == StatOf(fs, p.fd)
                && (p.pc.CheckRead? ==> p.acc <= node.content)
                && (p.pc.CheckFstatAgain? || p.pc.CheckNamedAgain? ==> p.acc == node.content)))
    && (p.pc.CheckNamedAgain? ==> p.after.ino == p.fd && p.after.ctime <= fs.inodes[p.fd].ctime)
  }

  ghost predicate ProcInv(c: Config, fs: Fs, p: Proc) {
    TempInv(c, fs, p) && LinkInv(c, fs, p) && CheckInv(fs, p)
  }

  ghost predicate Inv(c: Config, s: State) {
    && WellFormed(s.fs)
    && (forall p :: p in s.procs ==> ProcInv(c, s.fs, s.procs[p]))
    && (forall p, q :: p in s.procs && q in s.procs && p != q && HasTemp(s.procs[p]) && HasTemp(s.procs[q]) ==>
          s.procs[p].tempIno != s.procs[q].tempIno)
  }

  // ---- what a step does to the files --------------------------------------------------------

  lemma UnlinkEffect(fs: Fs, d: Dir, n: Name)
    requires WellFormed(fs)
    ensures var fs' := Unlink(fs, d, n);
            && Evolves(fs, fs') && WellFormed(fs') && fs'.parent == fs.parent
            && (d, n) !in fs'.entries
            && (forall k :: k in fs'.entries <==> k in fs.entries && k != (d, n))
            && (forall k :: k in fs'.entries ==> fs'.entries[k] == fs.entries[k])
            && (forall i :: i in fs.inodes ==> fs'.inodes[i].writable == fs.inodes[i].writable)
  {
  }

  /** One publisher call changes files only as `Evolves` allows. */
  lemma ActEvolves(c: Config, fs: Fs, p: Proc, choice: Choice)
    requires WellFormed(fs) && ProcInv(c, fs, p) && ChoiceFits(fs, p, choice, c.target)
    ensures var fs' := ActFs(c, fs, p, choice);
            Evolves(fs, fs') && WellFormed(fs') && fs'.parent == fs.parent
  {
    if p.pc.Rollback? { UnlinkEffect(fs, p.parentFd, c.target); }
    if p.pc.Cleanup? { UnlinkEffect(fs, p.parentFd, p.temp); }
  }

  /** What a step must leave alone for another publisher. */
  ghost predicate Spares(c: Config, fs: Fs, fs': Fs, q: Proc)
    requires HasTemp(q) ==> q.tempIno in fs.inodes && q.tempIno in fs'.inodes
  {
    && (HasTempEntry(q) ==> Refers(fs', q.parentFd, q.temp, q.tempIno))
    && ((q.pc.RequireFinal? && q.created) || q.pc.Rollback? ==> Refers(fs', q.parentFd, c.target, q.tempIno))
    && (Unsealed(q) ==> OnlyNamed(fs', q.tempIno, q.temp) && fs'.inodes[q.tempIno].writable)
  }

  lemma OtherKeeps(c: Config, fs: Fs, fs': Fs, q: Proc)
    requires ProcInv(c, fs, q) && Evolves(fs, fs') && Spares(c, fs, fs', q)
    ensures ProcInv(c, fs', q)
  {
    if HasTemp(q) { assert NodeEvolves(fs.inodes[q.tempIno], fs'.inodes[q.tempIno]); }
    if q.pc.CheckFstat? || PastFstat(q) { assert NodeEvolves(fs.inodes[q.fd], fs'.inodes[q.fd]); }
  }

  /** A publisher's call spares every other publisher: their temporary inodes differ. */
  lemma RollbackSpares(c: Config, fs: Fs, p: Proc, q: Proc)
    requires WellFormed(fs) && ProcInv(c, fs, p) && ProcInv(c, fs, q) && p.pc.Rollback?
    requires HasTemp(q) ==> p.tempIno != q.tempIno
    ensures var fs' := Unlink(fs, p.parentFd, c.target);
            (HasTemp(q) ==> q.tempIno in fs'.inodes) && Spares(c, fs, fs', q)
  {
    UnlinkEffect(fs, p.parentFd, c.target);
  }

  lemma CleanupSpares(c: Config, fs: Fs, p: Proc, q: Proc)
    requires WellFormed(fs) && ProcInv(c, fs, p) && ProcInv(c, fs, q) && p.pc.Cleanup? && p.inParent
    requires HasTemp(q) ==> p.tempIno != q.tempIno
    ensures var fs' := Unlink(fs, p.parentFd, p.temp);
            (HasTemp(q) ==> q.tempIno in fs'.inodes) && Spares(c, fs, fs', q)
  {
    UnlinkEffect(fs, p.parentFd, p.temp);
  }

  lemma ActSpares(c: Config, fs: Fs, p: Proc, choice: Choice, q: Proc)
    requires WellFormed(fs) && ProcInv(c, fs, p) && ProcInv(c, fs, q) && ChoiceFits(fs, p, choice, c.target)
    requires HasTemp(p) && HasTemp(q) ==> p.tempIno != q.tempIno
    ensures var fs' := ActFs(c, fs, p, choice);
            (HasTemp(q) ==> q.tempIno in fs'.inodes) && Spares(c, fs, fs', q)
  {
    if p.pc.Rollback? { RollbackSpares(c, fs, p, q); }
    if p.pc.Cleanup? && p.inParent { CleanupSpares(c, fs, p, q); }
  }

  // ---- one publisher call keeps its own invariant -------------------------------------------

  lemma OpenKeeps(c: Config, fs: Fs, p: Proc, choice: Choice)
    requires WellFormed(fs) && ProcInv(c, fs, p) && ChoiceFits(fs, p, choice, c.target)
    requires p.pc.Start? || p.pc.RequireEntry? || p.pc.RequireDone?
    ensures ProcInv(c, ActFs(c, fs, p, choice), ActProc(c, fs, p, choice))
  {
    assert ActProc(c, fs, p, choice) == LinkStep(c, fs, p, choice);
  }

  lemma LookUpKeeps(c: Config, fs: Fs, p: Proc, choice: Choice)
    requires WellFormed(fs) && ProcInv(c, fs, p) && ChoiceFits(fs, p, choice, c.target) && p.pc.LookUp?
    ensures ProcInv(c, ActFs(c, fs, p, choice), ActProc(c, fs, p, choice))
  {
    assert ActProc(c, fs, p, choice).pc in {Make, Returned(false), CheckOpen(false)};
  }

  lemma ConflictKeeps(c: Config, fs: Fs, p: Proc, choice: Choice)
    requires WellFormed(fs) && ProcInv(c, fs, p) && ChoiceFits(fs, p, choice, c.target)
    requires p.pc.Conflict? || p.pc.RequireLink?
    ensures ProcInv(c, ActFs(c, fs, p, choice), ActProc(c, fs, p, choice))
  {
    assert ActProc(c, fs, p, choice) == LinkStep(c, fs, p, choice);
  }

  lemma CheckOpenKeeps(c: Config, fs: Fs, p: Proc, choice: Choice)
    requires WellFormed(fs) && ProcInv(c, fs, p) && ChoiceFits(fs, p, choice, c.target)
    requires p.pc.CheckOpen? || p.pc.CheckFstat?
    ensures ProcInv(c, ActFs(c, fs, p, choice), ActProc(c, fs, p, choice))
  {
    assert ActProc(c, fs, p, choice) == CheckStep(c, fs, p, choice);
  }

  lemma CheckNamedKeeps(c: Config, fs: Fs, p: Proc, choice: Choice)
    requires WellFormed(fs) && ProcInv(c, fs, p) && ChoiceFits(fs, p, choice, c.target)
    requires p.pc.CheckNamed?
    ensures ProcInv(c, ActFs(c, fs, p, choice), ActProc(c, fs, p, choice))
  {
    assert ActProc(c, fs, p, choice) == CheckStep(c, fs, p, choice);
  }

  lemma CheckReadKeeps(c: Config, fs: Fs, p: Proc, choice: Choice)
    requires WellFormed(fs) && ProcInv(c, fs, p) && ChoiceFits(fs, p, choice, c.target)
    requires p.pc.CheckRead?
    ensures ProcInv(c, ActFs(c, fs, p, choice), ActProc(c, fs, p, choice))
  {
    var content := fs.inodes[p.fd].content;
    if p.acc <= content { ReadsOn(content, p.acc, choice.n); }
    assert ActProc(c, fs, p, choice) == CheckStep(c, fs, p, choice);
  }

  lemma CheckFstatAgainKeeps(c: Config, fs: Fs, p: Proc, choice: Choice)
    requires WellFormed(fs) && ProcInv(c, fs, p) && ChoiceFits(fs, p, choice, c.target)
    requires p.pc.CheckFstatAgain?
    ensures ProcInv(c, ActFs(c, fs, p, choice), ActProc(c, fs, p, choice))
  {
    assert ActProc(c, fs, p, choice) == CheckStep(c, fs, p, choice);
  }

  lemma FirstCheckKeeps(c: Config, fs: Fs, p: Proc, choice: Choice)
    requires WellFormed(fs) && ProcInv(c, fs, p) && ChoiceFits(fs, p, choice, c.target)
    requires p.pc == CheckNamedAgain(false)
    ensures ProcInv(c, ActFs(c, fs, p, choice), ActProc(c, fs, p, choice))
  {
    assert ActProc(c, fs, p, choice).pc in {Returned(false), RequireDone};
  }

  lemma ConflictCheckKeeps(c: Config, fs: Fs, p: Proc, choice: Choice)
    requires WellFormed(fs) && ProcInv(c, fs, p) && ChoiceFits(fs, p, choice, c.target)
    requires p.pc == CheckNamedAgain(true)
    ensures ProcInv(c, ActFs(c, fs, p, choice), ActProc(c, fs, p, choice))
  {
    assert ActProc(c, fs, p, choice) in {p.(pc := Cleanup(false)), p.(pc := RequireFinal)};
  }

  lemma MakeKeeps(c: Config, fs: Fs, p: Proc, choice: Choice)
    requires WellFormed(fs) && ProcInv(c, fs, p) && ChoiceFits(fs, p, choice, c.target)
    requires p.pc.Make? || p.pc.RequireTemp? || p.pc.TempStat?
    ensures ProcInv(c, ActFs(c, fs, p, choice), ActProc(c, fs, p, choice))
  {
    assert ActProc(c, fs, p, choice) == WriteStep(c, fs, p, choice);
  }

  lemma CopyKeeps(c: Config, fs: Fs, p: Proc, choice: Choice)
    requires WellFormed(fs) && ProcInv(c, fs, p) && ChoiceFits(fs, p, choice, c.target)
    requires p.pc.Copy? || p.pc.Seal?
    ensures ProcInv(c, ActFs(c, fs, p, choice), ActProc(c, fs, p, choice))
  {
    assert ActProc(c, fs, p, choice) == WriteStep(c, fs, p, choice);
  }

  lemma ReadBackKeeps(c: Config, fs: Fs, p: Proc, choice: Choice)
    requires WellFormed(fs) && ProcInv(c, fs, p) && ChoiceFits(fs, p, choice, c.target)
    requires p.pc.ReadBack? || p.pc.TempFstat? || p.pc.TempNamed?
    ensures ProcInv(c, ActFs(c, fs, p, choice), ActProc(c, fs, p, choice))
  {
    if p.pc.ReadBack? { ReadsOn(fs.inodes[p.tempIno].content, p.acc, choice.n); }
    assert ActProc(c, fs, p, choice) == WriteStep(c, fs, p, choice);
  }

  lemma LinkKeeps(c: Config, fs: Fs, p: Proc, choice: Choice)
    requires WellFormed(fs) && ProcInv(c, fs, p) && ChoiceFits(fs, p, choice, c.target)
    requires p.pc.Link? || p.pc.RequireFinal?
    ensures ProcInv(c, ActFs(c, fs, p, choice), ActProc(c, fs, p, choice))
  {
    assert ActProc(c, fs, p, choice) == LinkStep(c, fs, p, choice);
  }

  lemma RollbackKeeps(c: Config, fs: Fs, p: Proc, choice: Choice)
    requires WellFormed(fs) && ProcInv(c, fs, p) && ChoiceFits(fs, p, choice, c.target) && p.pc.Rollback?
    ensures ProcInv(c, ActFs(c, fs, p, choice), ActProc(c, fs, p, choice))
  {
    UnlinkEffect(fs, p.parentFd, c.target);
  }

  lemma CleanupKeeps(c: Config, fs: Fs, p: Proc, choice: Choice)
    requires WellFormed(fs) && ProcInv(c, fs, p) && ChoiceFits(fs, p, choice, c.target) && p.pc.Cleanup?
    ensures ProcInv(c, ActFs(c, fs, p, choice), ActProc(c, fs, p, choice))
  {
    UnlinkEffect(fs, p.parentFd, p.temp);
  }

  lemma ActKeepsProc(c: Config, fs: Fs, p: Proc, choice: Choice)
    requires WellFormed(fs) && ProcInv(c, fs, p) && ChoiceFits(fs, p, choice, c.target)
    ensures ProcInv(c, ActFs(c, fs, p, choice), ActProc(c, fs, p, choice))
  {
    match p.pc
    case Start | RequireEntry | RequireDone => OpenKeeps(c, fs, p, choice);
    case LookUp => LookUpKeeps(c, fs, p, choice);
    case Conflict | RequireLink => ConflictKeeps(c, fs, p, choice);
    case CheckOpen(_) => CheckOpenKeeps(c, fs, p, choice);
    case CheckFstat(_) => CheckOpenKeeps(c, fs, p, choice);
    case CheckNamed(_) => CheckNamedKeeps(c, fs, p, choice);
    case CheckRead(_) => CheckReadKeeps(c, fs, p, choice);
    case CheckFstatAgain(_) => CheckFstatAgainKeeps(c, fs, p, choice);
    case CheckNamedAgain(conflict) =>
      if conflict { ConflictCheckKeeps(c, fs, p, choice); } else { FirstCheckKeeps(c, fs, p, choice); }
    case Make | RequireTemp | TempStat => MakeKeeps(c, fs, p, choice);
    case Copy | Seal => CopyKeeps(c, fs, p, choice);
    case ReadBack | TempFstat | TempNamed => ReadBackKeeps(c, fs, p, choice);
    case Link | RequireFinal => LinkKeeps(c, fs, p, choice);
    case Rollback => RollbackKeeps(c, fs, p, choice);
    case Cleanup(_) => CleanupKeeps(c, fs, p, choice);
  }

  // ---- what one call does to a publisher's place and identity --------------------------------

  /** The exclusive link of this publisher succeeds here: its temporary entry is there, the target is not. */
  predicate LinksTarget(c: Config, fs: Fs, p: Proc) {
    p.pc.Link? && (p.parentFd, p.temp) in fs.entries && (p.parentFd, c.target) !in fs.entries
  }

  /** The publisher has no temporary file yet, or found the target there and makes none. */
  predicate BeforeTemp(p: Proc) {
    || p.pc.Start? || p.pc.RequireEntry? || p.pc.LookUp? || p.pc.Make? || p.pc.RequireDone?
    || (Checking(p) && !p.pc.conflict)
  }

  /** The call the publisher is about to make is `_require_same_publication_parent`. */
  predicate AtParentCheck(p: Proc) {
    p.pc.RequireEntry? || p.pc.RequireTemp? || p.pc.RequireLink? || AtLastCheck(p)
  }

  /** It is the last one, which decides between success and failure. */
  predicate AtLastCheck(p: Proc) { p.pc.RequireDone? || p.pc.RequireFinal? }

  /** The call it is about to make rests on the parent check just made. */
  predicate RestsOnCheck(p: Proc) { p.pc.LookUp? || p.pc.TempStat? || p.pc.Link? }

  predicate Succeeded(p: Proc) { p.pc == Cleanup(true) || p.pc == Returned(true) }

  predicate Failing(p: Proc) { p.pc.Rollback? || p.pc == Cleanup(false) || p.pc == Returned(false) }

  predicate Shifts(c: Config, fs: Fs, p: Proc, p': Proc) {
    && p'.wanted == p.wanted && p'.size == p.size && (p.pc.Start? || p'.parentFd == p.parentFd)
    && (BeforeTemp(p') ==> BeforeTemp(p))
    && (HasTemp(p') ==>
          if p.pc.Make? then p'.tempIno !in fs.inodes && !p'.created
          else HasTemp(p) && p'.tempIno == p.tempIno && (p'.created <==> p.created || LinksTarget(c, fs, p)))
    && (p'.pc.RequireTemp? || p'.pc.TempStat? ==> p.pc.Make? || p.pc.RequireTemp?)
    && (p'.pc.Rollback? <==> p.pc.RequireFinal? && p.created && fs.parent != p.parentFd)
    && (HasTemp(p) && p'.pc.Returned? ==> p.pc.Cleanup?)
  }

  /** What the target's name in the opened directory shows, if it is there. */
  function Shown(c: Config, fs: Fs, p: Proc): Option<Stat>
    requires WellFormed(fs)
  {
    if (p.parentFd, c.target) in fs.entries then Some(StatOf(fs, fs.entries[(p.parentFd, c.target)])) else None
  }

  predicate Sealed(s: Stat) { s.regular && !s.writable }

  predicate Alike(a: Stat, b: Stat) { a.ino == b.ino && a.size == b.size && a.ctime == b.ctime }

  /** What the call shows makes the publisher raise. */
  predicate Refuses(c: Config, fs: Fs, p: Proc, choice: Choice)
    requires WellFormed(fs) && FdsOpen(fs, p)
  {
    var shown := Shown(c, fs, p);
    match p.pc
    case LookUp => shown.Some? && !Sealed(shown.value)
    case Conflict => shown.None? || !Sealed(shown.value)
    case CheckOpen(_) => shown.None?
    case CheckNamed(_) =>
      shown.None? || !shown.value.regular || !p.before.regular || p.before.size == 0 || p.before.ino != shown.value.ino
    case CheckNamedAgain(_) =>
      || shown.None? || !Sealed(shown.value) || !p.after.regular || !Alike(p.before, p.after)
      || !Alike(p.after, shown.value) || |p.acc| != p.before.size || !Matches(c, p, p.acc)
    case TempStat => !Refers(fs, p.parentFd, p.temp, p.tempIno) || !fs.inodes[p.tempIno].regular
    case Copy => choice.SourceChanged? || (choice in {Quiet, Block([])} && !Matches(c, p, p.copied))
    case TempFstat => !Sealed(StatOf(fs, p.tempIno))
    case TempNamed =>
      !Refers(fs, p.parentFd, p.temp, p.tempIno) || !fs.inodes[p.tempIno].regular || !Matches(c, p, p.acc)
    case Link => (p.parentFd, p.temp) !in fs.entries
    case _ => AtParentCheck(p) && fs.parent != p.parentFd
  }

  /** What a call decides: success comes from the last parent check alone, made while the path names the
      opened directory, and is not left again; failure comes from a refused call alone, and is not left. */
  predicate Decides(c: Config, fs: Fs, p: Proc, choice: Choice, p': Proc)
    requires WellFormed(fs) && FdsOpen(fs, p)
  {
    && (Succeeded(p') <==> Succeeded(p) || (AtLastCheck(p) && fs.parent == p.parentFd))
    && (Failing(p') <==> Failing(p) || Refuses(c, fs, p, choice))
    && (RestsOnCheck(p') ==> AtParentCheck(p) && fs.parent == p.parentFd)
  }

  lemma CheckShifts(c: Config, fs: Fs, p: Proc, choice: Choice)
    requires WellFormed(fs) && FdsOpen(fs, p) && ChoiceFits(fs, p, choice, c.target) && Checking(p)
    ensures Shifts(c, fs, p, CheckStep(c, fs, p, choice))
  {
  }

  lemma WriteShifts(c: Config, fs: Fs, p: Proc, choice: Choice)
    requires WellFormed(fs) && FdsOpen(fs, p) && ChoiceFits(fs, p, choice, c.target) && Writing(p)
    ensures Shifts(c, fs, p, WriteStep(c, fs, p, choice))
  {
  }

  lemma LinkShifts(c: Config, fs: Fs, p: Proc, choice: Choice)
    requires WellFormed(fs) && FdsOpen(fs, p) && ChoiceFits(fs, p, choice, c.target) && !Checking(p) && !Writing(p)
    ensures Shifts(c, fs, p, LinkStep(c, fs, p, choice))
  {
  }

  lemma ActShifts(c: Config, fs: Fs, p: Proc, choice: Choice)
    requires WellFormed(fs) && FdsOpen(fs, p) && ChoiceFits(fs, p, choice, c.target)
    ensures Shifts(c, fs, p, ActProc(c, fs, p, choice))
  {
    if Checking(p) {
      CheckShifts(c, fs, p, choice);
    } else if Writing(p) {
      WriteShifts(c, fs, p, choice);
    } else {
      LinkShifts(c, fs, p, choice);
    }
  }

  lemma ReadingDecides(c: Config, fs: Fs, p: Proc, choice: Choice)
    requires WellFormed(fs) && FdsOpen(fs, p) && ChoiceFits(fs, p, choice, c.target)
    requires Checking(p) && !p.pc.CheckNamed? && !p.pc.CheckNamedAgain?
    ensures Decides(c, fs, p, choice, CheckStep(c, fs, p, choice))
  {
  }

  lemma NamingDecides(c: Config, fs: Fs, p: Proc, choice: Choice)
    requires WellFormed(fs) && FdsOpen(fs, p) && ChoiceFits(fs, p, choice, c.target) && p.pc.CheckNamed?
    ensures Decides(c, fs, p, choice, CheckStep(c, fs, p, choice))
  {
  }

  lemma ComparingDecides(c: Config, fs: Fs, p: Proc, choice: Choice)
    requires WellFormed(fs) && FdsOpen(fs, p) && ChoiceFits(fs, p, choice, c.target) && p.pc.CheckNamedAgain?
    ensures Decides(c, fs, p, choice, CheckStep(c, fs, p, choice))
  {
  }

  lemma WriteDecides(c: Config, fs: Fs, p: Proc, choice: Choice)
    requires WellFormed(fs) && FdsOpen(fs, p) && ChoiceFits(fs, p, choice, c.target) && Writing(p)
    ensures Decides(c, fs, p, choice, WriteStep(c, fs, p, choice))
  {
  }

  lemma LinkDecides(c: Config, fs: Fs, p: Proc, choice: Choice)
    requires WellFormed(fs) && FdsOpen(fs, p) && ChoiceFits(fs, p, choice, c.target) && !Checking(p) && !Writing(p)
    ensures Decides(c, fs, p, choice, LinkStep(c, fs, p, choice))
  {
  }

  lemma ActDecides(c: Config, fs: Fs, p: Proc, choice: Choice)
    requires WellFormed(fs) && FdsOpen(fs, p) && ChoiceFits(fs, p, choice, c.target)
    ensures Decides(c, fs, p, choice, ActProc(c, fs, p, choice))
  {
    if p.pc.CheckNamedAgain? {
      ComparingDecides(c, fs, p, choice);
    } else if p.pc.CheckNamed? {
      NamingDecides(c, fs, p, choice);
    } else if Checking(p) {
      ReadingDecides(c, fs, p, choice);
    } else if Writing(p) {
      WriteDecides(c, fs, p, choice);
    } else {
      LinkDecides(c, fs, p, choice);
    }
  }

  lemma ActKeepsInv(c: Config, s: State, p: Pid, choice: Choice)
    requires Inv(c, s) && Enabled(c, s, Act(p, choice))
    ensures Inv(c, Next(c, s, Act(p, choice)))
  {
    var proc := s.procs[p];
    var s' := Next(c, s, Act(p, choice));
    ActEvolves(c, s.fs, proc, choice);
    ActKeepsProc(c, s.fs, proc, choice);
    forall q | q in s'.procs ensures ProcInv(c, s'.fs, s'.procs[q]) {
      if q != p {
        ActSpares(c, s.fs, proc, choice, s.procs[q]);
        OtherKeeps(c, s.fs, s'.fs, s.procs[q]);
      }
    }
    ActShifts(c, s.fs, proc, choice);
    forall q, r | q in s'.procs && r in s'.procs && q != r && HasTemp(s'.procs[q]) && HasTemp(s'.procs[r])
      ensures s'.procs[q].tempIno != s'.procs[r].tempIno
    {
      assert q != p ==> ProcInv(c, s.fs, s.procs[q]);
      assert r != p ==> ProcInv(c, s.fs, s.procs[r]);
    }
  }

  lemma EnvEvolves(c: Config, s: State, l: Label)
    requires Enabled(c, s, l) && !l.Act?
    ensures Evolves(s.fs, Next(c, s, l).fs) && WellFormed(Next(c, s, l).fs) && Next(c, s, l).procs == s.procs
  {
    if l.EnvUnlink? { UnlinkEffect(s.fs, l.d, l.n); }
  }

  lemma EnvSpares(c: Config, s: State, l: Label, q: Pid)
    requires Inv(c, s) && Enabled(c, s, l) && !l.Act? && q in s.procs
    ensures var fs' := Next(c, s, l).fs;
            (HasTemp(s.procs[q]) ==> s.procs[q].tempIno in fs'.inodes) && Spares(c, s.fs, fs', s.procs[q])
  {
    assert ProcInv(c, s.fs, s.procs[q]);
    if l.EnvUnlink? {
      UnlinkEffect(s.fs, l.d, l.n);
      assert HasTemp(s.procs[q]) ==> TempName(s, s.procs[q].temp);
    } else if l.EnvLink? || l.EnvSeal? {
      assert Unsealed(s.procs[q]) ==> PrivateIno(s, s.procs[q].tempIno);
    }
  }

  lemma EnvKeepsInv(c: Config, s: State, l: Label)
    requires Inv(c, s) && Enabled(c, s, l) && !l.Act?
    ensures Inv(c, Next(c, s, l)) && Evolves(s.fs, Next(c, s, l).fs)
  {
    var s' := Next(c, s, l);
    EnvEvolves(c, s, l);
    forall q | q in s'.procs ensures ProcInv(c, s'.fs, s'.procs[q]) {
      EnvSpares(c, s, l, q);
      OtherKeeps(c, s.fs, s'.fs, s.procs[q]);
    }
  }

  /** Every step keeps the invariant, whoever acts and wherever the parent path points. */
  lemma StepKeepsInv(c: Config, s: State, l: Label)
    requires Inv(c, s) && Enabled(c, s, l)
    ensures Inv(c, Next(c, s, l)) && Evolves(s.fs, Next(c, s, l).fs)
  {
    if l.Act? {
      ActKeepsInv(c, s, l.p, l.choice);
      ActEvolves(c, s.fs, s.procs[l.p], l.choice);
    } else {
      EnvKeepsInv(c, s, l);
    }
  }

  /** The step that removes a published target: the publisher that created it found the parent moved. */
  ghost predicate RollsBack(s: State, l: Label, d: Dir) {
    l.Act? && l.p in s.procs && s.procs[l.p].pc.Rollback? && s.procs[l.p].parentFd == d
  }

  /** However the parent moves, one step leaves a present target entry as it is if and only if it is
      not a rollback, and a rollback removes the very file its publisher linked. */
  lemma StepKeepsTargetIff(c: Config, s: State, l: Label, d: Dir)
    requires Inv(c, s) && Enabled(c, s, l) && (d, c.target) in s.fs.entries
    ensures Refers(Next(c, s, l).fs, d, c.target, s.fs.entries[(d, c.target)]) <==> !RollsBack(s, l, d)
    ensures RollsBack(s, l, d) ==> s.procs[l.p].created && s.procs[l.p].tempIno == s.fs.entries[(d, c.target)]
  {
    if l.Act? {
      var p := s.procs[l.p];
      assert ProcInv(c, s.fs, p);
      if p.pc.Rollback? { UnlinkEffect(s.fs, p.parentFd, c.target); }
      if p.pc.Cleanup? { UnlinkEffect(s.fs, p.parentFd, p.temp); }
    } else if l.EnvUnlink? {
      UnlinkEffect(s.fs, l.d, l.n);
    }
  }

  // ---- a stable parent ----------------------------------------------------------------------

  /** The target is there, regular, read-only, and holds the bytes this publisher wanted. */
  predicate Good(c: Config, fs: Fs, p: Proc) {
    && (p.parentFd, c.target) in fs.entries
    && fs.entries[(p.parentFd, c.target)] in fs.inodes
    && var node := fs.inodes[fs.entries[(p.parentFd, c.target)]];
       node.regular && !node.writable && Matches(c, p, node.content)
  }

  /** The publisher has nothing left to check but the parent. */
  predicate Vouches(p: Proc) {
    p.pc.RequireDone? || p.pc.RequireFinal? || p.pc == Cleanup(true) || p.pc == Returned(true)
  }

  predicate StableProc(c: Config, fs: Fs, p: Proc, d: Dir) {
    && (!p.pc.Start? ==> p.parentFd == d)
    && !p.pc.Rollback?
    && (Vouches(p) ==> Good(c, fs, p))
    && (p.pc.RequireTemp? || p.pc.TempStat? ==> Refers(fs, d, p.temp, p.tempIno))
    && (p.pc.Cleanup? ==> p.inParent)
  }

  ghost predicate StableInv(c: Config, s: State, d: Dir) {
    && Inv(c, s) && s.fs.parent == d
    && forall p :: p in s.procs ==> StableProc(c, s.fs, s.procs[p], d)
  }

  lemma TargetKept(c: Config, s: State, l: Label, d: Dir)
    requires StableInv(c, s, d) && Enabled(c, s, l) && (d, c.target) in s.fs.entries
    ensures Refers(Next(c, s, l).fs, d, c.target, s.fs.entries[(d, c.target)])
  {
    StepKeepsTargetIff(c, s, l, d);
    if l.Act? { assert StableProc(c, s.fs, s.procs[l.p], d); }
  }

  lemma GoodKept(c: Config, s: State, l: Label, d: Dir, p: Proc)
    requires StableInv(c, s, d) && Enabled(c, s, l) && p.parentFd == d && Good(c, s.fs, p)
    ensures Good(c, Next(c, s, l).fs, p)
  {
    TargetKept(c, s, l, d);
    StepKeepsInv(c, s, l);
    var i := s.fs.entries[(d, c.target)];
    assert NodeEvolves(s.fs.inodes[i], Next(c, s, l).fs.inodes[i]);
  }

  /** A publisher that comes to vouch for the target, having read it or linked it, is right about it. */
  lemma VouchingIsGood(c: Config, fs: Fs, p: Proc, choice: Choice)
    requires WellFormed(fs) && ProcInv(c, fs, p) && ChoiceFits(fs, p, choice, c.target)
    requires StableProc(c, fs, p, fs.parent)
    requires Vouches(ActProc(c, fs, p, choice)) && !Vouches(p)
    ensures Good(c, ActFs(c, fs, p, choice), ActProc(c, fs, p, choice))
  {
    OnlyCheckAndLinkVouch(c, fs, p, choice);
  }

  lemma OnlyCheckAndLinkVouch(c: Config, fs: Fs, p: Proc, choice: Choice)
    requires WellFormed(fs) && ProcInv(c, fs, p) && ChoiceFits(fs, p, choice, c.target)
    requires StableProc(c, fs, p, fs.parent)
    requires Vouches(ActProc(c, fs, p, choice)) && !Vouches(p)
    ensures p.pc.CheckNamedAgain? || (p.pc.Link? && ActProc(c, fs, p, choice).created)
  {
  }

  lemma MakingTempIsInParent(c: Config, fs: Fs, p: Proc, choice: Choice)
    requires WellFormed(fs) && ProcInv(c, fs, p) && ChoiceFits(fs, p, choice, c.target)
    requires StableProc(c, fs, p, fs.parent)
    requires p.pc.Make? || p.pc.RequireTemp? || p.pc.TempStat?
    ensures var p' := ActProc(c, fs, p, choice);
            && !p'.pc.Cleanup?
            && (p'.pc.RequireTemp? || p'.pc.TempStat?
                ==> Refers(ActFs(c, fs, p, choice), fs.parent, p'.temp, p'.tempIno))
  {
  }

  lemma ActCleansInParent(c: Config, fs: Fs, p: Proc, choice: Choice)
    requires WellFormed(fs) && ProcInv(c, fs, p) && ChoiceFits(fs, p, choice, c.target)
    requires StableProc(c, fs, p, fs.parent)
    ensures var p' := ActProc(c, fs, p, choice);
            p'.pc.Cleanup? && !p.pc.RequireTemp? && !p.pc.TempStat? ==> p'.inParent
  {
  }

  lemma TempEntryKeptByEnv(c: Config, s: State, l: Label, d: Dir, q: Pid)
    requires StableInv(c, s, d) && Enabled(c, s, l) && q in s.procs && !l.Act?
    requires s.procs[q].pc.RequireTemp? || s.procs[q].pc.TempStat?
    ensures Refers(Next(c, s, l).fs, d, s.procs[q].temp, s.procs[q].tempIno)
  {
    assert StableProc(c, s.fs, s.procs[q], d) && ProcInv(c, s.fs, s.procs[q]);
    if l.EnvUnlink? {
      assert TempName(s, s.procs[q].temp);
      UnlinkEffect(s.fs, l.d, l.n);
    }
  }

  lemma TempEntryKept(c: Config, s: State, l: Label, d: Dir, q: Pid)
    requires StableInv(c, s, d) && Enabled(c, s, l) && q in s.procs && l != Act(q, Quiet)
    requires s.procs[q].pc.RequireTemp? || s.procs[q].pc.TempStat?
    ensures Refers(Next(c, s, l).fs, d, s.procs[q].temp, s.procs[q].tempIno)
  {
    if l.Act? {
      var p := s.procs[l.p];
      assert StableProc(c, s.fs, s.procs[q], d) && ProcInv(c, s.fs, s.procs[q]);
      assert ProcInv(c, s.fs, p) && StableProc(c, s.fs, p, d);
      if p.pc.Cleanup? { UnlinkEffect(s.fs, p.parentFd, p.temp); }
    } else {
      TempEntryKeptByEnv(c, s, l, d, q);
    }
  }

  lemma ActorStaysStable(c: Config, s: State, p: Pid, choice: Choice, d: Dir)
    requires StableInv(c, s, d) && Enabled(c, s, Act(p, choice))
    ensures var s' := Next(c, s, Act(p, choice)); StableProc(c, s'.fs, s'.procs[p], d)
  {
    var proc := s.procs[p];
    var proc' := ActProc(c, s.fs, proc, choice);
    assert StableProc(c, s.fs, proc, d) && ProcInv(c, s.fs, proc);
    ActShifts(c, s.fs, proc, choice);
    ActCleansInParent(c, s.fs, proc, choice);
    if Vouches(proc') {
      if Vouches(proc) { GoodKept(c, s, Act(p, choice), d, proc); } else { VouchingIsGood(c, s.fs, proc, choice); }
    }
    if proc.pc.Make? || proc.pc.RequireTemp? || proc.pc.TempStat? { MakingTempIsInParent(c, s.fs, proc, choice); }
  }

  lemma OtherStaysStable(c: Config, s: State, l: Label, d: Dir, q: Pid)
    requires StableInv(c, s, d) && Enabled(c, s, l) && q in s.procs && (l.Act? ==> l.p != q)
    ensures StableProc(c, Next(c, s, l).fs, s.procs[q], d)
  {
    var proc := s.procs[q];
    assert StableProc(c, s.fs, proc, d);
    if Vouches(proc) { GoodKept(c, s, l, d, proc); }
    if proc.pc.RequireTemp? || proc.pc.TempStat? { TempEntryKept(c, s, l, d, q); }
  }

  lemma StepKeepsStable(c: Config, s: State, l: Label, d: Dir)
    requires StableInv(c, s, d) && Enabled(c, s, l) && !l.EnvMove?
    ensures StableInv(c, Next(c, s, l), d)
  {
    StepKeepsInv(c, s, l);
    var s' := Next(c, s, l);
    assert s'.fs.parent == d by {
      if l.Act? {
        assert ProcInv(c, s.fs, s.procs[l.p]);
        ActEvolves(c, s.fs, s.procs[l.p], l.choice);
      }
    }
    forall q | q in s'.procs ensures StableProc(c, s'.fs, s'.procs[q], d) {
      if l.Act? && l.p == q {
        ActorStaysStable(c, s, q, l.choice, d);
      } else {
        OtherStaysStable(c, s, l, d, q);
      }
    }
  }

  // ---- whole runs ---------------------------------------------------------------------------

  lemma {:induction false} PathKeepsInv(c: Config, s: State, labels: seq<Label>, t: State)
    requires Inv(c, s) && Path(c, s, labels, t)
    ensures Inv(c, t) && Evolves(s.fs, t.fs)
    decreases |labels|
  {
    if labels == [] {
    } else {
      var s1 := Next(c, s, labels[0]);
      StepKeepsInv(c, s, labels[0]);
      PathKeepsInv(c, s1, labels[1..], t);
      EvolvesTransitive(s.fs, s1.fs, t.fs);
    }
  }

  lemma {:induction false} PathKeepsStable(c: Config, s: State, labels: seq<Label>, t: State, d: Dir)
    requires StableInv(c, s, d) && Path(c, s, labels, t) && ParentStable(labels)
    ensures StableInv(c, t, d)
    decreases |labels|
  {
    if labels == [] {
    } else {
      StepKeepsStable(c, s, labels[0], d);
      PathKeepsStable(c, Next(c, s, labels[0]), labels[1..], t, d);
    }
  }

  lemma InitStable(c: Config, s: State)
    requires Init(s)
    ensures StableInv(c, s, s.fs.parent)
  {
  }

  /** Write once: with a stable parent the target entry, once present, never changes. */
  lemma {:induction false} TargetIsWrittenOnce(c: Config, s: State, labels: seq<Label>, t: State, d: Dir)
    requires StableInv(c, s, d) && Path(c, s, labels, t) && ParentStable(labels)
    requires (d, c.target) in s.fs.entries
    ensures Refers(t.fs, d, c.target, s.fs.entries[(d, c.target)])
    decreases |labels|
  {
    if labels == [] {
    } else {
      TargetKept(c, s, labels[0], d);
      StepKeepsStable(c, s, labels[0], d);
      TargetIsWrittenOnce(c, Next(c, s, labels[0]), labels[1..], t, d);
    }
  }

  /** The main result for one publisher: from an initial state, with a stable parent, a publisher that
      has returned successfully left a read-only regular target with exactly the bytes it wanted,
      and whatever all the others do afterwards the target stays the same file with the same bytes. */
  lemma PublishedForGood(c: Config, s0: State, past: seq<Label>, s: State, future: seq<Label>, t: State, p: Pid)
    requires Init(s0) && Path(c, s0, past, s) && Path(c, s, future, t)
    requires ParentStable(past) && ParentStable(future)
    requires p in s.procs && s.procs[p].pc == Returned(true)
    ensures Good(c, s.fs, s.procs[p]) && Good(c, t.fs, s.procs[p])
    ensures var here := (s.procs[p].parentFd, c.target);
            && t.fs.entries[here] == s.fs.entries[here]
            && t.fs.inodes[t.fs.entries[here]].content == s.fs.inodes[s.fs.entries[here]].content
  {
    var d := s0.fs.parent;
    InitStable(c, s0);
    PathKeepsStable(c, s0, past, s, d);
    assert StableProc(c, s.fs, s.procs[p], d);
    TargetIsWrittenOnce(c, s, future, t, d);
    PathKeepsInv(c, s, future, t);
    var i := s.fs.entries[(d, c.target)];
    assert NodeEvolves(s.fs.inodes[i], t.fs.inodes[i]);
  }

  /** Of any number of publishers all the successful ones wanted the same digest and size, no matter
      when they returned: a publisher that wanted anything else fails. */
  lemma SuccessesAgree(c: Config, s0: State, past: seq<Label>, s: State, future: seq<Label>, t: State, p: Pid, q: Pid)
    requires Init(s0) && Path(c, s0, past, s) && Path(c, s, future, t)
    requires ParentStable(past) && ParentStable(future)
    requires p in s.procs && s.procs[p].pc == Returned(true)
    requires q in t.procs && t.procs[q].pc == Returned(true)
    ensures s.procs[p].wanted == t.procs[q].wanted && s.procs[p].size == t.procs[q].size
  {
    PublishedForGood(c, s0, past, s, future, t, p);
    var d := s0.fs.parent;
    InitStable(c, s0);
    PathKeepsStable(c, s0, past, s, d);
    PathKeepsStable(c, s, future, t, d);
    assert StableProc(c, s.fs, s.procs[p], d) && StableProc(c, t.fs, t.procs[q], d);
  }

  lemma CleanupTakesEntry(c: Config, s: State, p: Pid, choice: Choice, d: Dir)
    requires Enabled(c, s, Act(p, choice)) && s.procs[p].pc.Cleanup? && s.procs[p].inParent && s.procs[p].parentFd == d
    ensures (d, s.procs[p].temp) !in Next(c, s, Act(p, choice)).fs.entries
  {
    UnlinkEffect(s.fs, d, s.procs[p].temp);
  }

  /** With a stable parent a publisher that made a temporary file removes its entry before it returns. */
  lemma NoTempSurvives(c: Config, s0: State, past: seq<Label>, s: State, p: Pid, choice: Choice)
    requires Init(s0) && Path(c, s0, past, s) && ParentStable(past)
    requires Enabled(c, s, Act(p, choice)) && HasTemp(s.procs[p])
    requires Next(c, s, Act(p, choice)).procs[p].pc.Returned?
    ensures (s0.fs.parent, s.procs[p].temp) !in Next(c, s, Act(p, choice)).fs.entries
  {
    var d := s0.fs.parent;
    InitStable(c, s0);
    PathKeepsStable(c, s0, past, s, d);
    assert StableProc(c, s.fs, s.procs[p], d) && ProcInv(c, s.fs, s.procs[p]);
    ActShifts(c, s.fs, s.procs[p], choice);
    CleanupTakesEntry(c, s, p, choice, d);
  }
}

/** `publish_verified_file` of scripts/c9_stable_snapshot.py as a state machine: any number of
    publishers of one target, interleaved system call by system call with an environment. */
module Publication {
  import opened FileSystem

  /** The digest function and the name being published. */
  datatype Config = Config(hash: Bytes -> Digest, target: Name)

  datatype Stat = Stat(ino: Ino, size: nat, ctime: nat, writable: bool, regular: bool)

  /** Where a publisher stands.  `Check...` is `_stable_entry_fingerprint` on the target, entered
      because the target was there at the start or (`conflict`) because the link met it. */
  datatype Pc =
    | Start | RequireEntry | LookUp
    | CheckOpen(conflict: bool) | CheckFstat(conflict: bool) | CheckNamed(conflict: bool)
    | CheckRead(conflict: bool) | CheckFstatAgain(conflict: bool) | CheckNamedAgain(conflict: bool)
    | RequireDone
    | Make | RequireTemp | TempStat | Copy | Seal | ReadBack | TempFstat | TempNamed
    | RequireLink | Link | Conflict | RequireFinal | Rollback
    | Cleanup(ok: bool) | Returned(ok: bool)

  datatype Proc = Proc(
    pc: Pc, wanted: Digest, size: nat, parentFd: Dir,
    temp: Name, tempIno: Ino, inParent: bool, created: bool,
    fd: Ino, before: Stat, after: Stat, acc: Bytes, copied: Bytes)

  type Pid = nat

  datatype State = State(fs: Fs, procs: map<Pid, Proc>)

  /** What the system leaves open in one call of a publisher: the temporary name and inode, a block
      read from the source, how many bytes a read returns, whether the source still looks unchanged. */
  datatype Choice = Quiet | Fresh(ino: Ino, name: Name) | Block(data: Bytes) | Take(n: nat) | SourceChanged

  datatype Label =
    | Act(p: Pid, choice: Choice)
    | EnvWrite(i: Ino, content: Bytes)
    | EnvSeal(i: Ino)
    | EnvCreate(d: Dir, n: Name, ino: Ino, node: Inode)
    | EnvLink(d: Dir, n: Name, i: Ino)
    | EnvUnlink(d: Dir, n: Name)
    | EnvMove(d: Dir)

  predicate Matches(c: Config, p: Proc, data: Bytes) {
    c.hash(data) == p.wanted && |data| == p.size
  }

  function StatOf(fs: Fs, i: Ino): Stat
    requires i in fs.inodes
  {
    var node := fs.inodes[i];
    Stat(i, |node.content|, node.ctime, node.writable, node.regular)
  }

  /** The publisher holds a temporary inode. */
  predicate HasTemp(p: Proc) {
    match p.pc
    case RequireTemp | TempStat | Copy | Seal | ReadBack | TempFstat | TempNamed | RequireLink | Link
      | Conflict | RequireFinal | Rollback | Cleanup(_) => true
    case CheckOpen(c) => c
    case CheckFstat(c) => c
    case CheckNamed(c) => c
    case CheckRead(c) => c
    case CheckFstatAgain(c) => c
    case CheckNamedAgain(c) => c
    case _ => false
  }

  /** The temporary inode is still to be written. */
  predicate Unsealed(p: Proc) {
    p.pc.RequireTemp? || p.pc.TempStat? || p.pc.Copy? || p.pc.Seal?
  }

  /** The temporary entry is known to be in the opened parent. */
  predicate HasTempEntry(p: Proc) {
    HasTemp(p) && !p.pc.RequireTemp? && !p.pc.TempStat? && p.inParent
  }

  // ---- one call of a publisher --------------------------------------------------------------

  function Fail(p: Proc): Proc {
    p.(pc := if HasTemp(p) then Cleanup(false) else Returned(false))
  }

  predicate ChoiceFits(fs: Fs, p: Proc, choice: Choice, target: Name) {
    match p.pc
    case Make =>
      choice.Fresh? && choice.ino !in fs.inodes && (fs.parent, choice.name) !in fs.entries && choice.name != target
    case Copy => choice.Block? || choice.Quiet? || choice.SourceChanged?
    case CheckRead(_) => choice.Take? && choice.n > 0
    case ReadBack => choice.Take? && choice.n > 0
    case Returned(_) => false
    case _ => choice.Quiet?
  }

  /** `_require_same_publication_parent`: the path still names the opened directory. */
  function Require(fs: Fs, p: Proc, next: Pc): Proc {
    if fs.parent == p.parentFd then p.(pc := next) else Fail(p)
  }

  function ActFs(c: Config, fs: Fs, p: Proc, choice: Choice): Fs
    requires WellFormed(fs) && ChoiceFits(fs, p, choice, c.target)
    requires (HasTemp(p) ==> p.tempIno in fs.inodes)
  {
    match p.pc
    case Make => PutEntry(PutInode(fs, choice.ino, Inode([], true, true, 0)), fs.parent, choice.name, choice.ino)
    case Copy =>
      if choice.Block? && choice.data != [] then
        var node := fs.inodes[p.tempIno];
        PutInode(fs, p.tempIno, Touched(node.(content := WriteAt(node.content, |p.copied|, choice.data))))
      else fs
    case Seal =>
      PutInode(fs, p.tempIno, Touched(fs.inodes[p.tempIno].(writable := false)))
    case Link =>
      if (p.parentFd, p.temp) in fs.entries && (p.parentFd, c.target) !in fs.entries then
        PutEntry(fs, p.parentFd, c.target, fs.entries[(p.parentFd, p.temp)])
      else fs
    case Rollback => Unlink(fs, p.parentFd, c.target)
    case Cleanup(_) => if p.inParent then Unlink(fs, p.parentFd, p.temp) else fs
    case _ => fs
  }

  /** The publisher is in the middle of reading the target. */
  predicate Checking(p: Proc) {
    p.pc.CheckOpen? || p.pc.CheckFstat? || p.pc.CheckNamed? || p.pc.CheckRead? || p.pc.CheckFstatAgain?
    || p.pc.CheckNamedAgain?
  }

  /** It is making, filling and reading back its temporary file. */
  predicate Writing(p: Proc) {
    p.pc.Make? || p.pc.RequireTemp? || p.pc.TempStat? || p.pc.Copy? || p.pc.Seal? || p.pc.ReadBack?
    || p.pc.TempFstat? || p.pc.TempNamed?
  }

  /** `_stable_entry_fingerprint` on the target. */
  function CheckStep(c: Config, fs: Fs, p: Proc, choice: Choice): Proc
    requires WellFormed(fs) && ChoiceFits(fs, p, choice, c.target) && FdsOpen(fs, p) && Checking(p)
  {
    var here := (p.parentFd, c.target);
    match p.pc
    case CheckOpen(conflict) =>
      if here !in fs.entries then Fail(p)
      else p.(pc := CheckFstat(conflict), fd := fs.entries[here])
    case CheckFstat(conflict) => p.(pc := CheckNamed(conflict), before := StatOf(fs, p.fd))
    case CheckNamed(conflict) =>
      if here !in fs.entries then Fail(p)
      else
        var named := StatOf(fs, fs.entries[here]);
        if !p.before.regular || !named.regular || p.before.size == 0 || p.before.ino != named.ino then Fail(p)
        else p.(pc := CheckRead(conflict), acc := [])
    case CheckRead(conflict) =>
      var block := NextBlock(fs.inodes[p.fd].content, |p.acc|, choice.n);
      if block == [] then p.(pc := CheckFstatAgain(conflict)) else p.(acc := p.acc + block)
    case CheckFstatAgain(conflict) => p.(pc := CheckNamedAgain(conflict), after := StatOf(fs, p.fd))
    case CheckNamedAgain(conflict) =>
      if here !in fs.entries then Fail(p)
      else
        var named := StatOf(fs, fs.entries[here]);
        if || !p.after.regular || !named.regular
           || p.before.ino != p.after.ino || p.after.ino != named.ino
           || p.before.size != p.after.size || p.before.ctime != p.after.ctime
           || p.after.size != named.size || p.after.ctime != named.ctime
           || |p.acc| != p.before.size then Fail(p)
        else if named.writable || !Matches(c, p, p.acc) then Fail(p)
        else p.(pc := if conflict then RequireFinal else RequireDone)
  }

  /** From the temporary file's creation to the comparison of what was read back. */
  function WriteStep(c: Config, fs: Fs, p: Proc, choice: Choice): Proc
    requires WellFormed(fs) && ChoiceFits(fs, p, choice, c.target) && FdsOpen(fs, p) && Writing(p)
  {
    match p.pc
    case Make => p.(pc := RequireTemp, temp := choice.name, tempIno := choice.ino, inParent := false, created := false)
    case RequireTemp => Require(fs, p, TempStat)
    case TempStat =>
      if Refers(fs, p.parentFd, p.temp, p.tempIno) && fs.inodes[p.tempIno].regular
      then p.(pc := Copy, inParent := true, copied := [])
      else Fail(p)
    case Copy =>
      if choice.Block? && choice.data != [] then p.(copied := p.copied + choice.data)
      else if choice.SourceChanged? || !Matches(c, p, p.copied) then Fail(p)
      else p.(pc := Seal)
    case Seal => p.(pc := ReadBack, acc := [])
    case ReadBack =>
      var block := NextBlock(fs.inodes[p.tempIno].content, |p.acc|, choice.n);
      if block == [] then p.(pc := TempFstat) else p.(acc := p.acc + block)
    case TempFstat =>
      if !fs.inodes[p.tempIno].regular || fs.inodes[p.tempIno].writable then Fail(p) else p.(pc := TempNamed)
    case TempNamed =>
      if !Refers(fs, p.parentFd, p.temp, p.tempIno) || !fs.inodes[p.tempIno].regular || !Matches(c, p, p.acc)
      then Fail(p) else p.(pc := RequireLink)
  }

  /** The publisher after one call, from what it sees before it. */
  function ActProc(c: Config, fs: Fs, p: Proc, choice: Choice): Proc
    requires WellFormed(fs) && ChoiceFits(fs, p, choice, c.target) && FdsOpen(fs, p)
  {
    if Checking(p) then CheckStep(c, fs, p, choice)
    else if Writing(p) then WriteStep(c, fs, p, choice)
    else LinkStep(c, fs, p, choice)
  }

  /** The beginning of the call, the exclusive link, and the way out. */
  function LinkStep(c: Config, fs: Fs, p: Proc, choice: Choice): Proc
    requires WellFormed(fs) && ChoiceFits(fs, p, choice, c.target) && FdsOpen(fs, p) && !Checking(p) && !Writing(p)
  {
    var here := (p.parentFd, c.target);
    match p.pc
    case Start => p.(pc := RequireEntry, parentFd := fs.parent)
    case RequireEntry => Require(fs, p, LookUp)
    case LookUp =>
      if here !in fs.entries then p.(pc := Make)
      else
        var node := fs.inodes[fs.entries[here]];
        if !node.regular || node.writable then Fail(p) else p.(pc := CheckOpen(false))
    case RequireDone => Require(fs, p, Returned(true))
    case RequireLink => Require(fs, p, Link)
    case Link =>
      if (p.parentFd, p.temp) !in fs.entries then Fail(p)
      else if here in fs.entries then p.(pc := Conflict)
      else p.(pc := RequireFinal, created := true)
    case Conflict =>
      if here !in fs.entries then Fail(p)
      else
        var node := fs.inodes[fs.entries[here]];
        if !node.regular || node.writable then Fail(p) else p.(pc := CheckOpen(true))
    case RequireFinal =>
      if fs.parent == p.parentFd then p.(pc := Cleanup(true))
      else p.(pc := if p.created then Rollback else Cleanup(false))
    case Rollback => p.(pc := Cleanup(false))
    case Cleanup(ok) => p.(pc := Returned(ok))
    case Returned(_) => p
  }

  // ---- the environment ----------------------------------------------------------------------

  /** Some publisher is still writing this inode, so it is reachable only through a private name. */
  ghost predicate PrivateIno(s: State, i: Ino) {
    exists q :: q in s.procs && Unsealed(s.procs[q]) && s.procs[q].tempIno == i
  }

  ghost predicate TempName(s: State, n: Name) {
    exists q :: q in s.procs && HasTemp(s.procs[q]) && s.procs[q].temp == n
  }

  /** The environment may write any file that is writable, seal files, create, link and remove
      entries, and move the parent path.  It does not undo a seal, write a sealed file, replace or
      remove the target once present, or interfere with the publishers' temporary names. */
  ghost predicate Enabled(c: Config, s: State, l: Label) {
    && WellFormed(s.fs)
    && match l
       case Act(p, choice) =>
         p in s.procs && ChoiceFits(s.fs, s.procs[p], choice, c.target) && FdsOpen(s.fs, s.procs[p])
       case EnvWrite(i, _) => i in s.fs.inodes && s.fs.inodes[i].writable
       case EnvSeal(i) => i in s.fs.inodes && !PrivateIno(s, i)
       case EnvCreate(d, n, ino, _) => (d, n) !in s.fs.entries && ino !in s.fs.inodes
       case EnvLink(d, n, i) => (d, n) !in s.fs.entries && i in s.fs.inodes && !PrivateIno(s, i)
       case EnvUnlink(d, n) => n != c.target && !TempName(s, n)
       case EnvMove(_) => true
  }

  /** Descriptors keep their inodes. */
  predicate FdsOpen(fs: Fs, p: Proc) {
    && (HasTemp(p) ==> p.tempIno in fs.inodes)
    && (p.pc.CheckFstat? || p.pc.CheckNamed? || p.pc.CheckRead? || p.pc.CheckFstatAgain? || p.pc.CheckNamedAgain?
        ==> p.fd in fs.inodes)
  }

  ghost function Next(c: Config, s: State, l: Label): State
    requires Enabled(c, s, l)
  {
    match l
    case Act(p, choice) =>
      State(ActFs(c, s.fs, s.procs[p], choice), s.procs[p := ActProc(c, s.fs, s.procs[p], choice)])
    case EnvWrite(i, content) => s.(fs := PutInode(s.fs, i, Touched(s.fs.inodes[i].(content := content))))
    case EnvSeal(i) => s.(fs := PutInode(s.fs, i, Touched(s.fs.inodes[i].(writable := false))))
    case EnvCreate(d, n, ino, node) => s.(fs := PutEntry(PutInode(s.fs, ino, node), d, n, ino))
    case EnvLink(d, n, i) => s.(fs := PutEntry(s.fs, d, n, i))
    case EnvUnlink(d, n) => s.(fs := Unlink(s.fs, d, n))
    case EnvMove(d) => s.(fs := s.fs.(parent := d))
  }

  ghost predicate Init(s: State) {
    && WellFormed(s.fs)
    && forall p :: p in s.procs ==> s.procs[p].pc.Start?
  }

  /** The labels lead from `s` to `t`, one enabled step after another. */
  ghost predicate Path(c: Config, s: State, labels: seq<Label>, t: State)
    decreases |labels|
  {
    if labels == [] then s == t
    else Enabled(c, s, labels[0]) && Path(c, Next(c, s, labels[0]), labels[1..], t)
  }

  /** The parent path was never moved. */
  predicate ParentStable(labels: seq<Label>) {
    forall l | l in labels :: !l.EnvMove?
  }
}

/** Write-once over whole runs, whatever happens to the parent path: a target entry stays if and only if
    no publisher rolls back in its directory, and a publisher comes to roll back if and only if it linked
    the target and then made its final check while the parent path named another directory. */
module PublicationHistory {
  import opened FileSystem
  import opened Publication
  import opened PublicationSafety

  // ---- the target entry along a run ---------------------------------------------------------

  /** The entry names this inode in every state of the run, the first and the last included. */
  ghost predicate KeptThroughout(c: Config, s: State, labels: seq<Label>, d: Dir, i: Ino)
    decreases |labels|
  {
    && Refers(s.fs, d, c.target, i)
    && (labels != [] && Enabled(c, s, labels[0])
        ==> KeptThroughout(c, Next(c, s, labels[0]), labels[1..], d, i))
  }

  /** No step of the run is a rollback in this directory. */
  ghost predicate RollbackFree(c: Config, s: State, labels: seq<Label>, d: Dir)
    decreases |labels|
  {
    labels != [] && Enabled(c, s, labels[0])
    ==> !RollsBack(s, labels[0], d) && RollbackFree(c, Next(c, s, labels[0]), labels[1..], d)
  }

  lemma {:induction false} KeptIffRollbackFree(c: Config, s: State, labels: seq<Label>, t: State, d: Dir, i: Ino)
    requires Inv(c, s) && Path(c, s, labels, t) && Refers(s.fs, d, c.target, i)
    ensures KeptThroughout(c, s, labels, d, i) <==> RollbackFree(c, s, labels, d)
    decreases |labels|
  {
    if labels == [] {
    } else {
      var s' := Next(c, s, labels[0]);
      StepKeepsInv(c, s, labels[0]);
      StepKeepsTargetIff(c, s, labels[0], d);
      if Refers(s'.fs, d, c.target, i) { KeptIffRollbackFree(c, s', labels[1..], t, d, i); }
    }
  }

  /** In every run the target, once there, is the same entry in all later states if and only if no later
      step is a rollback in its directory. */
  lemma TargetKeptIffNoRollback(c: Config, s0: State, past: seq<Label>, s: State, future: seq<Label>, t: State, d: Dir)
    requires Init(s0) && Path(c, s0, past, s) && Path(c, s, future, t)
    requires (d, c.target) in s.fs.entries
    ensures KeptThroughout(c, s, future, d, s.fs.entries[(d, c.target)]) <==> RollbackFree(c, s, future, d)
  {
    PathKeepsInv(c, s0, past, s);
    KeptIffRollbackFree(c, s, future, t, d, s.fs.entries[(d, c.target)]);
  }

  // ---- how a publisher comes to roll back ---------------------------------------------------

  /** What a run says of one publisher: it linked the target; its last call was a final parent check
      that found the path naming another directory after it had linked; one of its last parent checks was
      made while the path named its directory; some call of it was refused; its last call was a parent
      check made while the path named its directory. */
  datatype History = History(linked: bool, failedCheck: bool, passed: bool, refused: bool, checked: bool)

  const NONE := History(false, false, false, false, false)

  /** One call of the publisher added to its history. */
  function Called(c: Config, fs: Fs, p: Proc, choice: Choice, h: History): History
    requires WellFormed(fs) && FdsOpen(fs, p)
  {
    var here := fs.parent == p.parentFd;
    History(h.linked || LinksTarget(c, fs, p),
            p.pc.RequireFinal? && h.linked && !here,
            h.passed || (AtLastCheck(p) && here),
            h.refused || Refuses(c, fs, p, choice),
            AtParentCheck(p) && here)
  }

  ghost function Record(c: Config, s: State, l: Label, p: Pid, h: History): History
    requires Enabled(c, s, l)
  {
    if l.Act? && l.p == p then Called(c, s.fs, s.procs[p], l.choice, h) else h
  }

  ghost function HistoryOf(c: Config, s: State, labels: seq<Label>, p: Pid, h: History): History
    decreases |labels|
  {
    if labels == [] || !Enabled(c, s, labels[0]) then h
    else HistoryOf(c, Next(c, s, labels[0]), labels[1..], p, Record(c, s, labels[0], p, h))
  }

  /** The publisher's own flag and place agree with its history. */
  predicate Agrees(p: Proc, h: History) {
    && (BeforeTemp(p) ==> !h.linked)
    && (HasTemp(p) ==> (p.created <==> h.linked))
    && (p.pc.Rollback? <==> h.failedCheck)
    && (Succeeded(p) <==> h.passed)
    && (Failing(p) <==> h.refused)
    && (RestsOnCheck(p) ==> h.checked)
  }

  lemma ShiftAgrees(c: Config, fs: Fs, p: Proc, choice: Choice, p': Proc, h: History)
    requires WellFormed(fs) && FdsOpen(fs, p)
    requires Shifts(c, fs, p, p') && Decides(c, fs, p, choice, p') && Agrees(p, h)
    ensures Agrees(p', Called(c, fs, p, choice, h))
  {
  }

  lemma ActAgrees(c: Config, s: State, p: Pid, choice: Choice, h: History)
    requires Enabled(c, s, Act(p, choice)) && Agrees(s.procs[p], h)
    ensures Agrees(Next(c, s, Act(p, choice)).procs[p], Record(c, s, Act(p, choice), p, h))
  {
    ActShifts(c, s.fs, s.procs[p], choice);
    ActDecides(c, s.fs, s.procs[p], choice);
    ShiftAgrees(c, s.fs, s.procs[p], choice, Next(c, s, Act(p, choice)).procs[p], h);
  }

  lemma {:induction false} HistoryAgrees(c: Config, s: State, labels: seq<Label>, t: State, p: Pid, h: History)
    requires Inv(c, s) && Path(c, s, labels, t) && p in s.procs && Agrees(s.procs[p], h)
    ensures p in t.procs && Agrees(t.procs[p], HistoryOf(c, s, labels, p, h))
    decreases |labels|
  {
    if labels == [] {
    } else {
      var l := labels[0];
      if l.Act? && l.p == p { ActAgrees(c, s, p, l.choice, h); }
      StepKeepsInv(c, s, l);
      HistoryAgrees(c, Next(c, s, l), labels[1..], t, p, Record(c, s, l, p, h));
    }
  }

  /** In every run a publisher stands at its rollback if and only if it linked the target and its last
      call was the final check, made while the parent path named another directory. */
  lemma RollbackIffFailedCheck(c: Config, s0: State, labels: seq<Label>, s: State, p: Pid)
    requires Init(s0) && Path(c, s0, labels, s) && p in s0.procs
    ensures p in s.procs
    ensures s.procs[p].pc.Rollback? <==> HistoryOf(c, s0, labels, p, NONE).failedCheck
  {
    HistoryAgrees(c, s0, labels, s, p, NONE);
  }

  /** In every run, however the parent path moves, a publisher has succeeded if and only if it made a last
      parent check while the path named the directory it had opened. */
  lemma SuccessIffParentHeld(c: Config, s0: State, labels: seq<Label>, s: State, p: Pid)
    requires Init(s0) && Path(c, s0, labels, s) && p in s0.procs
    ensures p in s.procs
    ensures Succeeded(s.procs[p]) <==> HistoryOf(c, s0, labels, p, NONE).passed
  {
    HistoryAgrees(c, s0, labels, s, p, NONE);
  }

  /** In every run a publisher has failed or is on its way out if and only if some call of it was refused:
      a parent check made while the path named another directory, a target that was not sealed, changed
      while it was read or held other bytes, or a copy that is not what was wanted. */
  lemma FailsIffRefused(c: Config, s0: State, labels: seq<Label>, s: State, p: Pid)
    requires Init(s0) && Path(c, s0, labels, s) && p in s0.procs
    ensures p in s.procs
    ensures Failing(s.procs[p]) <==> HistoryOf(c, s0, labels, p, NONE).refused
  {
    HistoryAgrees(c, s0, labels, s, p, NONE);
  }

  /** In every run a publisher looks the target up, takes its temporary file for its own or links the
      target only when its last call was a parent check made while the path named its directory. */
  lemma ActsOnlyChecked(c: Config, s0: State, labels: seq<Label>, s: State, p: Pid)
    requires Init(s0) && Path(c, s0, labels, s) && p in s0.procs
    ensures p in s.procs
    ensures RestsOnCheck(s.procs[p]) ==> HistoryOf(c, s0, labels, p, NONE).checked
  {
    HistoryAgrees(c, s0, labels, s, p, NONE);
  }

  lemma LinkedAtLastCheck(c: Config, fs: Fs, p: Proc, choice: Choice, p': Proc, h: History)
    requires WellFormed(fs) && FdsOpen(fs, p) && ProcInv(c, fs, p) && Agrees(p, h)
    requires Decides(c, fs, p, choice, p') && h.linked && !Succeeded(p) && Succeeded(p')
    ensures fs.parent == p.parentFd && Refers(fs, p.parentFd, c.target, p.tempIno)
    ensures p.tempIno in fs.inodes && !fs.inodes[p.tempIno].writable && Matches(c, p, fs.inodes[p.tempIno].content)
  {
  }

  /** In every run, however the parent path moves, a publisher that linked the target and comes to success
      does so while the path names its directory and the target there is its own sealed copy. */
  lemma LinkedSuccessIsPublished(c: Config, s0: State, labels: seq<Label>, s: State, p: Pid, choice: Choice)
    requires Init(s0) && Path(c, s0, labels, s) && Enabled(c, s, Act(p, choice)) && p in s0.procs
    requires HistoryOf(c, s0, labels, p, NONE).linked
    requires !Succeeded(s.procs[p]) && Succeeded(Next(c, s, Act(p, choice)).procs[p])
    ensures var proc := s.procs[p];
            && s.fs.parent == proc.parentFd && Refers(s.fs, proc.parentFd, c.target, proc.tempIno)
            && proc.tempIno in s.fs.inodes && !s.fs.inodes[proc.tempIno].writable
            && Matches(c, proc, s.fs.inodes[proc.tempIno].content)
  {
    PathKeepsInv(c, s0, labels, s);
    HistoryAgrees(c, s0, labels, s, p, NONE);
    ActDecides(c, s.fs, s.procs[p], choice);
    LinkedAtLastCheck(c, s.fs, s.procs[p], choice, Next(c, s, Act(p, choice)).procs[p],
                      HistoryOf(c, s0, labels, p, NONE));
  }

  /** Write-once in the terms of the calls made: over a run from the start, a step takes a present target
      away if and only if it is a call, in that directory, of a publisher that linked the target and whose
      last call was a final check made while the parent path named another directory. */
  lemma TargetLostIffFailedCheck(c: Config, s0: State, past: seq<Label>, s: State, l: Label, d: Dir)
    requires Init(s0) && Path(c, s0, past, s) && Enabled(c, s, l) && (d, c.target) in s.fs.entries
    ensures !Refers(Next(c, s, l).fs, d, c.target, s.fs.entries[(d, c.target)])
            <==> && l.Act? && s.procs[l.p].parentFd == d
                 && HistoryOf(c, s0, past, l.p, NONE).failedCheck
  {
    PathKeepsInv(c, s0, past, s);
    StepKeepsTargetIff(c, s, l, d);
    if l.Act? {
      SameProcs(c, s0, past, s);
      RollbackIffFailedCheck(c, s0, past, s, l.p);
    }
  }

  lemma {:induction false} SameProcs(c: Config, s: State, labels: seq<Label>, t: State)
    requires Path(c, s, labels, t)
    ensures s.procs.Keys == t.procs.Keys
    decreases |labels|
  {
    if labels == [] {
    } else {
      SameProcs(c, Next(c, s, labels[0]), labels[1..], t);
    }
  }
}

/** Runs that exist: an undisturbed publisher succeeds, and a moved parent defeats write-once. */
module PublicationRuns {
  import opened Collections
  import opened FileSystem
  import opened Publication
  import opened PublicationSafety

  lemma {:induction false} Join(c: Config, s: State, l1: seq<Label>, t: State, l2: seq<Label>, u: State)
    requires Path(c, s, l1, t) && Path(c, t, l2, u)
    ensures Path(c, s, l1 + l2, u)
    decreases |l1|
  {
    if l1 == [] {
      assert l1 + l2 == l2;
    } else {
      Join(c, Next(c, s, l1[0]), l1[1..], t, l2, u);
      assert (l1 + l2)[1..] == l1[1..] + l2;
    }
  }

  // ---- one publisher on its own -------------------------------------------------------------

  predicate CanAct(c: Config, fs: Fs, p: Proc, choice: Choice) {
    WellFormed(fs) && ChoiceFits(fs, p, choice, c.target) && FdsOpen(fs, p)
  }

  /** The steps lead from `s` to `t`. */
  predicate Chain<S(==), X>(step: (S, X) -> Option<S>, s: S, xs: seq<X>, t: S)
    decreases |xs|
  {
    if xs == [] then s == t
    else var next := step(s, xs[0]); next.Some? && Chain(step, next.value, xs[1..], t)
  }

  lemma {:induction false} ChainJoin<S, X>(step: (S, X) -> Option<S>, s: S, xs: seq<X>, t: S, ys: seq<X>, u: S)
    requires Chain(step, s, xs, t) && Chain(step, t, ys, u)
    ensures Chain(step, s, xs + ys, u)
    decreases |xs|
  {
    if xs == [] {
      assert xs + ys == ys;
    } else {
      ChainJoin(step, step(s, xs[0]).value, xs[1..], t, ys, u);
      assert (xs + ys)[1..] == xs[1..] + ys && (xs + ys)[0] == xs[0];
    }
  }

  function SoloStep(c: Config): ((Fs, Proc), Choice) -> Option<(Fs, Proc)> {
    (s: (Fs, Proc), choice: Choice) =>
      if CanAct(c, s.0, s.1, choice) then Some((ActFs(c, s.0, s.1, choice), ActProc(c, s.0, s.1, choice))) else None
  }

  /** The calls take one publisher, alone, from `(fs, p)` to `(fs', p')`. */
  predicate Solo(c: Config, fs: Fs, p: Proc, choices: seq<Choice>, fs': Fs, p': Proc) {
    Chain(SoloStep(c), (fs, p), choices, (fs', p'))
  }

  lemma SoloJoin(c: Config, fs: Fs, p: Proc, cs: seq<Choice>, fs1: Fs, p1: Proc, ds: seq<Choice>, fs2: Fs, p2: Proc)
    requires Solo(c, fs, p, cs, fs1, p1) && Solo(c, fs1, p1, ds, fs2, p2)
    ensures Solo(c, fs, p, cs + ds, fs2, p2)
  {
    ChainJoin(SoloStep(c), (fs, p), cs, (fs1, p1), ds, (fs2, p2));
  }

  lemma SoloOne(c: Config, fs: Fs, p: Proc, choice: Choice, fs': Fs, p': Proc)
    requires CanAct(c, fs, p, choice) && fs' == ActFs(c, fs, p, choice) && p' == ActProc(c, fs, p, choice)
    ensures Solo(c, fs, p, [choice], fs', p')
  {
    assert [choice][1..] == [];
  }

  /** Three calls in a row that leave the files alone. */
  lemma SoloThree(c: Config, fs: Fs, p: Proc, p1: Proc, p2: Proc, p3: Proc)
    requires CanAct(c, fs, p, Quiet) && ActFs(c, fs, p, Quiet) == fs && ActProc(c, fs, p, Quiet) == p1
    requires CanAct(c, fs, p1, Quiet) && ActFs(c, fs, p1, Quiet) == fs && ActProc(c, fs, p1, Quiet) == p2
    requires CanAct(c, fs, p2, Quiet) && ActFs(c, fs, p2, Quiet) == fs && ActProc(c, fs, p2, Quiet) == p3
    ensures Solo(c, fs, p, [Quiet] + [Quiet] + [Quiet], fs, p3)
  {
    SoloOne(c, fs, p, Quiet, fs, p1);
    SoloOne(c, fs, p1, Quiet, fs, p2);
    SoloOne(c, fs, p2, Quiet, fs, p3);
    SoloJoin(c, fs, p, [Quiet], fs, p1, [Quiet], fs, p2);
    SoloJoin(c, fs, p, [Quiet] + [Quiet], fs, p2, [Quiet], fs, p3);
  }

  /** What one publisher can do alone it can do among others that stand still. */
  lemma {:induction false} SoloIsPath(c: Config, s: State, a: Pid, choices: seq<Choice>, fs': Fs, p': Proc)
    returns (labels: seq<Label>)
    requires a in s.procs && Solo(c, s.fs, s.procs[a], choices, fs', p')
    ensures Path(c, s, labels, State(fs', s.procs[a := p'])) && ParentStable(labels)
    decreases |choices|
  {
    if choices == [] {
      assert s.procs[a := p'] == s.procs;
      labels := [];
    } else {
      var s1 := Next(c, s, Act(a, choices[0]));
      var rest := SoloIsPath(c, s1, a, choices[1..], fs', p');
      assert s1.procs[a := p'] == s.procs[a := p'];
      labels := [Act(a, choices[0])] + rest;
      assert labels[1..] == rest;
    }
  }

  // ---- publishing ---------------------------------------------------------------------------

  lemma OpensAndFindsNothing(c: Config, fs: Fs, p: Proc) returns (cs: seq<Choice>)
    requires WellFormed(fs) && p.pc.Start? && (fs.parent, c.target) !in fs.entries
    ensures Solo(c, fs, p, cs, fs, p.(pc := Make, parentFd := fs.parent))
  {
    var p1 := p.(pc := RequireEntry, parentFd := fs.parent);
    SoloThree(c, fs, p, p1, p1.(pc := LookUp), p1.(pc := Make));
    cs := [Quiet] + [Quiet] + [Quiet];
  }

  /** The parent with a new temporary file holding `data`. */
  function WithTemp(fs: Fs, ino: Ino, name: Name, data: Bytes, writable: bool, ctime: nat): Fs {
    Fs(fs.inodes[ino := Inode(data, writable, true, ctime)], fs.entries[(fs.parent, name) := ino], fs.parent)
  }

  lemma MakesTemp(c: Config, fs: Fs, p: Proc, ino: Ino, name: Name) returns (cs: seq<Choice>)
    requires WellFormed(fs) && p.pc.Make? && p.parentFd == fs.parent
    requires (fs.parent, name) !in fs.entries && ino !in fs.inodes && name != c.target
    ensures Solo(c, fs, p, cs, WithTemp(fs, ino, name, [], true, 1),
                 p.(pc := Copy, temp := name, tempIno := ino, inParent := true, created := false, copied := []))
  {
    var fs1 := WithTemp(fs, ino, name, [], true, 1);
    var p1 := p.(pc := RequireTemp, temp := name, tempIno := ino, inParent := false, created := false);
    var p2 := p1.(pc := TempStat);
    var p3 := p1.(pc := Copy, inParent := true, copied := []);
    SoloOne(c, fs, p, Fresh(ino, name), fs1, p1);
    SoloOne(c, fs1, p1, Quiet, fs1, p2);
    SoloOne(c, fs1, p2, Quiet, fs1, p3);
    SoloJoin(c, fs, p, [Fresh(ino, name)], fs1, p1, [Quiet], fs1, p2);
    SoloJoin(c, fs, p, [Fresh(ino, name)] + [Quiet], fs1, p2, [Quiet], fs1, p3);
    cs := [Fresh(ino, name)] + [Quiet] + [Quiet];
  }

  lemma CopiesAndSeals(c: Config, fs0: Fs, p: Proc, data: Bytes) returns (cs: seq<Choice>)
    requires var fs := WithTemp(fs0, p.tempIno, p.temp, [], true, 1); WellFormed(fs)
    requires p.pc.Copy? && p.copied == [] && data != [] && Matches(c, p, data)
    ensures Solo(c, WithTemp(fs0, p.tempIno, p.temp, [], true, 1), p, cs,
                 WithTemp(fs0, p.tempIno, p.temp, data, false, 3), p.(pc := ReadBack, copied := data, acc := []))
  {
    var fs := WithTemp(fs0, p.tempIno, p.temp, [], true, 1);
    var fs1 := WithTemp(fs0, p.tempIno, p.temp, data, true, 2);
    var fs2 := WithTemp(fs0, p.tempIno, p.temp, data, false, 3);
    assert WriteAt([], 0, data) == data;
    var p1 := p.(copied := data);
    assert p.copied + data == data;
    SoloOne(c, fs, p, Block(data), fs1, p1);
    SoloOne(c, fs1, p1, Quiet, fs1, p1.(pc := Seal));
    SoloOne(c, fs1, p1.(pc := Seal), Quiet, fs2, p1.(pc := ReadBack, acc := []));
    SoloJoin(c, fs, p, [Block(data)], fs1, p1, [Quiet], fs1, p1.(pc := Seal));
    SoloJoin(c, fs, p, [Block(data)] + [Quiet], fs1, p1.(pc := Seal), [Quiet], fs2, p1.(pc := ReadBack, acc := []));
    cs := [Block(data)] + [Quiet] + [Quiet];
  }

  lemma ReadsBack(c: Config, fs: Fs, p: Proc) returns (cs: seq<Choice>)
    requires WellFormed(fs) && p.pc.ReadBack? && p.acc == [] && p.tempIno in fs.inodes
    requires fs.inodes[p.tempIno].content != []
    ensures Solo(c, fs, p, cs, fs, p.(pc := TempFstat, acc := fs.inodes[p.tempIno].content))
  {
    var data := fs.inodes[p.tempIno].content;
    var all := Take(|data|);
    assert NextBlock(data, 0, |data|) == data && NextBlock(data, |data|, |data|) == [];
    var p1 := p.(acc := data);
    assert p.acc + data == data;
    SoloOne(c, fs, p, all, fs, p1);
    SoloOne(c, fs, p1, all, fs, p1.(pc := TempFstat));
    SoloJoin(c, fs, p, [all], fs, p1, [all], fs, p1.(pc := TempFstat));
    cs := [all] + [all];
  }

  lemma ComparesAndLinks(c: Config, fs: Fs, p: Proc) returns (cs: seq<Choice>, fs': Fs)
    requires WellFormed(fs) && p.pc.TempFstat? && p.parentFd == fs.parent && p.temp != c.target
    requires p.tempIno in fs.inodes && Refers(fs, p.parentFd, p.temp, p.tempIno) && Matches(c, p, p.acc)
    requires fs.inodes[p.tempIno].regular && !fs.inodes[p.tempIno].writable
    requires (fs.parent, c.target) !in fs.entries
    ensures fs' == PutEntry(fs, fs.parent, c.target, p.tempIno)
    ensures Solo(c, fs, p, cs, fs', p.(pc := RequireFinal, created := true))
  {
    SoloThree(c, fs, p, p.(pc := TempNamed), p.(pc := RequireLink), p.(pc := Link));
    fs' := PutEntry(fs, fs.parent, c.target, p.tempIno);
    SoloOne(c, fs, p.(pc := Link), Quiet, fs', p.(pc := RequireFinal, created := true));
    SoloJoin(c, fs, p, [Quiet] + [Quiet] + [Quiet], fs, p.(pc := Link), [Quiet], fs',
             p.(pc := RequireFinal, created := true));
    cs := [Quiet] + [Quiet] + [Quiet] + [Quiet];
  }

  /** An undisturbed publisher of non-empty bytes, into a parent without the target, gets as far as
      the exclusive link: the target is its sealed copy. */
  lemma LinksUndisturbed(c: Config, fs: Fs, p: Proc, data: Bytes, ino: Ino, name: Name)
    returns (cs: seq<Choice>, fs': Fs, p': Proc)
    requires WellFormed(fs) && p.pc.Start? && data != [] && Matches(c, p, data)
    requires (fs.parent, c.target) !in fs.entries && (fs.parent, name) !in fs.entries
    requires ino !in fs.inodes && name != c.target
    ensures Solo(c, fs, p, cs, fs', p') && WellFormed(fs') && fs'.parent == fs.parent
    ensures p'.pc.RequireFinal? && p'.created && p'.inParent && p'.parentFd == fs.parent
    ensures p'.temp == name && p'.tempIno == ino
    ensures Refers(fs', fs.parent, c.target, ino) && Refers(fs', fs.parent, name, ino)
    ensures ino in fs'.inodes && fs'.inodes[ino].content == data && !fs'.inodes[ino].writable && fs'.inodes[ino].regular
  {
    var c1 := OpensAndFindsNothing(c, fs, p);
    var p1 := p.(pc := Make, parentFd := fs.parent);
    var c2 := MakesTemp(c, fs, p1, ino, name);
    var fs2, p2 := WithTemp(fs, ino, name, [], true, 1),
                   p1.(pc := Copy, temp := name, tempIno := ino, inParent := true, created := false, copied := []);
    SoloJoin(c, fs, p, c1, fs, p1, c2, fs2, p2);
    var c3 := CopiesAndSeals(c, fs, p2, data);
    var fs3, p3 := WithTemp(fs, ino, name, data, false, 3), p2.(pc := ReadBack, copied := data, acc := []);
    SoloJoin(c, fs, p, c1 + c2, fs2, p2, c3, fs3, p3);
    var c4 := ReadsBack(c, fs3, p3);
    var p4 := p3.(pc := TempFstat, acc := data);
    SoloJoin(c, fs, p, c1 + c2 + c3, fs3, p3, c4, fs3, p4);
    var c5;
    c5, fs' := ComparesAndLinks(c, fs3, p4);
    p' := p4.(pc := RequireFinal, created := true);
    SoloJoin(c, fs, p, c1 + c2 + c3 + c4, fs3, p4, c5, fs', p');
    cs := c1 + c2 + c3 + c4 + c5;
  }

  /** From the final parent check of an undisturbed publisher to its return. */
  lemma FinishesUndisturbed(c: Config, fs: Fs, p: Proc, ino: Ino) returns (fs': Fs, p': Proc)
    requires WellFormed(fs) && p.pc.RequireFinal? && p.created && p.inParent && p.parentFd == fs.parent
             && p.tempIno == ino
    requires Refers(fs, fs.parent, c.target, ino) && Refers(fs, fs.parent, p.temp, ino) && p.temp != c.target
    requires ino in fs.inodes
    ensures Solo(c, fs, p, [Quiet] + [Quiet], fs', p') && p' == p.(pc := Returned(true))
    ensures Refers(fs', fs.parent, c.target, ino) && (fs.parent, p.temp) !in fs'.entries
    ensures ino in fs'.inodes && NodeEvolves(fs.inodes[ino], fs'.inodes[ino])
  {
    var p2 := p.(pc := Cleanup(true));
    SoloOne(c, fs, p, Quiet, fs, p2);
    fs', p' := Unlink(fs, p.parentFd, p.temp), p.(pc := Returned(true));
    UnlinkEffect(fs, p.parentFd, p.temp);
    SoloOne(c, fs, p2, Quiet, fs', p');
    SoloJoin(c, fs, p, [Quiet], fs, p2, [Quiet], fs', p');
  }

  /** And it then returns successfully, with its temporary entry gone. */
  lemma PublishesUndisturbed(c: Config, fs: Fs, p: Proc, data: Bytes, ino: Ino, name: Name)
    returns (cs: seq<Choice>, fs': Fs, p': Proc)
    requires WellFormed(fs) && p.pc.Start? && data != [] && Matches(c, p, data)
    requires (fs.parent, c.target) !in fs.entries && (fs.parent, name) !in fs.entries
    requires ino !in fs.inodes && name != c.target
    ensures Solo(c, fs, p, cs, fs', p') && p'.pc == Returned(true)
    ensures Good(c, fs', p') && Refers(fs', fs.parent, c.target, ino) && (fs.parent, name) !in fs'.entries
  {
    var c1, fs1, p1 := LinksUndisturbed(c, fs, p, data, ino, name);
    SoloKeepsGoal(c, fs, p, c1, fs1, p1);
    fs', p' := FinishesUndisturbed(c, fs1, p1, ino);
    SoloJoin(c, fs, p, c1, fs1, p1, [Quiet] + [Quiet], fs', p');
    cs := c1 + ([Quiet] + [Quiet]);
  }

  lemma {:induction false} SoloKeepsGoal(c: Config, fs: Fs, p: Proc, cs: seq<Choice>, fs': Fs, p': Proc)
    requires Solo(c, fs, p, cs, fs', p')
    ensures p'.wanted == p.wanted && p'.size == p.size
    decreases |cs|
  {
    if cs == [] {
    } else {
      ActShifts(c, fs, p, cs[0]);
      SoloKeepsGoal(c, ActFs(c, fs, p, cs[0]), ActProc(c, fs, p, cs[0]), cs[1..], fs', p');
    }
  }

  // ---- accepting an existing target ---------------------------------------------------------

  lemma ReadsTarget(c: Config, fs: Fs, p: Proc, conflict: bool) returns (cs: seq<Choice>, p': Proc)
    requires WellFormed(fs) && p.pc == CheckOpen(conflict) && FdsOpen(fs, p) && (p.parentFd, c.target) in fs.entries
    requires var node := fs.inodes[fs.entries[(p.parentFd, c.target)]]; node.regular && node.content != []
    ensures var i := fs.entries[(p.parentFd, c.target)];
            && p' == p.(pc := CheckFstatAgain(conflict), fd := i, before := StatOf(fs, i), acc := fs.inodes[i].content)
            && Solo(c, fs, p, cs, fs, p')
  {
    var i := fs.entries[(p.parentFd, c.target)];
    var data := fs.inodes[i].content;
    var p3 := p.(pc := CheckRead(conflict), fd := i, before := StatOf(fs, i), acc := []);
    SoloThree(c, fs, p, p.(pc := CheckFstat(conflict), fd := i),
              p.(pc := CheckNamed(conflict), fd := i, before := StatOf(fs, i)), p3);
    var all := Take(|data|);
    assert NextBlock(data, 0, |data|) == data && NextBlock(data, |data|, |data|) == [];
    assert [] + data == data;
    p' := p3.(pc := CheckFstatAgain(conflict), acc := data);
    SoloOne(c, fs, p3, all, fs, p3.(acc := data));
    SoloOne(c, fs, p3.(acc := data), all, fs, p');
    SoloJoin(c, fs, p3, [all], fs, p3.(acc := data), [all], fs, p');
    SoloJoin(c, fs, p, [Quiet] + [Quiet] + [Quiet], fs, p3, [all] + [all], fs, p');
    cs := [Quiet] + [Quiet] + [Quiet] + ([all] + [all]);
  }

  lemma FindsTarget(c: Config, fs: Fs, p: Proc) returns (cs: seq<Choice>)
    requires WellFormed(fs) && p.pc.Start? && (fs.parent, c.target) in fs.entries
    requires var node := fs.inodes[fs.entries[(fs.parent, c.target)]]; node.regular && !node.writable
    ensures Solo(c, fs, p, cs, fs, p.(pc := CheckOpen(false), parentFd := fs.parent))
  {
    var p1 := p.(pc := RequireEntry, parentFd := fs.parent);
    SoloThree(c, fs, p, p1, p1.(pc := LookUp), p1.(pc := CheckOpen(false)));
    cs := [Quiet] + [Quiet] + [Quiet];
  }

  lemma ComparesTarget(c: Config, fs: Fs, p: Proc) returns (cs: seq<Choice>, p': Proc)
    requires WellFormed(fs) && p.pc == CheckFstatAgain(false) && p.parentFd == fs.parent
    requires (fs.parent, c.target) in fs.entries && fs.entries[(fs.parent, c.target)] == p.fd
    requires p.fd in fs.inodes && p.before == StatOf(fs, p.fd) && p.acc == fs.inodes[p.fd].content
    requires fs.inodes[p.fd].regular && !fs.inodes[p.fd].writable && Matches(c, p, p.acc)
    ensures Solo(c, fs, p, cs, fs, p') && p'.pc.RequireDone? && p'.parentFd == fs.parent
  {
    var p1 := p.(pc := CheckNamedAgain(false), after := StatOf(fs, p.fd));
    p' := p1.(pc := RequireDone);
    SoloOne(c, fs, p, Quiet, fs, p1);
    SoloOne(c, fs, p1, Quiet, fs, p');
    SoloJoin(c, fs, p, [Quiet], fs, p1, [Quiet], fs, p');
    cs := [Quiet] + [Quiet];
  }

  /** A publisher that finds the target there, read-only and with its bytes, and is not disturbed, comes to
      its last parent check and changes nothing. */
  lemma ReadsUndisturbed(c: Config, fs: Fs, p: Proc) returns (cs: seq<Choice>, p': Proc)
    requires WellFormed(fs) && p.pc.Start? && (fs.parent, c.target) in fs.entries
    requires var node := fs.inodes[fs.entries[(fs.parent, c.target)]];
             node.regular && !node.writable && node.content != [] && Matches(c, p, node.content)
    ensures Solo(c, fs, p, cs, fs, p') && p'.pc.RequireDone? && p'.parentFd == fs.parent
  {
    var c1 := FindsTarget(c, fs, p);
    var p1 := p.(pc := CheckOpen(false), parentFd := fs.parent);
    var c2, p2 := ReadsTarget(c, fs, p1, false);
    SoloJoin(c, fs, p, c1, fs, p1, c2, fs, p2);
    var c3;
    c3, p' := ComparesTarget(c, fs, p2);
    SoloJoin(c, fs, p, c1 + c2, fs, p2, c3, fs, p');
    cs := c1 + c2 + c3;
  }

  /** And it then accepts the target. */
  lemma AcceptsUndisturbed(c: Config, fs: Fs, p: Proc) returns (cs: seq<Choice>, p': Proc)
    requires WellFormed(fs) && p.pc.Start? && (fs.parent, c.target) in fs.entries
    requires var node := fs.inodes[fs.entries[(fs.parent, c.target)]];
             node.regular && !node.writable && node.content != [] && Matches(c, p, node.content)
    ensures Solo(c, fs, p, cs, fs, p') && p'.pc == Returned(true) && p'.parentFd == fs.parent
  {
    var c1, p1 := ReadsUndisturbed(c, fs, p);
    p' := p1.(pc := Returned(true));
    SoloOne(c, fs, p1, Quiet, fs, p');
    SoloJoin(c, fs, p, c1, fs, p1, [Quiet], fs, p');
    cs := c1 + [Quiet];
  }

  /** From the first look at the target a link met to the end of reading it. */
  lemma MeetsTarget(c: Config, fs: Fs, p: Proc) returns (cs: seq<Choice>, p': Proc)
    requires WellFormed(fs) && p.pc.Link? && FdsOpen(fs, p) && (p.parentFd, p.temp) in fs.entries
    requires (p.parentFd, c.target) in fs.entries
    requires var node := fs.inodes[fs.entries[(p.parentFd, c.target)]];
             node.regular && !node.writable && node.content != []
    ensures var i := fs.entries[(p.parentFd, c.target)];
            && p' == p.(pc := CheckFstatAgain(true), fd := i, before := StatOf(fs, i), acc := fs.inodes[i].content)
            && Solo(c, fs, p, cs, fs, p')
  {
    var p1, p2 := p.(pc := Conflict), p.(pc := CheckOpen(true));
    SoloOne(c, fs, p, Quiet, fs, p1);
    SoloOne(c, fs, p1, Quiet, fs, p2);
    SoloJoin(c, fs, p, [Quiet], fs, p1, [Quiet], fs, p2);
    var rest;
    rest, p' := ReadsTarget(c, fs, p2, true);
    SoloJoin(c, fs, p, [Quiet] + [Quiet], fs, p2, rest, fs, p');
    cs := [Quiet] + [Quiet] + rest;
  }

  lemma LeavesWithTarget(c: Config, fs: Fs, p: Proc) returns (fs': Fs, p': Proc)
    requires WellFormed(fs) && p.pc.RequireFinal? && FdsOpen(fs, p) && p.inParent && p.parentFd == fs.parent
    requires p.temp != c.target && (fs.parent, c.target) in fs.entries
    ensures Solo(c, fs, p, [Quiet] + [Quiet], fs', p') && p' == p.(pc := Returned(true))
    ensures Refers(fs', fs.parent, c.target, fs.entries[(fs.parent, c.target)]) && (fs.parent, p.temp) !in fs'.entries
  {
    var p1 := p.(pc := Cleanup(true));
    SoloOne(c, fs, p, Quiet, fs, p1);
    fs', p' := Unlink(fs, p.parentFd, p.temp), p.(pc := Returned(true));
    UnlinkEffect(fs, p.parentFd, p.temp);
    SoloOne(c, fs, p1, Quiet, fs', p');
    SoloJoin(c, fs, p, [Quiet], fs, p1, [Quiet], fs', p');
  }

  /** A publisher whose link meets a target that is read-only and holds its bytes, and which is then not
      disturbed, accepts that target and succeeds, with its own temporary entry gone. */
  lemma AcceptsConflict(c: Config, fs: Fs, p: Proc) returns (cs: seq<Choice>, fs': Fs, p': Proc)
    requires WellFormed(fs) && p.pc.Link? && FdsOpen(fs, p) && p.inParent && p.parentFd == fs.parent
    requires p.temp != c.target && (fs.parent, p.temp) in fs.entries && (fs.parent, c.target) in fs.entries
    requires var node := fs.inodes[fs.entries[(fs.parent, c.target)]];
             node.regular && !node.writable && node.content != [] && Matches(c, p, node.content)
    ensures Solo(c, fs, p, cs, fs', p') && p'.pc == Returned(true)
    ensures Refers(fs', fs.parent, c.target, fs.entries[(fs.parent, c.target)]) && (fs.parent, p.temp) !in fs'.entries
  {
    var c1, p1 := MeetsTarget(c, fs, p);
    var p2 := p1.(pc := CheckNamedAgain(true), after := StatOf(fs, p1.fd));
    var p3 := p2.(pc := RequireFinal);
    SoloOne(c, fs, p1, Quiet, fs, p2);
    SoloOne(c, fs, p2, Quiet, fs, p3);
    SoloJoin(c, fs, p, c1, fs, p1, [Quiet], fs, p2);
    SoloJoin(c, fs, p, c1 + [Quiet], fs, p2, [Quiet], fs, p3);
    fs', p' := LeavesWithTarget(c, fs, p3);
    SoloJoin(c, fs, p, c1 + [Quiet] + [Quiet], fs, p3, [Quiet] + [Quiet], fs', p');
    cs := c1 + [Quiet] + [Quiet] + ([Quiet] + [Quiet]);
  }

  // ---- the parent moves ---------------------------------------------------------------------

  /** A publisher that linked the target and then finds the parent moved takes the target away. */
  lemma RollsBackAfterMove(c: Config, fs: Fs, p: Proc) returns (cs: seq<Choice>, fs': Fs, p': Proc)
    requires WellFormed(fs) && p.pc.RequireFinal? && p.created && fs.parent != p.parentFd && p.tempIno in fs.inodes
    ensures Solo(c, fs, p, cs, fs', p') && fs' == Unlink(fs, p.parentFd, c.target)
    ensures (p.parentFd, c.target) !in fs'.entries
  {
    fs', p' := Unlink(fs, p.parentFd, c.target), p.(pc := Cleanup(false));
    UnlinkEffect(fs, p.parentFd, c.target);
    SoloOne(c, fs, p, Quiet, fs, p.(pc := Rollback));
    SoloOne(c, fs, p.(pc := Rollback), Quiet, fs', p');
    SoloJoin(c, fs, p, [Quiet], fs, p.(pc := Rollback), [Quiet], fs', p');
    cs := [Quiet] + [Quiet];
  }

  /** Publisher 0 alone, up to its link. */
  lemma FirstLinks(c: Config, data: Bytes, name: Name, s0: State, idle: Proc) returns (labels: seq<Label>, s: State)
    requires data != [] && name != c.target && idle.pc.Start? && Matches(c, idle, data)
    requires s0 == State(Fs(map[], map[], 0), map[0 := idle, 1 := idle])
    ensures Path(c, s0, labels, s) && s.procs.Keys == {0, 1} && s.procs[1] == idle && WellFormed(s.fs)
    ensures s.fs.parent == 0 && s.procs[0].pc.RequireFinal? && s.procs[0].created && s.procs[0].parentFd == 0
    ensures s.procs[0].tempIno in s.fs.inodes
    ensures Refers(s.fs, 0, c.target, 0) && 0 in s.fs.inodes
    ensures var node := s.fs.inodes[0]; node.content == data && !node.writable && node.regular
  {
    var choices, fs, p := LinksUndisturbed(c, s0.fs, idle, data, 0, name);
    labels := SoloIsPath(c, s0, 0, choices, fs, p);
    s := State(fs, s0.procs[0 := p]);
  }

  /** The parent path moves away, and publisher 0 takes the target back. */
  lemma MovesAndRollsBack(c: Config, s: State) returns (labels: seq<Label>, t: State)
    requires WellFormed(s.fs) && 0 in s.procs && s.fs.parent == 0
    requires s.procs[0].pc.RequireFinal? && s.procs[0].created && s.procs[0].parentFd == 0
    requires s.procs[0].tempIno in s.fs.inodes
    ensures Path(c, s, labels, t) && (0, c.target) !in t.fs.entries
    ensures WellFormed(t.fs) && t.procs.Keys == s.procs.Keys
    ensures forall q | q in s.procs && q != 0 :: t.procs[q] == s.procs[q]
  {
    var moved := Next(c, s, EnvMove(1));
    var choices, fs, p := RollsBackAfterMove(c, moved.fs, moved.procs[0]);
    UnlinkEffect(moved.fs, 0, c.target);
    var rest := SoloIsPath(c, moved, 0, choices, fs, p);
    t := State(fs, moved.procs[0 := p]);
    labels := [EnvMove(1)] + rest;
    assert labels[1..] == rest;
  }

  /** Write-once needs the stable parent.  Publisher 0 links the target, publisher 1 reads it and
      returns successfully, the parent path moves away, publisher 0 notices and rolls back: publisher
      1 has reported success for a target that no longer exists. */
  lemma MovedParentLosesPublished(c: Config, data: Bytes, name: Name)
    returns (s0: State, past: seq<Label>, s: State, future: seq<Label>, t: State)
    requires data != [] && name != c.target
    ensures Init(s0) && Path(c, s0, past, s) && Path(c, s, future, t)
    ensures 1 in s.procs && s.procs[1].pc == Returned(true)
    ensures (s.procs[1].parentFd, c.target) in s.fs.entries && (s.procs[1].parentFd, c.target) !in t.fs.entries
  {
    var nowhere := Stat(0, 0, 0, false, false);
    var idle := Proc(Start, c.hash(data), |data|, 0, "", 0, false, false, 0, nowhere, nowhere, [], []);
    s0 := State(Fs(map[], map[], 0), map[0 := idle, 1 := idle]);
    var l1, s1 := FirstLinks(c, data, name, s0, idle);
    var choices, p := AcceptsUndisturbed(c, s1.fs, idle);
    var l2 := SoloIsPath(c, s1, 1, choices, s1.fs, p);
    s := State(s1.fs, s1.procs[1 := p]);
    Join(c, s0, l1, s1, l2, s);
    past := l1 + l2;
    future, t := MovesAndRollsBack(c, s);
  }

  /** Nor does the last parent check protect a publisher that accepts a target it did not link.  Publisher 0
      links, publisher 1 reads the target to the end, the path moves away, publisher 0 rolls back, the path
      moves back, and publisher 1 passes its last check: at the very moment of its success the path names
      its directory and there is no target in it. */
  lemma MovedAndBackLosesAccepted(c: Config, data: Bytes, name: Name) returns (s0: State, labels: seq<Label>, t: State)
    requires data != [] && name != c.target
    ensures Init(s0) && Path(c, s0, labels, t) && 1 in t.procs
    ensures t.procs[1].pc == Returned(true) && t.fs.parent == t.procs[1].parentFd
    ensures (t.procs[1].parentFd, c.target) !in t.fs.entries
  {
    var nowhere := Stat(0, 0, 0, false, false);
    var idle := Proc(Start, c.hash(data), |data|, 0, "", 0, false, false, 0, nowhere, nowhere, [], []);
    s0 := State(Fs(map[], map[], 0), map[0 := idle, 1 := idle]);
    var l1, s1 := FirstLinks(c, data, name, s0, idle);
    var choices, p := ReadsUndisturbed(c, s1.fs, idle);
    var l2 := SoloIsPath(c, s1, 1, choices, s1.fs, p);
    var s2 := State(s1.fs, s1.procs[1 := p]);
    var l3, s3 := MovesAndRollsBack(c, s2);
    Join(c, s0, l1, s1, l2, s2);
    Join(c, s0, l1 + l2, s2, l3, s3);
    var l4;
    l4, t := MovesBack(c, s3, 1);
    Join(c, s0, l1 + l2 + l3, s3, l4, t);
    labels := l1 + l2 + l3 + l4;
  }

  /** The path moves back to the publisher's directory, and its last check passes. */
  lemma MovesBack(c: Config, s: State, a: Pid) returns (labels: seq<Label>, t: State)
    requires WellFormed(s.fs) && a in s.procs && s.procs[a].pc.RequireDone?
    ensures Path(c, s, labels, t) && a in t.procs && t.procs[a] == s.procs[a].(pc := Returned(true))
    ensures t.fs == s.fs.(parent := s.procs[a].parentFd)
  {
    var back := Next(c, s, EnvMove(s.procs[a].parentFd));
    t := Next(c, back, Act(a, Quiet));
    labels := [EnvMove(s.procs[a].parentFd), Act(a, Quiet)];
    assert labels[1..] == [Act(a, Quiet)] && labels[1..][1..] == [];
    assert Path(c, back, labels[1..], t);
  }
}

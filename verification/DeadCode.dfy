/** Precision of the walk.  It prunes blocks only below `if` and at the top of the function: in the
    blocks of loops, `with`, `try`, `match` and `class` every statement is yielded, dead or not.  A body
    is live when the walk meets no dead code, a condition on the syntax alone; the nodes yielded are all
    reachable if and only if the body is live. */
module DeadCode {
  import opened Collections
  import opened PythonSyntax
  import opened ScopeWalk
  import opened PythonRuns
  import opened Reachability
  import opened Outcomes
  import opened ReachableNodes

  // ---- the condition ------------------------------------------------------------------------

  /** No visited statement of a pruned block follows one that cannot complete normally. */
  predicate LiveBlock(block: seq<Stmt>, eager: bool)
    decreases block, 0
  {
    || block == []
    || (&& LiveStmt(block[0], eager)
        && (StopsAfter(block[0])
            || ((|block| > 1 ==> Normal in Ends(block[0])) && LiveBlock(block[1..], eager))))
  }

  /** The same for a block whose statements are all visited. */
  predicate LiveEach(block: seq<Stmt>, eager: bool)
    decreases block, 0
  {
    || block == []
    || (&& LiveStmt(block[0], eager)
        && (|block| > 1 ==> Normal in Ends(block[0])) && LiveEach(block[1..], eager))
  }

  predicate LiveHandlers(handlers: seq<Handler>, eager: bool)
    decreases handlers, 0
  {
    handlers == [] || (LiveEach(handlers[0].body, eager) && LiveHandlers(handlers[1..], eager))
  }

  predicate LiveCases(cases: seq<Case>, eager: bool)
    decreases cases, 0
  {
    cases == [] || (LiveEach(cases[0].body, eager) && LiveCases(cases[1..], eager))
  }

  /** No visited block of the statement is unenterable, and all of them are live.  A result annotation
      is visited, and runs only where annotations are evaluated. */
  predicate LiveStmt(s: Stmt, eager: bool)
    decreases s, 1
  {
    match s
    case If(_, test, body, orelse) =>
      if test.BoolConst? then LiveBlock(if test.value then body else orelse, eager)
      else LiveBlock(body, eager) && LiveBlock(orelse, eager)
    case While(_, test, body, orelse) =>
      if test.BoolConst? && !test.value then LiveBlock(orelse, eager)
      else LiveEach(body, eager) && LiveEach(orelse, eager) && (test.BoolConst? ==> orelse == [])
    case For(_, _, _, body, orelse) => LiveEach(body, eager) && LiveEach(orelse, eager)
    case With(_, _, body) => LiveEach(body, eager)
    case Try(_, _, body, handlers, orelse, finalbody) =>
      && LiveEach(body, eager)
      && LiveHandlers(handlers, eager) && (handlers != [] ==> Raised in BlockEnds(body))
      && LiveEach(orelse, eager) && (orelse != [] ==> Normal in BlockEnds(body))
      && LiveEach(finalbody, eager) && (finalbody != [] ==> BeforeFinally(s) != {})
    case Match(_, _, cases) => LiveCases(cases, eager)
    case FunctionDef(_, _, _, result, _, _) => eager || result == []
    case ClassDef(_, _, body, _) => LiveEach(body, eager)
    case _ => true
  }

  // ---- block_terminates ---------------------------------------------------------------------

  /** A statement after which the walk stops has no normal end. */
  lemma StopsAfterEnds(s: Stmt)
    requires StopsAfter(s)
    ensures Normal !in Ends(s)
  {
    if Normal in Ends(s) {
      var r := EndsRun(s, false, Normal);
      StopsAfterSound(r, s, false);
    }
  }

  lemma {:induction false} BlockTerminatesSomewhere(block: seq<Stmt>)
    ensures BlockTerminates(block) <==> exists i :: 0 <= i < |block| && StopsAfter(block[i])
  {
    if block == [] {
    } else {
      var rest := block[1..];
      BlockTerminatesSomewhere(rest);
      assert forall i :: 0 <= i < |rest| ==> rest[i] == block[i + 1];
      if i :| 0 < i < |block| && StopsAfter(block[i]) { assert rest[i - 1] == block[i]; }
    }
  }

  lemma {:induction false} BlockCompletesThroughout(block: seq<Stmt>)
    ensures Normal in BlockEnds(block) <==> forall i :: 0 <= i < |block| ==> Normal in Ends(block[i])
  {
    if block == [] {
    } else {
      var rest := block[1..];
      BlockCompletesThroughout(rest);
      assert forall i :: 0 <= i < |rest| ==> rest[i] == block[i + 1];
      if i :| 0 < i < |block| && Normal !in Ends(block[i]) { assert rest[i - 1] == block[i]; }
    }
  }

  /** `block_terminates` is right about a block if and only if some statement of the block is one the
      walk stops after, or every statement can complete normally.  It is wrong on the blocks that a
      statement it does not recognise never lets through: a `while True` without `break`, a `with` or
      `try` whose every path returns. */
  lemma BlockTerminatesExactIff(block: seq<Stmt>, eager: bool)
    ensures (BlockTerminates(block) <==> forall r | BlockRun(r, block, eager) :: Out(r) != Normal)
            <==> || (exists i :: 0 <= i < |block| && StopsAfter(block[i]))
                 || (forall i :: 0 <= i < |block| ==> Normal in Ends(block[i]))
  {
    BlockTerminatesSomewhere(block);
    BlockCompletesThroughout(block);
    BlockEndsExact(block, eager, Normal);
    if BlockTerminates(block) {
      forall r | BlockRun(r, block, eager) ensures Out(r) != Normal { BlockTerminatesSound(r, block, eager); }
    }
  }

  // ---- in a live body everything yielded is reachable ---------------------------------------

  lemma {:induction false} LiveBlockNodes(block: seq<Stmt>, eager: bool)
    requires LiveBlock(block, eager)
    ensures forall n :: Covered(n, VisitBlock(block), OmittedBlock(block), eager) ==> n in BlockNodes(block, eager)
    decreases block, 0
  {
    if block == [] {
    } else {
      LiveNodes(block[0], eager);
      if !StopsAfter(block[0]) { LiveBlockNodes(block[1..], eager); }
    }
  }

  lemma {:induction false} LiveEachNodes(block: seq<Stmt>, eager: bool)
    requires LiveEach(block, eager)
    ensures forall n :: Covered(n, VisitEach(block), OmittedEach(block), eager) ==> n in BlockNodes(block, eager)
    decreases block, 0
  {
    if block == [] {
    } else {
      LiveNodes(block[0], eager);
      LiveEachNodes(block[1..], eager);
    }
  }

  lemma {:induction false} LiveHandlersNodes(handlers: seq<Handler>, eager: bool)
    requires LiveHandlers(handlers, eager)
    ensures forall n :: Covered(n, VisitHandlers(handlers), OmittedHandlers(handlers), eager)
                        ==> n in HandlersNodes(handlers, eager)
    decreases handlers, 0
  {
    if handlers == [] {
    } else {
      EvaluableAllIsVisited(handlers[0].types);
      LiveEachNodes(handlers[0].body, eager);
      LiveHandlersNodes(handlers[1..], eager);
    }
  }

  lemma {:induction false} LiveCasesNodes(cases: seq<Case>, eager: bool)
    requires LiveCases(cases, eager)
    ensures forall n :: Covered(n, VisitCases(cases), OmittedCases(cases), eager) ==> n in CasesNodes(cases, eager)
    decreases cases, 0
  {
    if cases == [] {
    } else {
      EvaluableIsVisited(cases[0].pattern);
      EvaluableAllIsVisited(cases[0].guards);
      LiveEachNodes(cases[0].body, eager);
      LiveCasesNodes(cases[1..], eager);
    }
  }

  lemma {:induction false} LiveNodes(s: Stmt, eager: bool)
    requires LiveStmt(s, eager)
    ensures forall n :: Covered(n, Visit(s), Omitted(s), eager) ==> n in Nodes(s, eager)
    decreases s, 2
  {
    match s
    case Simple(_, exprs) => EvaluableAllIsVisited(exprs);
    case Return(_, exprs) => EvaluableAllIsVisited(exprs);
    case Raise(_, exprs) => EvaluableAllIsVisited(exprs);
    case If(_, _, _, _) => LiveIfNodes(s, eager);
    case While(_, _, _, _) => LiveWhileNodes(s, eager);
    case For(_, target, iter, body, orelse) =>
      EvaluableIsVisited(target);
      EvaluableIsVisited(iter);
      LiveEachNodes(body, eager);
      LiveEachNodes(orelse, eager);
    case With(_, items, body) => EvaluableAllIsVisited(items); LiveEachNodes(body, eager);
    case Try(_, _, body, handlers, orelse, finalbody) => LiveTryNodes(s, eager);
    case Match(_, subject, cases) => EvaluableIsVisited(subject); LiveCasesNodes(cases, eager);
    case FunctionDef(_, decorators, defaults, result, _, _) =>
      EvaluableAllIsVisited(decorators);
      EvaluableAllIsVisited(defaults);
      EvaluableAllIsVisited(result);
    case ClassDef(_, bases, body, decorators) =>
      EvaluableAllIsVisited(bases);
      EvaluableAllIsVisited(decorators);
      LiveEachNodes(body, eager);
    case _ =>
  }

  lemma {:induction false} LiveIfNodes(s: Stmt, eager: bool)
    requires s.If? && LiveStmt(s, eager)
    ensures forall n :: Covered(n, Visit(s), Omitted(s), eager) ==> n in Nodes(s, eager)
    decreases s, 1
  {
    EvaluableIsVisited(s.test);
    if s.test.BoolConst? {
      LiveBlockNodes(if s.test.value then s.body else s.orelse, eager);
    } else {
      LiveBlockNodes(s.body, eager);
      LiveBlockNodes(s.orelse, eager);
    }
  }

  lemma {:induction false} LiveWhileNodes(s: Stmt, eager: bool)
    requires s.While? && LiveStmt(s, eager)
    ensures forall n :: Covered(n, Visit(s), Omitted(s), eager) ==> n in Nodes(s, eager)
    decreases s, 1
  {
    EvaluableIsVisited(s.test);
    if s.test.BoolConst? && !s.test.value {
      LiveBlockNodes(s.orelse, eager);
    } else {
      LiveEachNodes(s.body, eager);
      LiveEachNodes(s.orelse, eager);
    }
  }

  lemma {:induction false} LiveTryNodes(s: Stmt, eager: bool)
    requires s.Try? && LiveStmt(s, eager)
    ensures forall n :: Covered(n, Visit(s), Omitted(s), eager) ==> n in Nodes(s, eager)
    decreases s, 1
  {
    LiveEachNodes(s.body, eager);
    LiveHandlersNodes(s.handlers, eager);
    LiveEachNodes(s.orelse, eager);
    LiveEachNodes(s.finalbody, eager);
  }

  // ---- in a body with dead code something yielded is unreachable ----------------------------

  /** The nodes of a syntax tree are told apart: none is yielded twice, and none is both yielded and
      one of the parameter annotations left out. */
  predicate Apart(seen: seq<NodeId>, omitted: set<NodeId>, eager: bool) {
    Distinct(seen) && forall n | n in seen :: !(eager && n in omitted)
  }

  lemma ApartParts(seen: seq<NodeId>, omitted: set<NodeId>, more: seq<NodeId>, rest: set<NodeId>, eager: bool)
    requires Apart(seen + more, omitted + rest, eager)
    ensures Apart(seen, omitted, eager) && Apart(more, rest, eager)
  {
    var all := seen + more;
    forall i, j | 0 <= i < j < |seen| ensures seen[i] != seen[j] { assert all[i] != all[j]; }
    forall i, j | 0 <= i < j < |more| ensures more[i] != more[j] { assert all[|seen| + i] != all[|seen| + j]; }
    assert forall n :: n in seen || n in more ==> n in all;
  }

  /** A node yielded in one part is neither yielded nor left out in the other. */
  lemma ApartAt(seen: seq<NodeId>, omitted: set<NodeId>, more: seq<NodeId>, rest: set<NodeId>, eager: bool, n: NodeId)
    requires Apart(seen + more, omitted + rest, eager)
    ensures n in seen ==> !Covered(n, more, rest, eager)
    ensures n in more ==> !Covered(n, seen, omitted, eager)
  {
    var all := seen + more;
    assert n in seen || n in more ==> n in all;
    forall i, j | 0 <= i < |seen| && 0 <= j < |more| ensures seen[i] != more[j] {
      assert all[i] != all[|seen| + j];
    }
  }

  /** What can run in a block or statement is yielded or left out there. */
  lemma BlockNodeCovered(block: seq<Stmt>, eager: bool, n: NodeId)
    ensures n in BlockNodes(block, eager) ==> Covered(n, VisitBlock(block), OmittedBlock(block), eager)
    ensures n in BlockNodes(block, eager) ==> Covered(n, VisitEach(block), OmittedEach(block), eager)
  {
    if n in BlockNodes(block, eager) {
      var r := BlockNodesRun(block, eager, n);
      BlockSound(r, block, eager);
      EachSound(r, block, eager);
    }
  }

  lemma NodeCovered(s: Stmt, eager: bool, n: NodeId)
    ensures n in Nodes(s, eager) ==> Covered(n, Visit(s), Omitted(s), eager)
  {
    if n in Nodes(s, eager) {
      var r := NodesRun(s, eager, n);
      StmtSound(r, s, eager);
    }
  }

  lemma {:induction false} HandlersNodeCovered(handlers: seq<Handler>, eager: bool, n: NodeId)
    ensures n in HandlersNodes(handlers, eager)
            ==> Covered(n, VisitHandlers(handlers), OmittedHandlers(handlers), eager)
  {
    if handlers == [] {
    } else {
      EvaluableAllIsVisited(handlers[0].types);
      BlockNodeCovered(handlers[0].body, eager, n);
      HandlersNodeCovered(handlers[1..], eager, n);
    }
  }

  lemma {:induction false} CasesNodeCovered(cases: seq<Case>, eager: bool, n: NodeId)
    ensures n in CasesNodes(cases, eager) ==> Covered(n, VisitCases(cases), OmittedCases(cases), eager)
  {
    if cases == [] {
    } else {
      EvaluableIsVisited(cases[0].pattern);
      EvaluableAllIsVisited(cases[0].guards);
      BlockNodeCovered(cases[0].body, eager, n);
      CasesNodeCovered(cases[1..], eager, n);
    }
  }

  /** A non-empty block that is visited yields its first statement. */
  lemma FirstYielded(block: seq<Stmt>)
    requires block != []
    ensures block[0].id in VisitBlock(block) && block[0].id in VisitEach(block)
  {
    assert block[0].id in Visit(block[0]);
  }

  lemma {:induction false} DeadBlock(block: seq<Stmt>, eager: bool) returns (n: NodeId)
    requires !LiveBlock(block, eager) && Apart(VisitBlock(block), OmittedBlock(block), eager)
    ensures n in VisitBlock(block) && n !in BlockNodes(block, eager)
    decreases block, 0
  {
    var s, rest := block[0], block[1..];
    if StopsAfter(s) {
      StopsAfterEnds(s);
      n := DeadStmt(s, eager);
    } else {
      ApartParts(Visit(s), Omitted(s), VisitBlock(rest), OmittedBlock(rest), eager);
      if !LiveStmt(s, eager) {
        n := DeadStmt(s, eager);
      } else if rest != [] && Normal !in Ends(s) {
        n := rest[0].id;
        FirstYielded(rest);
      } else {
        n := DeadBlock(rest, eager);
      }
      ApartAt(Visit(s), Omitted(s), VisitBlock(rest), OmittedBlock(rest), eager, n);
      NodeCovered(s, eager, n);
      BlockNodeCovered(rest, eager, n);
    }
  }

  lemma {:induction false} DeadEach(block: seq<Stmt>, eager: bool) returns (n: NodeId)
    requires !LiveEach(block, eager) && Apart(VisitEach(block), OmittedEach(block), eager)
    ensures n in VisitEach(block) && n !in BlockNodes(block, eager)
    decreases block, 0
  {
    var s, rest := block[0], block[1..];
    ApartParts(Visit(s), Omitted(s), VisitEach(rest), OmittedEach(rest), eager);
    if !LiveStmt(s, eager) {
      n := DeadStmt(s, eager);
    } else if rest != [] && Normal !in Ends(s) {
      n := rest[0].id;
      FirstYielded(rest);
    } else {
      n := DeadEach(rest, eager);
    }
    ApartAt(Visit(s), Omitted(s), VisitEach(rest), OmittedEach(rest), eager, n);
    NodeCovered(s, eager, n);
    BlockNodeCovered(rest, eager, n);
  }

  /** Two parts under one header. */
  lemma TwoParts(head: seq<NodeId>, a: seq<NodeId>, omittedA: set<NodeId>,
                 b: seq<NodeId>, omittedB: set<NodeId>, eager: bool)
    requires Apart(head + a + b, omittedA + omittedB, eager)
    ensures Apart(a, omittedA, eager) && Apart(b, omittedB, eager)
  {
    ApartParts(head + a, omittedA, b, omittedB, eager);
    assert {} + omittedA == omittedA;
    ApartParts(head, {}, a, omittedA, eager);
  }

  lemma TwoPartsAt(head: seq<NodeId>, a: seq<NodeId>, omittedA: set<NodeId>,
                   b: seq<NodeId>, omittedB: set<NodeId>, eager: bool, n: NodeId)
    requires Apart(head + a + b, omittedA + omittedB, eager)
    ensures n in a ==> n !in head && !Covered(n, b, omittedB, eager)
    ensures n in b ==> n !in head && !Covered(n, a, omittedA, eager)
  {
    ApartParts(head + a, omittedA, b, omittedB, eager);
    ApartAt(head + a, omittedA, b, omittedB, eager, n);
    assert {} + omittedA == omittedA;
    ApartAt(head, {}, a, omittedA, eager, n);
  }

  lemma {:induction false} DeadHandlers(handlers: seq<Handler>, eager: bool) returns (n: NodeId)
    requires !LiveHandlers(handlers, eager)
    requires Apart(VisitHandlers(handlers), OmittedHandlers(handlers), eager)
    ensures n in VisitHandlers(handlers) && n !in HandlersNodes(handlers, eager)
    decreases handlers, 0
  {
    var h, rest := handlers[0], handlers[1..];
    var head := [h.id] + VisitExprs(h.types);
    TwoParts(head, VisitEach(h.body), OmittedEach(h.body), VisitHandlers(rest), OmittedHandlers(rest), eager);
    if !LiveEach(h.body, eager) {
      n := DeadEach(h.body, eager);
    } else {
      n := DeadHandlers(rest, eager);
    }
    TwoPartsAt(head, VisitEach(h.body), OmittedEach(h.body), VisitHandlers(rest), OmittedHandlers(rest), eager, n);
    EvaluableAllIsVisited(h.types);
    BlockNodeCovered(h.body, eager, n);
    HandlersNodeCovered(rest, eager, n);
  }

  lemma {:induction false} DeadCases(cases: seq<Case>, eager: bool) returns (n: NodeId)
    requires !LiveCases(cases, eager)
    requires Apart(VisitCases(cases), OmittedCases(cases), eager)
    ensures n in VisitCases(cases) && n !in CasesNodes(cases, eager)
    decreases cases, 0
  {
    var c, rest := cases[0], cases[1..];
    var head := [c.id] + VisitExpr(c.pattern) + VisitExprs(c.guards);
    TwoParts(head, VisitEach(c.body), OmittedEach(c.body), VisitCases(rest), OmittedCases(rest), eager);
    if !LiveEach(c.body, eager) {
      n := DeadEach(c.body, eager);
    } else {
      n := DeadCases(rest, eager);
    }
    TwoPartsAt(head, VisitEach(c.body), OmittedEach(c.body), VisitCases(rest), OmittedCases(rest), eager, n);
    EvaluableIsVisited(c.pattern);
    EvaluableAllIsVisited(c.guards);
    BlockNodeCovered(c.body, eager, n);
    CasesNodeCovered(rest, eager, n);
  }

  lemma {:induction false} DeadStmt(s: Stmt, eager: bool) returns (n: NodeId)
    requires !LiveStmt(s, eager) && Apart(Visit(s), Omitted(s), eager)
    ensures n in Visit(s) && n !in Nodes(s, eager)
    decreases s, 2
  {
    match s
    case If(_, _, _, _) => n := DeadIf(s, eager);
    case While(_, _, _, _) => n := DeadWhile(s, eager);
    case For(_, _, _, _, _) => n := DeadFor(s, eager);
    case With(_, _, _) => n := DeadWith(s, eager);
    case ClassDef(_, _, _, _) => n := DeadClass(s, eager);
    case Try(_, _, _, _, _, _) => n := DeadTry(s, eager);
    case Match(_, _, _) => n := DeadMatch(s, eager);
    case FunctionDef(_, _, _, _, _, _) => n := DeadResult(s, eager);
  }

  /** The one block visited under a header whose test is a constant. */
  lemma {:induction false} DeadUnder(head: seq<NodeId>, block: seq<Stmt>, eager: bool) returns (n: NodeId)
    requires !LiveBlock(block, eager) && Apart(head + VisitBlock(block), OmittedBlock(block), eager)
    ensures n in VisitBlock(block) && n !in head && n !in BlockNodes(block, eager)
    decreases block, 1
  {
    assert {} + OmittedBlock(block) == OmittedBlock(block);
    ApartParts(head, {}, VisitBlock(block), OmittedBlock(block), eager);
    n := DeadBlock(block, eager);
    ApartAt(head, {}, VisitBlock(block), OmittedBlock(block), eager, n);
  }

  lemma {:induction false} DeadIf(s: Stmt, eager: bool) returns (n: NodeId)
    requires s.If? && !LiveStmt(s, eager) && Apart(Visit(s), Omitted(s), eager)
    ensures n in Visit(s) && n !in Nodes(s, eager)
    decreases s, 1
  {
    var head := [s.id] + VisitExpr(s.test);
    IfYields(s);
    if !s.test.BoolConst? {
      n := DeadBranch(s, head, eager);
    } else {
      n := DeadUnder(head, if s.test.value then s.body else s.orelse, eager);
    }
    IfNodeWhere(s, eager, n);
  }

  lemma IfYields(s: Stmt)
    requires s.If?
    ensures var head := [s.id] + VisitExpr(s.test);
            Visit(s) == if !s.test.BoolConst? then head + VisitBlock(s.body) + VisitBlock(s.orelse)
                        else head + VisitBlock(if s.test.value then s.body else s.orelse)
  {
  }

  lemma IfNodeWhere(s: Stmt, eager: bool, n: NodeId)
    requires s.If?
    ensures n in Nodes(s, eager)
            ==> || n == s.id || n in VisitExpr(s.test)
                || (MayBe(s.test, true) && n in BlockNodes(s.body, eager))
                || (MayBe(s.test, false) && n in BlockNodes(s.orelse, eager))
  {
    EvaluableIsVisited(s.test);
  }

  lemma {:induction false} DeadBranch(s: Stmt, head: seq<NodeId>, eager: bool) returns (n: NodeId)
    requires s.If?
    requires Apart(head + VisitBlock(s.body) + VisitBlock(s.orelse),
                   OmittedBlock(s.body) + OmittedBlock(s.orelse), eager)
    requires !(LiveBlock(s.body, eager) && LiveBlock(s.orelse, eager))
    ensures n in VisitBlock(s.body) || n in VisitBlock(s.orelse)
    ensures n !in head && n !in BlockNodes(s.body, eager) && n !in BlockNodes(s.orelse, eager)
    decreases s, 0
  {
    var body, orelse := s.body, s.orelse;
    TwoParts(head, VisitBlock(body), OmittedBlock(body), VisitBlock(orelse), OmittedBlock(orelse), eager);
    if !LiveBlock(body, eager) { n := DeadBlock(body, eager); } else { n := DeadBlock(orelse, eager); }
    TwoPartsAt(head, VisitBlock(body), OmittedBlock(body), VisitBlock(orelse), OmittedBlock(orelse), eager, n);
    BlockNodeCovered(body, eager, n);
    BlockNodeCovered(orelse, eager, n);
  }

  lemma {:induction false} DeadWhile(s: Stmt, eager: bool) returns (n: NodeId)
    requires s.While? && !LiveStmt(s, eager) && Apart(Visit(s), Omitted(s), eager)
    ensures n in Visit(s) && n !in Nodes(s, eager)
    decreases s, 1
  {
    var head := [s.id] + VisitExpr(s.test);
    EvaluableIsVisited(s.test);
    if s.test.BoolConst? && !s.test.value {
      assert Visit(s) == head + VisitBlock(s.orelse);
      n := DeadUnder(head, s.orelse, eager);
    } else {
      assert Visit(s) == head + VisitEach(s.body) + VisitEach(s.orelse);
      n := DeadOfTwo(s, head, !s.test.BoolConst?, eager);
    }
  }

  lemma {:induction false} DeadFor(s: Stmt, eager: bool) returns (n: NodeId)
    requires s.For? && !LiveStmt(s, eager) && Apart(Visit(s), Omitted(s), eager)
    ensures n in Visit(s) && n !in Nodes(s, eager)
    decreases s, 1
  {
    var head := [s.id] + VisitExpr(s.target) + VisitExpr(s.iter);
    EvaluableIsVisited(s.target);
    EvaluableIsVisited(s.iter);
    assert Visit(s) == head + VisitEach(s.body) + VisitEach(s.orelse);
    n := DeadOfTwo(s, head, true, eager);
  }

  /** Both blocks of a loop are visited; the second can be entered only if `enters`. */
  lemma {:induction false} DeadOfTwo(s: Stmt, head: seq<NodeId>, enters: bool, eager: bool) returns (n: NodeId)
    requires s.While? || s.For?
    requires Apart(head + VisitEach(s.body) + VisitEach(s.orelse), OmittedEach(s.body) + OmittedEach(s.orelse), eager)
    requires !(LiveEach(s.body, eager) && LiveEach(s.orelse, eager) && (s.orelse != [] ==> enters))
    ensures n in VisitEach(s.body) || n in VisitEach(s.orelse)
    ensures n !in head && n !in BlockNodes(s.body, eager) && (enters ==> n !in BlockNodes(s.orelse, eager))
    decreases s, 0
  {
    var body, orelse := s.body, s.orelse;
    TwoParts(head, VisitEach(body), OmittedEach(body), VisitEach(orelse), OmittedEach(orelse), eager);
    if !LiveEach(body, eager) {
      n := DeadEach(body, eager);
    } else if !LiveEach(orelse, eager) {
      n := DeadEach(orelse, eager);
    } else {
      n := orelse[0].id;
      FirstYielded(orelse);
    }
    TwoPartsAt(head, VisitEach(body), OmittedEach(body), VisitEach(orelse), OmittedEach(orelse), eager, n);
    BlockNodeCovered(body, eager, n);
    BlockNodeCovered(orelse, eager, n);
  }

  lemma {:induction false} DeadWith(s: Stmt, eager: bool) returns (n: NodeId)
    requires s.With? && !LiveStmt(s, eager) && Apart(Visit(s), Omitted(s), eager)
    ensures n in Visit(s) && n !in Nodes(s, eager)
    decreases s, 1
  {
    var head := [s.id] + VisitExprs(s.items);
    assert Visit(s) == head + VisitEach(s.body);
    assert {} + OmittedEach(s.body) == Omitted(s);
    ApartParts(head, {}, VisitEach(s.body), OmittedEach(s.body), eager);
    n := DeadEach(s.body, eager);
    ApartAt(head, {}, VisitEach(s.body), OmittedEach(s.body), eager, n);
    EvaluableAllIsVisited(s.items);
  }

  lemma {:induction false} DeadClass(s: Stmt, eager: bool) returns (n: NodeId)
    requires s.ClassDef? && !LiveStmt(s, eager) && Apart(Visit(s), Omitted(s), eager)
    ensures n in Visit(s) && n !in Nodes(s, eager)
    decreases s, 1
  {
    var head := [s.id] + VisitExprs(s.bases);
    assert Visit(s) == head + VisitEach(s.body) + VisitExprs(s.decorators);
    assert OmittedEach(s.body) + {} == Omitted(s);
    TwoParts(head, VisitEach(s.body), OmittedEach(s.body), VisitExprs(s.decorators), {}, eager);
    n := DeadEach(s.body, eager);
    TwoPartsAt(head, VisitEach(s.body), OmittedEach(s.body), VisitExprs(s.decorators), {}, eager, n);
    EvaluableAllIsVisited(s.bases);
    EvaluableAllIsVisited(s.decorators);
  }

  lemma {:induction false} DeadMatch(s: Stmt, eager: bool) returns (n: NodeId)
    requires s.Match? && !LiveStmt(s, eager) && Apart(Visit(s), Omitted(s), eager)
    ensures n in Visit(s) && n !in Nodes(s, eager)
    decreases s, 1
  {
    var head := [s.id] + VisitExpr(s.subject);
    assert Visit(s) == head + VisitCases(s.cases);
    assert {} + OmittedCases(s.cases) == Omitted(s);
    ApartParts(head, {}, VisitCases(s.cases), OmittedCases(s.cases), eager);
    n := DeadCases(s.cases, eager);
    ApartAt(head, {}, VisitCases(s.cases), OmittedCases(s.cases), eager, n);
    EvaluableIsVisited(s.subject);
  }

  /** A result annotation that is not evaluated. */
  lemma DeadResult(s: Stmt, eager: bool) returns (n: NodeId)
    requires s.FunctionDef? && !LiveStmt(s, eager) && Apart(Visit(s), Omitted(s), eager)
    ensures n in Visit(s) && n !in Nodes(s, eager)
  {
    var head := [s.id] + VisitExprs(s.decorators) + VisitExprs(s.defaults);
    assert Visit(s) == head + VisitExprs(s.result);
    n := s.result[0].id;
    assert n in VisitExpr(s.result[0]);
    assert {} + Omitted(s) == Omitted(s);
    ApartAt(head, {}, VisitExprs(s.result), Omitted(s), eager, n);
    EvaluableAllIsVisited(s.decorators);
    EvaluableAllIsVisited(s.defaults);
  }

  /** The node sequences and omitted sets of the four parts of a `try`. */
  function TryPart(s: Stmt, k: int): (seq<NodeId>, set<NodeId>)
    requires s.Try?
  {
    if k == 0 then (VisitEach(s.body), OmittedEach(s.body))
    else if k == 1 then (VisitHandlers(s.handlers), OmittedHandlers(s.handlers))
    else if k == 2 then (VisitEach(s.orelse), OmittedEach(s.orelse))
    else (VisitEach(s.finalbody), OmittedEach(s.finalbody))
  }

  lemma TryYields(s: Stmt)
    requires s.Try?
    ensures Visit(s) == [s.id] + TryPart(s, 0).0 + TryPart(s, 1).0 + TryPart(s, 2).0 + TryPart(s, 3).0
    ensures Omitted(s) == TryPart(s, 0).1 + TryPart(s, 1).1 + TryPart(s, 2).1 + TryPart(s, 3).1
  {
  }

  lemma FourParts(head: seq<NodeId>, a: (seq<NodeId>, set<NodeId>), b: (seq<NodeId>, set<NodeId>),
                  c: (seq<NodeId>, set<NodeId>), d: (seq<NodeId>, set<NodeId>), eager: bool)
    requires Apart(head + a.0 + b.0 + c.0 + d.0, a.1 + b.1 + c.1 + d.1, eager)
    ensures Apart(a.0, a.1, eager) && Apart(b.0, b.1, eager) && Apart(c.0, c.1, eager) && Apart(d.0, d.1, eager)
  {
    ApartParts(head + a.0 + b.0 + c.0, a.1 + b.1 + c.1, d.0, d.1, eager);
    ApartParts(head + a.0 + b.0, a.1 + b.1, c.0, c.1, eager);
    TwoParts(head, a.0, a.1, b.0, b.1, eager);
  }

  lemma FourPartsAt(head: seq<NodeId>, a: (seq<NodeId>, set<NodeId>), b: (seq<NodeId>, set<NodeId>),
                    c: (seq<NodeId>, set<NodeId>), d: (seq<NodeId>, set<NodeId>), eager: bool, n: NodeId)
    requires Apart(head + a.0 + b.0 + c.0 + d.0, a.1 + b.1 + c.1 + d.1, eager)
    ensures n in a.0 + b.0 + c.0 + d.0 ==> n !in head
    ensures n in a.0 ==> !Covered(n, b.0, b.1, eager) && !Covered(n, c.0, c.1, eager) && !Covered(n, d.0, d.1, eager)
    ensures n in b.0 ==> !Covered(n, a.0, a.1, eager) && !Covered(n, c.0, c.1, eager) && !Covered(n, d.0, d.1, eager)
    ensures n in c.0 ==> !Covered(n, a.0, a.1, eager) && !Covered(n, b.0, b.1, eager) && !Covered(n, d.0, d.1, eager)
    ensures n in d.0 ==> !Covered(n, a.0, a.1, eager) && !Covered(n, b.0, b.1, eager) && !Covered(n, c.0, c.1, eager)
  {
    ApartParts(head + a.0 + b.0 + c.0, a.1 + b.1 + c.1, d.0, d.1, eager);
    ApartAt(head + a.0 + b.0 + c.0, a.1 + b.1 + c.1, d.0, d.1, eager, n);
    ApartParts(head + a.0 + b.0, a.1 + b.1, c.0, c.1, eager);
    ApartAt(head + a.0 + b.0, a.1 + b.1, c.0, c.1, eager, n);
    TwoPartsAt(head, a.0, a.1, b.0, b.1, eager, n);
  }

  /** The parts of a `try` are told apart. */
  lemma TryPartsAt(s: Stmt, k: int, eager: bool, n: NodeId)
    requires s.Try? && Apart(Visit(s), Omitted(s), eager)
    requires 0 <= k < 4 && n in TryPart(s, k).0
    ensures n in Visit(s) && n != s.id
    ensures k != 0 ==> !Covered(n, VisitEach(s.body), OmittedEach(s.body), eager)
    ensures k != 1 ==> !Covered(n, VisitHandlers(s.handlers), OmittedHandlers(s.handlers), eager)
    ensures k != 2 ==> !Covered(n, VisitEach(s.orelse), OmittedEach(s.orelse), eager)
    ensures k != 3 ==> !Covered(n, VisitEach(s.finalbody), OmittedEach(s.finalbody), eager)
  {
    TryYields(s);
    FourPartsAt([s.id], TryPart(s, 0), TryPart(s, 1), TryPart(s, 2), TryPart(s, 3), eager, n);
  }

  /** A node yielded in one part of a `try` can run only if it can run in that part. */
  lemma TryNodeIn(s: Stmt, k: int, eager: bool, n: NodeId)
    requires s.Try? && Apart(Visit(s), Omitted(s), eager)
    requires 0 <= k < 4 && n in TryPart(s, k).0
    requires k == 0 ==> n !in BlockNodes(s.body, eager)
    requires k == 1 ==> Raised !in BlockEnds(s.body) || n !in HandlersNodes(s.handlers, eager)
    requires k == 2 ==> Normal !in BlockEnds(s.body) || n !in BlockNodes(s.orelse, eager)
    requires k == 3 ==> BeforeFinally(s) == {} || n !in BlockNodes(s.finalbody, eager)
    ensures n in Visit(s) && n !in Nodes(s, eager)
  {
    TryPartsAt(s, k, eager, n);
    BlockNodeCovered(s.body, eager, n);
    HandlersNodeCovered(s.handlers, eager, n);
    BlockNodeCovered(s.orelse, eager, n);
    BlockNodeCovered(s.finalbody, eager, n);
    if n in Nodes(s, eager) { TryNodeWhere(s, eager, n); }
  }

  lemma {:induction false} DeadTry(s: Stmt, eager: bool) returns (n: NodeId)
    requires s.Try? && !LiveStmt(s, eager) && Apart(Visit(s), Omitted(s), eager)
    ensures n in Visit(s) && n !in Nodes(s, eager)
    decreases s, 1
  {
    TryYields(s);
    FourParts([s.id], TryPart(s, 0), TryPart(s, 1), TryPart(s, 2), TryPart(s, 3), eager);
    if !LiveEach(s.body, eager) {
      n := DeadEach(s.body, eager);
      TryNodeIn(s, 0, eager, n);
    } else if !LiveHandlers(s.handlers, eager) {
      n := DeadHandlers(s.handlers, eager);
      TryNodeIn(s, 1, eager, n);
    } else if !LiveEach(s.orelse, eager) {
      n := DeadEach(s.orelse, eager);
      TryNodeIn(s, 2, eager, n);
    } else if !LiveEach(s.finalbody, eager) {
      n := DeadEach(s.finalbody, eager);
      TryNodeIn(s, 3, eager, n);
    } else {
      n := UnenteredInTry(s, eager);
    }
  }

  /** The first node of a part of a `try` that is visited and never entered. */
  lemma UnenteredInTry(s: Stmt, eager: bool) returns (n: NodeId)
    requires s.Try? && Apart(Visit(s), Omitted(s), eager)
    requires || (s.handlers != [] && Raised !in BlockEnds(s.body))
             || (s.orelse != [] && Normal !in BlockEnds(s.body))
             || (s.finalbody != [] && BeforeFinally(s) == {})
    ensures n in Visit(s) && n !in Nodes(s, eager)
  {
    if s.handlers != [] && Raised !in BlockEnds(s.body) {
      n := s.handlers[0].id;
      TryNodeIn(s, 1, eager, n);
    } else if s.orelse != [] && Normal !in BlockEnds(s.body) {
      n := s.orelse[0].id;
      FirstYielded(s.orelse);
      TryNodeIn(s, 2, eager, n);
    } else {
      n := s.finalbody[0].id;
      FirstYielded(s.finalbody);
      TryNodeIn(s, 3, eager, n);
    }
  }

  // ---- precision ----------------------------------------------------------------------------

  /** In a live body the nodes yielded, together with the parameter annotations when these are
      evaluated, are exactly the reachable nodes. */
  lemma YieldedExactlyReachable(body: seq<Stmt>, eager: bool, n: NodeId)
    requires LiveBlock(body, eager)
    ensures (n in FunctionScopeNodes(body) || (eager && n in OmittedBlock(body))) <==> Reachable(body, eager, n)
  {
    LiveBlockNodes(body, eager);
    BlockNodeCovered(body, eager, n);
    NodesExact(body, eager, n);
  }

  /** Every yielded node is reachable if and only if the body is live. */
  lemma PreciseIffLive(body: seq<Stmt>, eager: bool)
    requires Apart(FunctionScopeNodes(body), OmittedBlock(body), eager)
    ensures (forall n :: n in FunctionScopeNodes(body) ==> Reachable(body, eager, n)) <==> LiveBlock(body, eager)
  {
    if LiveBlock(body, eager) {
      forall n | n in FunctionScopeNodes(body) ensures Reachable(body, eager, n) {
        YieldedExactlyReachable(body, eager, n);
      }
    } else {
      var n := DeadBlock(body, eager);
      NodesExact(body, eager, n);
      assert n in FunctionScopeNodes(body) && !Reachable(body, eager, n);
    }
  }

  // ---- where the walk and the executions part -----------------------------------------------

  /** `for x in xs: return; wiring()`.  The call is dead, yet it is yielded. */
  lemma DeadCodeInLoopIsYielded(eager: bool)
    ensures var body := [For(0, Compound(1, []), Compound(2, []), [Return(3, []), Simple(4, [])], [])];
            4 in FunctionScopeNodes(body) && !Reachable(body, eager, 4)
  {
    var inner := [Return(3, []), Simple(4, [])];
    var loop := For(0, Compound(1, []), Compound(2, []), inner, []);
    assert inner[1..] == [Simple(4, [])];
    assert 4 in Visit(loop) by {
      assert VisitEach(inner) == [3, 4] by { assert Visit(inner[0]) == [3] && Visit(inner[1]) == [4]; }
    }
    assert 4 !in Nodes(loop, eager) by {
      assert BlockNodes(inner, eager) == {3};
      assert Evaluable(loop.target) == {1} && Evaluable(loop.iter) == {2};
    }
    assert [loop][1..] == [];
    NodesExact([loop], eager, 4);
  }

  /** `def helper(x: probe()): ...` under annotations evaluated at definition time: the annotation
      runs in the enclosing frame and the walk never yields it. */
  lemma EagerAnnotationIsMissed()
    ensures var body := [FunctionDef(0, [], [], [], [Compound(1, [])], [])];
            1 !in FunctionScopeNodes(body) && Reachable(body, true, 1)
  {
    var f := FunctionDef(0, [], [], [], [Compound(1, [])], []);
    assert Visit(f) == [0];
    assert VisitBlock([f]) == [0];
    assert EvaluableAll([Compound(1, [])]) == {1};
    NodesExact([f], true, 1);
  }

  /** `def helper() -> probe(): ...` under deferred annotations: the annotation never runs and is yielded. */
  lemma DeferredResultIsYielded()
    ensures var body := [FunctionDef(0, [], [], [Compound(1, [])], [], [])];
            1 in FunctionScopeNodes(body) && !Reachable(body, false, 1)
  {
    var f := FunctionDef(0, [], [], [Compound(1, [])], [], []);
    assert VisitExprs([Compound(1, [])]) == [1];
    assert Visit(f) == [0, 1];
    assert VisitBlock([f]) == [0, 1] by { assert [f][1..] == []; }
    assert Nodes(f, false) == {0};
    NodesExact([f], false, 1);
  }

  /** `while True: pass`: no execution completes, and `block_terminates` does not see it. */
  lemma EndlessLoopIsMissed(eager: bool)
    ensures var block := [While(0, BoolConst(1, true), [Simple(2, [])], [])];
            !BlockTerminates(block) && forall r | BlockRun(r, block, eager) :: Out(r) != Normal
  {
    var block := [While(0, BoolConst(1, true), [Simple(2, [])], [])];
    assert block[0].body[1..] == [] && block[1..] == [];
    assert BlockEnds(block[0].body) == {Raised, Normal};
    assert Ends(block[0]) == {Raised};
    BlockEndsExact(block, eager, Normal);
  }
}

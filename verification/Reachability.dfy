/** The walk against the semantics: everything that can run in a function's own frame is yielded. */
module Reachability {
  import opened PythonSyntax
  import opened ScopeWalk
  import opened PythonRuns

  /** `n` is yielded, or is one of the parameter annotations the walk never looks at. */
  predicate Covered(n: NodeId, seen: seq<NodeId>, omitted: set<NodeId>, eager: bool) {
    n in seen || (eager && n in omitted)
  }

  // ---- expressions -------------------------------------------------------------------------

  lemma {:induction false} EvaluableIsVisited(e: Expr)
    ensures forall n :: n in Evaluable(e) <==> n in VisitExpr(e)
  {
    match e
    case BoolConst(_, _) =>
    case Lambda(_, defaults, _) => EvaluableAllIsVisited(defaults);
    case Compound(_, children) => EvaluableAllIsVisited(children);
  }

  lemma {:induction false} EvaluableAllIsVisited(es: seq<Expr>)
    ensures forall n :: n in EvaluableAll(es) <==> n in VisitExprs(es)
  {
    if es == [] {
    } else {
      EvaluableIsVisited(es[0]);
      EvaluableAllIsVisited(es[1..]);
    }
  }

  lemma {:induction false} HandlerHeadsVisited(handlers: seq<Handler>)
    ensures forall n :: n in HandlerHeads(handlers) ==> n in VisitHandlers(handlers)
  {
    if handlers == [] {
    } else {
      EvaluableAllIsVisited(handlers[0].types);
      HandlerHeadsVisited(handlers[1..]);
    }
  }

  lemma {:induction false} CaseHeadsVisited(cases: seq<Case>)
    ensures forall n :: n in CaseHeads(cases) ==> n in VisitCases(cases)
  {
    if cases == [] {
    } else {
      EvaluableIsVisited(cases[0].pattern);
      EvaluableAllIsVisited(cases[0].guards);
      CaseHeadsVisited(cases[1..]);
    }
  }

  lemma {:induction false} HandlerBodyVisited(handlers: seq<Handler>, i: nat)
    requires i < |handlers|
    ensures handlers[i].id in VisitHandlers(handlers)
    ensures forall n :: n in VisitEach(handlers[i].body) ==> n in VisitHandlers(handlers)
    ensures OmittedEach(handlers[i].body) <= OmittedHandlers(handlers)
  {
    if i == 0 {
    } else {
      HandlerBodyVisited(handlers[1..], i - 1);
    }
  }

  lemma {:induction false} CaseBodyVisited(cases: seq<Case>, i: nat)
    requires i < |cases|
    ensures cases[i].id in VisitCases(cases)
    ensures forall n :: n in VisitEach(cases[i].body) ==> n in VisitCases(cases)
    ensures OmittedEach(cases[i].body) <= OmittedCases(cases)
  {
    if i == 0 {
    } else {
      CaseBodyVisited(cases[1..], i - 1);
    }
  }

  // ---- block termination --------------------------------------------------------------------

  /** A statement after which the walk stops never completes normally. */
  lemma {:induction false} StopsAfterSound(r: Run, s: Stmt, eager: bool)
    requires StopsAfter(s) && StmtRun(r, s, eager)
    ensures Out(r) != Normal
    decreases r, 1
  {
    if s.If? && r.Enter? {
      if MayBe(s.test, true) && BlockRun(r.sub, s.body, eager) {
        BlockTerminatesSound(r.sub, s.body, eager);
      } else {
        BlockTerminatesSound(r.sub, s.orelse, eager);
      }
    }
  }

  /** No execution of a terminating block completes normally. */
  lemma {:induction false} BlockTerminatesSound(r: Run, block: seq<Stmt>, eager: bool)
    requires BlockTerminates(block) && BlockRun(r, block, eager)
    ensures Out(r) != Normal
    decreases r, 0
  {
    if r.Then? {
      if StopsAfter(block[0]) {
        StopsAfterSound(r.first, block[0], eager);
      } else {
        BlockTerminatesSound(r.rest, block[1..], eager);
      }
    }
  }

  // ---- soundness ----------------------------------------------------------------------------

  /** Pruning the rest of a block after a statement that stops it drops only code that never runs. */
  lemma {:induction false} BlockSound(r: Run, block: seq<Stmt>, eager: bool)
    requires BlockRun(r, block, eager)
    ensures forall n :: n in Ran(r) ==> Covered(n, VisitBlock(block), OmittedBlock(block), eager)
    decreases r, 2
  {
    match r
    case Then(first, rest) =>
      StmtSound(first, block[0], eager);
      if StopsAfter(block[0]) {
        StopsAfterSound(first, block[0], eager);
        assert false;
      } else {
        BlockSound(rest, block[1..], eager);
      }
    case Leave(first) => StmtSound(first, block[0], eager);
    case _ =>
  }

  lemma {:induction false} EachSound(r: Run, block: seq<Stmt>, eager: bool)
    requires BlockRun(r, block, eager)
    ensures forall n :: n in Ran(r) ==> Covered(n, VisitEach(block), OmittedEach(block), eager)
    decreases r, 2
  {
    match r
    case Then(first, rest) =>
      StmtSound(first, block[0], eager);
      EachSound(rest, block[1..], eager);
    case Leave(first) => StmtSound(first, block[0], eager);
    case _ =>
  }

  lemma {:induction false} StmtSound(r: Run, s: Stmt, eager: bool)
    requires StmtRun(r, s, eager)
    ensures forall n :: n in Ran(r) ==> Covered(n, Visit(s), Omitted(s), eager)
    decreases r, 3
  {
    match s
    case Simple(_, exprs) => EvaluableAllIsVisited(exprs);
    case Return(_, exprs) => EvaluableAllIsVisited(exprs);
    case Raise(_, exprs) => EvaluableAllIsVisited(exprs);
    case Break(_) =>
    case Continue(_) =>
    case If(_, test, body, orelse) => IfSound(r, s, eager);
    case While(_, test, body, orelse) => WhileSound(r, s, eager);
    case For(_, target, iter, body, orelse) => ForSound(r, s, eager);
    case With(_, items, body) =>
      EvaluableAllIsVisited(items);
      if r.Enter? { EachSound(r.sub, body, eager); }
    case Try(_, _, body, handlers, orelse, finalbody) => TrySound(r, s, eager);
    case Match(_, subject, cases) => MatchSound(r, s, eager);
    case FunctionDef(_, decorators, defaults, result, _, _) =>
      EvaluableAllIsVisited(decorators);
      EvaluableAllIsVisited(defaults);
      EvaluableAllIsVisited(result);
    case ClassDef(_, bases, body, decorators) =>
      EvaluableAllIsVisited(bases);
      EvaluableAllIsVisited(decorators);
      if r.Enter? { EachSound(r.sub, body, eager); }
  }

  lemma {:induction false} IfSound(r: Run, s: Stmt, eager: bool)
    requires s.If? && StmtRun(r, s, eager)
    ensures forall n :: n in Ran(r) ==> Covered(n, Visit(s), Omitted(s), eager)
    decreases r, 2
  {
    EvaluableIsVisited(s.test);
    if r.Enter? {
      if MayBe(s.test, true) && BlockRun(r.sub, s.body, eager) {
        BlockSound(r.sub, s.body, eager);
      } else {
        BlockSound(r.sub, s.orelse, eager);
      }
    }
  }

  lemma {:induction false} WhileSound(r: Run, s: Stmt, eager: bool)
    requires s.While? && WhileRun(r, s.id, s.test, s.body, s.orelse, eager)
    ensures forall n :: n in Ran(r) ==> Covered(n, Visit(s), Omitted(s), eager)
    decreases r, 2
  {
    EvaluableIsVisited(s.test);
    match r
    case Turn(_, _, sub, next) => EachSound(sub, s.body, eager); WhileSound(next, s, eager);
    case Exit(_, _, sub) => EachSound(sub, s.body, eager);
    case Exhaust(_, _, sub) => EachSound(sub, s.orelse, eager); BlockSound(sub, s.orelse, eager);
    case _ =>
  }

  lemma {:induction false} ForSound(r: Run, s: Stmt, eager: bool)
    requires s.For? && ForRun(r, s.id, Evaluable(s.target) + Evaluable(s.iter), s.body, s.orelse, eager)
    ensures forall n :: n in Ran(r) ==> Covered(n, Visit(s), Omitted(s), eager)
    decreases r, 2
  {
    EvaluableIsVisited(s.target);
    EvaluableIsVisited(s.iter);
    match r
    case Turn(_, _, sub, next) => EachSound(sub, s.body, eager); ForSound(next, s, eager);
    case Exit(_, _, sub) => EachSound(sub, s.body, eager);
    case Exhaust(_, _, sub) => EachSound(sub, s.orelse, eager);
    case _ =>
  }

  lemma {:induction false} TrySound(r: Run, s: Stmt, eager: bool)
    requires s.Try? && StmtRun(r, s, eager)
    ensures forall n :: n in Ran(r) ==> Covered(n, Visit(s), Omitted(s), eager)
    decreases r, 2
  {
    EachSound(r.sub, s.body, eager);
    if Out(r.sub) == Normal { EachSound(r.after, s.orelse, eager); }
    if Out(r.sub) == Raised { HandlersSound(r.after, s.star, s.handlers, eager); }
    if r.final != Cut { EachSound(r.final, s.finalbody, eager); }
  }

  lemma {:induction false} HandlersSound(r: Run, star: bool, handlers: seq<Handler>, eager: bool)
    requires HandlersRun(r, star, handlers, eager)
    ensures forall n :: n in Ran(r) ==> Covered(n, VisitHandlers(handlers), OmittedHandlers(handlers), eager)
    decreases r, 1
  {
    HandlerHeadsVisited(handlers);
    if r.Handle? {
      EachSound(r.sub, handlers[r.index].body, eager);
      HandlerBodyVisited(handlers, r.index);
      if !r.next.Done? { HandlersSound(r.next, star, handlers, eager); }
    }
  }

  lemma {:induction false} MatchSound(r: Run, s: Stmt, eager: bool)
    requires s.Match? && StmtRun(r, s, eager)
    ensures forall n :: n in Ran(r) ==> Covered(n, Visit(s), Omitted(s), eager)
    decreases r, 2
  {
    EvaluableIsVisited(s.subject);
    CaseHeadsVisited(s.cases);
    if r.Enter? {
      var i: nat :| i < |s.cases| && BlockRun(r.sub, s.cases[i].body, eager);
      EachSound(r.sub, s.cases[i].body, eager);
      CaseBodyVisited(s.cases, i);
    }
  }

  /** Reachability soundness: whatever runs in the function's own frame, in any execution or any
      prefix of one, is yielded.  With annotations deferred there is no exception; with annotations
      evaluated at definition time the only nodes that can run unseen are parameter annotations. */
  lemma ReachableIsYielded(r: Run, body: seq<Stmt>, eager: bool, n: NodeId)
    requires BlockRun(r, body, eager) && n in Ran(r)
    ensures n in FunctionScopeNodes(body) || (eager && n in OmittedBlock(body))
  {
    BlockSound(r, body, eager);
  }
}

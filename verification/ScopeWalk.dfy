/** `function_scope_nodes` of scripts/c7w_execution_authority_gate.py: the walk over one function's
    own statements that skips nested function bodies and the code it takes for dead. */
module ScopeWalk {
  import opened PythonSyntax

  predicate IsTerminator(s: Stmt) {
    s.Return? || s.Raise? || s.Break? || s.Continue?
  }

  /** The check made after each statement of a block: nothing after `s` in its block is visited. */
  predicate StopsAfter(s: Stmt)
    decreases s, 1
  {
    if IsTerminator(s) then true
    else if s.If? then
      if s.test.BoolConst? then
        BlockTerminates(if s.test.value then s.body else s.orelse)
      else
        s.orelse != [] && BlockTerminates(s.body) && BlockTerminates(s.orelse)
    else false
  }

  predicate BlockTerminates(block: seq<Stmt>)
    decreases block, 0
  {
    block != [] && (StopsAfter(block[0]) || BlockTerminates(block[1..]))
  }

  function VisitExpr(e: Expr): seq<NodeId> {
    match e
    case BoolConst(id, _) => [id]
    case Lambda(id, defaults, _) => [id] + VisitExprs(defaults)
    case Compound(id, children) => [id] + VisitExprs(children)
  }

  function VisitExprs(es: seq<Expr>): seq<NodeId> {
    if es == [] then [] else VisitExpr(es[0]) + VisitExprs(es[1..])
  }

  /** `visit_block`: statement by statement, up to the first one that stops the block. */
  function VisitBlock(block: seq<Stmt>): seq<NodeId>
    decreases block, 0
  {
    if block == [] then []
    else if StopsAfter(block[0]) then Visit(block[0])
    else Visit(block[0]) + VisitBlock(block[1..])
  }

  /** The statements of a block reached through `ast.iter_child_nodes`: all of them. */
  function VisitEach(block: seq<Stmt>): seq<NodeId>
    decreases block, 0
  {
    if block == [] then [] else Visit(block[0]) + VisitEach(block[1..])
  }

  function VisitHandlers(handlers: seq<Handler>): seq<NodeId>
    decreases handlers, 0
  {
    if handlers == [] then []
    else [handlers[0].id] + VisitExprs(handlers[0].types) + VisitEach(handlers[0].body) + VisitHandlers(handlers[1..])
  }

  function VisitCases(cases: seq<Case>): seq<NodeId>
    decreases cases, 0
  {
    if cases == [] then []
    else
      [cases[0].id] + VisitExpr(cases[0].pattern) + VisitExprs(cases[0].guards) + VisitEach(cases[0].body)
      + VisitCases(cases[1..])
  }

  /** `visit`, on a statement. */
  function Visit(s: Stmt): seq<NodeId>
    decreases s, 1
  {
    [s.id] +
    match s
    case Simple(_, exprs) => VisitExprs(exprs)
    case Return(_, exprs) => VisitExprs(exprs)
    case Raise(_, exprs) => VisitExprs(exprs)
    case Break(_) => []
    case Continue(_) => []
    case If(_, test, body, orelse) =>
      VisitExpr(test) +
      if test.BoolConst? then VisitBlock(if test.value then body else orelse)
      else VisitBlock(body) + VisitBlock(orelse)
    case While(_, test, body, orelse) =>
      if test.BoolConst? && !test.value then VisitExpr(test) + VisitBlock(orelse)
      else VisitExpr(test) + VisitEach(body) + VisitEach(orelse)
    case For(_, target, iter, body, orelse) =>
      VisitExpr(target) + VisitExpr(iter) + VisitEach(body) + VisitEach(orelse)
    case With(_, items, body) => VisitExprs(items) + VisitEach(body)
    case Try(_, _, body, handlers, orelse, finalbody) =>
      VisitEach(body) + VisitHandlers(handlers) + VisitEach(orelse) + VisitEach(finalbody)
    case Match(_, subject, cases) => VisitExpr(subject) + VisitCases(cases)
    case FunctionDef(_, decorators, defaults, result, _, _) =>
      VisitExprs(decorators) + VisitExprs(defaults) + VisitExprs(result)
    case ClassDef(_, bases, body, decorators) =>
      VisitExprs(bases) + VisitEach(body) + VisitExprs(decorators)
  }

  /** The nodes yielded for a function with this body. */
  function FunctionScopeNodes(body: seq<Stmt>): seq<NodeId> {
    VisitBlock(body)
  }

  /** What the walk leaves out of the nested definitions it passes: their parameter annotations.
      `visit` yields a definition's decorators, defaults and result annotation, nothing else. */
  function OmittedBlock(block: seq<Stmt>): set<NodeId>
    decreases block, 0
  {
    if block == [] then {}
    else if StopsAfter(block[0]) then Omitted(block[0])
    else Omitted(block[0]) + OmittedBlock(block[1..])
  }

  function OmittedEach(block: seq<Stmt>): set<NodeId>
    decreases block, 0
  {
    if block == [] then {} else Omitted(block[0]) + OmittedEach(block[1..])
  }

  function OmittedHandlers(handlers: seq<Handler>): set<NodeId>
    decreases handlers, 0
  {
    if handlers == [] then {} else OmittedEach(handlers[0].body) + OmittedHandlers(handlers[1..])
  }

  function OmittedCases(cases: seq<Case>): set<NodeId>
    decreases cases, 0
  {
    if cases == [] then {} else OmittedEach(cases[0].body) + OmittedCases(cases[1..])
  }

  function Omitted(s: Stmt): set<NodeId>
    decreases s, 1
  {
    match s
    case If(_, test, body, orelse) =>
      if test.BoolConst? then OmittedBlock(if test.value then body else orelse)
      else OmittedBlock(body) + OmittedBlock(orelse)
    case While(_, test, body, orelse) =>
      if test.BoolConst? && !test.value then OmittedBlock(orelse)
      else OmittedEach(body) + OmittedEach(orelse)
    case For(_, _, _, body, orelse) => OmittedEach(body) + OmittedEach(orelse)
    case With(_, _, body) => OmittedEach(body)
    case Try(_, _, body, handlers, orelse, finalbody) =>
      OmittedEach(body) + OmittedHandlers(handlers) + OmittedEach(orelse) + OmittedEach(finalbody)
    case Match(_, _, cases) => OmittedCases(cases)
    case FunctionDef(_, _, _, _, annotations, _) => EvaluableAll(annotations)
    case ClassDef(_, _, body, _) => OmittedEach(body)
    case _ => {}
  }
}

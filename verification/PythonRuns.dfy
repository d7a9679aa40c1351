/** A nondeterministic big-step semantics of Python statements, after sections 7 and 8 of the
    Python Language Reference.  An execution is a derivation tree (`Run`); it fixes which nodes ran
    in the function's own frame and how the statement or block ended.  Values are abstracted: a test
    that is not a Boolean constant may go either way, any evaluation may raise, a `with` may swallow
    an exception.  `Halted` ends a run that is observed only up to some point, so the finite prefixes
    of diverging executions are runs too. */
module PythonRuns {
  import opened PythonSyntax

  datatype Outcome = Normal | Returned | Raised | Broke | Continued | Halted

  datatype Run =
    // blocks
    | Done
    | Cut
    | Then(first: Run, rest: Run)
    | Leave(first: Run)
    // statements that end in their own header, with the nodes evaluated there
    | Step(id: NodeId, evaluated: set<NodeId>, end: Outcome)
    // header, then one block
    | Enter(id: NodeId, evaluated: set<NodeId>, sub: Run, end: Outcome)
    // loops: one turn and on, a turn that leaves the loop, exhaustion
    | Turn(id: NodeId, evaluated: set<NodeId>, sub: Run, next: Run)
    | Exit(id: NodeId, evaluated: set<NodeId>, sub: Run)
    | Exhaust(id: NodeId, evaluated: set<NodeId>, sub: Run)
    // try: body, what followed it, and the final block
    | Attempt(id: NodeId, sub: Run, after: Run, final: Run)
    | Handle(id: NodeId, evaluated: set<NodeId>, index: nat, sub: Run, next: Run)

  /** The nodes that ran. */
  function Ran(r: Run): set<NodeId> {
    match r
    case Done => {}
    case Cut => {}
    case Then(first, rest) => Ran(first) + Ran(rest)
    case Leave(first) => Ran(first)
    case Step(id, evaluated, _) => {id} + evaluated
    case Enter(id, evaluated, sub, _) => {id} + evaluated + Ran(sub)
    case Turn(id, evaluated, sub, next) => {id} + evaluated + Ran(sub) + Ran(next)
    case Exit(id, evaluated, sub) => {id} + evaluated + Ran(sub)
    case Exhaust(id, evaluated, sub) => {id} + evaluated + Ran(sub)
    case Attempt(id, sub, after, final) => {id} + Ran(sub) + Ran(after) + Ran(final)
    case Handle(id, evaluated, _, sub, next) => {id} + evaluated + Ran(sub) + Ran(next)
  }

  /** How the run ended. */
  function Out(r: Run): Outcome {
    match r
    case Done => Normal
    case Cut => Halted
    case Then(_, rest) => Out(rest)
    case Leave(first) => Out(first)
    case Step(_, _, end) => end
    case Enter(_, _, _, end) => end
    case Turn(_, _, _, next) => Out(next)
    case Exit(_, _, sub) => if Out(sub) == Broke then Normal else Out(sub)
    case Exhaust(_, _, sub) => Out(sub)
    case Attempt(_, sub, after, final) =>
      // a final block that ends abruptly overrides what came before it
      var before := if after.Done? then Out(sub) else Out(after);
      if before == Halted then Halted
      else if Out(final) == Normal then before else Out(final)
    case Handle(_, _, _, sub, next) =>
      if next.Done? || Out(sub) == Halted then Out(sub) else Out(next)
  }

  function HandlerHeads(handlers: seq<Handler>): set<NodeId> {
    if handlers == [] then {}
    else {handlers[0].id} + EvaluableAll(handlers[0].types) + HandlerHeads(handlers[1..])
  }

  function CaseHeads(cases: seq<Case>): set<NodeId> {
    if cases == [] then {}
    else {cases[0].id} + Evaluable(cases[0].pattern) + EvaluableAll(cases[0].guards) + CaseHeads(cases[1..])
  }

  predicate HeaderEnd(o: Outcome) {
    o == Normal || o == Raised || o == Halted
  }

  /** `r` is a possible execution of the block.  `eager` says that the annotations of a definition, of
      its parameters and of its result, are evaluated when it is executed; under
      `from __future__ import annotations` they are not. */
  predicate BlockRun(r: Run, block: seq<Stmt>, eager: bool)
    decreases r, 0
  {
    match r
    case Done => block == []
    case Cut => true
    case Then(first, rest) =>
      block != [] && StmtRun(first, block[0], eager) && Out(first) == Normal && BlockRun(rest, block[1..], eager)
    case Leave(first) =>
      block != [] && StmtRun(first, block[0], eager) && Out(first) != Normal
    case _ => false
  }

  /** `r` is a possible execution of the statement. */
  predicate StmtRun(r: Run, s: Stmt, eager: bool)
    decreases r, 1
  {
    match s
    case Simple(id, exprs) =>
      r.Step? && r.id == id && r.evaluated <= EvaluableAll(exprs) && HeaderEnd(r.end)
    case Return(id, exprs) =>
      r.Step? && r.id == id && r.evaluated <= EvaluableAll(exprs) && r.end in {Returned, Raised, Halted}
    case Raise(id, exprs) =>
      r.Step? && r.id == id && r.evaluated <= EvaluableAll(exprs) && r.end in {Raised, Halted}
    case Break(id) => r.Step? && r.id == id && r.evaluated == {} && r.end in {Broke, Halted}
    case Continue(id) => r.Step? && r.id == id && r.evaluated == {} && r.end in {Continued, Halted}
    case If(id, test, body, orelse) =>
      || (r.Step? && HeaderFails(r, id, Evaluable(test), test))
      || (r.Enter? && r.id == id && r.evaluated <= Evaluable(test) && r.end == Out(r.sub)
          && ((MayBe(test, true) && BlockRun(r.sub, body, eager))
              || (MayBe(test, false) && BlockRun(r.sub, orelse, eager))))
    case While(id, test, body, orelse) => WhileRun(r, id, test, body, orelse, eager)
    case For(id, target, iter, body, orelse) => ForRun(r, id, Evaluable(target) + Evaluable(iter), body, orelse, eager)
    case With(id, items, body) =>
      || (r.Step? && r.id == id && r.evaluated <= EvaluableAll(items) && r.end in {Raised, Halted})
      || (r.Enter? && r.id == id && r.evaluated <= EvaluableAll(items) && BlockRun(r.sub, body, eager)
          && (r.end == Out(r.sub)
              || (Out(r.sub) != Halted && r.end == Raised)
              || (Out(r.sub) == Raised && r.end == Normal)))
    case Try(id, star, body, handlers, orelse, finalbody) =>
      && r.Attempt? && r.id == id
      && BlockRun(r.sub, body, eager)
      && AfterTry(r.after, Out(r.sub), star, handlers, orelse, eager)
      && (if (if r.after.Done? then Out(r.sub) else Out(r.after)) == Halted then r.final == Cut
          else BlockRun(r.final, finalbody, eager))
    case Match(id, subject, cases) =>
      || (r.Step? && r.id == id && r.evaluated <= Evaluable(subject) + CaseHeads(cases) && HeaderEnd(r.end))
      || (r.Enter? && r.id == id && r.evaluated <= Evaluable(subject) + CaseHeads(cases) && r.end == Out(r.sub)
          && exists i: nat :: i < |cases| && BlockRun(r.sub, cases[i].body, eager))
    case FunctionDef(id, decorators, defaults, result, annotations, _) =>
      && r.Step? && r.id == id && HeaderEnd(r.end)
      && r.evaluated <= EvaluableAll(decorators) + EvaluableAll(defaults)
                        + (if eager then EvaluableAll(result) + EvaluableAll(annotations) else {})
    case ClassDef(id, bases, body, decorators) =>
      || (r.Step? && r.id == id && r.evaluated <= EvaluableAll(bases) + EvaluableAll(decorators)
          && r.end in {Raised, Halted})
      || (r.Enter? && r.id == id && r.evaluated <= EvaluableAll(bases) + EvaluableAll(decorators)
          && BlockRun(r.sub, body, eager)
          && (r.end == Out(r.sub) || (Out(r.sub) == Normal && r.end == Raised)))
  }

  /** The value a test may take: a Boolean constant takes its own, any other test both. */
  predicate MayBe(test: Expr, value: bool) {
    test.BoolConst? ==> test.value == value
  }

  /** The header of a statement ends the statement: a constant test cannot raise. */
  predicate HeaderFails(r: Run, id: NodeId, evaluable: set<NodeId>, test: Expr)
    requires r.Step?
  {
    r.id == id && r.evaluated <= evaluable && (r.end == Halted || (r.end == Raised && !test.BoolConst?))
  }

  predicate WhileRun(r: Run, id: NodeId, test: Expr, body: seq<Stmt>, orelse: seq<Stmt>, eager: bool)
    decreases r, 0
  {
    match r
    case Step(_, _, _) => HeaderFails(r, id, Evaluable(test), test)
    case Turn(rid, evaluated, sub, next) =>
      && rid == id && evaluated <= Evaluable(test) && MayBe(test, true)
      && BlockRun(sub, body, eager) && Out(sub) in {Normal, Continued}
      && WhileRun(next, id, test, body, orelse, eager)
    case Exit(rid, evaluated, sub) =>
      && rid == id && evaluated <= Evaluable(test) && MayBe(test, true)
      && BlockRun(sub, body, eager) && Out(sub) !in {Normal, Continued}
    case Exhaust(rid, evaluated, sub) =>
      && rid == id && evaluated <= Evaluable(test) && MayBe(test, false)
      && BlockRun(sub, orelse, eager)
    case _ => false
  }

  predicate ForRun(r: Run, id: NodeId, head: set<NodeId>, body: seq<Stmt>, orelse: seq<Stmt>, eager: bool)
    decreases r, 0
  {
    match r
    case Step(rid, evaluated, end) => rid == id && evaluated <= head && end in {Raised, Halted}
    case Turn(rid, evaluated, sub, next) =>
      && rid == id && evaluated <= head
      && BlockRun(sub, body, eager) && Out(sub) in {Normal, Continued}
      && ForRun(next, id, head, body, orelse, eager)
    case Exit(rid, evaluated, sub) =>
      && rid == id && evaluated <= head
      && BlockRun(sub, body, eager) && Out(sub) !in {Normal, Continued}
    case Exhaust(rid, evaluated, sub) =>
      && rid == id && evaluated <= head && BlockRun(sub, orelse, eager)
    case _ => false
  }

  /** What follows the body of a `try` that ended with `o`: the `else` block after a normal end,
      the handlers after an exception, nothing otherwise. */
  predicate AfterTry(r: Run, o: Outcome, star: bool, handlers: seq<Handler>, orelse: seq<Stmt>, eager: bool)
    decreases r, 1
  {
    if o == Normal then BlockRun(r, orelse, eager)
    else if o == Raised then HandlersRun(r, star, handlers, eager)
    else r.Done?
  }

  /** An exception meets the handlers: no clause takes it (or a clause's type expression raises), or a
      clause takes it; under `except*` further clauses may follow. */
  predicate HandlersRun(r: Run, star: bool, handlers: seq<Handler>, eager: bool)
    decreases r, 0
  {
    match r
    case Done => true
    case Step(id, evaluated, end) =>
      {id} + evaluated <= HandlerHeads(handlers) && end in {Raised, Halted} + (if star then {Normal} else {})
    case Handle(id, evaluated, index, sub, next) =>
      && index < |handlers| && id == handlers[index].id && evaluated <= HandlerHeads(handlers)
      && BlockRun(sub, handlers[index].body, eager)
      && (next.Done? || (star && Out(sub) != Halted && HandlersRun(next, star, handlers, eager)))
    case _ => false
  }
}
